# Travel planner packing-list rules in Dafny

This project models the rule engine behind the travel planner's packing list,
`generate_packing_list` in `helpers.py`. It also models the part of
`get_weather_forecast` that turns a provider's forecast list into the weather
for the travel and return dates, and the page (`app.py`) that passes the
start date's weather to the packing-list rules.

The packing list is built in three steps:

- It starts with three essentials.
- It adds the items of the first weather keyword ("rain", "snow", "sunny",
  "clear", in that order) that occurs in the lower-cased description.
- For a dictionary input, it adds the items of the first temperature bracket
  (`< 0`, `< 10`, `< 20`, `< 30`) whose bound lies strictly above the
  temperature. A temperature of 30 or more falls through to the loop's `else`
  branch, which adds the `< 30` items again.

A bare string gets the essentials and the keyword items only. Anything else,
including a dictionary lacking one of the two keys, raises
`ValueError("Invalid weather data format")`.

Modules:

- `Wrappers`: `Option` and `Result`.
- `Strings`: ASCII lower-casing, and Python's substring test `pattern in text`
  with its characterisation by occurrence positions.
- `Packing`: the input shapes and the item tables. It gives the two inner
  functions `add_weather_items` and `add_temp_items` as methods with loops, and
  `generate_packing_list` as a method. Each method is proved against a pure
  specification (`KeywordItems`, `BracketItems`, `PackingList`). The lemmas
  state the rules' properties and four worked examples.
- `Forecast`: the dictionary-filling loop and the two look-ups with the
  `"No data"` default.
- `Trip`: the start date's weather used as the packing-list input.

The inner functions of the source extend the enclosing list in place. Here
they take the list so far and return the extended list. `GeneratePackingList`
threads that list through them in the same order.

## Model

| member | source | states |
|---|---|---|
| Packing.GeneratePackingList | helpers.py:129-168 | The result agrees with `PackingList`. It is an error exactly when the input is neither a string nor a dictionary holding both keys. A successful list starts with the three essentials. |
| Packing.AddWeatherItems | helpers.py:145-149 | The list comes back extended by the items of the first keyword, in table order, that occurs in the description. It is unchanged when none occurs. |
| Packing.AddTempItems | helpers.py:151-158 | The list comes back extended by the items of the first bracket whose bound is strictly above the temperature. Failing that, it gets the last bracket's items when the temperature is at least 30. |
| Packing.FirstKeyword | helpers.py:146-149 | The index returned is a keyword that occurs, and no earlier keyword occurs. None means no keyword from the start index on occurs. |
| Packing.FirstBracket | helpers.py:152-155 | The index returned is a bracket whose bound is above the temperature, and no earlier bound is. None means no bound is. |
| Packing.EssentialsFirst | helpers.py:131 | Every successful list starts with "Clothes", "Toiletries", "Travel Documents". The rest is the keyword items, then the bracket items for a dictionary. |
| Packing.InvalidInputRaises | helpers.py:160-166 | The result is an error if and only if the input is not a string and not a dictionary holding both "description" and "temperature". The error is the invalid-format error. |
| Packing.KeywordFirstMatch | helpers.py:132-137 | When keyword i occurs and no earlier keyword does, exactly keyword i's items are added. |
| Packing.KeywordNoMatch | helpers.py:145-149 | No keyword items are added if and only if no keyword occurs. |
| Packing.TextWithoutKeyword | helpers.py:163-164 | A string that mentions no keyword gets exactly the essentials, and no error. |
| Packing.KeywordAtMostOne | helpers.py:146-149 | The added keyword items are empty or exactly one table entry's items, never a combination. |
| Packing.RainHasPriority | helpers.py:132-133 | A description containing "rain" (after lower-casing) gets the rain items, whatever other keywords it contains. |
| Packing.RainMentioned | helpers.py:161 | A word that lower-cases to "rain", such as "RAIN", anywhere in a description selects the rain items. |
| Packing.CaseInsensitive | helpers.py:161-164 | Two descriptions that differ only in letter case produce the same list, both as a string and in a dictionary. |
| Packing.BracketRanges | helpers.py:138-158 | The bracket items by range: below 0 gives the freezing items; [0, 10) the cold items; [10, 20) the mild items; 20 and above the warm items. |
| Packing.BracketBoundaries | helpers.py:139-158 | 0 gets the `< 10` items. 29.9, 30 and 1000 all get the same warm items. |
| Packing.ExactlyOneBracket | helpers.py:151-158 | Every temperature adds exactly one of the four bracket item sets, and that set is not empty. |
| Packing.TextHasNoTemperatureItems | helpers.py:160-164 | A string input succeeds, and it gets no temperature items. A dictionary's list is the string's list plus the bracket items. |
| Packing.ListLength | helpers.py:131-164 | The length is 3 + keyword items + bracket items. That gives 4 to 10 items for a dictionary and 3 to 7 for a string. |
| Packing.ScenarioLightRainFreezing | helpers.py:129-168 | {"light rain showers", -5} gives the essentials, the rain items and the freezing items. |
| Packing.ScenarioRainAndSnow | helpers.py:132-134 | "rain and snow" gets the rain items only. |
| Packing.ScenarioClearHot | helpers.py:129-168 | {"clear sky", 35} gives the essentials, the sun items and the warm items (through the `>= 30` fallback). |
| Packing.ScenarioOvercastText | helpers.py:163-164 | The string "overcast clouds" gives the essentials alone. |
| Strings.Lower | helpers.py:161 | The lower-cased text contains no ASCII capital. |
| Strings.LowerEqualIgnoringCase | helpers.py:161 | Two strings lower-case to the same text if and only if they are equal ignoring ASCII case. |
| Strings.ContainsIffOccurs | helpers.py:147 | `pattern in text` holds if and only if the pattern occurs at some position of the text. |
| Forecast.FirstReadingOn | helpers.py:44-52 | The index returned is a reading on the date, with none before it on that date. None means there is no reading on the date. |
| Forecast.CollectForecast | helpers.py:43-52 | The dictionary holds exactly the in-range dates that have a reading. Each maps to the description and temperature of the first reading on it. |
| Forecast.GetWeatherForecast | helpers.py:54-57 | The start and return entries are the first in-range reading on those dates, or the "No data"/0 default. |
| Forecast.FirstReadingReported | helpers.py:51-52 | A reading that is the first on its in-range date is what is reported for that date. |
| Forecast.LaterReadingsIgnored | helpers.py:51-52 | Appending readings never changes what is reported for a date that already has a reading. |
| Forecast.NoReadingsNoData | helpers.py:46-56 | A date outside the range, or without readings, is reported as the default. |
| Trip.ForecastAlwaysPacks | app.py:68-71 | The list made from the start date's forecast never fails. It has at least four items and starts with the essentials. |
| Trip.NoDataHasNoKeyword | helpers.py:55 | The default description "No data" contains none of the four keywords. |
| Trip.NoDataPacking | app.py:71 | The default day ("No data", 0) gives the essentials plus the `< 10` items. |
| Trip.MissingStartDayPacking | app.py:68-71 | Without a reading for the start date, the page's list is the essentials plus a sweater and a jacket. |

## Left out

- The HTTP request to the weather provider, its JSON decoding and the API key are not modelled. Readings arrive as a parameter.
- Parsing `dt_txt` and the date strings with `strptime` is not modelled. Dates are integers (day numbers).
- The Fahrenheit-to-Celsius conversion `(temp_f - 32) / 1.8` is not modelled. It is floating point, and readings carry the converted temperature.
- Temperatures are exact reals. NaN is left out: with NaN every comparison is false, so no bracket would be added.
- Forecast.CollectForecast: a forecast entry missing `main`, `weather` or `dt_txt` raises in the source; the model assumes every reading is complete.
- Strings.Lower: only ASCII letters are lower-cased; other characters are kept as they are. Python's full Unicode case mapping is not modelled.
- The input is a tagged value: a dictionary with two optional keys, a string, or anything else. Python's runtime type errors are not modelled, such as a description that is not a string or a temperature that is not a number.
- `add_weather_items` and `add_temp_items` update the enclosing list in place. Here they return the extended list, and no aliasing of that list is modelled.
- `get_travel_time`, `get_attractions`, `get_hotels`, `get_local_insights`, the rendering in `app.py` and the speech interface in `main.py` are not part of this model.
