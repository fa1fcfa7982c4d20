/**
 * The packing-list rule engine of `generate_packing_list`: three fixed
 * essentials, then the items of the first weather keyword found in the
 * lower-cased description, then (for a record with a temperature) the items
 * of exactly one temperature bracket.
 */
module Packing {
  import opened Wrappers
  import opened Strings

  /** The `ValueError("Invalid weather data format")` of the source. */
  datatype PackingError = InvalidWeatherData

  /**
   * The input shapes the engine tells apart: a dictionary (each of the two
   * keys it looks up may be missing), a bare string, or anything else.
   */
  datatype WeatherInput =
    | Record(description: Option<string>, temperature: Option<real>)
    | Text(text: string)
    | Other

  /** A record is usable only when it carries both keys. */
  predicate WellFormed(weather: WeatherInput) {
    weather.Text? || (weather.Record? && weather.description.Some? && weather.temperature.Some?)
  }

  const Essentials: seq<string> := ["Clothes", "Toiletries", "Travel Documents"]

  const RainItems: seq<string> := ["Raincoat", "Waterproof Shoes", "Umbrella"]
  const SnowItems: seq<string> := ["Warm Clothes", "Gloves", "Scarf", "Boots"]
  const SunItems: seq<string> := ["Sunglasses", "Hat", "Sunscreen"]

  /** Keyword table, in the dictionary's insertion order. */
  const WeatherTable: seq<(string, seq<string>)> :=
    [("rain", RainItems), ("snow", SnowItems), ("sunny", SunItems), ("clear", SunItems)]

  const FreezingItems: seq<string> := ["Thermal Underwear", "Heavy Coat"]
  const ColdItems: seq<string> := ["Sweater", "Jacket"]
  const MildItems: seq<string> := ["Light Jacket"]
  const WarmItems: seq<string> := ["Light Clothing", "Water Bottle", "Cooling Towel"]

  /** Temperature brackets: exclusive upper bound (degrees Celsius) and items. */
  const TempTable: seq<(real, seq<string>)> :=
    [(0.0, FreezingItems), (10.0, ColdItems), (20.0, MildItems), (30.0, WarmItems)]

  /**
   * The index of the first keyword, at or after `from`, that occurs in
   * `description`; None when no later keyword occurs.
   */
  function FirstKeyword(table: seq<(string, seq<string>)>, description: string, from: nat): (r: Option<nat>)
    ensures r.Some? ==> from <= r.value < |table| && Contains(description, table[r.value].0)
    ensures r.Some? ==> forall j :: from <= j < r.value ==> !Contains(description, table[j].0)
    ensures r.None? ==> forall j :: from <= j < |table| ==> !Contains(description, table[j].0)
    decreases |table| - from
  {
    if from >= |table| then None
    else if Contains(description, table[from].0) then Some(from)
    else FirstKeyword(table, description, from + 1)
  }

  /** The items `add_weather_items` appends for an already lower-cased description. */
  function KeywordItems(description: string): seq<string> {
    match FirstKeyword(WeatherTable, description, 0)
    case Some(i) => WeatherTable[i].1
    case None => []
  }

  /**
   * The index of the first bracket, at or after `from`, whose bound lies
   * strictly above `temperature`; None when there is none.
   */
  function FirstBracket(table: seq<(real, seq<string>)>, temperature: real, from: nat): (r: Option<nat>)
    ensures r.Some? ==> from <= r.value < |table| && temperature < table[r.value].0
    ensures r.Some? ==> forall j :: from <= j < r.value ==> !(temperature < table[j].0)
    ensures r.None? ==> forall j :: from <= j < |table| ==> !(temperature < table[j].0)
    decreases |table| - from
  {
    if from >= |table| then None
    else if temperature < table[from].0 then Some(from)
    else FirstBracket(table, temperature, from + 1)
  }

  /** The items `add_temp_items` appends, including the loop's `else` fallback. */
  function BracketItems(temperature: real): seq<string> {
    match FirstBracket(TempTable, temperature, 0)
    case Some(i) => TempTable[i].1
    case None => if temperature >= 30.0 then TempTable[|TempTable| - 1].1 else []
  }

  /** What `generate_packing_list` returns or raises, as a value. */
  function PackingList(weather: WeatherInput): Result<seq<string>, PackingError> {
    match weather
    case Record(Some(description), Some(temperature)) =>
      Ok(Essentials + KeywordItems(Lower(description)) + BracketItems(temperature))
    case Text(text) => Ok(Essentials + KeywordItems(Lower(text)))
    case _ => Err(InvalidWeatherData)
  }

  /** `add_weather_items`: scan the keyword table, extend with the first hit, stop. */
  method AddWeatherItems(packingList: seq<string>, description: string) returns (r: seq<string>)
    ensures r == packingList + KeywordItems(description)
  {
    r := packingList;
    for i := 0 to |WeatherTable|
      invariant r == packingList
      invariant forall j :: 0 <= j < i ==> !Contains(description, WeatherTable[j].0)
    {
      var (key, items) := WeatherTable[i];
      if Contains(description, key) {
        r := r + items;
        break;
      }
    }
  }

  /**
   * `add_temp_items`: scan the brackets in ascending order, extend with the
   * first whose bound is strictly above the temperature, stop; when no
   * bracket matched (the loop's `else`), extend with the last bracket's items
   * if the temperature is at least 30.
   */
  method AddTempItems(packingList: seq<string>, temperature: real) returns (r: seq<string>)
    ensures r == packingList + BracketItems(temperature)
  {
    r := packingList;
    label scan: {
      for i := 0 to |TempTable|
        invariant r == packingList
        invariant forall j :: 0 <= j < i ==> !(temperature < TempTable[j].0)
      {
        var (bound, items) := TempTable[i];
        if temperature < bound {
          r := r + items;
          break scan;
        }
      }
      if temperature >= 30.0 {
        r := r + TempTable[|TempTable| - 1].1;
      }
    }
  }

  /** `generate_packing_list`: essentials, then keyword items, then bracket items. */
  method GeneratePackingList(weather: WeatherInput) returns (r: Result<seq<string>, PackingError>)
    ensures r == PackingList(weather)
    ensures r.Ok? <==> WellFormed(weather)
    ensures r.Ok? ==> |r.value| >= 3 && r.value[..3] == Essentials
  {
    var packingList := Essentials;
    if weather.Record? && weather.description.Some? && weather.temperature.Some? {
      packingList := AddWeatherItems(packingList, Lower(weather.description.value));
      packingList := AddTempItems(packingList, weather.temperature.value);
    } else if weather.Text? {
      packingList := AddWeatherItems(packingList, Lower(weather.text));
    } else {
      return Err(InvalidWeatherData);
    }
    r := Ok(packingList);
  }

  // Properties of the rules

  /**
   * Every successful list starts with the three essentials, and what follows
   * them (the part shown as weather-specific) is the keyword items followed by
   * the bracket items.
   */
  lemma EssentialsFirst(weather: WeatherInput)
    requires PackingList(weather).Ok?
    ensures |PackingList(weather).value| >= 3
    ensures PackingList(weather).value[..3] == Essentials
    ensures weather.Text? ==> PackingList(weather).value[3..] == KeywordItems(Lower(weather.text))
    ensures weather.Record? ==>
      PackingList(weather).value[3..] == KeywordItems(Lower(weather.description.value)) + BracketItems(weather.temperature.value)
  {
    var items := PackingList(weather).value;
    if weather.Record? {
      assert items == Essentials + (KeywordItems(Lower(weather.description.value)) + BracketItems(weather.temperature.value));
    }
  }

  /** A result is produced exactly for a string or a record holding both keys. */
  lemma InvalidInputRaises(weather: WeatherInput)
    ensures PackingList(weather).Err? <==> !WellFormed(weather)
    ensures PackingList(weather).Err? ==> PackingList(weather).error == InvalidWeatherData
  {
  }

  /** The first keyword in table order that occurs decides the items. */
  lemma KeywordFirstMatch(description: string, i: nat)
    requires i < |WeatherTable| && Contains(description, WeatherTable[i].0)
    requires forall j :: 0 <= j < i ==> !Contains(description, WeatherTable[j].0)
    ensures KeywordItems(description) == WeatherTable[i].1
  {
    var k := FirstKeyword(WeatherTable, description, 0);
    assert k.Some?;
    assert !(k.value < i) && !(i < k.value);
  }

  /** No keyword items are added exactly when no keyword occurs; that is not an error. */
  lemma KeywordNoMatch(description: string)
    ensures KeywordItems(description) == [] <==> forall j :: 0 <= j < |WeatherTable| ==> !Contains(description, WeatherTable[j].0)
  {
    var k := FirstKeyword(WeatherTable, description, 0);
    if k.Some? {
      assert |WeatherTable[k.value].1| > 0;
    }
  }

  /** A bare string that mentions no keyword gets the essentials alone, and no error. */
  lemma TextWithoutKeyword(text: string)
    requires forall j :: 0 <= j < |WeatherTable| ==> !Contains(Lower(text), WeatherTable[j].0)
    ensures PackingList(Text(text)) == Ok(Essentials)
  {
    KeywordNoMatch(Lower(text));
    assert Essentials + [] == Essentials;
  }

  /** At most one keyword's items are added: the result is empty or one table entry's set. */
  lemma KeywordAtMostOne(description: string)
    ensures KeywordItems(description) in {[], RainItems, SnowItems, SunItems}
  {
  }

  /** "rain" has priority: a description mentioning rain gets the rain items, whatever else it says. */
  lemma RainHasPriority(description: string)
    requires Contains(Lower(description), "rain")
    ensures KeywordItems(Lower(description)) == RainItems
  {
    KeywordFirstMatch(Lower(description), 0);
  }

  /** A word that lower-cases to "rain" ("rain", "Rain", "RAIN", ...) anywhere in the description selects the rain items. */
  lemma RainMentioned(before: string, word: string, after: string)
    requires Lower(word) == "rain"
    ensures KeywordItems(Lower(before + word + after)) == RainItems
  {
    LowerConcat(before + word, after);
    LowerConcat(before, word);
    ContainsInfix(Lower(before), "rain", Lower(after));
    RainHasPriority(before + word + after);
  }

  /** Descriptions that differ only in letter case give the same list. */
  lemma CaseInsensitive(s: string, t: string, temperature: real)
    requires EqualIgnoringCase(s, t)
    ensures PackingList(Text(s)) == PackingList(Text(t))
    ensures PackingList(Record(Some(s), Some(temperature))) == PackingList(Record(Some(t), Some(temperature)))
  {
    LowerEqualIgnoringCase(s, t);
  }

  /** The bracket items as plain ranges: strict upper bounds, and 30 or more falls back to the last set. */
  lemma BracketRanges(temperature: real)
    ensures temperature < 0.0 ==> BracketItems(temperature) == FreezingItems
    ensures 0.0 <= temperature < 10.0 ==> BracketItems(temperature) == ColdItems
    ensures 10.0 <= temperature < 20.0 ==> BracketItems(temperature) == MildItems
    ensures 20.0 <= temperature ==> BracketItems(temperature) == WarmItems
  {
    assert TempTable[0].0 == 0.0 && TempTable[1].0 == 10.0 && TempTable[2].0 == 20.0 && TempTable[3].0 == 30.0;
    var k := FirstBracket(TempTable, temperature, 0);
    if k.Some? {
      assert k.value == 0 || k.value == 1 || k.value == 2 || k.value == 3;
      if temperature < 0.0 {
        assert k.value == 0;
      } else if temperature < 10.0 {
        assert k.value == 1;
      } else if temperature < 20.0 {
        assert k.value == 2;
      } else {
        assert k.value == 3;
      }
    }
  }

  /**
   * The edges of the brackets: 0 is not below 0, so it gets the `< 10` items;
   * from 20 upwards the explicit `< 30` bracket and the `>= 30` fallback hand
   * out the same items, so 29.9, 30 and 1000 all get them.
   */
  lemma BracketBoundaries()
    ensures BracketItems(0.0) == ColdItems
    ensures BracketItems(30.0) == BracketItems(29.9) == BracketItems(1000.0) == WarmItems
  {
    BracketRanges(0.0);
    BracketRanges(29.9);
    BracketRanges(30.0);
    BracketRanges(1000.0);
  }

  /** Exactly one bracket's items are added for every temperature. */
  lemma ExactlyOneBracket(temperature: real)
    ensures BracketItems(temperature) in {FreezingItems, ColdItems, MildItems, WarmItems}
    ensures |BracketItems(temperature)| > 0
  {
    BracketRanges(temperature);
  }

  /** A record's list is the bare-string list for its description plus the bracket items. */
  lemma TextHasNoTemperatureItems(description: string, temperature: real)
    ensures PackingList(Text(description)).Ok?
    ensures PackingList(Record(Some(description), Some(temperature))).value
      == PackingList(Text(description)).value + BracketItems(temperature)
  {
  }

  /** Length of a list: 3 + keyword items + bracket items, so 4..10 for records and 3..7 for strings. */
  lemma ListLength(weather: WeatherInput)
    requires PackingList(weather).Ok?
    ensures weather.Record? ==>
      |PackingList(weather).value| == 3 + |KeywordItems(Lower(weather.description.value))| + |BracketItems(weather.temperature.value)|
    ensures weather.Record? ==> 4 <= |PackingList(weather).value| <= 10
    ensures weather.Text? ==> 3 <= |PackingList(weather).value| <= 7
  {
    if weather.Record? {
      KeywordAtMostOne(Lower(weather.description.value));
      ExactlyOneBracket(weather.temperature.value);
    } else {
      KeywordAtMostOne(Lower(weather.text));
    }
  }

  // Worked examples. The description is a parameter pinned by `requires`;
  // each string fact about it is proved by a small lemma of its own from the
  // lemmas of Strings applied to its parts.

  lemma LowerRain()
    ensures Lower("rain") == "rain"
  {
    LowerOfLowerCase("rain");
  }

  /** {description: "light rain showers", temperature: -5} */
  lemma ScenarioLightRainFreezing(description: string, temperature: real)
    requires description == "light rain showers" && temperature == -5.0
    ensures PackingList(Record(Some(description), Some(temperature))) == Ok(Essentials + RainItems + FreezingItems)
  {
    LowerRain();
    RainMentioned("light ", "rain", " showers");
    assert "light " + "rain" + " showers" == description;
    BracketRanges(temperature);
  }

  /** "rain and snow" gets the rain items only. */
  lemma ScenarioRainAndSnow(description: string)
    requires description == "rain and snow"
    ensures KeywordItems(Lower(description)) == RainItems
  {
    LowerRain();
    RainMentioned("", "rain", " and snow");
    assert "" + "rain" + " and snow" == description;
  }

  lemma ClearSkyLacksN(description: string)
    requires description == "clear sky"
    ensures 'n' !in Lower(description)
  {
    LowerKeepsAbsent(description, 'n');
  }

  lemma ClearSkyHasClear(description: string)
    requires description == "clear sky"
    ensures Contains(Lower(description), "clear")
  {
    LowerOfLowerCase("clear");
    assert description == "clear" + " sky";
    LowerConcat("clear", " sky");
    ContainsInfix([], "clear", Lower(" sky"));
    assert [] + "clear" + Lower(" sky") == Lower(description);
  }

  /** {description: "clear sky", temperature: 35} */
  lemma ScenarioClearHot(description: string, temperature: real)
    requires description == "clear sky" && temperature == 35.0
    ensures PackingList(Record(Some(description), Some(temperature))) == Ok(Essentials + SunItems + WarmItems)
  {
    var lowered := Lower(description);
    ClearSkyLacksN(description);
    ClearSkyHasClear(description);
    MissingCharNotContained(lowered, "rain", 'n');
    MissingCharNotContained(lowered, "snow", 'n');
    MissingCharNotContained(lowered, "sunny", 'n');
    KeywordFirstMatch(lowered, 3);
    BracketRanges(temperature);
  }

  lemma OvercastLacksN(description: string)
    requires description == "overcast clouds"
    ensures 'n' !in Lower(description)
  {
    LowerKeepsAbsent(description, 'n');
  }

  lemma OvercastLacksClear(description: string)
    requires description == "overcast clouds"
    ensures !Contains(Lower(description), "clear")
  {
    assert description == "overcast c" + "louds";
    LowerConcat("overcast c", "louds");
    LowerKeepsAbsent("overcast c", 'l');
    LowerKeepsAbsent("louds", 'e');
    MissingPairNotContained(Lower("overcast c"), Lower("louds"), "clear", 1);
  }

  /** The bare string "overcast clouds" matches no keyword and gets only the essentials. */
  lemma ScenarioOvercastText(description: string)
    requires description == "overcast clouds"
    ensures PackingList(Text(description)) == Ok(Essentials)
  {
    var lowered := Lower(description);
    OvercastLacksN(description);
    OvercastLacksClear(description);
    MissingCharNotContained(lowered, "rain", 'n');
    MissingCharNotContained(lowered, "snow", 'n');
    MissingCharNotContained(lowered, "sunny", 'n');
    TextWithoutKeyword(description);
  }
}
