/**
 * How the page combines the two parts: the weather reported for the start
 * date is passed, as a record, to the packing-list rules.
 */
module Trip {
  import opened Wrappers
  import opened Strings
  import opened Packing
  import opened Forecast

  /** The dictionary the page hands to `generate_packing_list`. */
  function AsWeatherInput(day: DayWeather): WeatherInput {
    Record(Some(day.description), Some(day.temperature))
  }

  /** The start date's forecast always yields a packing list that opens with the essentials. */
  lemma ForecastAlwaysPacks(readings: seq<Reading>, start: int, end: int)
    ensures PackingList(AsWeatherInput(ReportedDay(readings, start, start, end))).Ok?
    ensures |PackingList(AsWeatherInput(ReportedDay(readings, start, start, end))).value| >= 4
    ensures PackingList(AsWeatherInput(ReportedDay(readings, start, start, end))).value[..3] == Essentials
  {
    var weather := AsWeatherInput(ReportedDay(readings, start, start, end));
    EssentialsFirst(weather);
    ListLength(weather);
  }

  lemma NoDataLacksRS(description: string)
    requires description == NoData.description
    ensures 'r' !in Lower(description) && 's' !in Lower(description)
  {
    LowerKeepsAbsent(description, 'r');
    LowerKeepsAbsent(description, 's');
  }

  /** None of the four keywords occurs in the lower-cased "No data". */
  lemma NoDataHasNoKeyword(description: string)
    requires description == NoData.description
    ensures forall j :: 0 <= j < |WeatherTable| ==> !Contains(Lower(description), WeatherTable[j].0)
  {
    var lowered := Lower(description);
    NoDataLacksRS(description);
    MissingCharNotContained(lowered, "rain", 'r');
    MissingCharNotContained(lowered, "snow", 's');
    MissingCharNotContained(lowered, "sunny", 's');
    MissingCharNotContained(lowered, "clear", 'r');
  }

  /** The default "No data" day matches no keyword and, at 0 degrees, gets the `< 10` bracket. */
  lemma NoDataPacking(day: DayWeather)
    requires day == NoData
    ensures PackingList(AsWeatherInput(day)) == Ok(Essentials + ColdItems)
  {
    NoDataHasNoKeyword(day.description);
    KeywordNoMatch(Lower(day.description));
    BracketRanges(day.temperature);
    assert Essentials + [] + ColdItems == Essentials + ColdItems;
  }

  /** Without a reading for the start date, the list is the essentials plus a sweater and a jacket. */
  lemma MissingStartDayPacking(readings: seq<Reading>, start: int, end: int)
    requires !InRange(start, start, end) || forall j :: 0 <= j < |readings| ==> readings[j].date != start
    ensures PackingList(AsWeatherInput(ReportedDay(readings, start, start, end))) == Ok(Essentials + ColdItems)
  {
    NoReadingsNoData(readings, start, start, end);
    NoDataPacking(ReportedDay(readings, start, start, end));
  }
}
