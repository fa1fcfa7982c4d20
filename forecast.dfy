/**
 * The per-date aggregation inside `get_weather_forecast`: keep the readings
 * whose date lies in the inclusive range [start, end], remember the first
 * reading seen for each date, and look up the start and end dates with the
 * default {"description": "No data", "temperature": 0}.
 *
 * Readings arrive already parsed: dates are day numbers and temperatures are
 * the converted values the source stores.
 */
module Forecast {
  import opened Wrappers

  /** One entry of the provider's forecast list, after parsing. */
  datatype Reading = Reading(date: int, description: string, temperature: real)

  /** The `{"description": ..., "temperature": ...}` record stored per date. */
  datatype DayWeather = DayWeather(description: string, temperature: real)

  /** The returned `{"start_date": ..., "return_date": ...}` dictionary. */
  datatype Summary = Summary(startDate: DayWeather, returnDate: DayWeather)

  /** The default for a date without a reading. */
  const NoData: DayWeather := DayWeather("No data", 0.0)

  function DayOf(reading: Reading): DayWeather {
    DayWeather(reading.description, reading.temperature)
  }

  predicate InRange(date: int, start: int, end: int) {
    start <= date <= end
  }

  /** The index of the first reading, at or after `from`, on `date`; None if there is none. */
  function FirstReadingOn(readings: seq<Reading>, date: int, from: nat): (r: Option<nat>)
    ensures r.Some? ==> from <= r.value < |readings| && readings[r.value].date == date
    ensures r.Some? ==> forall j :: from <= j < r.value ==> readings[j].date != date
    ensures r.None? ==> forall j :: from <= j < |readings| ==> readings[j].date != date
    decreases |readings| - from
  {
    if from >= |readings| then None
    else if readings[from].date == date then Some(from)
    else FirstReadingOn(readings, date, from + 1)
  }

  /** `forecast.get(date, {"description": "No data", "temperature": 0})` */
  function Lookup(forecast: map<int, DayWeather>, date: int): DayWeather {
    if date in forecast then forecast[date] else NoData
  }

  /**
   * What the summary reports for `date`, stated without the dictionary: the
   * first reading on that date if the date is in range and has one, else the
   * default.
   */
  function ReportedDay(readings: seq<Reading>, date: int, start: int, end: int): DayWeather {
    if !InRange(date, start, end) then NoData
    else match FirstReadingOn(readings, date, 0)
      case Some(i) => DayOf(readings[i])
      case None => NoData
  }

  /**
   * The dictionary-filling loop of `get_weather_forecast`: one pass over the
   * readings, keeping an in-range reading only when its date has no entry yet.
   * The result holds exactly the in-range dates that have a reading, each with
   * the first reading seen on it.
   */
  method CollectForecast(readings: seq<Reading>, start: int, end: int) returns (forecast: map<int, DayWeather>)
    ensures forall date :: date in forecast <==> InRange(date, start, end) && FirstReadingOn(readings, date, 0).Some?
    ensures forall date :: date in forecast ==> forecast[date] == DayOf(readings[FirstReadingOn(readings, date, 0).value])
  {
    forecast := map[];
    for i := 0 to |readings|
      invariant forall date :: date in forecast <==>
        InRange(date, start, end) && FirstReadingOn(readings, date, 0).Some? && FirstReadingOn(readings, date, 0).value < i
      invariant forall date :: date in forecast ==> forecast[date] == DayOf(readings[FirstReadingOn(readings, date, 0).value])
    {
      var day := readings[i];
      if start <= day.date <= end {
        if day.date !in forecast {
          forecast := forecast[day.date := DayOf(day)];
        }
      }
    }
  }

  /**
   * `get_weather_forecast` after the fetch: fill the dictionary, then look up
   * the start and end dates with the "No data" default.
   */
  method GetWeatherForecast(readings: seq<Reading>, start: int, end: int) returns (summary: Summary)
    ensures summary.startDate == ReportedDay(readings, start, start, end)
    ensures summary.returnDate == ReportedDay(readings, end, start, end)
  {
    var forecast := CollectForecast(readings, start, end);
    summary := Summary(Lookup(forecast, start), Lookup(forecast, end));
  }

  /** A reading that is the first on its in-range date is what the summary reports for that date. */
  lemma FirstReadingReported(readings: seq<Reading>, start: int, end: int, i: nat)
    requires i < |readings| && InRange(readings[i].date, start, end)
    requires forall j :: 0 <= j < i ==> readings[j].date != readings[i].date
    ensures ReportedDay(readings, readings[i].date, start, end) == DayOf(readings[i])
  {
    var k := FirstReadingOn(readings, readings[i].date, 0);
    assert k.Some? && !(k.value < i) && !(i < k.value);
  }

  /** Readings that come later never change what is reported for a date that already has one. */
  lemma LaterReadingsIgnored(readings: seq<Reading>, later: seq<Reading>, date: int, start: int, end: int)
    requires exists i :: 0 <= i < |readings| && readings[i].date == date
    ensures ReportedDay(readings + later, date, start, end) == ReportedDay(readings, date, start, end)
  {
    var extended := readings + later;
    var k := FirstReadingOn(readings, date, 0);
    var k' := FirstReadingOn(extended, date, 0);
    assert forall j :: 0 <= j < |readings| ==> extended[j] == readings[j];
    assert k.Some? && extended[k.value].date == date;
    assert k'.Some? && !(k'.value < k.value) && !(k.value < k'.value);
  }

  /** An empty or reversed range, or a date without readings, reports the default. */
  lemma NoReadingsNoData(readings: seq<Reading>, date: int, start: int, end: int)
    requires !InRange(date, start, end) || forall j :: 0 <= j < |readings| ==> readings[j].date != date
    ensures ReportedDay(readings, date, start, end) == NoData
  {
  }
}
