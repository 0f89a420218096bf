/**
 * The two task callables of the `daily_weather_to_sqlite` DAG, run in the
 * order `fetch_weather_task >> generate_summary_task`. The HTTP response
 * and the current date are parameters; the database file is a `WeatherStore`.
 */
module Pipeline {
  import opened Wrappers
  import opened Json
  import opened Fetch
  import opened Store
  import opened Summary

  /** Why `generate_daily_summary` produces no report. */
  datatype SummaryError =
    | NoSuchTable         // the SELECT runs before any fetch created `weather_data`
    | NoData(date: string) // both averages are NULL, which `:.2f` cannot format

  /**
   * The database half of `fetch_weather_and_store`: `CREATE TABLE IF NOT
   * EXISTS` takes effect at once, so a parameter that then fails to bind
   * leaves the table created and no row inserted.
   */
  method StoreFields(store: WeatherStore, fields: Fields) returns (r: Result<Row, FetchError>)
    requires store.Valid()
    modifies store
    ensures store.Valid() && store.initialized
    ensures r == Bind(fields)
    ensures r.Failure? ==> store.rows == old(store.rows)
    ensures r.Success? ==> store.rows == old(store.rows) + [r.value]
  {
    store.EnsureSchema();
    r := Bind(fields);
    if r.Failure? {
      return;
    }
    var ok := store.Append(r.value);
    assert ok;
  }

  /**
   * `fetch_weather_and_store`: read the fields (failing before the database
   * is touched), then create the table if needed and insert the row, whose
   * binding can still fail once the table exists.
   */
  method FetchWeatherAndStore(store: WeatherStore, data: Json) returns (r: Result<Row, FetchError>)
    requires store.Valid()
    modifies store
    ensures store.Valid()
    ensures r == Extract(data)
    ensures r.Failure? && !r.error.CannotBind?
        ==> store.initialized == old(store.initialized) && store.rows == old(store.rows)
    ensures r.Failure? && r.error.CannotBind? ==> store.initialized && store.rows == old(store.rows)
    ensures r.Success? ==> store.initialized && store.rows == old(store.rows) + [r.value]
    ensures r.Success? && !old(store.initialized) ==> store.rows == [r.value]
  {
    var fields := Lookups(data);
    ExtractInTwoStages(data);
    if fields.Failure? {
      r := Failure(fields.error);
      return;
    }
    r := StoreFields(store, fields.value);
  }

  /**
   * `generate_daily_summary` for the day `date`: the averages of the rows
   * stored for that day, formatted into three lines.
   */
  method GenerateDailySummary(store: WeatherStore, date: string) returns (r: Result<string, SummaryError>)
    ensures r == Failure(NoSuchTable) <==> !store.initialized
    ensures r == Failure(NoData(date))
        <==> store.initialized && forall i :: 0 <= i < |store.rows| ==> !OnDate(store.rows[i], date)
    ensures r.Success? <==> store.initialized && DailyAverage(store.rows, date).Some?
    ensures r.Success? ==> var avg := DailyAverage(store.rows, date);
      avg.Some? && r.value == Report(date, avg.value.0, avg.value.1)
  {
    if !store.initialized {
      return Failure(NoSuchTable);
    }
    var row := DailyAverage(store.rows, date);
    if row.None? {
      return Failure(NoData(date));
    }
    var (temperature, humidity) := row.value;
    var summary := Heading(date);
    summary := summary + TemperatureLine(temperature);
    summary := summary + HumidityLine(humidity);
    return Success(summary);
  }

  /** The row a successful fetch stores is found again by the date it was stamped with. */
  lemma FetchedRowOnItsDate(data: Json)
    requires Extract(data).Success?
    ensures var row := Extract(data).value;
      |row.datetime| == 19 && OnDate(row, row.datetime[..10])
  {
    var ts := SecondsValue(data.members["dt"]).value;
    SqlDateOfStored(ts);
  }

  /** What appending a fetched row does to the summary of `date`. */
  lemma AppendedRowAndSummary(before: seq<Row>, row: Row, date: string)
    ensures OnDate(row, date) ==> DailyAverage(before + [row], date).Some?
    ensures !OnDate(row, date) ==> DailyAverage(before + [row], date) == DailyAverage(before, date)
  {
    if OnDate(row, date) {
      assert (before + [row])[|before|] == row;
    } else {
      AppendOtherDay(before, row, date);
    }
  }

  /**
   * One DAG run: fetch, then, if the fetch succeeded, summarise the day
   * `date` (a failed upstream task leaves the summary task unrun, None).
   * When the observation falls on `date`, a report is produced.
   */
  method DailyRun(store: WeatherStore, data: Json, date: string)
      returns (fetched: Result<Row, FetchError>, summary: Option<Result<string, SummaryError>>)
    requires store.Valid()
    modifies store
    ensures store.Valid()
    ensures fetched == Extract(data)
    ensures fetched.Failure? && !fetched.error.CannotBind?
        ==> store.initialized == old(store.initialized) && store.rows == old(store.rows)
    ensures fetched.Failure? && fetched.error.CannotBind? ==> store.initialized && store.rows == old(store.rows)
    ensures fetched.Failure? ==> summary.None?
    ensures fetched.Success? ==> store.initialized && store.rows == old(store.rows) + [fetched.value]
    ensures fetched.Success? && DailyAverage(store.rows, date).None? ==> summary == Some(Failure(NoData(date)))
    ensures fetched.Success? && DailyAverage(store.rows, date).Some?
        ==> var avg := DailyAverage(store.rows, date).value;
            summary == Some(Success(Report(date, avg.0, avg.1)))
    ensures fetched.Success? && fetched.value.datetime[..10] == date ==> summary.value.Success?
    ensures fetched.Success? && !OnDate(fetched.value, date)
        ==> DailyAverage(store.rows, date) == DailyAverage(old(store.rows), date)
  {
    fetched := FetchWeatherAndStore(store, data);
    if fetched.Failure? {
      return fetched, None;
    }
    FetchedRowOnItsDate(data);
    AppendedRowAndSummary(old(store.rows), fetched.value, date);
    var s := GenerateDailySummary(store, date);
    summary := Some(s);
  }
}
