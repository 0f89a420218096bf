# Daily weather to SQLite, modelled in Dafny

The `daily_weather_to_sqlite` Airflow DAG runs two tasks once a day, in order:

1. `fetch_weather_and_store` takes the OpenWeatherMap response for the city,
   pulls out five fields (`name`, `dt`, `main.temp`, `main.humidity`,
   `weather[0].description`), renders `dt` as UTC text `YYYY-MM-DD HH:MM:SS`,
   creates the `weather_data` table if it does not exist and appends one row.
2. `generate_daily_summary` averages temperature and humidity over the rows
   whose `DATE(datetime)` is the current UTC date and formats a three-line
   report.

This project models that core and proves what it promises:

| module | file | what it holds |
|---|---|---|
| `Wrappers` | `wrappers.dfy` | `Option` and `Result` with failure propagation |
| `Decimal` | `decimal.dfy` | digit characters, zero padding, integer rendering, round half to even |
| `Calendar` | `calendar.dfy` | proleptic Gregorian dates and their day ordinals, split into 400-, 100-, 4- and 1-year cycles the way Python's `datetime` does |
| `Timestamp` | `timestamp.dfy` | `utcfromtimestamp` and `strftime('%Y-%m-%d %H:%M:%S')`, the text form's shape, its parser, and the round trips between seconds and text |
| `Json` | `json.dfy` | the decoded response and subscripting into it |
| `Fetch` | `fetch.dfy` | the row built from a response, or the reason there is none |
| `Store` | `store.dfy` | the database file as a class: whether the table exists, and its rows in insertion order |
| `Summary` | `summary.dfy` | the `DATE(datetime) = ?` filter, `AVG`, the `:.2f` rendering and the report text |
| `Pipeline` | `pipeline.dfy` | the two task callables as methods over a store, and one DAG run |

Extraction, conversion and the query are pure functions with lemmas. The
store and the report building change state step by step, so they are a
class with `modifies` clauses and methods that assign the summary line by
line. The HTTP response and the current date are parameters of the
methods; the network, the clock and the file system are not modelled.

The model's outcome differs on purpose in one place: for a day without
rows the source formats `None` with `:.2f`, which raises `TypeError`; the
model returns `NoData(date)` instead of the crash, and never reports
`0.00`. The remaining differences are listed under "Left out".

The source checks neither the HTTP status nor the returned city. An error
body without the expected fields fails extraction like any other malformed
response, before the database is touched. A field of a kind the `INSERT`
cannot bind (a list, an object, an integer wider than 64 bits) fails only
after `CREATE TABLE` has taken effect, so the table exists afterwards
without the row.

## Model

| member | source | states |
|---|---|---|
| `Json.Select` | weather_pipeline.py:18-22 | one subscript applies exactly when the key is in the object or the index is inside the list |
| `Fetch.Lookups` | weather_pipeline.py:18-22 | the lookups fail only with a missing field (whose path does not resolve), a `dt` that is not a number, or a `dt` outside years 1 to 9999; when they succeed they hold the values the five paths reach and the text of `dt` |
| `Fetch.Bind` | weather_pipeline.py:39-42 | the parameters bind exactly when city and description are text and temperature and humidity are numbers that fit; the row then holds those values; a failure names the first parameter, in order, that does not bind |
| `Fetch.Extract` | weather_pipeline.py:18-42 | a row comes out exactly when all five fields are present, of a kind the insert binds, with a representable `dt`; the row is the observation those fields describe; a missing-field error names a path that does not resolve, a wrong-type error is about `dt`, which resolves, an out-of-range error carries the seconds of `dt`, which lie outside years 1 to 9999, and a binding error, about a path that resolves, comes exactly when every lookup went through |
| `Fetch.ExtractInTwoStages` | weather_pipeline.py:18-42 | the extraction is the lookups' failure, or the binding of what they found |
| `Fetch.ExtractFirstFailure` | weather_pipeline.py:18-42 | a failed extraction reports the first step that fails, in source order (the five lookups, then the four bound parameters): every earlier one goes through |
| `Fetch.BindFirstFailure` | weather_pipeline.py:39-42 | once every lookup went through, the error is the first bound parameter that fails and every lookup before it succeeded |
| `Fetch.ExtractResponse` | weather_pipeline.py:18-22 | a complete response yields the row of its own city, `dt` text, temperature, humidity and description |
| `Fetch.ExtractEmptyWeather` | weather_pipeline.py:22 | a response whose `weather` list is empty yields no row |
| `Fetch.ExtractDusseldorf` | weather_pipeline.py:10-22 | the Düsseldorf response with `dt` 1700000000 yields the row stamped `2023-11-14 22:13:20` with 5.2 and 80.0 |
| `Decimal.Pad` | weather_pipeline.py:19 | zero padding has exactly the requested width and only digits |
| `Decimal.ValuePad` | weather_pipeline.py:19 | the padded digits of a number that fits read back as that number |
| `Decimal.PadValue` | weather_pipeline.py:19 | every digit string is the padding of the number it denotes |
| `Decimal.PadInjective` | weather_pipeline.py:19 | two digit strings of the same width that denote the same number are the same string |
| `Decimal.Digits` | weather_pipeline.py:66-67 | the integer part is rendered as a non-empty string of digits without a leading zero |
| `Decimal.ValueDigits` | weather_pipeline.py:66-67 | the shortest rendering of a number reads back as that number |
| `Decimal.RoundHalfEven` | weather_pipeline.py:66-67 | the rounded integer lies within one half of the value, and a tie goes to the even neighbour |
| `Calendar.YearAndDay` | weather_pipeline.py:19 | a day number splits into a year from 1 on and a day inside that year whose days before add back to the day number |
| `Calendar.MonthOf` | weather_pipeline.py:19 | the month found for a day of the year is the one whose days before it are at most that day and whose end is after it |
| `Calendar.FromOrdinal` | weather_pipeline.py:19 | every ordinal from 1 on is the ordinal of a valid date |
| `Calendar.OrdinalInjective` | weather_pipeline.py:19 | two valid dates with the same ordinal are equal |
| `Calendar.OrdinalRoundTrip` | weather_pipeline.py:19 | converting a valid date to its ordinal and back gives the date |
| `Calendar.DaysBeforeYearMonotone` | weather_pipeline.py:19 | a later year starts after the whole of an earlier one |
| `Calendar.YearBound` | weather_pipeline.py:19 | a date lies before year `y` exactly when its ordinal is at most the days before `y` |
| `Timestamp.EpochAndLastDay` | weather_pipeline.py:19 | second 0 is day 1970-01-01, and year 9999 ends on day 3652059 |
| `Timestamp.FromTimestamp` | weather_pipeline.py:19 | a datetime comes out exactly for the seconds of years 1 to 9999, and it converts back to the same seconds |
| `Timestamp.ToTimestampInRange` | weather_pipeline.py:19 | every valid datetime has seconds inside the accepted range |
| `Timestamp.FromToTimestamp` | weather_pipeline.py:19 | converting a valid datetime to seconds and back gives the datetime |
| `Timestamp.Format` | weather_pipeline.py:19 | the text is 19 characters, digits except `-` at 4 and 7, a space at 10 and `:` at 13 and 16, and its first ten characters are the date |
| `Timestamp.Parse` | weather_pipeline.py:59 | text that parses has the timestamp shape and gives a valid datetime |
| `Timestamp.ParseFormat` | weather_pipeline.py:19 | the text of a valid datetime parses back to it |
| `Timestamp.FormatParse` | weather_pipeline.py:59 | text that parses is exactly the rendering of what it parses to |
| `Timestamp.FormatTimestamp` | weather_pipeline.py:19 | text comes out exactly for in-range seconds, and it has the timestamp shape |
| `Timestamp.TimestampRoundTrip` | weather_pipeline.py:19 | the stored text of in-range seconds reads back as those seconds |
| `Timestamp.TimestampTextRoundTrip` | weather_pipeline.py:19 | text that reads as some seconds is the stored text of those seconds |
| `Timestamp.FormatTimestampInjective` | weather_pipeline.py:19 | two instants with the same text are the same instant |
| `Timestamp.SecondsOf` | weather_pipeline.py:19 | a fractional `dt` gives its floor, and the next second exactly when its fraction is at least 0.9999995, which rounds up to a whole second at microseconds |
| `Timestamp.Instant1700000000` | weather_pipeline.py:19 | 1700000000 renders as `2023-11-14 22:13:20` |
| `Store.WeatherStore.constructor` | weather_pipeline.py:24 | a new database file has no table and no rows |
| `Store.WeatherStore.Reopen` | weather_pipeline.py:24 | an existing file has its table with the rows earlier runs left |
| `Store.WeatherStore.EnsureSchema` | weather_pipeline.py:28-36 | afterwards the table exists and its rows are exactly those before |
| `Store.WeatherStore.Append` | weather_pipeline.py:39-42 | with the table present the rows are the old rows and then the new row at the end; without it the insert fails and nothing changes |
| `Store.EnsureSchemaTwice` | weather_pipeline.py:28-36 | creating the schema again keeps the table and every row |
| `Summary.SqlDate` | weather_pipeline.py:59 | `DATE` gives a value only for text of the timestamp shape, and that value is its first ten characters |
| `Summary.SqlDateOfStored` | weather_pipeline.py:59 | the date of the text of in-range seconds is the `%Y-%m-%d` of their datetime |
| `Summary.Matching` | weather_pipeline.py:58-59 | the kept rows are never more than the table's |
| `Summary.MatchingMembers` | weather_pipeline.py:59 | a row is kept exactly when it is in the table and stored for the date |
| `Summary.MatchingConcat` | weather_pipeline.py:59 | filtering two runs of rows filters each and joins them in order |
| `Summary.Mean` | weather_pipeline.py:56-57 | the average times the number of kept rows is their total |
| `Summary.DailyAverage` | weather_pipeline.py:54-62 | no averages (NULL) exactly when no row is stored for the date |
| `Summary.NoMatchesMeansNone` | weather_pipeline.py:54-62 | when nothing is kept, no row of the table is on the date |
| `Summary.AverageIsMean` | weather_pipeline.py:56-57 | each reported average is the mean of its column over exactly the kept rows |
| `Summary.SumBounds` | weather_pipeline.py:56-57 | a total of values between two bounds lies between the bounds times the count |
| `Summary.MeanWithinBounds` | weather_pipeline.py:56-57 | a mean of values between two bounds lies between them |
| `Summary.AverageWithinBounds` | weather_pipeline.py:56-57 | each average lies between the least and greatest value stored for the day |
| `Summary.AppendOtherDay` | weather_pipeline.py:39-60 | appending a row of another day leaves that day's averages unchanged |
| `Summary.AppendSameDay` | weather_pipeline.py:39-60 | appending a row of the day adds it at the end of the kept rows and its values to both totals |
| `Summary.SameMatchesSameAverage` | weather_pipeline.py:54-62 | two tables that keep the same rows for a date report the same averages |
| `Summary.SumConcat` | weather_pipeline.py:56-57 | the total of two runs of rows is the sum of their totals |
| `Summary.SumPermutation` | weather_pipeline.py:56-57 | a total does not depend on the order of the rows |
| `Summary.MatchingMultiplicity` | weather_pipeline.py:59 | a row is kept as often as it is stored if it is on the date, otherwise never |
| `Summary.MatchingPermutation` | weather_pipeline.py:59 | reordering the table keeps the same rows, counted with repetition |
| `Summary.DailyAveragePermutation` | weather_pipeline.py:54-62 | the averages do not depend on the order in which rows were inserted |
| `Summary.NothingOnDate` | weather_pipeline.py:59 | rows none of which is on the date are all filtered out |
| `Summary.AverageOfTwo` | weather_pipeline.py:54-62 | two rows of the day around any number of rows of other days average to the midpoints of their values |
| `Summary.TwoReadingsOneDay` | weather_pipeline.py:54-62 | temperatures 10 and 20 and humidities 50 and 70 on 2024-04-01 average to 15 and 60, whatever rows of other days are stored between them |
| `Summary.AverageOfThree` | weather_pipeline.py:54-62 | two rows of the day around one row of another day average to the midpoints of their values |
| `Summary.TwoReadingsAroundNextMorning` | weather_pipeline.py:54-62 | with a 2024-04-02 reading of 30 and 90 stored between the two 2024-04-01 readings, the averages for 2024-04-01 are still 15 and 60 |
| `Summary.NoReadingsThatDay` | weather_pipeline.py:54-62 | a table whose rows all lie on one date has no averages (NULL, not zeros) for any other date |
| `Summary.NoReadingsOfPair` | weather_pipeline.py:54-62 | two rows of one date give no averages for any other date |
| `Summary.NoReadingsNextDay` | weather_pipeline.py:54-62 | the two 2024-04-01 readings (10/50 and 20/70) give no averages for 2024-04-02 |
| `Summary.Fixed2` | weather_pipeline.py:66-67 | two-decimal text has at least four characters |
| `Summary.Fixed2Accurate` | weather_pipeline.py:66-67 | the two-decimal text reads back as a number within half a hundredth of the value |
| `Summary.ReportNamesDate` | weather_pipeline.py:65 | the date requested stands right after the heading label |
| `Summary.ReportTemperature` | weather_pipeline.py:66 | after the temperature label stands the average temperature, within half a hundredth |
| `Summary.ReportHumidity` | weather_pipeline.py:67 | after the humidity label stands the average humidity, within half a hundredth |
| `Summary.ExampleReport` | weather_pipeline.py:65-67 | averages 15 and 60 on 2024-04-01 give the three report lines with `15.00°C` and `60.00%` |
| `Pipeline.StoreFields` | weather_pipeline.py:24-43 | afterwards the table exists; the outcome is the binding's; if it fails the rows are those before, otherwise the old rows and then the new one |
| `Pipeline.FetchWeatherAndStore` | weather_pipeline.py:13-46 | the outcome is the extraction's; a failed lookup leaves the store (table flag and rows) untouched; a failed binding leaves the table created and its rows unchanged; on success the table exists and holds the old rows and then the new one, which on a fresh file is the only row |
| `Pipeline.GenerateDailySummary` | weather_pipeline.py:48-70 | no table gives `NoSuchTable`, no row on the date gives `NoData`, and otherwise the report of the day's two averages |
| `Pipeline.FetchedRowOnItsDate` | weather_pipeline.py:19-59 | a fetched row is kept by the filter for the first ten characters of its own timestamp |
| `Pipeline.AppendedRowAndSummary` | weather_pipeline.py:39-60 | after appending a row of the day the day has averages; a row of another day changes none of them |
| `Pipeline.DailyRun` | weather_pipeline.py:87-97 | a failed fetch leaves the rows as they were and the summary task unrun, and the table flag as it was unless the failure came at binding, after the table was created; after a successful fetch the summary is `NoData` when no row is on the date and otherwise the report of the day's averages, and a fetched row of the summarised day always gives a report |

## Left out

- Fetching: the URL, the API key, `requests.get` and `response.json()` (lines 9, 14-16) are not modelled; the decoded response is a parameter. `requests.get` is called with no timeout and the status is never checked, so a stalled request may hang rather than fail, and an error status raises nothing there; `response.json()` raises only for a body that is not JSON. An error body such as `{"cod": 401, "message": ...}` reaches the first lookup and fails as `MissingField` of `name`, before the database is touched.
- The clock: `datetime.utcnow()` (line 49) is not modelled; the date to summarise is a parameter.
- Database mechanics: connections, cursors, `commit` and `close` (lines 24-25, 44-45, 51-52, 62-63), I/O errors and concurrent writers are not modelled; the store is one in-memory table.
- `print` (lines 46, 69) and the return value's delivery to Airflow are not modelled.
- The DAG definition (lines 1-2, 72-97): owner, retries, retry delay, schedule and start date are configuration; only the order of the two tasks is modelled, by `Pipeline.DailyRun`.
- Fetch.Extract: Python's exception classes are collapsed into four errors. A JSON `null` or boolean anywhere among the four stored fields, a number for `name` or the description, or text for the temperature or humidity is a `CannotBind` failure, whereas sqlite3 would bind `None` as NULL and `True` as 1 and SQLite's type affinity would store the others. A boolean `dt` is a `WrongType` failure, whereas Python reads `True` as the second 1.
- Fetch.Bind: a list, an object or an integer outside 64 bits failing at the `INSERT`, after the table was created, is modelled; values JSON text can carry but the `Json` datatype cannot hold are not: `NaN`, `Infinity`, numbers such as `1e400` that Python turns into an infinite float, and strings with lone surrogates.
- Summary.SqlDate: only the stored `YYYY-MM-DD HH:MM:SS` form gets a date; SQLite also accepts other time formats, which this table never holds.
- Timestamp.Format: years below 1000 are padded to four digits; glibc's `%Y` would not pad them.
- Timestamp.SecondsOf: works on the exact value of a fractional `dt`; Python splits the binary double into whole seconds and a fraction with `modf` and multiplies that by 1e6 in floating point, which can round a value next to the 0.9999995 threshold the other way.
- Summary.Fixed2: works on exact rational numbers; the source's binary doubles can round a written tie such as 2.675 the other way, and `AVG` sums doubles with rounding at each step.
- Summary.DailyAverage: exact rational averages; the 64-bit floating point error of `REAL` columns and `AVG` is not modelled.
- Pipeline.GenerateDailySummary: returns `NoData` for an empty day where the source raises `TypeError` while formatting `None`.
