/**
 * The observation that `fetch_weather_and_store` pulls out of an
 * OpenWeatherMap response: `name`, `dt` (rendered as UTC text),
 * `main.temp`, `main.humidity` and `weather[0].description`, looked up
 * before the database is touched and bound as the INSERT's parameters
 * once the table exists.
 */
module Fetch {
  import opened Wrappers
  import opened Json
  import opened Timestamp

  /** One row of the `weather_data` table, in column order. */
  datatype Row = Row(
    city: string,
    datetime: string,
    temperature: real,
    humidity: real,
    weatherDescription: string)

  /** Why no row was stored. */
  datatype FetchError =
    | MissingField(path: seq<Step>)      // lines 18-22: KeyError, IndexError or TypeError on a subscript
    | WrongType(path: seq<Step>)         // line 19: `dt` is not a number
    | TimestampOutOfRange(seconds: int)  // line 19: `dt` outside the years 1 to 9999
    | CannotBind(path: seq<Step>)        // lines 39-42: the INSERT cannot bind the value

  const NamePath: seq<Step> := [Key("name")]
  const DtPath: seq<Step> := [Key("dt")]
  const TempPath: seq<Step> := [Key("main"), Key("temp")]
  const HumidityPath: seq<Step> := [Key("main"), Key("humidity")]
  const DescriptionPath: seq<Step> := [Key("weather"), Index(0), Key("description")]

  /** The integers sqlite3 can bind: 64-bit two's complement. */
  const MinInt64 := -0x8000_0000_0000_0000
  const MaxInt64 := 0x7FFF_FFFF_FFFF_FFFF

  /** A JSON number as the REAL column receives it; a wider integer does not bind. */
  function NumberValue(v: Json): Option<real> {
    match v
    case JInt(i) => if MinInt64 <= i <= MaxInt64 then Some(i as real) else None
    case JFloat(x) => Some(x)
    case _ => None
  }

  /** The whole epoch seconds `utcfromtimestamp` takes from a JSON number. */
  function SecondsValue(v: Json): Option<int> {
    match v
    case JInt(i) => Some(i)
    case JFloat(x) => Some(SecondsOf(x))
    case _ => None
  }

  function ValueAt(data: Json, path: seq<Step>): (r: Result<Json, FetchError>) {
    match Lookup(data, path)
    case None => Failure(MissingField(path))
    case Some(v) => Success(v)
  }

  function SecondsAt(data: Json, path: seq<Step>): (r: Result<int, FetchError>) {
    match Lookup(data, path)
    case None => Failure(MissingField(path))
    case Some(v) => if SecondsValue(v).Some? then Success(SecondsValue(v).value) else Failure(WrongType(path))
  }

  function TimestampText(seconds: int): (r: Result<string, FetchError>) {
    match FormatTimestamp(seconds)
    case None => Failure(TimestampOutOfRange(seconds))
    case Some(s) => Success(s)
  }

  /** The values lines 18-22 leave in local variables, before the database is opened. */
  datatype Fields = Fields(city: Json, datetime: string, temperature: Json, humidity: Json, description: Json)

  /** Lines 18-22 of `fetch_weather_and_store`: the five subscripts and the conversion of `dt`, in source order. */
  function Lookups(data: Json): (r: Result<Fields, FetchError>)
    ensures r.Failure? ==> r.error.MissingField? || r.error.WrongType? || r.error.TimestampOutOfRange?
    ensures r.Failure? && r.error.MissingField? ==> Lookup(data, r.error.path).None?
    ensures r.Failure? && r.error.WrongType? ==> r.error.path == DtPath && Lookup(data, DtPath).Some?
    ensures r.Failure? && r.error.TimestampOutOfRange?
        ==> SecondsAt(data, DtPath) == Success(r.error.seconds)
            && !(MinTimestamp <= r.error.seconds <= MaxTimestamp)
    ensures r.Success? ==>
      && ValueAt(data, NamePath) == Success(r.value.city)
      && SecondsAt(data, DtPath).Success?
      && TimestampText(SecondsAt(data, DtPath).value) == Success(r.value.datetime)
      && ValueAt(data, TempPath) == Success(r.value.temperature)
      && ValueAt(data, HumidityPath) == Success(r.value.humidity)
      && ValueAt(data, DescriptionPath) == Success(r.value.description)
  {
    var city :- ValueAt(data, NamePath);
    var seconds :- SecondsAt(data, DtPath);
    var datetime :- TimestampText(seconds);
    var temperature :- ValueAt(data, TempPath);
    var humidity :- ValueAt(data, HumidityPath);
    var description :- ValueAt(data, DescriptionPath);
    Success(Fields(city, datetime, temperature, humidity, description))
  }

  function BindText(v: Json, path: seq<Step>): (r: Result<string, FetchError>) {
    match v
    case JString(s) => Success(s)
    case _ => Failure(CannotBind(path))
  }

  function BindNumber(v: Json, path: seq<Step>): (r: Result<real, FetchError>) {
    match NumberValue(v)
    case None => Failure(CannotBind(path))
    case Some(x) => Success(x)
  }

  /** The parameter binding of the INSERT at lines 39-42, in parameter order. */
  function Bind(f: Fields): (r: Result<Row, FetchError>)
    ensures r.Success? <==>
      f.city.JString? && NumberValue(f.temperature).Some? && NumberValue(f.humidity).Some? && f.description.JString?
    ensures r.Success? ==>
      r.value == Row(f.city.s, f.datetime, NumberValue(f.temperature).value, NumberValue(f.humidity).value, f.description.s)
    ensures r.Failure? ==> r.error.CannotBind?
    ensures r.Failure? && r.error.path == NamePath ==> !f.city.JString?
    ensures r.Failure? && r.error.path == TempPath ==> f.city.JString? && NumberValue(f.temperature).None?
    ensures r.Failure? && r.error.path == HumidityPath
        ==> f.city.JString? && NumberValue(f.temperature).Some? && NumberValue(f.humidity).None?
    ensures r.Failure? && r.error.path == DescriptionPath
        ==> f.city.JString? && NumberValue(f.temperature).Some? && NumberValue(f.humidity).Some?
            && !f.description.JString?
    ensures r.Failure? ==> r.error.path in {NamePath, TempPath, HumidityPath, DescriptionPath}
  {
    var city :- BindText(f.city, NamePath);
    var temperature :- BindNumber(f.temperature, TempPath);
    var humidity :- BindNumber(f.humidity, HumidityPath);
    var description :- BindText(f.description, DescriptionPath);
    Success(Row(city, f.datetime, temperature, humidity, description))
  }

  /**
   * A response that holds every field the row needs, of a kind the INSERT
   * binds, with a `dt` that datetime can represent; spelled out on the
   * nested objects rather than through `Lookup`.
   */
  predicate HasObservation(data: Json) {
    && data.JObject?
    && "name" in data.members && data.members["name"].JString?
    && "dt" in data.members && SecondsValue(data.members["dt"]).Some?
    && MinTimestamp <= SecondsValue(data.members["dt"]).value <= MaxTimestamp
    && "main" in data.members && data.members["main"].JObject?
    && "temp" in data.members["main"].members
    && NumberValue(data.members["main"].members["temp"]).Some?
    && "humidity" in data.members["main"].members
    && NumberValue(data.members["main"].members["humidity"]).Some?
    && "weather" in data.members && data.members["weather"].JArray?
    && |data.members["weather"].items| > 0
    && data.members["weather"].items[0].JObject?
    && "description" in data.members["weather"].items[0].members
    && data.members["weather"].items[0].members["description"].JString?
  }

  /** The row that `fetch_weather_and_store` stores from a complete response. */
  function ObservationOf(data: Json): Row
    requires HasObservation(data)
  {
    var main := data.members["main"].members;
    Row(
      data.members["name"].s,
      FormatTimestamp(SecondsValue(data.members["dt"]).value).value,
      NumberValue(main["temp"]).value,
      NumberValue(main["humidity"]).value,
      data.members["weather"].items[0].members["description"].s)
  }

  /**
   * The row lines 18-22 and the binding at lines 39-42 produce together.
   * A `CannotBind` error is raised only once every lookup went through,
   * that is after the table has been created.
   */
  function Extract(data: Json): (r: Result<Row, FetchError>)
    ensures r.Success? <==> HasObservation(data)
    ensures r.Success? ==> r.value == ObservationOf(data)
    ensures r.Failure? && r.error.MissingField? ==> Lookup(data, r.error.path).None?
    ensures r.Failure? && (r.error.WrongType? || r.error.CannotBind?) ==> Lookup(data, r.error.path).Some?
    ensures r.Failure? && r.error.WrongType? ==> r.error.path == DtPath
    ensures r.Failure? && r.error.TimestampOutOfRange?
        ==> SecondsAt(data, DtPath) == Success(r.error.seconds)
            && !(MinTimestamp <= r.error.seconds <= MaxTimestamp)
    ensures (r.Failure? && r.error.CannotBind?) <==> (r.Failure? && Lookups(data).Success?)
  {
    PathsSpelledOut(data);
    var fields :- Lookups(data);
    Bind(fields)
  }

  /** The extraction is the lookups followed, when they all went through, by the binding. */
  lemma ExtractInTwoStages(data: Json)
    ensures Lookups(data).Failure? ==> Extract(data) == Failure(Lookups(data).error)
    ensures Lookups(data).Success? ==> Extract(data) == Bind(Lookups(data).value)
  {
  }

  /** Step `k` of the extraction goes through: 0-5 a lookup of lines 18-22, 6-9 the binding of a parameter at lines 39-42. */
  predicate StepSucceeds(data: Json, k: nat) {
    if k == 0 then Lookup(data, NamePath).Some?
    else if k == 1 then SecondsAt(data, DtPath).Success?
    else if k == 2 then SecondsAt(data, DtPath).Success? && TimestampText(SecondsAt(data, DtPath).value).Success?
    else if k == 3 then Lookup(data, TempPath).Some?
    else if k == 4 then Lookup(data, HumidityPath).Some?
    else if k == 5 then Lookup(data, DescriptionPath).Some?
    else if k == 6 then Lookup(data, NamePath).Some? && BindText(Lookup(data, NamePath).value, NamePath).Success?
    else if k == 7 then Lookup(data, TempPath).Some? && BindNumber(Lookup(data, TempPath).value, TempPath).Success?
    else if k == 8 then Lookup(data, HumidityPath).Some? && BindNumber(Lookup(data, HumidityPath).value, HumidityPath).Success?
    else Lookup(data, DescriptionPath).Some? && BindText(Lookup(data, DescriptionPath).value, DescriptionPath).Success?
  }

  /** The step an error is raised at: 0-5 the lookups of lines 18-22, 6-9 the bound parameters of lines 39-42. */
  function StepOf(e: FetchError): nat {
    match e
    case MissingField(p) => PathStep(p)
    case WrongType(_) => 1
    case TimestampOutOfRange(_) => 2
    case CannotBind(p) => if p == NamePath then 6 else if p == TempPath then 7 else if p == HumidityPath then 8 else 9
  }

  function PathStep(p: seq<Step>): nat {
    if p == NamePath then 0 else if p == DtPath then 1 else if p == TempPath then 3
    else if p == HumidityPath then 4 else 5
  }

  /** A failed extraction reports the first step, in source order, that fails: every earlier one goes through. */
  lemma ExtractFirstFailure(data: Json)
    requires Extract(data).Failure?
    ensures var e := Extract(data).error;
      && (!e.TimestampOutOfRange? ==> e.path in {NamePath, DtPath, TempPath, HumidityPath, DescriptionPath})
      && StepOf(e) <= 9 && !StepSucceeds(data, StepOf(e))
      && forall k: nat :: k < StepOf(e) ==> StepSucceeds(data, k)
  {
    var e := Extract(data).error;
    PathsDiffer();
    if ValueAt(data, NamePath).Failure? {
      assert e == ValueAt(data, NamePath).error;
    } else if SecondsAt(data, DtPath).Failure? {
      assert e == SecondsAt(data, DtPath).error;
    } else if TimestampText(SecondsAt(data, DtPath).value).Failure? {
      assert e == TimestampText(SecondsAt(data, DtPath).value).error;
    } else if ValueAt(data, TempPath).Failure? {
      assert e == ValueAt(data, TempPath).error;
    } else if ValueAt(data, HumidityPath).Failure? {
      assert e == ValueAt(data, HumidityPath).error;
    } else if ValueAt(data, DescriptionPath).Failure? {
      assert e == ValueAt(data, DescriptionPath).error;
    } else {
      BindFirstFailure(data);
    }
  }

  /** With every lookup through, the error is the first parameter that does not bind. */
  lemma BindFirstFailure(data: Json)
    requires Lookups(data).Success? && Extract(data).Failure?
    ensures var e := Extract(data).error;
      && e.CannotBind? && e.path in {NamePath, TempPath, HumidityPath, DescriptionPath}
      && 6 <= StepOf(e) <= 9 && !StepSucceeds(data, StepOf(e))
      && forall k: nat :: k < StepOf(e) ==> StepSucceeds(data, k)
  {
    var f := Lookups(data).value;
    PathsDiffer();
    ExtractInTwoStages(data);
    var e := Extract(data).error;
    assert Lookup(data, NamePath) == Some(f.city) && Lookup(data, TempPath) == Some(f.temperature);
    assert Lookup(data, HumidityPath) == Some(f.humidity) && Lookup(data, DescriptionPath) == Some(f.description);
    if !f.city.JString? {
      assert e == CannotBind(NamePath);
    } else if NumberValue(f.temperature).None? {
      assert e == CannotBind(TempPath);
    } else if NumberValue(f.humidity).None? {
      assert e == CannotBind(HumidityPath);
    } else {
      assert e == CannotBind(DescriptionPath);
    }
    forall k: nat | k < StepOf(e) ensures StepSucceeds(data, k) {
      if k <= 5 {
        assert k == 0 || k == 1 || k == 2 || k == 3 || k == 4 || k == 5;
      }
    }
  }

  lemma PathsDiffer()
    ensures PathStep(NamePath) == 0 && PathStep(DtPath) == 1 && PathStep(TempPath) == 3
    ensures PathStep(HumidityPath) == 4 && PathStep(DescriptionPath) == 5
  {
    assert NamePath[0] != DtPath[0] && NamePath[0] != TempPath[0] && DtPath[0] != TempPath[0];
    assert |HumidityPath| != |NamePath| && |HumidityPath| != |DtPath| && HumidityPath[1] != TempPath[1];
    assert |DescriptionPath| == 3;
  }

  /** What each of the five lookups reaches, written out on the nested values. */
  lemma PathsSpelledOut(data: Json)
    ensures Lookup(data, NamePath) ==
      if data.JObject? && "name" in data.members then Some(data.members["name"]) else None
    ensures Lookup(data, DtPath) ==
      if data.JObject? && "dt" in data.members then Some(data.members["dt"]) else None
    ensures Lookup(data, TempPath) ==
      if data.JObject? && "main" in data.members && data.members["main"].JObject?
         && "temp" in data.members["main"].members
      then Some(data.members["main"].members["temp"]) else None
    ensures Lookup(data, HumidityPath) ==
      if data.JObject? && "main" in data.members && data.members["main"].JObject?
         && "humidity" in data.members["main"].members
      then Some(data.members["main"].members["humidity"]) else None
    ensures Lookup(data, DescriptionPath) ==
      if data.JObject? && "weather" in data.members && data.members["weather"].JArray?
         && |data.members["weather"].items| > 0 && data.members["weather"].items[0].JObject?
         && "description" in data.members["weather"].items[0].members
      then Some(data.members["weather"].items[0].members["description"]) else None
  {
    LookupOne(data, Key("name"));
    LookupOne(data, Key("dt"));
    LookupTwo(data, Key("main"), Key("temp"));
    LookupTwo(data, Key("main"), Key("humidity"));
    assert DescriptionPath[1..] == [Index(0), Key("description")];
    match Select(data, Key("weather"))
    case None =>
    case Some(w) => LookupTwo(w, Index(0), Key("description"));
  }

  /** A typical response: the five fields and nothing else. */
  function Response(city: string, dt: int, temp: real, humidity: real, description: string): Json {
    JObject(map[
      "name" := JString(city),
      "dt" := JInt(dt),
      "main" := JObject(map["temp" := JFloat(temp), "humidity" := JFloat(humidity)]),
      "weather" := JArray([JObject(map["description" := JString(description)])])])
  }

  /** The row records exactly the values the response carried, `dt` as its UTC text. */
  lemma ExtractResponse(city: string, dt: int, temp: real, humidity: real, description: string)
    requires MinTimestamp <= dt <= MaxTimestamp
    ensures Extract(Response(city, dt, temp, humidity, description))
         == Success(Row(city, FormatTimestamp(dt).value, temp, humidity, description))
  {
    var data := Response(city, dt, temp, humidity, description);
    var main := data.members["main"];
    var weather := data.members["weather"];
    assert main.members["temp"] == JFloat(temp) && main.members["humidity"] == JFloat(humidity);
    assert weather.items[0].members["description"] == JString(description);
    assert HasObservation(data);
  }

  /** A response whose `weather` list is empty yields no row. */
  lemma ExtractEmptyWeather(data: Json)
    requires data.JObject? && "weather" in data.members && data.members["weather"] == JArray([])
    ensures Extract(data).Failure?
  {
  }

  /** The response of the Düsseldorf example: 1700000000 is 2023-11-14 22:13:20 UTC. */
  function DusseldorfResponse(): Json {
    JObject(map[
      "name" := JString("Düsseldorf"),
      "dt" := JInt(1700000000),
      "main" := JObject(map["temp" := JFloat(5.2), "humidity" := JInt(80)]),
      "weather" := JArray([JObject(map["description" := JString("clear sky")])])])
  }

  lemma ExtractDusseldorf()
    ensures Extract(DusseldorfResponse())
      == Success(Row("Düsseldorf", "2023-11-14 22:13:20", 5.2, 80.0, "clear sky"))
  {
    Instant1700000000();
    var data := DusseldorfResponse();
    var main := data.members["main"];
    var weather := data.members["weather"];
    assert data.members["dt"] == JInt(1700000000);
    assert main.members["temp"] == JFloat(5.2) && main.members["humidity"] == JInt(80);
    assert weather.items[0].members["description"] == JString("clear sky");
    assert HasObservation(data);
  }
}
