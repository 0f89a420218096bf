/**
 * `datetime.utcfromtimestamp(dt).strftime('%Y-%m-%d %H:%M:%S')`: integer
 * epoch seconds to broken-down UTC time, rendered as the fixed-width text
 * of section 5.6 of RFC 3339 with a space in place of 'T'; and the parser
 * that reads such text back.
 */
module Timestamp {
  import opened Wrappers
  import opened Decimal
  import opened Calendar

  const SecondsPerDay := 86400
  /** Ordinal of 1970-01-01, the Unix epoch. */
  const EpochOrdinal := 719163
  /** 0001-01-01 00:00:00, the earliest instant datetime can hold. */
  const MinTimestamp := -62135596800
  /** 9999-12-31 23:59:59, the latest instant datetime can hold. */
  const MaxTimestamp := 253402300799

  datatype DateTime = DateTime(year: int, month: int, day: int, hour: int, minute: int, second: int)

  function DateOf(t: DateTime): Date {
    Date(t.year, t.month, t.day)
  }

  /** Field ranges of a datetime: years 1 to 9999, a real calendar day, a time of day. */
  predicate ValidDateTime(t: DateTime) {
    ValidDate(DateOf(t)) && t.year <= 9999
    && 0 <= t.hour < 24 && 0 <= t.minute < 60 && 0 <= t.second < 60
  }

  function ToTimestamp(t: DateTime): int
    requires ValidDateTime(t)
  {
    (ToOrdinal(DateOf(t)) - EpochOrdinal) * SecondsPerDay
      + t.hour * 3600 + t.minute * 60 + t.second
  }

  /** The two day counts the timestamp range rests on: the Unix epoch's day, and the last day of year 9999. */
  lemma EpochAndLastDay()
    ensures ToOrdinal(Date(1970, 1, 1)) == EpochOrdinal
    ensures DaysBeforeYear(10000) == 3652059
  {
  }

  /** Splits a second of the day into hours, minutes and seconds. */
  lemma SplitDay(secs: int)
    requires 0 <= secs < SecondsPerDay
    ensures 0 <= secs / 3600 < 24 && 0 <= secs % 3600 / 60 < 60 && 0 <= secs % 60 < 60
    ensures (secs / 3600) * 3600 + (secs % 3600 / 60) * 60 + secs % 60 == secs
  {
    var r := secs % 3600;
    assert secs == (secs / 3600) * 3600 + r;
    assert r == (r / 60) * 60 + r % 60;
    assert r % 60 == secs % 60;
  }

  /** The day ordinal of an in-range timestamp stays within years 1 to 9999. */
  lemma DayInRange(ts: int)
    requires MinTimestamp <= ts <= MaxTimestamp
    ensures 1 <= ts / SecondsPerDay + EpochOrdinal <= 3652059
  {
    var days := ts / SecondsPerDay;
    assert ts == days * SecondsPerDay + ts % SecondsPerDay;
  }

  /** `datetime.utcfromtimestamp`: None where Python raises "year is out of range". */
  function FromTimestamp(ts: int): (r: Option<DateTime>)
    ensures r.Some? <==> MinTimestamp <= ts <= MaxTimestamp
    ensures r.Some? ==> ValidDateTime(r.value) && ToTimestamp(r.value) == ts
  {
    if ts < MinTimestamp || ts > MaxTimestamp then None
    else
      var days, secs := ts / SecondsPerDay, ts % SecondsPerDay;
      DayInRange(ts);
      var d := FromOrdinal(days + EpochOrdinal);
      EpochAndLastDay();
      YearBound(d, 10000);
      SplitDay(secs);
      var t := DateTime(d.year, d.month, d.day, secs / 3600, secs % 3600 / 60, secs % 60);
      assert ts == days * SecondsPerDay + secs;
      Some(t)
  }

  /** Every valid datetime lies within the range `FromTimestamp` accepts. */
  lemma ToTimestampInRange(t: DateTime)
    requires ValidDateTime(t)
    ensures MinTimestamp <= ToTimestamp(t) <= MaxTimestamp
  {
    EpochAndLastDay();
    YearBound(DateOf(t), 10000);
  }

  /** Whole days and the second of the day come back out of their combination. */
  lemma DaySplit(days: int, secs: int)
    requires 0 <= secs < SecondsPerDay
    ensures (days * SecondsPerDay + secs) / SecondsPerDay == days
    ensures (days * SecondsPerDay + secs) % SecondsPerDay == secs
  {
  }

  /** Hours, minutes and seconds come back out of the second of the day. */
  lemma ClockSplit(h: int, m: int, s: int)
    requires 0 <= h < 24 && 0 <= m < 60 && 0 <= s < 60
    ensures var secs := h * 3600 + m * 60 + s;
      0 <= secs < SecondsPerDay && secs / 3600 == h && secs % 3600 / 60 == m && secs % 60 == s
  {
    var secs := h * 3600 + m * 60 + s;
    assert secs / 3600 == h && secs % 3600 == m * 60 + s;
    assert (m * 60 + s) / 60 == m && (m * 60 + s) % 60 == s;
  }

  /** Converting a valid datetime to epoch seconds and back gives the datetime. */
  lemma FromToTimestamp(t: DateTime)
    requires ValidDateTime(t)
    ensures FromTimestamp(ToTimestamp(t)) == Some(t)
  {
    ToTimestampInRange(t);
    var ts := ToTimestamp(t);
    var days := ToOrdinal(DateOf(t)) - EpochOrdinal;
    var secs := t.hour * 3600 + t.minute * 60 + t.second;
    ClockSplit(t.hour, t.minute, t.second);
    assert ts == days * SecondsPerDay + secs;
    DaySplit(days, secs);
    assert ts / SecondsPerDay == days && ts % SecondsPerDay == secs;
    OrdinalRoundTrip(DateOf(t));
    assert FromOrdinal(days + EpochOrdinal) == DateOf(t);
  }

  // ---------------------------------------------------------------------
  // Text form

  /** Positions of the two '-', the ' ' and the two ':' in `YYYY-MM-DD HH:MM:SS`. */
  predicate IsSeparatorIndex(k: int) {
    k == 4 || k == 7 || k == 10 || k == 13 || k == 16
  }

  /** Fixed width text `YYYY-MM-DD HH:MM:SS`: digits except for the five separators. */
  predicate IsTimestampText(s: string) {
    |s| == 19 && s[4] == '-' && s[7] == '-' && s[10] == ' ' && s[13] == ':' && s[16] == ':'
    && forall i :: 0 <= i < 19 && !IsSeparatorIndex(i) ==> IsDigit(s[i])
  }

  /** `%Y-%m-%d` */
  function FormatDate(t: DateTime): (s: string)
    requires ValidDateTime(t)
  {
    Pad(t.year, 4) + "-" + Pad(t.month, 2) + "-" + Pad(t.day, 2)
  }

  /** `%H:%M:%S` */
  function FormatClock(t: DateTime): (s: string)
    requires ValidDateTime(t)
  {
    Pad(t.hour, 2) + ":" + Pad(t.minute, 2) + ":" + Pad(t.second, 2)
  }

  /** `%Y-%m-%d %H:%M:%S` */
  function Format(t: DateTime): (s: string)
    requires ValidDateTime(t)
    ensures IsTimestampText(s)
    ensures s[..10] == FormatDate(t)
  {
    FormatDate(t) + " " + FormatClock(t)
  }

  lemma DigitSlice(s: string, i: int, j: int)
    requires IsTimestampText(s) && 0 <= i <= j <= 19
    requires forall k :: i <= k < j ==> !IsSeparatorIndex(k)
    ensures AllDigits(s[i..j])
  {
    forall k | 0 <= k < j - i ensures IsDigit(s[i..j][k]) {
      assert !IsSeparatorIndex(i + k);
    }
  }

  /** Reads `YYYY-MM-DD HH:MM:SS` strictly: the shape and every field range must hold. */
  function Parse(s: string): (r: Option<DateTime>)
    ensures r.Some? ==> IsTimestampText(s) && ValidDateTime(r.value)
  {
    if !IsTimestampText(s) then None
    else
      DigitSlice(s, 0, 4); DigitSlice(s, 5, 7); DigitSlice(s, 8, 10);
      DigitSlice(s, 11, 13); DigitSlice(s, 14, 16); DigitSlice(s, 17, 19);
      var t := DateTime(Value(s[0..4]), Value(s[5..7]), Value(s[8..10]),
                        Value(s[11..13]), Value(s[14..16]), Value(s[17..19]));
      if ValidDateTime(t) then Some(t) else None
  }

  /** Where the fields of `Format(t)` sit. */
  lemma FormatFields(t: DateTime)
    requires ValidDateTime(t)
    ensures var s := Format(t);
      s[0..4] == Pad(t.year, 4) && s[5..7] == Pad(t.month, 2) && s[8..10] == Pad(t.day, 2)
      && s[11..13] == Pad(t.hour, 2) && s[14..16] == Pad(t.minute, 2) && s[17..19] == Pad(t.second, 2)
  {
  }

  /** Parsing the text of a valid datetime gives the datetime back. */
  lemma ParseFormat(t: DateTime)
    requires ValidDateTime(t)
    ensures Parse(Format(t)) == Some(t)
  {
    FormatFields(t);
    ValuePad(t.year, 4);
    ValuePad(t.month, 2);
    ValuePad(t.day, 2);
    ValuePad(t.hour, 2);
    ValuePad(t.minute, 2);
    ValuePad(t.second, 2);
  }

  /** Text that parses is exactly the rendering of what it parses to. */
  lemma FormatParse(s: string)
    requires Parse(s).Some?
    ensures Format(Parse(s).value) == s
  {
    var t := Parse(s).value;
    DigitSlice(s, 0, 4); DigitSlice(s, 5, 7); DigitSlice(s, 8, 10);
    DigitSlice(s, 11, 13); DigitSlice(s, 14, 16); DigitSlice(s, 17, 19);
    PadValue(s[0..4]); PadValue(s[5..7]); PadValue(s[8..10]);
    PadValue(s[11..13]); PadValue(s[14..16]); PadValue(s[17..19]);
    FormatFields(t);
    var f := Format(t);
    assert forall k :: 0 <= k < 19 ==> f[k] == s[k] by {
      forall k | 0 <= k < 19 ensures f[k] == s[k] {
        if k < 4 { assert f[k] == f[0..4][k] && s[k] == s[0..4][k]; }
        else if 4 < k < 7 { assert f[k] == f[5..7][k - 5] && s[k] == s[5..7][k - 5]; }
        else if 7 < k < 10 { assert f[k] == f[8..10][k - 8] && s[k] == s[8..10][k - 8]; }
        else if 10 < k < 13 { assert f[k] == f[11..13][k - 11] && s[k] == s[11..13][k - 11]; }
        else if 13 < k < 16 { assert f[k] == f[14..16][k - 14] && s[k] == s[14..16][k - 14]; }
        else if 16 < k { assert f[k] == f[17..19][k - 17] && s[k] == s[17..19][k - 17]; }
      }
    }
  }

  // ---------------------------------------------------------------------
  // Epoch seconds <-> text, the form stored in the `datetime` column

  function FormatTimestamp(ts: int): (r: Option<string>)
    ensures r.Some? <==> MinTimestamp <= ts <= MaxTimestamp
    ensures r.Some? ==> IsTimestampText(r.value)
  {
    match FromTimestamp(ts)
    case None => None
    case Some(t) => Some(Format(t))
  }

  function ParseTimestamp(s: string): Option<int> {
    match Parse(s)
    case None => None
    case Some(t) => Some(ToTimestamp(t))
  }

  /** The stored text of `ts` reads back as `ts`. */
  lemma TimestampRoundTrip(ts: int)
    requires MinTimestamp <= ts <= MaxTimestamp
    ensures ParseTimestamp(FormatTimestamp(ts).value) == Some(ts)
  {
    ParseFormat(FromTimestamp(ts).value);
  }

  /** Text that reads as `ts` is the stored text of `ts`. */
  lemma TimestampTextRoundTrip(s: string)
    requires ParseTimestamp(s).Some?
    ensures FormatTimestamp(ParseTimestamp(s).value) == Some(s)
  {
    var t := Parse(s).value;
    FromToTimestamp(t);
    FormatParse(s);
  }

  /** Distinct instants never share a text. */
  lemma FormatTimestampInjective(ts1: int, ts2: int)
    requires FormatTimestamp(ts1).Some? && FormatTimestamp(ts1) == FormatTimestamp(ts2)
    ensures ts1 == ts2
  {
    TimestampRoundTrip(ts1);
    TimestampRoundTrip(ts2);
  }

  /**
   * The whole seconds of a fractional timestamp: Python first rounds it to
   * microseconds, ties to even, then drops the fraction.
   */
  function SecondsOf(x: real): (r: int)
    ensures r == if x - x.Floor as real >= 9999995.0 / 10000000.0 then x.Floor + 1 else x.Floor
  {
    RoundHalfEven(x * 1000000.0) / 1000000
  }

  /** 1700000000 seconds after the epoch is 2023-11-14 22:13:20 UTC. */
  lemma Instant1700000000()
    ensures FormatTimestamp(1700000000) == Some("2023-11-14 22:13:20")
  {
    var t := DateTime(2023, 11, 14, 22, 13, 20);
    assert DaysBeforeYear(2023) == 738520;
    assert DaysBeforeMonth(2023, 11) == 304;
    assert ToOrdinal(DateOf(t)) == 738838;
    assert ToTimestamp(t) == 1700000000;
    FromToTimestamp(t);
    FormatExample();
  }

  lemma FormatExample()
    ensures Format(DateTime(2023, 11, 14, 22, 13, 20)) == "2023-11-14 22:13:20"
  {
    DateExample();
    ClockExample();
  }

  lemma DateExample()
    ensures FormatDate(DateTime(2023, 11, 14, 22, 13, 20)) == "2023-11-14"
  {
    assert Pad(2023, 4) == "2023";
    assert Pad(11, 2) == "11" && Pad(14, 2) == "14";
  }

  lemma ClockExample()
    ensures FormatClock(DateTime(2023, 11, 14, 22, 13, 20)) == "22:13:20"
  {
    assert Pad(22, 2) == "22" && Pad(13, 2) == "13" && Pad(20, 2) == "20";
  }
}
