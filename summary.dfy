/**
 * The query of `generate_daily_summary`,
 *   SELECT AVG(temperature), AVG(humidity) FROM weather_data WHERE DATE(datetime) = ?
 * and the three-line report it formats from the two averages.
 */
module Summary {
  import opened Wrappers
  import opened Decimal
  import opened Timestamp
  import opened Fetch

  // ---------------------------------------------------------------------
  // WHERE DATE(datetime) = ?

  /** SQLite's `DATE(x)` on the stored text form; NULL (None) for text that is not such a timestamp. */
  function SqlDate(s: string): (r: Option<string>)
    ensures r.Some? ==> IsTimestampText(s) && r.value == s[..10]
  {
    if Parse(s).Some? then Some(s[..10]) else None
  }

  /** The date of a stored timestamp is its first ten characters, `%Y-%m-%d`. */
  lemma SqlDateOfStored(ts: int)
    requires MinTimestamp <= ts <= MaxTimestamp
    ensures SqlDate(FormatTimestamp(ts).value) == Some(FormatDate(FromTimestamp(ts).value))
  {
    ParseFormat(FromTimestamp(ts).value);
  }

  predicate OnDate(row: Row, date: string) {
    SqlDate(row.datetime) == Some(date)
  }

  /** The rows the WHERE clause keeps, in table order. */
  function Matching(rows: seq<Row>, date: string): (m: seq<Row>)
    ensures |m| <= |rows|
  {
    if rows == [] then []
    else
      var last := rows[|rows| - 1];
      Matching(rows[..|rows| - 1], date) + (if OnDate(last, date) then [last] else [])
  }

  /** The WHERE clause keeps exactly the rows stored for `date`. */
  lemma {:induction false} MatchingMembers(rows: seq<Row>, date: string)
    ensures forall r :: r in Matching(rows, date) <==> r in rows && OnDate(r, date)
    decreases |rows|
  {
    if rows != [] {
      var init, last := rows[..|rows| - 1], rows[|rows| - 1];
      MatchingMembers(init, date);
      assert rows == init + [last];
    }
  }

  lemma {:induction false} MatchingConcat(u: seq<Row>, v: seq<Row>, date: string)
    ensures Matching(u + v, date) == Matching(u, date) + Matching(v, date)
    decreases |v|
  {
    if v == [] {
      assert u + v == u;
    } else {
      var v' := v[..|v| - 1];
      assert (u + v)[..|u + v| - 1] == u + v';
      MatchingConcat(u, v', date);
    }
  }

  // ---------------------------------------------------------------------
  // AVG(column)

  datatype Column = Temperature | Humidity

  function ValueIn(row: Row, c: Column): real {
    match c
    case Temperature => row.temperature
    case Humidity => row.humidity
  }

  function Sum(rows: seq<Row>, c: Column): real {
    if rows == [] then 0.0 else Sum(rows[..|rows| - 1], c) + ValueIn(rows[|rows| - 1], c)
  }

  lemma {:induction false} SumConcat(u: seq<Row>, v: seq<Row>, c: Column)
    ensures Sum(u + v, c) == Sum(u, c) + Sum(v, c)
    decreases |v|
  {
    if v == [] {
      assert u + v == u;
    } else {
      var v' := v[..|v| - 1];
      assert (u + v)[..|u + v| - 1] == u + v';
      SumConcat(u, v', c);
    }
  }

  /** AVG over a non-empty set of rows: their total over their number. */
  function Mean(m: seq<Row>, c: Column): (r: real)
    requires m != []
    ensures r * |m| as real == Sum(m, c)
  {
    QuotientTimesDivisor(Sum(m, c), |m| as real);
    Sum(m, c) / |m| as real
  }

  /** The result row of the query: both averages, or None where SQL gives NULL for no rows. */
  function DailyAverage(rows: seq<Row>, date: string): (r: Option<(real, real)>)
    ensures r.None? <==> forall i :: 0 <= i < |rows| ==> !OnDate(rows[i], date)
  {
    var m := Matching(rows, date);
    if m == [] then
      NoMatchesMeansNone(rows, date);
      None
    else
      MatchingMembers(rows, date);
      assert m[0] in rows;
      Some((Mean(m, Temperature), Mean(m, Humidity)))
  }

  lemma NoMatchesMeansNone(rows: seq<Row>, date: string)
    requires Matching(rows, date) == []
    ensures forall i :: 0 <= i < |rows| ==> !OnDate(rows[i], date)
  {
    MatchingMembers(rows, date);
    forall i | 0 <= i < |rows| ensures !OnDate(rows[i], date) {
      assert rows[i] in rows;
    }
  }

  function Component(avg: (real, real), c: Column): real {
    match c
    case Temperature => avg.0
    case Humidity => avg.1
  }

  /** With matches, each reported average is the mean of that column over exactly the matching rows. */
  lemma AverageIsMean(rows: seq<Row>, date: string, c: Column)
    requires DailyAverage(rows, date).Some?
    ensures Matching(rows, date) != []
    ensures Component(DailyAverage(rows, date).value, c) == Mean(Matching(rows, date), c)
  {
  }

  lemma QuotientTimesDivisor(s: real, n: real)
    requires n > 0.0
    ensures (s / n) * n == s
  {
  }

  lemma QuotientBounds(s: real, n: real, lo: real, hi: real)
    requires n > 0.0 && lo * n <= s <= hi * n
    ensures lo <= s / n <= hi
  {
    QuotientTimesDivisor(s, n);
  }

  /** The average lies between the least and greatest matching value. */
  lemma AverageWithinBounds(rows: seq<Row>, date: string, c: Column, lo: real, hi: real)
    requires DailyAverage(rows, date).Some?
    requires forall r :: r in rows && OnDate(r, date) ==> lo <= ValueIn(r, c) <= hi
    ensures lo <= Component(DailyAverage(rows, date).value, c) <= hi
  {
    AverageIsMean(rows, date, c);
    MatchingMembers(rows, date);
    MeanWithinBounds(Matching(rows, date), c, lo, hi);
  }

  lemma MeanWithinBounds(m: seq<Row>, c: Column, lo: real, hi: real)
    requires m != []
    requires forall r :: r in m ==> lo <= ValueIn(r, c) <= hi
    ensures lo <= Mean(m, c) <= hi
  {
    SumBounds(m, c, lo, hi);
    QuotientBounds(Sum(m, c), |m| as real, lo, hi);
  }

  lemma {:induction false} SumBounds(m: seq<Row>, c: Column, lo: real, hi: real)
    requires forall r :: r in m ==> lo <= ValueIn(r, c) <= hi
    ensures lo * |m| as real <= Sum(m, c) <= hi * |m| as real
  {
    if m != [] {
      var init, last := m[..|m| - 1], m[|m| - 1];
      forall r | r in init ensures lo <= ValueIn(r, c) <= hi {
        assert r in m;
      }
      assert last in m;
      SumBounds(init, c, lo, hi);
      assert Sum(m, c) == Sum(init, c) + ValueIn(last, c);
      assert |m| as real == |init| as real + 1.0;
      BoundsStep(Sum(init, c), ValueIn(last, c), |init| as real, lo, hi);
    }
  }

  /** Adding a value within the bounds to a total within the bounds for `n` values. */
  lemma BoundsStep(s: real, v: real, n: real, lo: real, hi: real)
    requires lo * n <= s <= hi * n && lo <= v <= hi
    ensures lo * (n + 1.0) <= s + v <= hi * (n + 1.0)
  {
    assert lo * (n + 1.0) == lo * n + lo;
    assert hi * (n + 1.0) == hi * n + hi;
  }


  /** A row stored for another day leaves that day's averages as they were. */
  lemma AppendOtherDay(rows: seq<Row>, row: Row, date: string)
    requires !OnDate(row, date)
    ensures DailyAverage(rows + [row], date) == DailyAverage(rows, date)
  {
    MatchingSnoc(rows, row, date);
    SameMatchesSameAverage(rows + [row], rows, date);
  }

  /** The averages are a function of the matching rows alone. */
  lemma SameMatchesSameAverage(a: seq<Row>, b: seq<Row>, date: string)
    requires Matching(a, date) == Matching(b, date)
    ensures DailyAverage(a, date) == DailyAverage(b, date)
  {
    if Matching(a, date) == [] {
      AverageOfNoMatches(a, date);
      AverageOfNoMatches(b, date);
    } else {
      AverageOfMatches(a, date);
      AverageOfMatches(b, date);
    }
  }

  lemma AverageOfNoMatches(rows: seq<Row>, date: string)
    requires Matching(rows, date) == []
    ensures DailyAverage(rows, date) == None
  {
  }

  /** A row stored for the day joins the end of its matches, adding its values to the totals. */
  lemma AppendSameDay(rows: seq<Row>, row: Row, date: string)
    requires OnDate(row, date)
    ensures Matching(rows + [row], date) == Matching(rows, date) + [row]
    ensures var m := Matching(rows, date);
      && DailyAverage(rows + [row], date) == Some((Mean(m + [row], Temperature), Mean(m + [row], Humidity)))
      && Sum(m + [row], Temperature) == Sum(m, Temperature) + row.temperature
      && Sum(m + [row], Humidity) == Sum(m, Humidity) + row.humidity
  {
    MatchingSnoc(rows, row, date);
    var m := Matching(rows, date);
    SumSnoc(m, row, Temperature);
    SumSnoc(m, row, Humidity);
    AverageOfMatches(rows + [row], date);
  }

  lemma MatchingSnoc(rows: seq<Row>, row: Row, date: string)
    ensures Matching(rows + [row], date) == Matching(rows, date) + (if OnDate(row, date) then [row] else [])
  {
    assert (rows + [row])[..|rows|] == rows;
  }

  lemma SumSnoc(m: seq<Row>, row: Row, c: Column)
    ensures Sum(m + [row], c) == Sum(m, c) + ValueIn(row, c)
  {
    assert (m + [row])[..|m|] == m;
  }

  lemma AverageOfMatches(rows: seq<Row>, date: string)
    requires Matching(rows, date) != []
    ensures DailyAverage(rows, date)
         == Some((Mean(Matching(rows, date), Temperature), Mean(Matching(rows, date), Humidity)))
  {
  }

  /** Removing the element at `i` and putting it back at the end permutes the sequence. */
  lemma RemoveAt<T>(b: seq<T>, i: int)
    requires 0 <= i < |b|
    ensures multiset(b) == multiset(b[..i] + b[i + 1..]) + multiset{b[i]}
  {
    assert b == b[..i] + [b[i]] + b[i + 1..];
  }

  /** Splitting off the element a permutation shares with the last element of `u`. */
  lemma PermutationSplit<T>(u: seq<T>, v: seq<T>) returns (i: int)
    requires multiset(u) == multiset(v) && u != []
    ensures 0 <= i < |v| && v[i] == u[|u| - 1]
    ensures multiset(u[..|u| - 1]) == multiset(v[..i] + v[i + 1..])
  {
    var x := u[|u| - 1];
    var u' := u[..|u| - 1];
    assert u == u' + [x];
    assert multiset(u) == multiset(u') + multiset{x};
    assert x in multiset(v);
    assert x in v;
    i :| 0 <= i < |v| && v[i] == x;
    RemoveAt(v, i);
    var A, B := multiset(u'), multiset(v[..i] + v[i + 1..]);
    assert A + multiset{x} == B + multiset{x};
    forall y ensures A[y] == B[y] {
      assert (A + multiset{x})[y] == (B + multiset{x})[y];
    }
    assert A == B;
  }

  /** A total does not depend on the order of the rows. */
  lemma {:induction false} SumPermutation(u: seq<Row>, v: seq<Row>, c: Column)
    requires multiset(u) == multiset(v)
    ensures Sum(u, c) == Sum(v, c)
    decreases |u|
  {
    if u == [] {
      assert v == [] by { assert |multiset(v)| == 0; }
    } else {
      var i := PermutationSplit(u, v);
      var x := u[|u| - 1];
      SumPermutation(u[..|u| - 1], v[..i] + v[i + 1..], c);
      assert v == v[..i] + ([x] + v[i + 1..]);
      SumConcat(v[..i], [x] + v[i + 1..], c);
      SumConcat([x], v[i + 1..], c);
      SumConcat(v[..i], v[i + 1..], c);
      assert Sum([x], c) == ValueIn(x, c) by { assert [x][..0] == []; }
    }
  }

  /** Each row occurs among the matches as often as in the table if it is stored for `date`, else never. */
  lemma {:induction false} MatchingMultiplicity(rows: seq<Row>, date: string, r: Row)
    ensures multiset(Matching(rows, date))[r] == if OnDate(r, date) then multiset(rows)[r] else 0
    decreases |rows|
  {
    if rows != [] {
      var init, last := rows[..|rows| - 1], rows[|rows| - 1];
      MatchingMultiplicity(init, date, r);
      assert rows == init + [last];
      assert multiset(rows) == multiset(init) + multiset{last};
    }
  }

  /** The WHERE clause keeps the same rows, as a multiset, whatever their order. */
  lemma MatchingPermutation(a: seq<Row>, b: seq<Row>, date: string)
    requires multiset(a) == multiset(b)
    ensures multiset(Matching(a, date)) == multiset(Matching(b, date))
  {
    forall r ensures multiset(Matching(a, date))[r] == multiset(Matching(b, date))[r] {
      MatchingMultiplicity(a, date, r);
      MatchingMultiplicity(b, date, r);
    }
  }

  /** The averages do not depend on the order in which rows were appended. */
  lemma DailyAveragePermutation(a: seq<Row>, b: seq<Row>, date: string)
    requires multiset(a) == multiset(b)
    ensures DailyAverage(a, date) == DailyAverage(b, date)
  {
    MatchingPermutation(a, b, date);
    var ma, mb := Matching(a, date), Matching(b, date);
    assert |ma| == |mb| by { assert |multiset(ma)| == |multiset(mb)|; }
    SumPermutation(ma, mb, Temperature);
    SumPermutation(ma, mb, Humidity);
    if ma == [] {
      AverageOfNoMatches(a, date);
      AverageOfNoMatches(b, date);
    } else {
      AverageOfMatches(a, date);
      AverageOfMatches(b, date);
    }
  }

  // ---------------------------------------------------------------------
  // The report

  /**
   * `f"{x:.2f}"`: sign, integer part, '.', two decimals of |x| rounded to
   * hundredths, ties to even. Python keeps the '-' of a negative value that
   * rounds to zero.
   */
  function Fixed2(x: real): (s: string)
    ensures |s| >= 4
  {
    var n := RoundHalfEven(if x < 0.0 then -x * 100.0 else x * 100.0);
    assert n >= 0;
    (if x < 0.0 then "-" else "") + Digits(n / 100) + "." + Pad(n % 100, 2)
  }

  /** Reads `[-]digits.dd` back as the number it denotes. */
  function ReadFixed2(s: string): Option<real> {
    if |s| < 4 || s[|s| - 3] != '.' then None
    else
      var negative := s[0] == '-';
      var whole := s[(if negative then 1 else 0)..|s| - 3];
      var cents := s[|s| - 2..];
      if whole == [] || !AllDigits(whole) || !AllDigits(cents) then None
      else
        var v := Value(whole) as real + Value(cents) as real / 100.0;
        Some(if negative then -v else v)
  }

  /** The two-decimal text of `x` reads back as a value within half a hundredth of `x`. */
  lemma Fixed2Accurate(x: real)
    ensures ReadFixed2(Fixed2(x)).Some?
    ensures -1.0 / 200.0 <= ReadFixed2(Fixed2(x)).value - x <= 1.0 / 200.0
  {
    var a := if x < 0.0 then -x * 100.0 else x * 100.0;
    var n := RoundHalfEven(a);
    var sign := if x < 0.0 then "-" else "";
    var whole, cents := Digits(n / 100), Pad(n % 100, 2);
    var s := Fixed2(x);
    assert s == sign + whole + "." + cents;
    Fixed2Parts(sign, whole, cents);
    assert IsDigit(whole[0]);
    ReadFixed2Of(s, |sign|, whole, cents);
    ValueDigits(n / 100);
    ValuePad(n % 100, 2);
    var v := (n / 100) as real + (n % 100) as real / 100.0;
    assert v == n as real / 100.0;
  }

  /** Where the sign, the whole part, the point and the cents sit in the text. */
  lemma Fixed2Parts(sign: string, whole: string, cents: string)
    requires |whole| >= 1 && |cents| == 2
    ensures var s := sign + whole + "." + cents;
      && s[|s| - 3] == '.' && s[|s| - 2..] == cents && s[|sign|..|s| - 3] == whole
      && s[0] == (if sign == [] then whole[0] else sign[0])
  {
    var s := sign + whole + "." + cents;
    assert s == (sign + whole + ".") + cents;
    assert s[..|s| - 2] == sign + whole + ".";
    assert (sign + whole + ".")[|sign|..|s| - 3] == whole;
  }

  /** Text whose sign, whole part and cents sit at the given places reads back as their value. */
  lemma ReadFixed2Of(s: string, start: nat, whole: string, cents: string)
    requires |s| >= 4 && s[|s| - 3] == '.' && start == (if s[0] == '-' then 1 else 0)
    requires start <= |s| - 3 && s[start..|s| - 3] == whole && s[|s| - 2..] == cents
    requires |whole| >= 1 && AllDigits(whole) && AllDigits(cents)
    ensures var v := Value(whole) as real + Value(cents) as real / 100.0;
      ReadFixed2(s) == Some(if start == 1 then -v else v)
  {
  }

  const HeadingLabel: string := "\U{1F4CA} Weather Summary for "
  const TemperatureLabel: string := "Average Temperature: "
  const HumidityLabel: string := "Average Humidity: "

  function Heading(date: string): string { HeadingLabel + date + ":\n" }
  function TemperatureLine(t: real): string { TemperatureLabel + Fixed2(t) + "\U{B0}C\n" }
  function HumidityLine(h: real): string { HumidityLabel + Fixed2(h) + "%\n" }

  function Report(date: string, t: real, h: real): string {
    Heading(date) + TemperatureLine(t) + HumidityLine(h)
  }

  lemma Regroup(a: string, b: string, c: string, d: string, e: string)
    ensures a + (b + c + d) + e == (a + b) + c + (d + e)
    ensures (a + b) + (c + d + e) == (a + b + c) + d + e
  {
  }

  lemma SliceOfConcat(p: string, x: string, q: string)
    ensures (p + x + q)[|p|..|p| + |x|] == x
  {
    assert (p + x + q)[|p|..|p| + |x|] == (p + x)[|p|..];
  }

  /** The heading names the requested date right after its label. */
  lemma ReportNamesDate(date: string, t: real, h: real)
    ensures var k := |HeadingLabel|;
      Report(date, t, h)[k..k + |date|] == date
  {
    var rest := ":\n" + TemperatureLine(t) + HumidityLine(h);
    assert Report(date, t, h) == HeadingLabel + date + rest;
    SliceOfConcat(HeadingLabel, date, rest);
  }

  /** After the temperature label stands the average temperature to two decimals. */
  lemma ReportTemperature(date: string, t: real, h: real)
    ensures var i := |Heading(date)| + |TemperatureLabel|;
      var s := Report(date, t, h)[i..i + |Fixed2(t)|];
      && s == Fixed2(t)
      && ReadFixed2(s).Some? && -1.0 / 200.0 <= ReadFixed2(s).value - t <= 1.0 / 200.0
  {
    var before, rest := Heading(date) + TemperatureLabel, "\U{B0}C\n" + HumidityLine(h);
    Regroup(Heading(date), TemperatureLabel, Fixed2(t), "\U{B0}C\n", HumidityLine(h));
    SliceOfConcat(before, Fixed2(t), rest);
    Fixed2Accurate(t);
  }

  /** After the humidity label stands the average humidity to two decimals. */
  lemma ReportHumidity(date: string, t: real, h: real)
    ensures var j := |Heading(date)| + |TemperatureLine(t)| + |HumidityLabel|;
      var s := Report(date, t, h)[j..j + |Fixed2(h)|];
      && s == Fixed2(h)
      && ReadFixed2(s).Some? && -1.0 / 200.0 <= ReadFixed2(s).value - h <= 1.0 / 200.0
  {
    var before := Heading(date) + TemperatureLine(t) + HumidityLabel;
    Regroup(Heading(date), TemperatureLine(t), HumidityLabel, Fixed2(h), "%\n");
    assert Report(date, t, h) == (Heading(date) + TemperatureLine(t)) + (HumidityLabel + Fixed2(h) + "%\n");
    SliceOfConcat(before, Fixed2(h), "%\n");
    Fixed2Accurate(h);
  }

  // ---------------------------------------------------------------------
  // Worked example: two readings on 2024-04-01, one on 2024-04-02

  function Reading(t: DateTime, temperature: real, humidity: real): Row
    requires ValidDateTime(t)
  {
    Row("D\U{FC}sseldorf", Format(t), temperature, humidity, "clear sky")
  }

  const Morning := DateTime(2024, 4, 1, 6, 0, 0)
  const Evening := DateTime(2024, 4, 1, 18, 0, 0)
  const NextMorning := DateTime(2024, 4, 2, 6, 0, 0)

  /** A stored reading falls on the date part of its own timestamp. */
  lemma ReadingDate(t: DateTime, temperature: real, humidity: real)
    requires ValidDateTime(t)
    ensures SqlDate(Reading(t, temperature, humidity).datetime) == Some(FormatDate(t))
  {
    ParseFormat(t);
  }

  lemma FirstOfApril(hour: int)
    requires 0 <= hour < 24
    ensures FormatDate(DateTime(2024, 4, 1, hour, 0, 0)) == "2024-04-01"
  {
    Year2024();
    assert Pad(4, 2) == "04" && Pad(1, 2) == "01";
  }

  lemma SecondOfApril(hour: int)
    requires 0 <= hour < 24
    ensures FormatDate(DateTime(2024, 4, 2, hour, 0, 0)) == "2024-04-02"
  {
    Year2024();
    assert Pad(4, 2) == "04" && Pad(2, 2) == "02";
  }

  lemma Year2024()
    ensures Pad(2024, 4) == "2024"
  {
    assert Pad(2, 1) == "2";
    assert Pad(20, 2) == "20";
    assert Pad(202, 3) == "202";
  }

  lemma ExampleDates()
    ensures ValidDateTime(Morning) && ValidDateTime(Evening) && ValidDateTime(NextMorning)
    ensures OnDate(Reading(Morning, 10.0, 50.0), "2024-04-01")
    ensures OnDate(Reading(Evening, 20.0, 70.0), "2024-04-01")
    ensures !OnDate(Reading(NextMorning, 30.0, 90.0), "2024-04-01")
  {
    ReadingDate(Morning, 10.0, 50.0);
    ReadingDate(Evening, 20.0, 70.0);
    ReadingDate(NextMorning, 30.0, 90.0);
    FirstOfApril(6);
    FirstOfApril(18);
    SecondOfApril(6);
  }

  /** Two matching rows around any rows of other days: the averages are the midpoints of the two. */
  lemma AverageOfTwo(r1: Row, others: seq<Row>, r3: Row, date: string)
    requires OnDate(r1, date) && OnDate(r3, date)
    requires forall i :: 0 <= i < |others| ==> !OnDate(others[i], date)
    ensures DailyAverage([r1] + others + [r3], date)
         == Some(((r1.temperature + r3.temperature) / 2.0, (r1.humidity + r3.humidity) / 2.0))
  {
    MatchingAround(r1, others, r3, date);
    MeanOfTwo(r1, r3, Temperature);
    MeanOfTwo(r1, r3, Humidity);
    AverageOfMatches([r1] + others + [r3], date);
  }

  lemma MatchingAround(r1: Row, others: seq<Row>, r3: Row, date: string)
    requires OnDate(r1, date) && OnDate(r3, date)
    requires forall i :: 0 <= i < |others| ==> !OnDate(others[i], date)
    ensures Matching([r1] + others + [r3], date) == [r1, r3]
  {
    NothingOnDate(others, date);
    MatchingConcat([r1] + others, [r3], date);
    MatchingConcat([r1], others, date);
    MatchingSnoc([], r1, date);
    assert [] + [r1] == [r1];
    MatchingSnoc([], r3, date);
    assert [] + [r3] == [r3];
    assert [r1] + [] + [r3] == [r1, r3];
  }

  lemma MeanOfTwo(r1: Row, r3: Row, c: Column)
    ensures Mean([r1, r3], c) == (ValueIn(r1, c) + ValueIn(r3, c)) / 2.0
  {
    SumSnoc([], r1, c);
    assert [] + [r1] == [r1];
    SumSnoc([r1], r3, c);
    assert [r1] + [r3] == [r1, r3];
  }

  /** Rows none of which is stored for `date` leave nothing for the WHERE clause. */
  lemma {:induction false} NothingOnDate(rows: seq<Row>, date: string)
    requires forall i :: 0 <= i < |rows| ==> !OnDate(rows[i], date)
    ensures Matching(rows, date) == []
    decreases |rows|
  {
    if rows != [] {
      NothingOnDate(rows[..|rows| - 1], date);
    }
  }

  /**
   * Temperatures 10 and 20, humidities 50 and 70 on 2024-04-01 average to
   * 15 and 60, whatever rows of other days are stored between them.
   */
  lemma TwoReadingsOneDay(others: seq<Row>)
    requires forall i :: 0 <= i < |others| ==> !OnDate(others[i], "2024-04-01")
    ensures ValidDateTime(Morning) && ValidDateTime(Evening)
    ensures DailyAverage([Reading(Morning, 10.0, 50.0)] + others + [Reading(Evening, 20.0, 70.0)], "2024-04-01")
         == Some((15.0, 60.0))
  {
    ExampleDates();
    AverageOfTwo(Reading(Morning, 10.0, 50.0), others, Reading(Evening, 20.0, 70.0), "2024-04-01");
  }

  /** The next morning's reading stored between the two leaves the day's averages at 15 and 60. */
  lemma TwoReadingsAroundNextMorning()
    ensures ValidDateTime(Morning) && ValidDateTime(Evening) && ValidDateTime(NextMorning)
    ensures DailyAverage([Reading(Morning, 10.0, 50.0), Reading(NextMorning, 30.0, 90.0),
                          Reading(Evening, 20.0, 70.0)], "2024-04-01") == Some((15.0, 60.0))
  {
    ExampleDates();
    AverageOfThree(Reading(Morning, 10.0, 50.0), Reading(NextMorning, 30.0, 90.0),
                   Reading(Evening, 20.0, 70.0), "2024-04-01");
  }

  /** The case of `AverageOfTwo` with a single row of another day between the two. */
  lemma AverageOfThree(r1: Row, r2: Row, r3: Row, date: string)
    requires OnDate(r1, date) && !OnDate(r2, date) && OnDate(r3, date)
    ensures DailyAverage([r1, r2, r3], date)
         == Some(((r1.temperature + r3.temperature) / 2.0, (r1.humidity + r3.humidity) / 2.0))
  {
    AverageOfTwo(r1, [r2], r3, date);
    assert [r1] + [r2] + [r3] == [r1, r2, r3];
  }

  /**
   * With no reading stored for the day the query yields no averages at
   * all, rather than zeros: a table whose rows all lie on another day.
   */
  lemma NoReadingsThatDay(rows: seq<Row>, stored: string, asked: string)
    requires stored != asked
    requires forall i :: 0 <= i < |rows| ==> OnDate(rows[i], stored)
    ensures DailyAverage(rows, asked) == None
  {
  }

  /** The two 2024-04-01 readings give no averages for 2024-04-02. */
  lemma NoReadingsNextDay()
    ensures ValidDateTime(Morning) && ValidDateTime(Evening)
    ensures DailyAverage([Reading(Morning, 10.0, 50.0), Reading(Evening, 20.0, 70.0)], "2024-04-02") == None
  {
    ExampleDates();
    NoReadingsOfPair(Reading(Morning, 10.0, 50.0), Reading(Evening, 20.0, 70.0), "2024-04-01", "2024-04-02");
  }

  /** The case of `NoReadingsThatDay` with a table of two rows. */
  lemma NoReadingsOfPair(r1: Row, r2: Row, stored: string, asked: string)
    requires stored != asked && OnDate(r1, stored) && OnDate(r2, stored)
    ensures DailyAverage([r1, r2], asked) == None
  {
    NoReadingsThatDay([r1, r2], stored, asked);
  }

  lemma Fixed2Whole(n: nat, text: string)
    requires 10 <= n < 100 && text == Digits(n) + ".00"
    ensures Fixed2(n as real) == text
  {
    var x := n as real * 100.0;
    assert RoundHalfEven(x) == n * 100;
    assert (n * 100) / 100 == n && (n * 100) % 100 == 0;
    assert Pad(0, 2) == "00";
  }

  /** The report for those averages, character for character. */
  lemma ExampleReport()
    ensures Report("2024-04-01", 15.0, 60.0)
         == "\U{1F4CA} Weather Summary for 2024-04-01:\n"
          + "Average Temperature: 15.00\U{B0}C\n"
          + "Average Humidity: 60.00%\n"
  {
    assert Digits(15) == "15" && Digits(60) == "60";
    Fixed2Whole(15, "15.00");
    Fixed2Whole(60, "60.00");
    assert TemperatureLine(15.0) == "Average Temperature: 15.00\U{B0}C\n";
    assert HumidityLine(60.0) == "Average Humidity: 60.00%\n";
    assert Heading("2024-04-01") == "\U{1F4CA} Weather Summary for 2024-04-01:\n";
  }
}
