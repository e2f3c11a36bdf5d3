/**
 * Dates as the bot writes and reads them: the `YYYY-MM-DD` text of the Date
 * column, the year key and month name the aggregations derive from it, the
 * order the date sort puts rows in, and the default date built from the clock.
 */
module Dates {
  import opened Wrappers
  import opened Text

  /** A calendar date of the ISO 8601 calendar-date extended form `YYYY-MM-DD`. */
  datatype Date = Date(year: nat, month: nat, day: nat)

  const MonthNames: seq<string> :=
    ["January", "February", "March", "April", "May", "June",
     "July", "August", "September", "October", "November", "December"]

  /** What `toLocaleString` gives for a date whose month is `NaN`. */
  const InvalidDate: string := "Invalid Date"

  /** The yearly aggregation's key: the text before the first '-' of the date. */
  function YearKey(date: string): (key: string)
    ensures |key| <= |date| && key == date[..|key|] && '-' !in key
    ensures |key| < |date| ==> date[|key|] == '-'
  {
    BeforeFirst(date, '-')
  }

  /**
   * The long month name of `new Date(year, parseInt(month) - 1)`, where
   * `month` is the second '-'-separated field. The Date constructor carries a
   * month outside 0..11 into the neighbouring years, so, within the range a
   * Date can hold, the name depends only on the month number modulo 12; a
   * missing or non-numeric field makes the date invalid.
   */
  function MonthLabel(date: string): (name: string)
    ensures name == InvalidDate || name in MonthNames
  {
    MonthOfField(Field(date, '-', 1))
  }

  /** The long month name for the text of the month field, if there is one. */
  function MonthOfField(field: Option<string>): (name: string)
    ensures name == InvalidDate || name in MonthNames
  {
    match field
    case None => InvalidDate
    case Some(segment) =>
      match ParseIntPrefix(segment)
      case None => InvalidDate
      case Some(m) => MonthName(m)
  }

  /** The long name of 1-based month `m`, counted round the year for months outside 1..12. */
  function MonthName(m: int): (name: string)
    ensures name in MonthNames
  {
    MonthNames[(m - 1) % 12]
  }

  lemma MonthNameOfIndex(i: nat)
    requires i < 12
    ensures MonthName(i + 1) == MonthNames[i]
  {
    assert (i + 1 - 1) % 12 == i;
  }

  /** Position of `x` in `s`, or -1: JavaScript's `indexOf`. */
  function IndexOf(s: seq<string>, x: string): (i: int)
    ensures -1 <= i < |s|
    ensures i >= 0 ==> s[i] == x && x !in s[..i]
    ensures i == -1 <==> x !in s
  {
    if s == [] then -1
    else if s[0] == x then 0
    else
      var j := IndexOf(s[1..], x);
      if j == -1 then -1
      else
        assert s[..j + 1] == [s[0]] + s[1..][..j];
        j + 1
  }

  /** The calendar position the monthly table is sorted by: `months.indexOf(name)`. */
  function MonthOrder(name: string): (n: int)
    ensures -1 <= n < 12
    ensures n >= 0 ==> MonthNames[n] == name
    ensures n == -1 <==> name !in MonthNames
  {
    IndexOf(MonthNames, name)
  }

  lemma MonthNamesDistinct(i: nat, j: nat)
    requires i < j < 12
    ensures MonthNames[i] != MonthNames[j]
  {
    var a, b := MonthNames[i], MonthNames[j];
    if |a| == |b| && a[0] == b[0] {
      assert a[2] != b[2];
    }
  }

  /** Each month name sorts at its own calendar position, so the order is January..December. */
  lemma MonthOrderOfName(i: nat)
    requires i < 12
    ensures MonthOrder(MonthNames[i]) == i
  {
    var j := MonthOrder(MonthNames[i]);
    assert MonthNames[i] in MonthNames;
    if j < i {
      MonthNamesDistinct(j, i);
    }
  }

  /** A label the month table cannot place (the invalid-date label) sorts before January. */
  lemma MonthOrderOfInvalid()
    ensures MonthOrder(InvalidDate) == -1
  {
    assert InvalidDate !in MonthNames;
  }

  /** Parses exactly the text `YYYY-MM-DD` with a month of 1..12 and a day of 1..31. */
  function ParseDate(s: string): (r: Option<Date>)
    ensures r.Some? ==> 1 <= r.value.month <= 12 && 1 <= r.value.day <= 31 && r.value.year < 10000
  {
    if |s| == 10 && s[4] == '-' && s[7] == '-' && AllDigits(s[..4]) && AllDigits(s[5..7]) && AllDigits(s[8..]) then
      var d := Date(DigitsValue(s[..4]), DigitsValue(s[5..7]), DigitsValue(s[8..]));
      assert DigitsValue(s[..4]) < 10000 by { DigitsValueBound(s[..4]); }
      if 1 <= d.month <= 12 && 1 <= d.day <= 31 then Some(d) else None
    else None
  }

  lemma {:induction false} DigitsValueBound(s: string)
    requires AllDigits(s)
    ensures DigitsValue(s) < Pow10(|s|)
  {
    if s != [] {
      DigitsValueBound(s[..|s| - 1]);
    }
  }

  /** Chronological order of dates: by year, then month, then day. */
  predicate NotAfter(a: Date, b: Date)
  {
    a.year < b.year
    || (a.year == b.year && a.month < b.month)
    || (a.year == b.year && a.month == b.month && a.day <= b.day)
  }

  /**
   * The number a row's date sorts by: its days counted as `YYYYMMDD`, or -1
   * when the row has no date of the form `YYYY-MM-DD`, so such rows sort
   * before every dated row.
   */
  function DateKey(row: seq<string>): (k: int)
    ensures k >= 0 <==> |row| > 0 && ParseDate(row[0]).Some?
  {
    if |row| > 0 && ParseDate(row[0]).Some? then
      var d := ParseDate(row[0]).value;
      d.year * 10000 + d.month * 100 + d.day
    else -1
  }

  /** Between rows whose dates parse, the sort key orders them chronologically, in both directions. */
  lemma DateKeyChronological(r1: seq<string>, r2: seq<string>)
    requires |r1| > 0 && |r2| > 0
    requires ParseDate(r1[0]).Some? && ParseDate(r2[0]).Some?
    ensures DateKey(r1) <= DateKey(r2) <==> NotAfter(ParseDate(r1[0]).value, ParseDate(r2[0]).value)
  {
  }

  /**
   * The date used when the command gives none: the year, the 1-based month
   * and the day of the month, the last two zero-padded to two digits.
   * `monthIndex` is the clock's 0-based month.
   */
  function DefaultDate(year: nat, monthIndex: nat, day: nat): (date: string)
    requires monthIndex < 12 && 1 <= day <= 31
    ensures YearKey(date) == Show(year)
    ensures MonthLabel(date) == MonthNames[monthIndex]
  {
    var y, m, d := Show(year), Pad2(Show(monthIndex + 1)), Pad2(Show(day));
    DigitsValuePad2(monthIndex + 1);
    YearKeyOfJoin(y, m + "-" + d);
    MonthLabelOfJoin(y, m, d);
    MonthNameOfIndex(monthIndex);
    y + "-" + (m + "-" + d)
  }

  lemma NoDash(s: string)
    requires AllDigits(s)
    ensures '-' !in s
  {
  }

  /** For a four-digit year the default date is valid `YYYY-MM-DD` text and parses back to the clock's date. */
  lemma DefaultDateParses(year: nat, monthIndex: nat, day: nat)
    requires 1000 <= year <= 9999 && monthIndex < 12 && 1 <= day <= 31
    ensures ParseDate(DefaultDate(year, monthIndex, day)) == Some(Date(year, monthIndex + 1, day))
  {
    var y, m, d := Show(year), Pad2(Show(monthIndex + 1)), Pad2(Show(day));
    ShowFourDigits(year);
    DigitsValueShow(year);
    DigitsValuePad2(monthIndex + 1);
    DigitsValuePad2(day);
    var s := DefaultDate(year, monthIndex, day);
    assert s == y + "-" + m + "-" + d;
    assert s[..4] == y && s[5..7] == m && s[8..] == d;
  }

  lemma YearKeyOfJoin(y: string, rest: string)
    requires AllDigits(y)
    ensures YearKey(y + "-" + rest) == y
  {
    NoDash(y);
    BeforeFirstOfJoin(y, '-', rest);
  }

  lemma MonthFieldOfJoin(y: string, m: string, d: string)
    requires AllDigits(y) && AllDigits(m)
    ensures Field(y + "-" + (m + "-" + d), '-', 1) == Some(m)
  {
    NoDash(y);
    NoDash(m);
    FieldsOfJoin(y, '-', m + "-" + d);
    BeforeFirstOfJoin(m, '-', d);
  }

  lemma MonthLabelOfJoin(y: string, m: string, d: string)
    requires AllDigits(y) && AllDigits(m) && |m| > 0
    ensures MonthLabel(y + "-" + (m + "-" + d)) == MonthName(DigitsValue(m))
  {
    MonthFieldOfJoin(y, m, d);
    ParseIntWhole(m);
  }
}
