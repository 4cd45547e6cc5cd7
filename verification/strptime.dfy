/**
 * The two input formats that reservas/views.py hands to Python's
 * `datetime.strptime`: `%H:%M` for the ends of a time block and `%Y-%m-%d`
 * for the date, together with Python's `str.split`.
 *
 * `strptime` turns a format into a regular expression, takes its first match
 * at the start of the string and fails unless that match covers the whole
 * string. The fields used here are
 *   %H  `2[0-3]|[0-1]\d|\d`       %M  `[0-5]\d|\d`
 *   %Y  `\d\d\d\d`                %m  `1[0-2]|0[1-9]|[1-9]`
 *   %d  `3[01]|[12]\d|0[1-9]|[1-9]| [1-9]`
 * separated by literal ':' or '-'. No field can contain its separator, and in
 * every alternation a longer spelling is tried before a shorter one with the
 * same prefix, so the first match covers the whole string exactly when the
 * string splits at the separators into pieces each of which is a spelling of
 * its field. That is how the parsers below are written.
 */
module Strptime {
  import opened Wrappers

  /** Seconds since midnight. */
  type Time = t: int | 0 <= t < 86400

  const SecondsPerDay: int := 86400
  const SecondsPerHour: int := 3600

  predicate IsDigit(c: char)
  {
    '0' <= c <= '9'
  }

  function DigitValue(c: char): (d: nat)
    requires IsDigit(c)
    ensures d < 10
  {
    (c as int) - ('0' as int)
  }

  function DigitChar(d: nat): (c: char)
    requires d < 10
    ensures IsDigit(c) && DigitValue(c) == d
  {
    ((d + '0' as int) as char)
  }

  predicate AllDigits(f: string)
  {
    forall i :: 0 <= i < |f| ==> IsDigit(f[i])
  }

  /** The decimal value of a string of digits. */
  function Number(f: string): nat
    requires AllDigits(f)
  {
    if f == [] then 0 else Number(f[..|f| - 1]) * 10 + DigitValue(f[|f| - 1])
  }

  /** The value of a two-digit string. */
  lemma NumberOfTwo(f: string)
    requires |f| == 2 && AllDigits(f)
    ensures Number(f) == DigitValue(f[0]) * 10 + DigitValue(f[1])
  {
    var g := f[..1];
    assert g[..0] == [] && g[0] == f[0];
    assert Number(g) == DigitValue(f[0]);
  }

  /** The value of a four-digit string. */
  lemma NumberOfFour(f: string)
    requires |f| == 4 && AllDigits(f)
    ensures Number(f) == DigitValue(f[0]) * 1000 + DigitValue(f[1]) * 100 + DigitValue(f[2]) * 10 + DigitValue(f[3])
  {
    var g := f[..3];
    assert g[..2] == f[..2];
    NumberOfTwo(f[..2]);
  }

  // ---------------------------------------------------------------- str.split

  /** Index of the first occurrence of `c` in `s`. */
  function IndexOf(s: string, c: char): (i: nat)
    requires c in s
    ensures i < |s| && s[i] == c && c !in s[..i]
  {
    if s[0] == c then 0 else 1 + IndexOf(s[1..], c)
  }

  /** The first position holding `c` is the one IndexOf finds. */
  lemma {:induction false} IndexOfFirst(s: string, c: char, i: nat)
    requires i < |s| && s[i] == c && c !in s[..i]
    ensures IndexOf(s, c) == i
  {
    if i > 0 {
      assert s[0] == s[..i][0];
      assert s[1..][..i - 1] == s[..i][1..];
      IndexOfFirst(s[1..], c, i - 1);
    }
  }

  /** `sep.join(parts)`. */
  function Join(parts: seq<string>, sep: char): string
    requires |parts| >= 1
  {
    if |parts| == 1 then parts[0] else parts[0] + [sep] + Join(parts[1..], sep)
  }

  /**
   * Python's `s.split(sep)` for a one-character separator: the pieces between
   * the occurrences of `sep`, which joined by `sep` give back `s`.
   */
  function Split(s: string, sep: char): (parts: seq<string>)
    ensures |parts| >= 1
    ensures forall i :: 0 <= i < |parts| ==> sep !in parts[i]
    ensures Join(parts, sep) == s
    decreases |s|
  {
    if sep !in s then [s]
    else
      var i := IndexOf(s, sep);
      var rest := Split(s[i + 1..], sep);
      assert s == s[..i] + [sep] + s[i + 1..];
      [s[..i]] + rest
  }

  /** Splitting undoes joining pieces that do not contain the separator. */
  lemma {:induction false} SplitJoin(parts: seq<string>, sep: char)
    requires |parts| >= 1
    requires forall i :: 0 <= i < |parts| ==> sep !in parts[i]
    ensures Split(Join(parts, sep), sep) == parts
  {
    if |parts| > 1 {
      var s := Join(parts, sep);
      var p := parts[0];
      assert s == p + [sep] + Join(parts[1..], sep);
      assert s[|p|] == sep;
      assert s[..|p|] == p;
      assert sep in s;
      IndexOfFirst(s, sep, |p|);
      assert s[|p| + 1..] == Join(parts[1..], sep);
      SplitJoin(parts[1..], sep);
    }
  }

  // ----------------------------------------------------------- the fields

  /** A spelling of `%H`: one digit, or two digits worth at most 23. */
  predicate HourField(f: string)
  {
    1 <= |f| <= 2 && AllDigits(f) && Number(f) <= 23
  }

  /** A spelling of `%M`: one digit, or two digits worth at most 59. */
  predicate MinuteField(f: string)
  {
    1 <= |f| <= 2 && AllDigits(f) && Number(f) <= 59
  }

  /** A spelling of `%Y`: exactly four digits. */
  predicate YearField(f: string)
  {
    |f| == 4 && AllDigits(f)
  }

  /** A spelling of `%m`: one or two digits worth 1 to 12. */
  predicate MonthField(f: string)
  {
    1 <= |f| <= 2 && AllDigits(f) && 1 <= Number(f) <= 12
  }

  /** A spelling of `%d`: one or two digits worth 1 to 31, or a space and a digit 1 to 9. */
  predicate DayField(f: string)
  {
    || (1 <= |f| <= 2 && AllDigits(f) && 1 <= Number(f) <= 31)
    || (|f| == 2 && f[0] == ' ' && '1' <= f[1] <= '9')
  }

  function DayValue(f: string): (d: nat)
    requires DayField(f)
    ensures 1 <= d <= 31
  {
    if f[0] == ' ' then DigitValue(f[1]) else Number(f)
  }

  // --------------------------------------------------------------- %H:%M

  /**
   * `datetime.strptime(s, '%H:%M').time()`, as seconds since midnight, or
   * None where strptime raises ValueError.
   */
  function ParseTime(s: string): (r: Option<Time>)
    ensures r.Some? ==> r.value % 60 == 0
  {
    var parts := Split(s, ':');
    if |parts| == 2 && HourField(parts[0]) && MinuteField(parts[1]) then
      var h, m := Number(parts[0]), Number(parts[1]);
      assert h * 3600 + m * 60 <= 23 * 3600 + 59 * 60;
      Some(h * 3600 + m * 60)
    else
      None
  }

  /** Two digits, zero-padded. */
  function Pad2(n: nat): (f: string)
    requires n < 100
    ensures |f| == 2 && AllDigits(f) && Number(f) == n
  {
    var f := [DigitChar(n / 10), DigitChar(n % 10)];
    assert f[..1][..0] == [];
    assert Number(f[..1]) == n / 10;
    f
  }

  /** Four digits, zero-padded. */
  function Pad4(n: nat): (f: string)
    requires n < 10000
    ensures |f| == 4 && AllDigits(f) && Number(f) == n
  {
    var f := Pad2(n / 100) + Pad2(n % 100);
    assert f[..3] == Pad2(n / 100) + [f[2]];
    assert f[..3][..2] == Pad2(n / 100);
    f
  }

  /** The `HH:MM` spelling of a time of day, seconds dropped (`time.strftime('%H:%M')`). */
  function FormatTime(t: Time): (s: string)
    ensures |s| == 5 && s[2] == ':'
    ensures forall i :: 0 <= i < |s| && i != 2 ==> IsDigit(s[i])
  {
    Pad2(t / SecondsPerHour) + ":" + Pad2(t % SecondsPerHour / 60)
  }

  /** Parsing a formatted time gives it back, to the minute. */
  lemma ParseFormatTime(t: Time)
    ensures ParseTime(FormatTime(t)) == Some(t - t % 60)
  {
    var h, m := Pad2(t / SecondsPerHour), Pad2(t % SecondsPerHour / 60);
    assert ':' !in h && ':' !in m;
    assert HourField(h) && MinuteField(m);
    ParseTimeFields(h, m);
    assert t / 3600 * 3600 + t % 3600 / 60 * 60 == t - t % 60;
  }

  /**
   * A string with one ':' is read as a time exactly when the piece before it
   * spells an hour (one or two digits, at most 23) and the piece after it a
   * minute (one or two digits, at most 59); the time is that hour and minute.
   */
  lemma ParseTimeFields(hs: string, ms: string)
    requires ':' !in hs && ':' !in ms
    ensures ParseTime(hs + ":" + ms).Some? <==> HourField(hs) && MinuteField(ms)
    ensures ParseTime(hs + ":" + ms).Some? ==> ParseTime(hs + ":" + ms).value == Number(hs) * 3600 + Number(ms) * 60
  {
    assert Join([hs, ms], ':') == hs + ":" + ms;
    SplitJoin([hs, ms], ':');
  }

  /** Only a string of three to five characters with exactly one ':' is read as a time. */
  lemma ParseTimeOneColon(s: string)
    ensures ParseTime(s).Some? ==> multiset(s)[':'] == 1 && 3 <= |s| <= 5
  {
    var parts := Split(s, ':');
    if |parts| == 2 {
      assert parts[1..] == [parts[1]];
      assert s == parts[0] + [':'] + parts[1];
      assert multiset(s) == multiset(parts[0]) + multiset{':'} + multiset(parts[1]);
    }
  }

  /** A single-digit hour is accepted: `9:05` is five past nine. */
  lemma ShortHourAccepted(hs: string, ms: string)
    requires hs == "9" && ms == "05"
    ensures ParseTime(hs + ":" + ms) == Some(9 * 3600 + 5 * 60)
  {
    ParseTimeFields(hs, ms);
    NumberOfTwo(ms);
    assert Number(hs) == 9 by { assert hs[..0] == []; }
  }

  /** Hour 24 is refused, so `24:00` is not a time. */
  lemma HourTwentyFourRefused(hs: string, ms: string)
    requires hs == "24" && ms == "00"
    ensures ParseTime(hs + ":" + ms).None?
  {
    ParseTimeFields(hs, ms);
    NumberOfTwo(hs);
  }

  /** Minute 60 is refused, so `12:60` is not a time. */
  lemma MinuteSixtyRefused(hs: string, ms: string)
    requires hs == "12" && ms == "60"
    ensures ParseTime(hs + ":" + ms).None?
  {
    ParseTimeFields(hs, ms);
    NumberOfTwo(ms);
  }

  // ----------------------------------------------------------- %Y-%m-%d

  /** A calendar date, `datetime.date`. */
  datatype Fecha = Fecha(year: int, month: int, day: int)

  predicate IsLeap(y: int)
  {
    y % 4 == 0 && (y % 100 != 0 || y % 400 == 0)
  }

  function DaysInMonth(y: int, m: int): (n: nat)
    requires 1 <= m <= 12
    ensures 28 <= n <= 31
  {
    if m == 2 then (if IsLeap(y) then 29 else 28)
    else if m == 4 || m == 6 || m == 9 || m == 11 then 30
    else 31
  }

  /** The dates `datetime.date` can represent (proleptic Gregorian, years 1 to 9999). */
  predicate ValidFecha(d: Fecha)
  {
    1 <= d.year <= 9999 && 1 <= d.month <= 12 && 1 <= d.day <= DaysInMonth(d.year, d.month)
  }

  /**
   * `datetime.strptime(s, '%Y-%m-%d').date()`, or None where strptime raises
   * ValueError: a malformed string, year 0, or a day past the end of its month.
   */
  function ParseDate(s: string): (r: Option<Fecha>)
    ensures r.Some? ==> ValidFecha(r.value)
  {
    var parts := Split(s, '-');
    if |parts| == 3 && YearField(parts[0]) && MonthField(parts[1]) && DayField(parts[2]) then
      var d := Fecha(Number(parts[0]), Number(parts[1]), DayValue(parts[2]));
      if ValidFecha(d) then Some(d) else None
    else
      None
  }

  /** `date.isoformat()`. */
  function FormatFecha(d: Fecha): string
    requires ValidFecha(d)
  {
    Pad4(d.year) + "-" + Pad2(d.month) + "-" + Pad2(d.day)
  }

  lemma NoDigitIsSeparator(f: string, c: char)
    requires AllDigits(f) && !IsDigit(c)
    ensures c !in f
  {
  }

  /** Every valid date is parsed back from its ISO spelling. */
  lemma ParseFormatFecha(d: Fecha)
    requires ValidFecha(d)
    ensures ParseDate(FormatFecha(d)) == Some(d)
  {
    var y, m, dd := Pad4(d.year), Pad2(d.month), Pad2(d.day);
    NoDigitIsSeparator(y, '-');
    NoDigitIsSeparator(m, '-');
    NoDigitIsSeparator(dd, '-');
    var parts := [y, m, dd];
    assert parts[1..] == [m, dd] && [m, dd][1..] == [dd];
    assert Join([m, dd], '-') == m + "-" + dd;
    assert Join(parts, '-') == y + "-" + (m + "-" + dd);
    assert Join(parts, '-') == FormatFecha(d);
    SplitJoin(parts, '-');
    assert Split(FormatFecha(d), '-') == parts;
    assert YearField(y) && MonthField(m) && DayField(dd);
    assert DayValue(dd) == d.day by {
      assert dd[0] != ' ';
    }
  }

  /**
   * A string with two '-' is read as a date exactly when the pieces between
   * them spell a year (four digits), a month (one or two digits, 1 to 12) and
   * a day (one or two digits, or a space and a digit), and those numbers name
   * a real date; the date is the one they name.
   */
  lemma ParseDateFields(ys: string, ms: string, ds: string)
    requires '-' !in ys && '-' !in ms && '-' !in ds
    ensures ParseDate(ys + "-" + ms + "-" + ds).Some? <==>
      YearField(ys) && MonthField(ms) && DayField(ds) &&
      ValidFecha(Fecha(Number(ys), Number(ms), DayValue(ds)))
    ensures ParseDate(ys + "-" + ms + "-" + ds).Some? ==>
      ParseDate(ys + "-" + ms + "-" + ds).value == Fecha(Number(ys), Number(ms), DayValue(ds))
  {
    var parts := [ys, ms, ds];
    assert parts[1..] == [ms, ds] && [ms, ds][1..] == [ds];
    assert Join([ms, ds], '-') == ms + "-" + ds;
    assert Join(parts, '-') == ys + "-" + ms + "-" + ds;
    SplitJoin(parts, '-');
  }

  /** Only a string with exactly two '-' is read as a date. */
  lemma ParseDateTwoDashes(s: string)
    ensures ParseDate(s).Some? ==> multiset(s)['-'] == 2
  {
    var parts := Split(s, '-');
    if |parts| == 3 {
      var rest := parts[1..];
      assert rest[1..] == [parts[2]];
      assert Join(rest, '-') == parts[1] + ['-'] + parts[2];
      assert s == parts[0] + ['-'] + (parts[1] + ['-'] + parts[2]);
      assert multiset(s) == multiset(parts[0]) + multiset{'-'} + multiset(parts[1]) + multiset{'-'} + multiset(parts[2]);
    }
  }

  /** A one-digit month and day are accepted: `2024-1-5` is the 5th of January 2024. */
  lemma ShortMonthDayAccepted(ys: string, ms: string, ds: string)
    requires ys == "2024" && ms == "1" && ds == "5"
    ensures ParseDate(ys + "-" + ms + "-" + ds) == Some(Fecha(2024, 1, 5))
  {
    ParseDateFields(ys, ms, ds);
    NumberOfFour(ys);
    assert Number(ms) == 1 by { assert ms[..0] == []; }
    assert Number(ds) == 5 by { assert ds[..0] == []; }
  }

  /** A day written with a leading space is accepted: `2024-01- 5` is the 5th of January 2024. */
  lemma SpacedDayAccepted(ys: string, ms: string, ds: string)
    requires ys == "2024" && ms == "01" && ds == " 5"
    ensures ParseDate(ys + "-" + ms + "-" + ds) == Some(Fecha(2024, 1, 5))
  {
    ParseDateFields(ys, ms, ds);
    NumberOfFour(ys);
    NumberOfTwo(ms);
  }

  /** Month 13 is refused, so `2024-13-01` is not a date. */
  lemma MonthThirteenRefused(ys: string, ms: string, ds: string)
    requires ys == "2024" && ms == "13" && ds == "01"
    ensures ParseDate(ys + "-" + ms + "-" + ds).None?
  {
    ParseDateFields(ys, ms, ds);
    NumberOfTwo(ms);
  }

  /** The 29th of February outside a leap year is refused: `2023-02-29` is not a date. */
  lemma NonLeapDayRefused(ys: string, ms: string, ds: string)
    requires ys == "2023" && ms == "02" && ds == "29"
    ensures ParseDate(ys + "-" + ms + "-" + ds).None?
  {
    ParseDateFields(ys, ms, ds);
    NumberOfFour(ys);
    NumberOfTwo(ms);
    NumberOfTwo(ds);
  }
}
