/** Calendar dates as Python's `datetime` holds them, their `'%Y-%m-%d'`
    rendering, and the `fmt_date_range` form `YYYY-MM-DD..YYYY-MM-DD`. */
module Dates {
  import opened Wrappers
  import opened Text

  datatype Ymd = Ymd(year: int, month: int, day: int)

  /** Gregorian leap years, as the proleptic calendar of `datetime` has them. */
  predicate IsLeapYear(y: int) {
    y % 4 == 0 && (y % 100 != 0 || y % 400 == 0)
  }

  function DaysInMonth(y: int, m: int): int
    requires 1 <= m <= 12
  {
    if m == 2 then (if IsLeapYear(y) then 29 else 28)
    else if m == 4 || m == 6 || m == 9 || m == 11 then 30
    else 31
  }

  /** The dates a `datetime` can hold: years 1 to 9999, real months and days. */
  predicate ValidDate(d: Ymd) {
    && 1 <= d.year <= 9999
    && 1 <= d.month <= 12
    && 1 <= d.day <= DaysInMonth(d.year, d.month)
  }

  type Date = d: Ymd | ValidDate(d) witness Ymd(1970, 1, 1)

  /** `d.strftime('%Y-%m-%d')`: four-digit year, two-digit month and day,
      each zero-padded, separated by dashes. */
  function FormatDate(d: Date): (r: string)
    ensures |r| == 10 && r[4] == '-' && r[7] == '-'
    ensures forall i :: 0 <= i < |r| ==> IsDigit(r[i]) || r[i] == '-'
    ensures IsDecimal(r[..4]) && DecimalValue(r[..4]) == d.year
    ensures IsDecimal(r[5..7]) && DecimalValue(r[5..7]) == d.month
    ensures IsDecimal(r[8..]) && DecimalValue(r[8..]) == d.day
  {
    ShowNatBelow(d.year, 4);
    ShowNatBelow(d.month, 2);
    ShowNatBelow(d.day, 2);
    var y := PadNat(d.year, 4);
    var m := PadNat(d.month, 2);
    var dd := PadNat(d.day, 2);
    DateLayout(y, m, dd);
    y + "-" + m + "-" + dd
  }

  /** Where the year, month and day stand in `YYYY-MM-DD`. */
  lemma {:induction false} DateLayout(y: string, m: string, dd: string)
    requires |y| == 4 && |m| == 2 && |dd| == 2
    requires IsDecimal(y) && IsDecimal(m) && IsDecimal(dd)
    ensures var r := y + "-" + m + "-" + dd;
            && |r| == 10 && r[4] == '-' && r[7] == '-'
            && (forall i :: 0 <= i < |r| ==> IsDigit(r[i]) || r[i] == '-')
            && r[..4] == y && r[5..7] == m && r[8..] == dd
  {
    var r := y + "-" + m + "-" + dd;
    assert r[..4] == y && r[5..7] == m && r[8..] == dd;
    forall i | 0 <= i < |r|
      ensures IsDigit(r[i]) || r[i] == '-'
    {
      if i < 4 {
        assert r[i] == y[i];
      } else if 5 <= i < 7 {
        assert r[i] == m[i - 5];
      } else if 8 <= i {
        assert r[i] == dd[i - 8];
      }
    }
  }

  /** The strict reading of `YYYY-MM-DD`: exactly the strings `FormatDate`
      produces. */
  function ParseDate(s: string): (r: Option<Date>)
  {
    if |s| == 10 && s[4] == '-' && s[7] == '-'
       && IsDecimal(s[..4]) && IsDecimal(s[5..7]) && IsDecimal(s[8..])
    then
      var d := Ymd(DecimalValue(s[..4]), DecimalValue(s[5..7]), DecimalValue(s[8..]));
      if ValidDate(d) then Some(d) else None
    else None
  }

  /** Formatting a date and reading it back gives the date. */
  lemma {:induction false} ParseFormatDate(d: Date)
    ensures ParseDate(FormatDate(d)) == Some(d)
  {
  }

  /** Every string `ParseDate` accepts is the rendering of the date it reads. */
  lemma {:induction false} FormatParsedDate(s: string)
    requires ParseDate(s).Some?
    ensures FormatDate(ParseDate(s).value) == s
  {
    var d := ParseDate(s).value;
    PadParsedNat(s[..4]);
    PadParsedNat(s[5..7]);
    PadParsedNat(s[8..]);
    assert s == s[..4] + "-" + s[5..7] + "-" + s[8..];
  }

  /** Distinct dates render differently. */
  lemma {:induction false} FormatDateInjective(a: Date, b: Date)
    requires FormatDate(a) == FormatDate(b)
    ensures a == b
  {
    ParseFormatDate(a);
    ParseFormatDate(b);
  }

  /** `fmt_date_range(start, end)`: the two dates joined by `..`. The range
      splits on `..` into exactly the two renderings. */
  function FormatDateRange(start: Date, end: Date): (r: string)
    ensures |r| == 22
    ensures forall i :: 0 <= i < |r| ==> IsDigit(r[i]) || r[i] == '-' || r[i] == '.'
    ensures SplitOn(r, "..") == [FormatDate(start), FormatDate(end)]
  {
    var a := FormatDate(start);
    var b := FormatDate(end);
    DateRangeLayout(a, b);
    a + ".." + b
  }

  /** Two renderings joined by `..`: which characters the range holds, and
      that it splits back into the two. */
  lemma {:induction false} DateRangeLayout(a: string, b: string)
    requires |a| == 10 && |b| == 10
    requires forall i :: 0 <= i < 10 ==> IsDigit(a[i]) || a[i] == '-'
    requires forall i :: 0 <= i < 10 ==> IsDigit(b[i]) || b[i] == '-'
    ensures var r := a + ".." + b;
            && |r| == 22
            && (forall i :: 0 <= i < |r| ==> IsDigit(r[i]) || r[i] == '-' || r[i] == '.')
            && SplitOn(r, "..") == [a, b]
  {
    CleanWithoutChar(a, "..");
    CleanWithoutChar(b, "..");
    SplitOfJoin([a, b], "..");
    assert JoinWith([a, b], "..") == a + ".." + b;
  }

  /** Reads `YYYY-MM-DD..YYYY-MM-DD` back into its two dates. */
  function ParseDateRange(s: string): Option<(Date, Date)> {
    var parts := SplitOn(s, "..");
    if |parts| != 2 then None
    else
      match (ParseDate(parts[0]), ParseDate(parts[1]))
      case (Some(a), Some(b)) => Some((a, b))
      case _ => None
  }

  lemma {:induction false} ParseFormatDateRange(start: Date, end: Date)
    ensures ParseDateRange(FormatDateRange(start, end)) == Some((start, end))
  {
    ParseFormatDate(start);
    ParseFormatDate(end);
  }
}
