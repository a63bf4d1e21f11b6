/**
 * Calendar dates and the parser behind `datetime.strptime(s, "%Y-%m-%d")`.
 *
 * The parser follows the directive patterns of CPython's `_strptime`:
 * `%Y` is four digits, `%m` is `1[0-2]|0[1-9]|[1-9]`, `%d` is
 * `3[01]|[12]\d|0[1-9]|[1-9]| [1-9]`, the whole string must be consumed,
 * and the fields must then form a real `datetime` (year 1..9999, a day that
 * exists in that month).
 */
module Dates {
  import opened Wrappers

  /** A day of the proleptic Gregorian calendar; `strptime` puts it at midnight. */
  datatype Date = Date(year: int, month: int, day: int)

  predicate IsLeapYear(y: int) {
    y % 4 == 0 && (y % 100 != 0 || y % 400 == 0)
  }

  function DaysInMonth(year: int, month: int): (n: int)
    requires 1 <= month <= 12
    ensures 28 <= n <= 31
    ensures n == 29 <==> month == 2 && IsLeapYear(year)
  {
    if month == 2 then (if IsLeapYear(year) then 29 else 28)
    else if month == 4 || month == 6 || month == 9 || month == 11 then 30
    else 31
  }

  /** The dates `datetime.datetime(year, month, day)` accepts. */
  predicate IsCalendarDate(d: Date)
    ensures IsCalendarDate(d) ==> 1 <= d.day <= 31
    ensures IsCalendarDate(d) && d.month == 2 ==> d.day <= 29 && (d.day == 29 ==> IsLeapYear(d.year))
  {
    1 <= d.year <= 9999 && 1 <= d.month <= 12 && 1 <= d.day <= DaysInMonth(d.year, d.month)
  }

  /** `a` falls on a strictly earlier day than `b` (the `<` of two midnights). */
  predicate Before(a: Date, b: Date)
    ensures Before(a, b) ==> a != b && a.year <= b.year
  {
    a.year < b.year
    || (a.year == b.year && (a.month < b.month || (a.month == b.month && a.day < b.day)))
  }

  /** `Before` is a strict total order: of two different days exactly one comes first. */
  lemma BeforeStrictTotal(a: Date, b: Date)
    ensures Before(a, b) ==> !Before(b, a)
    ensures !Before(a, b) && !Before(b, a) ==> a == b
  {
  }

  predicate IsDigit(c: char) {
    '0' <= c <= '9'
  }

  function DigitValue(c: char): (v: int)
    requires IsDigit(c)
    ensures 0 <= v <= 9
  {
    c as int - '0' as int
  }

  function DigitChar(v: int): (c: char)
    requires 0 <= v <= 9
    ensures IsDigit(c) && DigitValue(c) == v
  {
    ('0' as int + v) as char
  }

  /** The `%Y` directive: exactly four digits. */
  function ParseYear(t: string): (r: Option<int>)
    ensures r.Some? <==> |t| == 4 && forall i | 0 <= i < 4 :: IsDigit(t[i])
    ensures r.Some? ==> 0 <= r.value <= 9999
  {
    if |t| == 4 && IsDigit(t[0]) && IsDigit(t[1]) && IsDigit(t[2]) && IsDigit(t[3]) then
      Some(1000 * DigitValue(t[0]) + 100 * DigitValue(t[1]) + 10 * DigitValue(t[2]) + DigitValue(t[3]))
    else
      None
  }

  /** The `%m` directive: `1[0-2]`, `0[1-9]` or a single `[1-9]`. */
  function ParseMonth(t: string): (r: Option<int>)
    ensures r.Some? ==> 1 <= r.value <= 12 && 1 <= |t| <= 2
    ensures |t| == 1 ==> (r.Some? <==> '1' <= t[0] <= '9') && (r.Some? ==> r.value == DigitValue(t[0]))
    ensures |t| == 2 && IsDigit(t[0]) && IsDigit(t[1]) ==>
              var v := 10 * DigitValue(t[0]) + DigitValue(t[1]);
              (r.Some? <==> 1 <= v <= 12) && (r.Some? ==> r.value == v)
    ensures |t| == 2 && !(IsDigit(t[0]) && IsDigit(t[1])) ==> r.None?
  {
    if |t| == 1 && '1' <= t[0] <= '9' then Some(DigitValue(t[0]))
    else if |t| == 2 && t[0] == '1' && '0' <= t[1] <= '2' then Some(10 + DigitValue(t[1]))
    else if |t| == 2 && t[0] == '0' && '1' <= t[1] <= '9' then Some(DigitValue(t[1]))
    else None
  }

  /** The `%d` directive: `3[01]`, `[12]\d`, `0[1-9]`, `[1-9]` or a space then `[1-9]`. */
  function ParseDay(t: string): (r: Option<int>)
    ensures r.Some? ==> 1 <= r.value <= 31 && 1 <= |t| <= 2
    ensures |t| == 1 ==> (r.Some? <==> '1' <= t[0] <= '9') && (r.Some? ==> r.value == DigitValue(t[0]))
    ensures |t| == 2 && IsDigit(t[0]) && IsDigit(t[1]) ==>
              var v := 10 * DigitValue(t[0]) + DigitValue(t[1]);
              (r.Some? <==> 1 <= v <= 31) && (r.Some? ==> r.value == v)
    ensures |t| == 2 && t[0] == ' ' ==>
              (r.Some? <==> '1' <= t[1] <= '9') && (r.Some? ==> r.value == DigitValue(t[1]))
    ensures |t| == 2 && ((!IsDigit(t[0]) && t[0] != ' ') || !IsDigit(t[1])) ==> r.None?
  {
    if |t| == 1 && '1' <= t[0] <= '9' then Some(DigitValue(t[0]))
    else if |t| == 2 && t[0] == '3' && '0' <= t[1] <= '1' then Some(30 + DigitValue(t[1]))
    else if |t| == 2 && '1' <= t[0] <= '2' && IsDigit(t[1]) then Some(10 * DigitValue(t[0]) + DigitValue(t[1]))
    else if |t| == 2 && (t[0] == '0' || t[0] == ' ') && '1' <= t[1] <= '9' then Some(DigitValue(t[1]))
    else None
  }

  /** The three fields once the separators are found, checked as `datetime` checks them. */
  function Fields(y: string, m: string, d: string): (r: Option<Date>)
    ensures r.Some? ==> IsCalendarDate(r.value)
    ensures r.Some? ==> ParseYear(y) == Some(r.value.year) && ParseMonth(m) == Some(r.value.month)
                        && ParseDay(d) == Some(r.value.day)
    ensures ParseYear(y).Some? && ParseMonth(m).Some? && ParseDay(d).Some?
            && IsCalendarDate(Date(ParseYear(y).value, ParseMonth(m).value, ParseDay(d).value))
            ==> r == Some(Date(ParseYear(y).value, ParseMonth(m).value, ParseDay(d).value))
  {
    match (ParseYear(y), ParseMonth(m), ParseDay(d))
    case (Some(year), Some(month), Some(day)) =>
      if IsCalendarDate(Date(year, month, day)) then Some(Date(year, month, day)) else None
    case _ => None
  }

  /**
   * `datetime.strptime(s, "%Y-%m-%d")`, with `None` for its `ValueError`.
   * The year is the first four characters; the month token ends at the next `-`,
   * which no directive can consume, so at most one split can succeed.
   */
  function ParseIso(s: string): (r: Option<Date>)
    ensures r.Some? ==> IsCalendarDate(r.value) && 8 <= |s| <= 10 && s[4] == '-'
    ensures |s| == 10 && s[4] == '-' && s[7] == '-' ==> r == Fields(s[..4], s[5..7], s[8..])
  {
    if |s| < 8 || s[4] != '-' then None
    else if s[6] == '-' then Fields(s[..4], s[5..6], s[7..])
    else if |s| >= 9 && s[7] == '-' then Fields(s[..4], s[5..7], s[8..])
    else None
  }

  /** The decimal text Python's `f"{year}"` gives for a four-digit year. */
  function YearText(y: int): (t: string)
    requires 1000 <= y <= 9999
    ensures |t| == 4 && ParseYear(t) == Some(y)
  {
    var a, r1 := y / 1000, y % 1000;
    var b, r2 := r1 / 100, r1 % 100;
    var c, d := r2 / 10, r2 % 10;
    [DigitChar(a), DigitChar(b), DigitChar(c), DigitChar(d)]
  }

  /** Two zero-padded decimal digits, as `%m` and `%d` are written out. */
  function TwoDigits(v: int): (t: string)
    requires 0 <= v <= 99
    ensures |t| == 2 && IsDigit(t[0]) && IsDigit(t[1])
    ensures 10 * DigitValue(t[0]) + DigitValue(t[1]) == v
  {
    [DigitChar(v / 10), DigitChar(v % 10)]
  }

  /** A date written `YYYY-MM-DD`, the layout the date prompt asks for. */
  function IsoText(d: Date): (s: string)
    requires IsCalendarDate(d) && 1000 <= d.year
    ensures |s| == 10 && s[4] == '-' && s[7] == '-'
  {
    YearText(d.year) + "-" + TwoDigits(d.month) + "-" + TwoDigits(d.day)
  }

  /** `%m` reads every zero-padded month back as itself. */
  lemma MonthRoundTrip(m: int)
    requires 1 <= m <= 12
    ensures ParseMonth(TwoDigits(m)) == Some(m)
  {
  }

  /** `%d` reads every zero-padded day back as itself. */
  lemma DayRoundTrip(v: int)
    requires 1 <= v <= 31
    ensures ParseDay(TwoDigits(v)) == Some(v)
  {
  }

  /** Every calendar date with a four-digit year, written `YYYY-MM-DD`, parses back to itself. */
  lemma IsoRoundTrip(d: Date)
    requires IsCalendarDate(d) && 1000 <= d.year
    ensures ParseIso(IsoText(d)) == Some(d)
  {
    var s := IsoText(d);
    assert s[..4] == YearText(d.year);
    assert s[5..7] == TwoDigits(d.month);
    assert s[8..] == TwoDigits(d.day);
    MonthRoundTrip(d.month);
    DayRoundTrip(d.day);
  }

  /** A ten-character string `strptime` accepts is laid out as `YYYY-MM-DD`. */
  lemma TenCharacterLayout(s: string)
    requires |s| == 10 && ParseIso(s).Some?
    ensures s[4] == '-' && s[7] == '-'
    ensures forall i | 0 <= i < 4 :: IsDigit(s[i])
    ensures ParseMonth(s[5..7]) == Some(ParseIso(s).value.month)
    ensures ParseDay(s[8..]) == Some(ParseIso(s).value.day)
  {
  }
}
