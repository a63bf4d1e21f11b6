/**
 * The acceptance decisions of the converter's three input prompts, with the
 * `input()` / `print` retry loops removed: each function decides one entry.
 */
module Validation {
  import opened Wrappers
  import opened Dates

  // ---------------------------------------------------------------- currency

  /** `str.upper` on one character, for the ASCII letters. */
  function UpperChar(c: char): (u: char)
    ensures !('a' <= u <= 'z')
    ensures !('a' <= c <= 'z') ==> u == c
    ensures 'a' <= c <= 'z' ==> 'A' <= u <= 'Z' && u as int + 32 == c as int
  {
    if 'a' <= c <= 'z' then (c as int - 32) as char else c
  }

  /** `str.upper`, character by character. */
  function Upper(s: string): (u: string)
    ensures |u| == |s|
    ensures forall i | 0 <= i < |s| :: u[i] == UpperChar(s[i])
  {
    if s == [] then [] else [UpperChar(s[0])] + Upper(s[1..])
  }

  /** No lower-case ASCII letter occurs in `s`. */
  predicate IsUpper(s: string) {
    forall i | 0 <= i < |s| :: !('a' <= s[i] <= 'z')
  }

  /**
   * One pass of the currency prompt: the entry, upper-cased, is accepted and
   * returned exactly when it is a key of the supported-currency map.
   */
  function AcceptCurrency(entered: string, supported: map<string, string>): (r: Option<string>)
    ensures r.Some? <==> Upper(entered) in supported
    ensures r.Some? ==> r.value in supported && IsUpper(r.value) && |r.value| == |entered|
    ensures r.Some? ==> r.value == Upper(entered)
  {
    var code := Upper(entered);
    if code in supported then Some(code) else None
  }

  /** Upper-casing an upper-case string changes nothing. */
  lemma UpperFixesUpper(s: string)
    requires IsUpper(s)
    ensures Upper(s) == s
  {
  }

  /** A supported code typed in any mixture of cases is accepted as the code itself. */
  lemma SupportedCodeAccepted(code: string, entered: string, supported: map<string, string>)
    requires code in supported && IsUpper(code)
    requires Upper(entered) == code
    ensures AcceptCurrency(entered, supported) == Some(code)
  {
  }

  /** Accepting is idempotent: an accepted code is accepted again as itself. */
  lemma AcceptedCurrencyStable(entered: string, supported: map<string, string>)
    requires AcceptCurrency(entered, supported).Some?
    ensures AcceptCurrency(AcceptCurrency(entered, supported).value, supported)
            == AcceptCurrency(entered, supported)
  {
    UpperFixesUpper(AcceptCurrency(entered, supported).value);
  }

  // ---------------------------------------------------------------- date

  /** Why one pass of the date prompt rejects its entry (the `ValueError` raised). */
  datatype DateRejection = WrongLength | NotIsoDate | InFuture | BeforeEarliest

  /** The earliest date the prompt accepts. */
  const Earliest: Date := Date(2000, 1, 1)

  /**
   * One pass of the date prompt. `today` stands for `datetime.now()`: the parsed
   * date is a midnight, so it is later than `now` exactly when its day is after
   * today's. The accepted entry is returned as typed.
   */
  function CheckDate(entered: string, today: Date): (r: Result<string, DateRejection>)
    ensures |entered| != 10 ==> r == Failure(WrongLength)
    ensures r.Success? ==> r.value == entered && ParseIso(entered).Some?
    ensures r.Success? ==> !Before(ParseIso(entered).value, Earliest) && !Before(today, ParseIso(entered).value)
    ensures |entered| == 10 && ParseIso(entered).Some?
            && !Before(ParseIso(entered).value, Earliest) && !Before(today, ParseIso(entered).value)
            ==> r.Success?
  {
    if |entered| != 10 then Failure(WrongLength)
    else match ParseIso(entered)
      case None => Failure(NotIsoDate)
      case Some(d) =>
        if Before(today, d) then Failure(InFuture)
        else if Before(d, Earliest) then Failure(BeforeEarliest)
        else Success(entered)
  }

  /**
   * What an accepted date looks like: `YYYY-MM-DD` with a real calendar day,
   * a year from 2000 up to the current year, and no later than today.
   */
  lemma AcceptedDateInWindow(entered: string, today: Date)
    requires CheckDate(entered, today).Success?
    ensures |entered| == 10 && entered[4] == '-' && entered[7] == '-'
    ensures IsCalendarDate(ParseIso(entered).value)
    ensures 2000 <= ParseIso(entered).value.year <= today.year
  {
  }

  // ---------------------------------------------------------------- amount

  /**
   * `get_valid_amount` given what `float(...)` made of the entry (`None` for a
   * `ValueError`): a positive value is kept, anything else becomes 1.
   */
  function ValidAmount(parsed: Option<real>): (a: real)
    ensures a > 0.0
    ensures parsed.Some? && parsed.value > 0.0 ==> a == parsed.value
    ensures parsed.None? || parsed.value <= 0.0 ==> a == 1.0
  {
    if parsed.Some? && parsed.value > 0.0 then parsed.value else 1.0
  }

  /** The cases the project's tests assert: 100, 200.5 and 4.574 kept; -1, 0, "abc" and "" give 1. */
  lemma AmountTestCases()
    ensures ValidAmount(Some(100.0)) == 100.0 && ValidAmount(Some(200.5)) == 200.5
    ensures ValidAmount(Some(4.574)) == 4.574
    ensures ValidAmount(Some(-1.0)) == 1.0 && ValidAmount(Some(0.0)) == 1.0 && ValidAmount(None) == 1.0
  {
  }

  /** Feeding the returned amount back in returns it again. */
  lemma ValidAmountIdempotent(parsed: Option<real>)
    ensures ValidAmount(Some(ValidAmount(parsed))) == ValidAmount(parsed)
  {
  }
}
