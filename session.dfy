/**
 * How the pieces meet in `main`: the date the prompt accepts is the date
 * whose year and month split the series that the annual fetch returns.
 */
module Session {
  import opened Wrappers
  import opened Dates
  import opened Validation
  import opened AnnualSeries
  import opened Plot

  /** The half-year whose sample the baseline should start from. */
  function HalfOf(month: int): Half {
    if month >= 7 then July else January
  }

  /**
   * While the current year is at most 2024, an accepted date and a full series
   * always give a baseline.
   */
  lemma AcceptedDateBaselineBuilt<T>(rates: seq<T>, entered: string, today: Date)
    requires |rates| == 50
    requires CheckDate(entered, today).Success?
    requires today.year <= 2024
    ensures Baseline(rates, ParseIso(entered).value.year, entered).Success?
  {
  }

  /**
   * From 2025 on, the prompt accepts dates whose year is not in `years`, and
   * the plot then raises at `years.index`, for any non-empty, even-length series.
   */
  lemma AcceptedDateAfter2024Fails<T>(rates: seq<T>, entered: string, today: Date)
    requires |rates| > 0 && |rates| % 2 == 0
    requires CheckDate(entered, today).Success?
    requires ParseIso(entered).value.year >= 2025
    ensures Baseline(rates, ParseIso(entered).value.year, entered).Failure?
    ensures Baseline(rates, ParseIso(entered).value.year, entered).error == YearNotListed
  {
  }

  /** Such a date exists: on 1 March 2025 the prompt accepts "2025-03-01". */
  lemma DateIn2025Accepted()
    ensures CheckDate("2025-03-01", Date(2025, 3, 1)) == Success("2025-03-01")
    ensures ParseIso("2025-03-01") == Some(Date(2025, 3, 1))
  {
    var s := "2025-03-01";
    assert s[4] == '-' && s[6] == '3' && s[7] == '-';
    assert s[..4] == "2025" && s[5..7] == "03" && s[8..] == "01";
    assert Fields("2025", "03", "01") == Some(Date(2025, 3, 1));
  }

  /**
   * With all 50 samples present, the baseline is the 1 January 2000 rate up to
   * the split index, and from there on the rate sampled at the start of the
   * query date's half-year.
   */
  lemma FullSeriesBaselineAligned(fetch: string -> Fetched, entered: string, today: Date)
    requires AnnualRates(fetch).Some? && |AnnualRates(fetch).value| == ScheduleLength
    requires CheckDate(entered, today).Success?
    requires today.year <= 2024
    ensures var d := ParseIso(entered).value;
            var b := Baseline(AnnualRates(fetch).value, d.year, entered);
            var k := SplitIndex(d.year, entered).value;
            && b.Success?
            && (forall i | 0 <= i < k :: fetch(SampleDate(FirstYear, January)) == Ok(b.value[i]))
            && (forall i | k <= i < ScheduleLength :: fetch(SampleDate(d.year, HalfOf(d.month))) == Ok(b.value[i]))
  {
    var rates := AnnualRates(fetch).value;
    var os := Responses(fetch);
    var d := ParseIso(entered).value;
    AcceptedDateInWindow(entered, today);
    FullLengthMeansAllKept(os);
    AllKeptAligned(os);
    ResponsesOfYear(fetch, FirstYear);
    ResponsesOfYear(fetch, d.year);
    var k := SplitIndex(d.year, entered).value;
    assert os[k] == fetch(SampleDate(d.year, HalfOf(d.month)));
    assert rates[0] == os[0].rate && rates[k] == os[k].rate;
  }

  /**
   * When both requests of 2000 fail and every other request succeeds, the
   * series has 48 entries and each sits two places before the request it
   * came from: position `k` no longer holds the query date's sample.
   */
  lemma FirstYearGapShiftsSeries(fetch: string -> Fetched)
    requires forall i | 0 <= i < 2 :: !Kept(Responses(fetch)[i]) && !Responses(fetch)[i].Raise?
    requires forall i | 2 <= i < ScheduleLength :: Kept(Responses(fetch)[i])
    ensures AnnualRates(fetch).Some? && |AnnualRates(fetch).value| == 48
    ensures forall j | 0 <= j < 48 :: Responses(fetch)[j + 2] == Ok(AnnualRates(fetch).value[j])
  {
    var os := Responses(fetch);
    assert os == os[..2] + os[2..];
    KeptRatesAppend(os[..2], os[2..]);
    KeptRatesEmpty(os[..2]);
    AllKeptAligned(os[2..]);
    assert !AnyRaise(os) by {
      forall i | 0 <= i < |os| ensures !os[i].Raise? {
        if i >= 2 { assert Kept(os[i]); }
      }
    }
    assert Kept(os[2]);
  }

  /**
   * A 48-entry series and a query in the second half of 2024 reach
   * `rates[49]`, which raises IndexError.
   */
  lemma ShortSeriesLateQueryFails<T>(rates: seq<T>, entered: string)
    requires |rates| == 48
    requires ParseIso(entered).Some? && ParseIso(entered).value.year == 2024
    requires ParseIso(entered).value.month >= 7
    ensures Baseline(rates, 2024, entered).Failure?
    ensures Baseline(rates, 2024, entered).error == IndexOutOfRange
  {
  }
}
