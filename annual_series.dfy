/**
 * `get_annual_exchange_rate_data`: one request for 1 January and one for
 * 1 July of every year from 2000 to 2024, keeping each rate that came back.
 *
 * The network is an oracle `fetch` from the requested date string to what the
 * loop body makes of the response. The base and target currencies are fixed
 * for a whole run, so they are folded into the oracle.
 */
module AnnualSeries {
  import opened Wrappers
  import opened Dates

  const FirstYear: int := 2000
  /** `range(2000, 2025)` stops before this year. */
  const EndYear: int := 2025
  /** Two samples for each of the 25 years. */
  const ScheduleLength: nat := 50

  datatype Half = January | July

  /** What one request amounts to once the loop body has looked at it. */
  datatype Fetched =
    | Ok(rate: real)   // status 200 and `rates[target]` present
    | BadStatus        // a status other than 200
    | Missing          // status 200 without `rates[target]` (`.get` gives None)
    | Raise            // `requests.get` or `response.json()` raised

  /** The date string the loop builds, `f"{year}-01-01"` or `f"{year}-07-01"`. */
  function SampleDate(year: int, half: Half): (s: string)
    requires FirstYear <= year < EndYear
    ensures |s| == 10
  {
    YearText(year) + (if half == January then "-01-01" else "-07-01")
  }

  /** The requested dates are real dates: 1 January or 1 July of the year. */
  lemma SampleDateParses(year: int, half: Half)
    requires FirstYear <= year < EndYear
    ensures ParseIso(SampleDate(year, half)) == Some(Date(year, if half == January then 1 else 7, 1))
  {
    var s := SampleDate(year, half);
    assert s[..4] == YearText(year);
  }

  /** The year and half requested at position `i` of the run. */
  function SlotYear(i: int): int requires 0 <= i < ScheduleLength { FirstYear + i / 2 }
  function SlotHalf(i: int): Half requires 0 <= i < ScheduleLength { if i % 2 == 0 then January else July }

  /** The date requested at position `i`: years ascending, January before July. */
  function SlotDate(i: int): (s: string)
    requires 0 <= i < ScheduleLength
  {
    SampleDate(SlotYear(i), SlotHalf(i))
  }

  /** The responses to the whole schedule, in the order the loop makes the requests. */
  function Responses(fetch: string -> Fetched): (rs: seq<Fetched>)
    ensures |rs| == ScheduleLength
  {
    seq(ScheduleLength, i requires 0 <= i < ScheduleLength => fetch(SlotDate(i)))
  }

  /** `if rate:` after a status-200 response: the response carries a non-zero rate. */
  predicate Kept(o: Fetched)
    ensures Kept(o) ==> o.Ok?
    ensures o.Ok? && o.rate == 0.0 ==> !Kept(o)
  {
    o.Ok? && o.rate != 0.0
  }

  /** What one response adds to the list: its rate when it is kept, else nothing. */
  function Contribution(o: Fetched): (c: seq<real>)
    ensures c == [] <==> !Kept(o)
    ensures c != [] ==> c == [o.rate] && o.rate != 0.0
  {
    if Kept(o) then [o.rate] else []
  }

  /** The rates of the kept responses, in order. */
  function KeptRates(os: seq<Fetched>): (r: seq<real>)
    ensures |r| <= |os|
    ensures forall j | 0 <= j < |r| :: r[j] != 0.0
  {
    if os == [] then [] else KeptRates(os[..|os| - 1]) + Contribution(os[|os| - 1])
  }

  predicate AnyRaise(os: seq<Fetched>) {
    exists i | 0 <= i < |os| :: os[i].Raise?
  }

  /**
   * The function's result: `None` when a request raised anywhere in the run,
   * `None` when nothing was kept, otherwise the kept rates in request order.
   */
  function AnnualRates(fetch: string -> Fetched): (r: Option<seq<real>>)
    ensures r.Some? ==> 1 <= |r.value| <= ScheduleLength
    ensures r.Some? <==> !AnyRaise(Responses(fetch)) && exists i | 0 <= i < ScheduleLength :: Kept(Responses(fetch)[i])
  {
    var rs := Responses(fetch);
    KeptRatesEmpty(rs);
    if AnyRaise(rs) then None
    else if KeptRates(rs) == [] then None
    else Some(KeptRates(rs))
  }

  /** Filtering distributes over concatenation. */
  lemma {:induction false} KeptRatesAppend(a: seq<Fetched>, b: seq<Fetched>)
    ensures KeptRates(a + b) == KeptRates(a) + KeptRates(b)
    decreases |b|
  {
    if b == [] {
      assert a + b == a;
    } else {
      var b' := b[..|b| - 1];
      assert (a + b)[..|a + b| - 1] == a + b';
      KeptRatesAppend(a, b');
    }
  }

  /** Nothing is kept exactly when no response is kept. */
  lemma {:induction false} KeptRatesEmpty(os: seq<Fetched>)
    ensures KeptRates(os) == [] <==> forall i | 0 <= i < |os| :: !Kept(os[i])
  {
    if os != [] {
      var init := os[..|os| - 1];
      KeptRatesEmpty(init);
      assert forall i | 0 <= i < |init| :: init[i] == os[i];
    }
  }

  /** Each kept rate is the rate of a kept response at or after its own position. */
  lemma {:induction false} KeptRatesFromResponses(os: seq<Fetched>, j: int)
    requires 0 <= j < |KeptRates(os)|
    ensures exists i | j <= i < |os| :: Kept(os[i]) && os[i].rate == KeptRates(os)[j]
  {
    var init := os[..|os| - 1];
    if j < |KeptRates(init)| {
      KeptRatesFromResponses(init, j);
      var i :| j <= i < |init| && Kept(init[i]) && init[i].rate == KeptRates(init)[j];
      assert os[i] == init[i];
    } else {
      assert Kept(os[|os| - 1]);
    }
  }

  /** When every response is kept, the rates line up one to one with the requests. */
  lemma {:induction false} AllKeptAligned(os: seq<Fetched>)
    requires forall i | 0 <= i < |os| :: Kept(os[i])
    ensures |KeptRates(os)| == |os|
    ensures forall i | 0 <= i < |os| :: os[i].Ok? && KeptRates(os)[i] == os[i].rate
  {
    if os != [] {
      var init := os[..|os| - 1];
      AllKeptAligned(init);
    }
  }

  /** Keeping as many rates as there were requests means every response was kept. */
  lemma {:induction false} FullLengthMeansAllKept(os: seq<Fetched>)
    requires |KeptRates(os)| == |os|
    ensures forall i | 0 <= i < |os| :: Kept(os[i])
  {
    if os != [] {
      var init := os[..|os| - 1];
      assert |KeptRates(init)| <= |init|;
      FullLengthMeansAllKept(init);
      forall i | 0 <= i < |os| ensures Kept(os[i]) {
        if i < |init| { assert os[i] == init[i]; }
      }
    }
  }

  /**
   * More successful requests never shorten the series: if every response `a`
   * keeps is also kept in `b`, `b` keeps at least as many rates.
   */
  lemma {:induction false} MoreSuccessesNoShorter(a: seq<Fetched>, b: seq<Fetched>)
    requires |a| == |b|
    requires forall i | 0 <= i < |a| :: Kept(a[i]) ==> Kept(b[i])
    ensures |KeptRates(a)| <= |KeptRates(b)|
  {
    if a != [] {
      MoreSuccessesNoShorter(a[..|a| - 1], b[..|b| - 1]);
    }
  }

  /** The requests are made in strictly increasing date order. */
  lemma ScheduleChronological(i: int, j: int)
    requires 0 <= i < j < ScheduleLength
    ensures ParseIso(SlotDate(i)).Some? && ParseIso(SlotDate(j)).Some?
    ensures Before(ParseIso(SlotDate(i)).value, ParseIso(SlotDate(j)).value)
  {
    SampleDateParses(SlotYear(i), SlotHalf(i));
    SampleDateParses(SlotYear(j), SlotHalf(j));
  }

  /** The two requests of `year` sit at positions `2 * (year - 2000)` and the one after. */
  lemma ResponsesOfYear(fetch: string -> Fetched, year: int)
    requires FirstYear <= year < EndYear
    ensures Responses(fetch)[2 * (year - FirstYear)] == fetch(SampleDate(year, January))
    ensures Responses(fetch)[2 * (year - FirstYear) + 1] == fetch(SampleDate(year, July))
  {
    var i := 2 * (year - FirstYear);
    assert SlotYear(i) == year && SlotHalf(i) == January by {
      assert i / 2 == year - FirstYear && i % 2 == 0;
    }
    assert SlotYear(i + 1) == year && SlotHalf(i + 1) == July by {
      assert (i + 1) / 2 == year - FirstYear && (i + 1) % 2 == 1;
    }
    assert Responses(fetch)[i] == fetch(SlotDate(i));
    assert Responses(fetch)[i + 1] == fetch(SlotDate(i + 1));
  }

  /** Extending the processed prefix by one year's two responses. */
  /** Extending a prefix by one response. */
  lemma PrefixStepOne(os: seq<Fetched>, m: nat)
    requires m + 1 <= |os|
    ensures KeptRates(os[..m + 1]) == KeptRates(os[..m]) + Contribution(os[m])
    ensures AnyRaise(os[..m + 1]) <==> AnyRaise(os[..m]) || os[m].Raise?
  {
    assert os[..m + 1][..m] == os[..m];
    assert forall i | 0 <= i < m :: os[..m + 1][i] == os[..m][i];
  }

  lemma PrefixStep(os: seq<Fetched>, n: nat)
    requires n + 2 <= |os|
    ensures KeptRates(os[..n + 2]) == KeptRates(os[..n]) + Contribution(os[n]) + Contribution(os[n + 1])
    ensures AnyRaise(os[..n + 2]) <==> AnyRaise(os[..n]) || os[n].Raise? || os[n + 1].Raise?
  {
    PrefixStepOne(os, n);
    PrefixStepOne(os, n + 1);
  }

  /**
   * The loop of `get_annual_exchange_rate_data`. It appends the January rate,
   * then the July rate, of each year when the request succeeded with a truthy
   * rate, and abandons the partial list on the first raised error.
   */
  method GetAnnualExchangeRateData(fetch: string -> Fetched) returns (r: Option<seq<real>>)
    ensures r == AnnualRates(fetch)
  {
    ghost var rs := Responses(fetch);
    var combinedRates: seq<real> := [];
    var year := FirstYear;
    ghost var n := 0;
    while year < EndYear
      invariant FirstYear <= year <= EndYear && n == 2 * (year - FirstYear)
      invariant !AnyRaise(rs[..n])
      invariant combinedRates == KeptRates(rs[..n])
    {
      ResponsesOfYear(fetch, year);
      PrefixStep(rs, n);

      var janDate := SampleDate(year, January);
      var response := fetch(janDate);
      if response.Raise? {
        assert rs[n].Raise?;
        return None;
      }
      if response.Ok? && response.rate != 0.0 {
        combinedRates := combinedRates + [response.rate];
      }
      assert combinedRates == KeptRates(rs[..n]) + Contribution(rs[n]);

      var julDate := SampleDate(year, July);
      response := fetch(julDate);
      if response.Raise? {
        assert rs[n + 1].Raise?;
        return None;
      }
      if response.Ok? && response.rate != 0.0 {
        combinedRates := combinedRates + [response.rate];
      }
      year := year + 1;
      n := n + 2;
    }
    assert rs[..n] == rs;
    if combinedRates == [] {
      return None;
    }
    return Some(combinedRates);
  }
}
