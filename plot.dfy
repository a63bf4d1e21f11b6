/**
 * The data preparation of `generate_annual_plot`: the guard on the rate list,
 * the split index taken from the query year and month, and the step-function
 * baseline drawn against the actual rates. The chart drawing itself is output.
 */
module Plot {
  import opened Wrappers
  import opened Dates

  /** Why no chart is drawn. */
  datatype PlotError =
    | NoValidRates     // empty or odd-length list: a message and an early return
    | YearNotListed    // `years.index(specific_year)` raises ValueError
    | DateUnparsable   // `strptime(specific_date, "%Y-%m-%d")` raises ValueError
    | IndexOutOfRange  // `rates[data_index]` raises IndexError

  /** `list(range(2000, 2025))`. */
  function Years(): (ys: seq<int>)
    ensures |ys| == 25
    ensures forall i | 0 <= i < |ys| :: ys[i] == 2000 + i
  {
    seq(25, i => 2000 + i)
  }

  /** `list.index`: the first position holding `x`, `None` for its ValueError. */
  function IndexOf(xs: seq<int>, x: int): (r: Option<nat>)
    ensures r.None? <==> x !in xs
    ensures r.Some? ==> r.value < |xs| && xs[r.value] == x && x !in xs[..r.value]
  {
    if xs == [] then None
    else if xs[0] == x then Some(0)
    else match IndexOf(xs[1..], x)
      case None => None
      case Some(k) =>
        assert xs[..k + 1] == [xs[0]] + xs[1..][..k];
        Some(k + 1)
  }

  /**
   * `data_index`: the query year's position in `years`, times two, plus one
   * when the query date's month is July to December.
   */
  function SplitIndex(specificYear: int, specificDate: string): (r: Result<nat, PlotError>)
    ensures r.Success? <==> 2000 <= specificYear <= 2024 && ParseIso(specificDate).Some?
    ensures !(2000 <= specificYear <= 2024) ==> r == Failure(YearNotListed)
    ensures 2000 <= specificYear <= 2024 && ParseIso(specificDate).None? ==> r == Failure(DateUnparsable)
    ensures r.Success? ==> r.value == 2 * (specificYear - 2000) + (if ParseIso(specificDate).value.month >= 7 then 1 else 0)
    ensures r.Success? ==> r.value < 50
  {
    assert forall y | 2000 <= y <= 2024 :: y in Years() by {
      forall y | 2000 <= y <= 2024 ensures y in Years() {
        assert Years()[y - 2000] == y;
      }
    }
    match IndexOf(Years(), specificYear)
    case None => Failure(YearNotListed)
    case Some(yearIndex) =>
      match ParseIso(specificDate)
      case None => Failure(DateUnparsable)
      case Some(d) =>
        var dataIndex := yearIndex * 2;
        if 7 <= d.month <= 12 then Success(dataIndex + 1) else Success(dataIndex)
  }

  /** `[x] * n`; a count below one gives the empty list. */
  function Repeat<T>(x: T, n: int): (r: seq<T>)
    ensures |r| == if n < 0 then 0 else n
    ensures forall i | 0 <= i < |r| :: r[i] == x
  {
    if n <= 0 then [] else [x] + Repeat(x, n - 1)
  }

  /**
   * The baseline of `generate_annual_plot`: the first rate up to the split
   * index, then the rate at the split index for the rest of the list.
   */
  function Baseline<T>(rates: seq<T>, specificYear: int, specificDate: string): (r: Result<seq<T>, PlotError>)
    ensures (r.Failure? && r.error == NoValidRates) <==> |rates| == 0 || |rates| % 2 != 0
    ensures |rates| > 0 && |rates| % 2 == 0 && SplitIndex(specificYear, specificDate).Failure?
            ==> r.Failure? && r.error == SplitIndex(specificYear, specificDate).error
    ensures |rates| > 0 && |rates| % 2 == 0 && SplitIndex(specificYear, specificDate).Success?
            && SplitIndex(specificYear, specificDate).value >= |rates|
            ==> r.Failure? && r.error == IndexOutOfRange
    ensures r.Success? <==> |rates| > 0 && |rates| % 2 == 0
                            && SplitIndex(specificYear, specificDate).Success?
                            && SplitIndex(specificYear, specificDate).value < |rates|
    ensures r.Success? ==>
              var k := SplitIndex(specificYear, specificDate).value;
              && |r.value| == |rates|
              && (forall i | 0 <= i < k :: r.value[i] == rates[0])
              && (forall i | k <= i < |rates| :: r.value[i] == rates[k])
  {
    if |rates| == 0 || |rates| % 2 != 0 then Failure(NoValidRates)
    else match SplitIndex(specificYear, specificDate)
      case Failure(e) => Failure(e)
      case Success(k) =>
        if k >= |rates| then Failure(IndexOutOfRange)
        else Success(Repeat(rates[0], k) + Repeat(rates[k], |rates| - k))
  }

  /**
   * With a full 50-entry list, every listed year and every parsable date give
   * a baseline: the split index is at most 49.
   */
  lemma FullSeriesBaselineBuilt<T>(rates: seq<T>, specificYear: int, specificDate: string)
    requires |rates| == 50
    requires 2000 <= specificYear <= 2024 && ParseIso(specificDate).Some?
    ensures Baseline(rates, specificYear, specificDate).Success?
  {
  }

  /** The worked case: 50 rates, 2010-07-01, split index 21. */
  lemma BaselineJuly2010<T>(rates: seq<T>)
    requires |rates| == 50
    ensures SplitIndex(2010, "2010-07-01") == Success(21)
    ensures Baseline(rates, 2010, "2010-07-01") == Success(Repeat(rates[0], 21) + Repeat(rates[21], 29))
  {
    assert ParseIso("2010-07-01") == Some(Date(2010, 7, 1)) by {
      var s := "2010-07-01";
      assert s[4] == '-' && s[6] == '7' && s[7] == '-';
      assert s[..4] == "2010" && s[5..7] == "07" && s[8..] == "01";
      assert Fields("2010", "07", "01") == Some(Date(2010, 7, 1));
    }
  }
}
