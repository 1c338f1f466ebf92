/// The two filters as the Python code runs them: an output column preallocated
/// full of missing values, a loop that counts the leading missing run, and
/// loops that fill the interior positions one by one while the `start` and
/// `finish` counters slide along the input. Each method is proved to produce
/// the series the corresponding function of module Filters describes.
module FilterLoops {
  import opened Series
  import opened Filters

  /** Counts the leading missing entries, stopping at the first defined one. */
  method CountLeadingGap(ts: TimeSeries) returns (adjustment: nat)
    ensures adjustment == LeadingGap(ts)
  {
    adjustment := 0;
    for i := 0 to |ts|
      invariant adjustment == i
      invariant forall k :: 0 <= k < i ==> ts[k].None?
    {
      if ts[i].None? {
        adjustment := adjustment + 1;
      } else {
        break;
      }
    }
  }

  /** The accumulator loop shared by the even-window average and the Henderson
      filter: output i is built up term by term in `ma[i]` itself, from the
      window starting at `start`, and `start` moves on by one per output. */
  method FillWeighted(ts: TimeSeries, weights: seq<real>, adjustment: nat, ma: array<Obs>)
    requires adjustment == LeadingGap(ts)
    requires ma.Length == |ts|
    requires forall k :: 0 <= k < ma.Length ==> ma[k].None?
    modifies ma
    ensures ma[..] == Filtered(ts, weights)
  {
    ghost var target := Filtered(ts, weights);
    var center := |weights| / 2 + adjustment;
    var start := adjustment;
    var i := center;
    while i < |ts| - center
      invariant center <= i && (i == center || i <= |ts| - center)
      invariant start == i - |weights| / 2
      invariant adjustment <= start
      invariant i < |ts| - center ==> start + |weights| <= |ts| - adjustment
      invariant forall k :: 0 <= k < ma.Length ==> ma[k] == if k < i then target[k] else None
    {
      ma[i] := Some(0.0);
      for j := 0 to |weights|
        invariant ma[i] == Accumulate(ts, start, weights, j)
        invariant forall k :: 0 <= k < ma.Length && k != i ==> ma[k] == if k < i then target[k] else None
      {
        ma[i] := Add(ma[i], Scale(ts[start + j], weights[j]));
      }
      start := start + 1;
      i := i + 1;
    }
    assert forall k :: 0 <= k < ma.Length ==> ma[k] == target[k];
  }

  /** The centred moving average of window n. */
  method MovingAverage(ts: TimeSeries, n: nat) returns (ma: TimeSeries)
    ensures ma == CenteredAverage(ts, n)
  {
    var out := new Obs[|ts|](_ => None);
    var adjustment := CountLeadingGap(ts);
    var center := n / 2 + adjustment;
    var start := adjustment;
    var finish := n + adjustment;
    if n % 2 == 0 {
      var weights := new real[n];
      for k := 0 to n
        modifies weights
        invariant forall m :: 0 <= m < k ==> weights[m] == 1.0 / (n as real)
      {
        weights[k] := 1.0 / (n as real);
      }
      assert weights[..] == Uniform(n);
      FillWeighted(ts, weights[..], adjustment, out);
    } else {
      ghost var target := OddMean(ts, n);
      var i := center;
      while i < |ts| - center
        invariant center <= i && (i == center || i <= |ts| - center)
        invariant start == i - n / 2 && finish == start + n
        invariant adjustment <= start
        invariant i < |ts| - center ==> finish <= |ts| - adjustment
        invariant forall k :: 0 <= k < out.Length ==> out[k] == if k < i then target[k] else None
      {
        out[i] := Some(DefinedSum(ts, start, finish) / (n as real));
        start := start + 1;
        finish := finish + 1;
        i := i + 1;
      }
      assert forall k :: 0 <= k < out.Length ==> out[k] == target[k];
    }
    ma := out[..];
  }

  /** The 13-term Henderson filter. */
  method HendersonSeasonalAdjustment(ts: TimeSeries) returns (ma: TimeSeries)
    ensures ma == Henderson(ts)
  {
    var out := new Obs[|ts|](_ => None);
    var adjustment := CountLeadingGap(ts);
    var weights := new real[13];
    weights[0] := -0.019;
    weights[1] := -0.028;
    weights[2] := 0.0;
    weights[3] := 0.066;
    weights[4] := 0.147;
    weights[5] := 0.214;
    weights[6] := 0.240;
    weights[7] := 0.214;
    weights[8] := 0.147;
    weights[9] := 0.066;
    weights[10] := 0.0;
    weights[11] := -0.028;
    weights[12] := -0.019;
    assert weights[..] == HendersonWeights;
    FillWeighted(ts, weights[..], adjustment, out);
    ma := out[..];
  }
}
