/// What the centred moving average and the Henderson filter compute, as pure
/// functions of the input series, and the properties of those functions.
///
/// Both filters skip a leading run of missing entries: with `adj` its length
/// and `h` half the window, only positions [h + adj, len - h - adj) are
/// written, every other position stays missing.
module Filters {
  import opened Series

  /** Length of the leading run of missing entries. */
  function LeadingGap(ts: TimeSeries): (k: nat)
    ensures k <= |ts|
    ensures forall i :: 0 <= i < k ==> ts[i].None?
    ensures k < |ts| ==> ts[k].Some?
  {
    if |ts| == 0 || ts[0].Some? then 0 else 1 + LeadingGap(ts[1..])
  }

  /** First written position for a window of the given width (`center` in the Python code); the window of the
      first written output starts at the first defined input. */
  function Center(ts: TimeSeries, width: nat): (c: nat)
    ensures width / 2 <= c <= width / 2 + |ts|
    ensures forall p :: 0 <= p < c - width / 2 ==> ts[p].None?
    ensures c - width / 2 < |ts| ==> ts[c - width / 2].Some?
  {
    width / 2 + LeadingGap(ts)
  }

  /** The n equal weights 1/n of a simple moving average. */
  function Uniform(n: nat): (w: seq<real>)
    ensures |w| == n
    ensures forall k :: 0 <= k < n ==> w[k] * (n as real) == 1.0
  {
    seq(n, k requires 0 <= k < n => 1.0 / (n as real))
  }

  /** The 13-term Henderson weight table; the centre weight is index 6. */
  const HendersonWeights: seq<real> :=
    [-0.019, -0.028, 0.0, 0.066, 0.147, 0.214, 0.240, 0.214, 0.147, 0.066, 0.0, -0.028, -0.019]

  function WeightSum(w: seq<real>): real {
    if |w| == 0 then 0.0 else WeightSum(w[..|w| - 1]) + w[|w| - 1]
  }

  /** The running accumulator after k terms, ts[start + j] * w[j] added for j < k;
      it becomes missing as soon as one term is missing. */
  function Accumulate(ts: TimeSeries, start: nat, w: seq<real>, k: nat): (acc: Obs)
    requires k <= |w| && start + k <= |ts|
    ensures acc.Some? <==> forall p :: start <= p < start + k ==> ts[p].Some?
  {
    if k == 0 then Some(0.0)
    else Add(Accumulate(ts, start, w, k - 1), Scale(ts[start + k - 1], w[k - 1]))
  }

  /** A weighted filter whose output i is the accumulator over the window
      [i - |w|/2, i - |w|/2 + |w|): the even-window moving average and the Henderson filter. */
  function Filtered(ts: TimeSeries, w: seq<real>): (r: TimeSeries)
    ensures |r| == |ts|
    ensures forall i :: 0 <= i < |ts| && r[i].Some? ==> Center(ts, |w|) <= i < |ts| - Center(ts, |w|)
  {
    var half := |w| / 2;
    var center := Center(ts, |w|);
    seq(|ts|, i requires 0 <= i < |ts| =>
      if center <= i < |ts| - center then Accumulate(ts, i - half, w, |w|) else None)
  }

  /** The odd-window moving average: output i is the skip-missing sum of the
      symmetric window [i - n/2, i + n/2 + 1), divided by n. */
  function OddMean(ts: TimeSeries, n: nat): (r: TimeSeries)
    requires n % 2 == 1
    ensures |r| == |ts|
    ensures forall i :: 0 <= i < |ts| ==> (r[i].Some? <==> Center(ts, n) <= i < |ts| - Center(ts, n))
  {
    var half := n / 2;
    var center := Center(ts, n);
    seq(|ts|, i requires 0 <= i < |ts| =>
      if center <= i < |ts| - center then Some(DefinedSum(ts, i - half, i - half + n) / (n as real)) else None)
  }

  /** The centred simple moving average of window n. */
  function CenteredAverage(ts: TimeSeries, n: nat): (r: TimeSeries)
    ensures |r| == |ts|
  {
    if n % 2 == 0 then Filtered(ts, Uniform(n)) else OddMean(ts, n)
  }

  /** The 13-term Henderson filter. */
  function Henderson(ts: TimeSeries): (r: TimeSeries)
    ensures |r| == |ts|
  {
    Filtered(ts, HendersonWeights)
  }

  // ---------------------------------------------------------------------------
  // The accumulator

  lemma AccumulateStep(ts: TimeSeries, start: nat, w: seq<real>, k: nat)
    requires k < |w| && start + k < |ts|
    requires Accumulate(ts, start, w, k).Some? && ts[start + k].Some?
    ensures Accumulate(ts, start, w, k + 1).Some?
    ensures Accumulate(ts, start, w, k + 1).value == Accumulate(ts, start, w, k).value + ts[start + k].value * w[k]
  {
  }

  lemma {:induction false} AccumulateConstant(ts: TimeSeries, start: nat, w: seq<real>, k: nat, v: real)
    requires k <= |w| && start + k <= |ts|
    requires forall p :: start <= p < start + k ==> ts[p] == Some(v)
    ensures Accumulate(ts, start, w, k).Some? && Accumulate(ts, start, w, k).value == v * WeightSum(w[..k])
  {
    if k > 0 {
      AccumulateConstant(ts, start, w, k - 1, v);
      AccumulateStep(ts, start, w, k - 1);
      WeightSumStep(w, k - 1);
      Distribute(v, WeightSum(w[..k - 1]), w[k - 1]);
    }
  }

  /** With k equal weights c the accumulator is c times the window's sum. */
  lemma {:induction false} AccumulateEqualWeights(ts: TimeSeries, start: nat, w: seq<real>, k: nat, c: real)
    requires k <= |w| && start + k <= |ts|
    requires forall j :: 0 <= j < k ==> w[j] == c
    requires forall p :: start <= p < start + k ==> ts[p].Some?
    ensures Accumulate(ts, start, w, k).Some?
    ensures Accumulate(ts, start, w, k).value == c * DefinedSum(ts, start, start + k)
  {
    if k > 0 {
      AccumulateEqualWeights(ts, start, w, k - 1, c);
      AccumulateStep(ts, start, w, k - 1);
      var prev := Accumulate(ts, start, w, k - 1).value;
      var sum := DefinedSum(ts, start, start + k - 1);
      var x := ts[start + k - 1].value;
      var total := DefinedSum(ts, start, start + k);
      assert total == sum + x;
      EqualWeightStep(prev, c, sum, x, w[k - 1], total);
    }
  }

  lemma EqualWeightStep(prev: real, c: real, sum: real, x: real, weight: real, total: real)
    requires prev == c * sum && weight == c && total == sum + x
    ensures prev + x * weight == c * total
  {
  }

  /** With the weights 1/n the accumulator is the window's sum divided by n. */
  lemma AccumulateUniform(ts: TimeSeries, start: nat, n: nat, k: nat)
    requires 1 <= n && k <= n && start + k <= |ts|
    requires forall p :: start <= p < start + k ==> ts[p].Some?
    ensures Accumulate(ts, start, Uniform(n), k).Some?
    ensures Accumulate(ts, start, Uniform(n), k).value == DefinedSum(ts, start, start + k) / (n as real)
  {
    AccumulateEqualWeights(ts, start, Uniform(n), k, 1.0 / (n as real));
    OneOver(DefinedSum(ts, start, start + k), n as real);
  }

  lemma OneOver(a: real, d: real)
    requires d != 0.0
    ensures 1.0 / d * a == a / d
  {
  }

  lemma Distribute(v: real, a: real, b: real)
    ensures v * a + v * b == v * (a + b)
  {
  }

  lemma {:induction false} UniformPrefixSum(n: nat, k: nat)
    requires 1 <= n && k <= n
    ensures WeightSum(Uniform(n)[..k]) == (k as real) / (n as real)
  {
    if k > 0 {
      UniformPrefixSum(n, k - 1);
      assert Uniform(n)[..k][..k - 1] == Uniform(n)[..k - 1];
    }
  }

  /** The n weights 1/n sum to exactly 1. */
  lemma UniformSumsToOne(n: nat)
    requires 1 <= n
    ensures WeightSum(Uniform(n)) == 1.0
  {
    UniformPrefixSum(n, n);
    assert Uniform(n)[..n] == Uniform(n);
  }

  lemma WeightSumStep(w: seq<real>, k: nat)
    requires k < |w|
    ensures WeightSum(w[..k + 1]) == WeightSum(w[..k]) + w[k]
  {
    assert w[..k + 1][..k] == w[..k];
  }

  /** The Henderson weights are symmetric about the centre and sum to exactly 1. */
  lemma HendersonWeightsNormalised()
    ensures |HendersonWeights| == 13
    ensures forall k :: 0 <= k < 13 ==> HendersonWeights[k] == HendersonWeights[12 - k]
    ensures WeightSum(HendersonWeights) == 1.0
  {
    var w := HendersonWeights;
    WeightSumStep(w, 0);
    WeightSumStep(w, 1);
    WeightSumStep(w, 2);
    WeightSumStep(w, 3);
    WeightSumStep(w, 4);
    WeightSumStep(w, 5);
    WeightSumStep(w, 6);
    WeightSumStep(w, 7);
    WeightSumStep(w, 8);
    WeightSumStep(w, 9);
    WeightSumStep(w, 10);
    WeightSumStep(w, 11);
    WeightSumStep(w, 12);
    assert w[..13] == w;
  }

  // ---------------------------------------------------------------------------
  // Which positions are written

  /** Positions before `center` and from `len - center` on stay missing;
      when len <= 2 * center no position is written at all. */
  lemma AverageEdges(ts: TimeSeries, n: nat)
    ensures forall i :: 0 <= i < |ts| && (i < Center(ts, n) || |ts| - Center(ts, n) <= i) ==>
              CenteredAverage(ts, n)[i].None?
    ensures |ts| <= 2 * Center(ts, n) ==> forall i :: 0 <= i < |ts| ==> CenteredAverage(ts, n)[i].None?
  {
  }

  /** Henderson filter: the same edges with the half-width 6. */
  lemma HendersonEdges(ts: TimeSeries)
    ensures Center(ts, 13) == 6 + LeadingGap(ts)
    ensures forall i :: 0 <= i < |ts| && (i < Center(ts, 13) || |ts| - Center(ts, 13) <= i) ==>
              Henderson(ts)[i].None?
    ensures |ts| <= 2 * Center(ts, 13) ==> forall i :: 0 <= i < |ts| ==> Henderson(ts)[i].None?
  {
  }

  lemma FilteredDefinedIff(ts: TimeSeries, w: seq<real>, i: nat)
    requires i < |ts|
    ensures Filtered(ts, w)[i].Some? <==>
              Center(ts, |w|) <= i < |ts| - Center(ts, |w|) &&
              forall p :: i - |w| / 2 <= p < i - |w| / 2 + |w| ==> ts[p].Some?
  {
    if Center(ts, |w|) <= i < |ts| - Center(ts, |w|) {
      assert Filtered(ts, w)[i] == Accumulate(ts, i - |w| / 2, w, |w|);
    }
  }

  /** Even window: a written position is defined exactly when its whole window
      [i - n/2, i + n/2) is; one missing input makes the output missing. */
  lemma EvenDefinedIff(ts: TimeSeries, n: nat, i: nat)
    requires n % 2 == 0 && i < |ts|
    ensures CenteredAverage(ts, n)[i].Some? <==>
              Center(ts, n) <= i < |ts| - Center(ts, n) &&
              forall p :: i - n / 2 <= p < i + n / 2 ==> ts[p].Some?
  {
    FilteredDefinedIff(ts, Uniform(n), i);
  }

  /** Odd window: every written position is defined, whatever its window holds. */
  lemma OddDefinedIff(ts: TimeSeries, n: nat, i: nat)
    requires n % 2 == 1 && i < |ts|
    ensures CenteredAverage(ts, n)[i].Some? <==> Center(ts, n) <= i < |ts| - Center(ts, n)
  {
  }

  /** Henderson: a written position is defined exactly when its window [i - 6, i + 7) is. */
  lemma HendersonDefinedIff(ts: TimeSeries, i: nat)
    requires i < |ts|
    ensures Henderson(ts)[i].Some? <==>
              Center(ts, 13) <= i < |ts| - Center(ts, 13) &&
              forall p :: i - 6 <= p < i + 7 ==> ts[p].Some?
  {
    FilteredDefinedIff(ts, HendersonWeights, i);
  }

  // ---------------------------------------------------------------------------
  // Values

  /** On a fully defined window both branches give the arithmetic mean of the
      n inputs of the window [i - n/2, i - n/2 + n). */
  lemma WindowMean(ts: TimeSeries, n: nat, i: nat)
    requires 1 <= n
    requires Center(ts, n) <= i < |ts| - Center(ts, n)
    requires forall p :: i - n / 2 <= p < i - n / 2 + n ==> ts[p].Some?
    ensures CenteredAverage(ts, n)[i].Some?
    ensures CenteredAverage(ts, n)[i].value == DefinedSum(ts, i - n / 2, i - n / 2 + n) / (n as real)
  {
    var lo := i - n / 2;
    var r := CenteredAverage(ts, n);
    if n % 2 == 0 {
      AccumulateUniform(ts, lo, n, n);
      assert r[i] == Accumulate(ts, lo, Uniform(n), n);
    } else {
      assert r[i] == Some(DefinedSum(ts, lo, lo + n) / (n as real));
    }
  }

  lemma {:induction false} DefinedSumFillZero(ts: TimeSeries, p: nat, lo: nat, hi: nat)
    requires p < |ts| && ts[p].None? && lo <= hi <= |ts|
    ensures DefinedSum(ts[p := Some(0.0)], lo, hi) == DefinedSum(ts, lo, hi)
    decreases hi - lo
  {
    if hi > lo {
      DefinedSumFillZero(ts, p, lo, hi - 1);
    }
  }

  /** Odd window: a missing entry after the leading gap counts as 0. Writing
      0 into it changes no output (for an even window it does, see
      `EvenMissingPropagates`). */
  lemma OddMissingCountsAsZero(ts: TimeSeries, n: nat, p: nat)
    requires n % 2 == 1
    requires LeadingGap(ts) < p < |ts| && ts[p].None?
    ensures CenteredAverage(ts[p := Some(0.0)], n) == CenteredAverage(ts, n)
  {
    var filled := ts[p := Some(0.0)];
    var g := LeadingGap(ts);
    assert filled[g].Some?;
    assert LeadingGap(filled) == g;
    var r, r' := CenteredAverage(ts, n), CenteredAverage(filled, n);
    forall i | 0 <= i < |ts|
      ensures r'[i] == r[i]
    {
      if Center(ts, n) <= i < |ts| - Center(ts, n) {
        DefinedSumFillZero(ts, p, i - n / 2, i - n / 2 + n);
      }
    }
  }

  /** Even window: a missing entry after the leading gap does not count as 0.
      An output whose window misses only that entry is missing, and becomes
      defined once 0 is written into it. */
  lemma EvenMissingPropagates(ts: TimeSeries, n: nat, p: nat, i: nat)
    requires n % 2 == 0
    requires LeadingGap(ts) < p < |ts| && ts[p].None?
    requires Center(ts, n) <= i < |ts| - Center(ts, n)
    requires i - n / 2 <= p < i + n / 2
    requires forall q :: i - n / 2 <= q < i + n / 2 && q != p ==> ts[q].Some?
    ensures CenteredAverage(ts, n)[i].None?
    ensures CenteredAverage(ts[p := Some(0.0)], n)[i].Some?
  {
    var filled := ts[p := Some(0.0)];
    var g := LeadingGap(ts);
    assert filled[g].Some?;
    assert LeadingGap(filled) == g;
    EvenDefinedIff(ts, n, i);
    EvenDefinedIff(filled, n, i);
  }

  /** A constant, fully defined series is reproduced at every written position. */
  lemma AverageOfConstant(ts: TimeSeries, n: nat, v: real)
    requires 1 <= n
    requires forall i :: 0 <= i < |ts| ==> ts[i] == Some(v)
    ensures forall i :: 0 <= i < |ts| ==>
              (CenteredAverage(ts, n)[i].Some? <==> n / 2 <= i < |ts| - n / 2)
    ensures forall i :: 0 <= i < |ts| && CenteredAverage(ts, n)[i].Some? ==> CenteredAverage(ts, n)[i].value == v
  {
    var r := CenteredAverage(ts, n);
    assert Center(ts, n) == n / 2 by {
      if |ts| > 0 { assert ts[0].Some?; }
    }
    forall i | 0 <= i < |ts| && n / 2 <= i < |ts| - n / 2
      ensures r[i].Some? && r[i].value == v
    {
      AverageOfConstantAt(ts, n, v, i);
    }
  }

  lemma AverageOfConstantAt(ts: TimeSeries, n: nat, v: real, i: nat)
    requires 1 <= n
    requires Center(ts, n) <= i < |ts| - Center(ts, n)
    requires forall p :: i - n / 2 <= p < i - n / 2 + n ==> ts[p] == Some(v)
    ensures CenteredAverage(ts, n)[i].Some? && CenteredAverage(ts, n)[i].value == v
  {
    var lo := i - n / 2;
    var out := CenteredAverage(ts, n)[i];
    WindowMean(ts, n, i);
    var total := DefinedSum(ts, lo, lo + n);
    assert out.Some? && out.value == total / (n as real);
    MeanOfConstantWindow(ts, lo, n, v);
  }

  lemma MeanOfConstantWindow(ts: TimeSeries, lo: nat, n: nat, v: real)
    requires 1 <= n && lo + n <= |ts|
    requires forall p :: lo <= p < lo + n ==> ts[p] == Some(v)
    ensures DefinedSum(ts, lo, lo + n) / (n as real) == v
  {
    DefinedSumConstant(ts, lo, lo + n, v);
    assert DefinedSum(ts, lo, lo + n) == (n as real) * v;
    Cancel(v, n as real);
  }

  lemma Cancel(v: real, d: real)
    requires d != 0.0
    ensures d * v / d == v
  {
  }

  /** The Henderson filter reproduces a constant, fully defined series at every written position. */
  lemma HendersonOfConstant(ts: TimeSeries, v: real)
    requires forall i :: 0 <= i < |ts| ==> ts[i] == Some(v)
    ensures forall i :: 0 <= i < |ts| ==> (Henderson(ts)[i].Some? <==> 6 <= i < |ts| - 6)
    ensures forall i :: 0 <= i < |ts| && Henderson(ts)[i].Some? ==> Henderson(ts)[i].value == v
  {
    var r := Henderson(ts);
    assert Center(ts, 13) == 6 by {
      if |ts| > 0 { assert ts[0].Some?; }
    }
    HendersonWeightsNormalised();
    assert HendersonWeights[..13] == HendersonWeights;
    forall i | 6 <= i < |ts| - 6
      ensures r[i].Some? && r[i].value == v
    {
      AccumulateConstant(ts, i - 6, HendersonWeights, 13, v);
    }
  }

  /** A fully defined series of length 13 has exactly one defined output, at the
      centre, equal to the weighted sum of all 13 inputs. */
  lemma HendersonOnThirteen(ts: TimeSeries)
    requires |ts| == 13
    requires forall i :: 0 <= i < 13 ==> ts[i].Some?
    ensures forall i :: 0 <= i < 13 ==> (Henderson(ts)[i].Some? <==> i == 6)
    ensures Henderson(ts)[6].value ==
              -0.019 * ts[0].value - 0.028 * ts[1].value + 0.066 * ts[3].value
              + 0.147 * ts[4].value + 0.214 * ts[5].value + 0.240 * ts[6].value
              + 0.214 * ts[7].value + 0.147 * ts[8].value + 0.066 * ts[9].value
              - 0.028 * ts[11].value - 0.019 * ts[12].value
  {
    assert LeadingGap(ts) == 0;
    var w := HendersonWeights;
    AccumulateStep(ts, 0, w, 0);
    AccumulateStep(ts, 0, w, 1);
    AccumulateStep(ts, 0, w, 2);
    AccumulateStep(ts, 0, w, 3);
    AccumulateStep(ts, 0, w, 4);
    AccumulateStep(ts, 0, w, 5);
    AccumulateStep(ts, 0, w, 6);
    AccumulateStep(ts, 0, w, 7);
    AccumulateStep(ts, 0, w, 8);
    AccumulateStep(ts, 0, w, 9);
    AccumulateStep(ts, 0, w, 10);
    AccumulateStep(ts, 0, w, 11);
    AccumulateStep(ts, 0, w, 12);
  }

  /** Because of its negative weights, the Henderson filter can turn a strictly
      positive series into a negative value. */
  lemma HendersonMayTurnNegative()
    ensures var ts := [Some(100.0), Some(100.0), Some(1.0), Some(1.0), Some(1.0), Some(1.0), Some(1.0),
                       Some(1.0), Some(1.0), Some(1.0), Some(1.0), Some(100.0), Some(100.0)];
            Positive(ts) && Henderson(ts)[6].Some? && Henderson(ts)[6].value < 0.0
  {
    var ts := [Some(100.0), Some(100.0), Some(1.0), Some(1.0), Some(1.0), Some(1.0), Some(1.0),
               Some(1.0), Some(1.0), Some(1.0), Some(1.0), Some(100.0), Some(100.0)];
    HendersonOnThirteen(ts);
  }

  // ---------------------------------------------------------------------------
  // Edge erosion: how the undefined ends grow from one filter to the next

  lemma GapOfNoneOutside(ts: TimeSeries, a: nat)
    requires NoneOutside(ts, a)
    ensures a <= LeadingGap(ts) || LeadingGap(ts) == |ts|
  {
    var g := LeadingGap(ts);
    if g < |ts| {
      assert ts[g].Some?;
    }
  }

  lemma GapOfDefinedOn(ts: TimeSeries, a: nat)
    requires DefinedOn(ts, a)
    ensures a < |ts| - a ==> LeadingGap(ts) == a
    ensures |ts| - a <= a ==> LeadingGap(ts) == |ts|
  {
    var g := LeadingGap(ts);
    if g < |ts| {
      assert ts[g].Some?;
    }
    if a < |ts| - a {
      assert ts[a].Some?;
    }
  }

  lemma FilteredNoneOutside(ts: TimeSeries, w: seq<real>, a: nat)
    requires NoneOutside(ts, a)
    ensures NoneOutside(Filtered(ts, w), a + |w| / 2)
  {
    GapOfNoneOutside(ts, a);
  }

  /** If nothing outside [a, len - a) is defined, nothing outside
      [a + n/2, len - a - n/2) is defined after a moving average of window n. */
  lemma AverageNoneOutside(ts: TimeSeries, n: nat, a: nat)
    requires NoneOutside(ts, a)
    ensures NoneOutside(CenteredAverage(ts, n), a + n / 2)
  {
    GapOfNoneOutside(ts, a);
    if n % 2 == 0 {
      FilteredNoneOutside(ts, Uniform(n), a);
    }
  }

  /** The Henderson filter widens each undefined end by 6. */
  lemma HendersonNoneOutside(ts: TimeSeries, a: nat)
    requires NoneOutside(ts, a)
    ensures NoneOutside(Henderson(ts), a + 6)
  {
    FilteredNoneOutside(ts, HendersonWeights, a);
  }

  lemma FilteredDefinedOn(ts: TimeSeries, w: seq<real>, a: nat)
    requires DefinedOn(ts, a)
    ensures DefinedOn(Filtered(ts, w), a + |w| / 2)
  {
    GapOfDefinedOn(ts, a);
    var r := Filtered(ts, w);
    forall i | 0 <= i < |ts|
      ensures r[i].Some? <==> a + |w| / 2 <= i < |ts| - (a + |w| / 2)
    {
      FilteredDefinedIff(ts, w, i);
    }
  }

  /** A series defined exactly on [a, len - a) is averaged into one defined
      exactly on [a + n/2, len - a - n/2). */
  lemma AverageDefinedOn(ts: TimeSeries, n: nat, a: nat)
    requires DefinedOn(ts, a)
    ensures DefinedOn(CenteredAverage(ts, n), a + n / 2)
  {
    GapOfDefinedOn(ts, a);
    if n % 2 == 0 {
      FilteredDefinedOn(ts, Uniform(n), a);
    }
  }

  lemma HendersonDefinedOn(ts: TimeSeries, a: nat)
    requires DefinedOn(ts, a)
    ensures DefinedOn(Henderson(ts), a + 6)
  {
    FilteredDefinedOn(ts, HendersonWeights, a);
  }

  /** The moving average of a positive series defined on a symmetric range is positive. */
  lemma AveragePositive(ts: TimeSeries, n: nat, a: nat)
    requires 1 <= n
    requires DefinedOn(ts, a) && Positive(ts)
    ensures Positive(CenteredAverage(ts, n))
  {
    GapOfDefinedOn(ts, a);
    var r := CenteredAverage(ts, n);
    forall i | 0 <= i < |ts| && r[i].Some?
      ensures r[i].value > 0.0
    {
      WindowMean(ts, n, i);
      DefinedSumPositive(ts, i - n / 2, i - n / 2 + n);
    }
  }
}
