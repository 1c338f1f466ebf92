/// Positional time series with explicit missing entries, and the elementwise
/// arithmetic the decomposition applies between series that share one index.
module Series {

  datatype Option<T> = None | Some(value: T)

  /** One observation: a number, or None where the data frame holds NaN. */
  type Obs = Option<real>

  /** Entry i is the i-th row of the series; the date index itself plays no role. */
  type TimeSeries = seq<Obs>

  /** NaN-propagating sum of two observations. */
  function Add(a: Obs, b: Obs): Obs {
    match (a, b)
    case (Some(x), Some(y)) => Some(x + y)
    case _ => None
  }

  /** NaN-propagating product of an observation with a weight. */
  function Scale(a: Obs, c: real): Obs {
    match a
    case Some(x) => Some(x * c)
    case None => None
  }

  /** Elementwise quotient; a zero divisor gives None rather than an infinity. */
  function Quotient(a: Obs, b: Obs): Obs {
    if a.Some? && b.Some? && b.value != 0.0 then Some(a.value / b.value) else None
  }

  /** Elementwise difference, NaN-propagating. */
  function Minus(a: Obs, b: Obs): Obs {
    if a.Some? && b.Some? then Some(a.value - b.value) else None
  }

  /** `xs / ys` on two series with the same index. */
  function Ratio(xs: TimeSeries, ys: TimeSeries): (r: TimeSeries)
    requires |xs| == |ys|
    ensures |r| == |xs|
    ensures forall i :: 0 <= i < |r| ==>
              (r[i].Some? <==> xs[i].Some? && ys[i].Some? && ys[i].value != 0.0)
    ensures forall i :: 0 <= i < |r| && r[i].Some? ==> r[i].value * ys[i].value == xs[i].value
  {
    seq(|xs|, i requires 0 <= i < |xs| => Quotient(xs[i], ys[i]))
  }

  /** `xs - ys` on two series with the same index. */
  function Difference(xs: TimeSeries, ys: TimeSeries): (r: TimeSeries)
    requires |xs| == |ys|
    ensures |r| == |xs|
    ensures forall i :: 0 <= i < |r| ==>
              (r[i].Some? <==> xs[i].Some? && ys[i].Some?) &&
              (r[i].Some? ==> r[i].value + ys[i].value == xs[i].value)
  {
    seq(|xs|, i requires 0 <= i < |xs| => Minus(xs[i], ys[i]))
  }

  /** The sum pandas computes over the slice ts[lo:hi]: missing entries are
      skipped, so they count as 0. */
  function DefinedSum(ts: TimeSeries, lo: nat, hi: nat): real
    requires lo <= hi <= |ts|
    decreases hi - lo
  {
    if hi == lo then 0.0
    else DefinedSum(ts, lo, hi - 1) + (if ts[hi - 1].Some? then ts[hi - 1].value else 0.0)
  }

  /** A slice with no defined entry sums to 0 (pandas' `.sum()` of an all-NaN column). */
  lemma {:induction false} DefinedSumAllMissing(ts: TimeSeries, lo: nat, hi: nat)
    requires lo <= hi <= |ts|
    requires forall p :: lo <= p < hi ==> ts[p].None?
    ensures DefinedSum(ts, lo, hi) == 0.0
    decreases hi - lo
  {
    if hi > lo {
      DefinedSumAllMissing(ts, lo, hi - 1);
    }
  }

  lemma {:induction false} DefinedSumConstant(ts: TimeSeries, lo: nat, hi: nat, v: real)
    requires lo <= hi <= |ts|
    requires forall p :: lo <= p < hi ==> ts[p] == Some(v)
    ensures DefinedSum(ts, lo, hi) == ((hi - lo) as real) * v
  {
    if hi > lo {
      DefinedSumConstant(ts, lo, hi - 1, v);
    }
  }

  lemma {:induction false} DefinedSumPositive(ts: TimeSeries, lo: nat, hi: nat)
    requires lo < hi <= |ts|
    requires forall p :: lo <= p < hi ==> ts[p].Some? && ts[p].value > 0.0
    ensures DefinedSum(ts, lo, hi) > 0.0
  {
    if hi - 1 > lo {
      DefinedSumPositive(ts, lo, hi - 1);
    }
  }

  /** Every defined entry of `ts` lies in [a, |ts| - a). */
  predicate NoneOutside(ts: TimeSeries, a: nat) {
    forall i :: 0 <= i < |ts| && ts[i].Some? ==> a <= i < |ts| - a
  }

  /** The defined entries of `ts` are exactly those in [a, |ts| - a). */
  predicate DefinedOn(ts: TimeSeries, a: nat) {
    forall i :: 0 <= i < |ts| ==> (ts[i].Some? <==> a <= i < |ts| - a)
  }

  /** Every defined entry of `ts` is strictly positive. */
  predicate Positive(ts: TimeSeries) {
    forall i :: 0 <= i < |ts| && ts[i].Some? ==> ts[i].value > 0.0
  }

  function Max(a: nat, b: nat): nat {
    if a < b then b else a
  }

  /** A quotient is undefined wherever its numerator or its divisor is. */
  lemma RatioNoneOutside(xs: TimeSeries, ys: TimeSeries, a: nat)
    requires |xs| == |ys|
    requires NoneOutside(xs, a) || NoneOutside(ys, a)
    ensures NoneOutside(Ratio(xs, ys), a)
  {
  }

  /** Positive operands defined on symmetric ranges give a positive quotient defined on the narrower range. */
  lemma RatioDefinedOn(xs: TimeSeries, ys: TimeSeries, a: nat, b: nat)
    requires |xs| == |ys|
    requires DefinedOn(xs, a) && DefinedOn(ys, b)
    requires Positive(xs) && Positive(ys)
    ensures DefinedOn(Ratio(xs, ys), Max(a, b))
    ensures Positive(Ratio(xs, ys))
  {
    var r := Ratio(xs, ys);
    forall i | 0 <= i < |r| && r[i].Some?
      ensures r[i].value > 0.0
    {
      assert r[i].value == xs[i].value / ys[i].value;
    }
  }

  lemma DifferenceNoneOutside(xs: TimeSeries, ys: TimeSeries, a: nat)
    requires |xs| == |ys|
    requires NoneOutside(xs, a) || NoneOutside(ys, a)
    ensures NoneOutside(Difference(xs, ys), a)
  {
  }

  lemma DifferenceDefinedOn(xs: TimeSeries, ys: TimeSeries, a: nat, b: nat)
    requires |xs| == |ys|
    requires DefinedOn(xs, a) && DefinedOn(ys, b)
    ensures DefinedOn(Difference(xs, ys), Max(a, b))
  {
  }
}
