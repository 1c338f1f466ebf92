/// The X-11 multiplicative decomposition: a fixed chain of moving averages,
/// one Henderson pass and elementwise ratios, from the observed series X to
/// its seasonal, trend and error components.
module X11Pipeline {
  import opened Series
  import opened Filters

  datatype Components = Components(seasonal: TimeSeries, trend: TimeSeries, error: TimeSeries)

  /** The intermediate series step_00 .. step_19 of one run. */
  datatype Trace = Trace(
    s00: TimeSeries, s01: TimeSeries, s02: TimeSeries, s03: TimeSeries, s04: TimeSeries,
    s05: TimeSeries, s06: TimeSeries, s07: TimeSeries, s08: TimeSeries, s09: TimeSeries,
    s10: TimeSeries, s11: TimeSeries, s12: TimeSeries, s13: TimeSeries, s14: TimeSeries,
    s15: TimeSeries, s16: TimeSeries, s17: TimeSeries, s18: TimeSeries, s19: TimeSeries)

  function Steps(x: TimeSeries): (s: Trace)
    ensures |s.s15| == |x| && |s.s17| == |x| && |s.s18| == |x| && |s.s19| == |x|
  {
    var s00 := x;
    var s01 := CenteredAverage(s00, 12);
    var s02 := CenteredAverage(s01, 2);
    var s03 := Ratio(s00, s02);
    var s04 := CenteredAverage(s03, 3);
    var s05 := CenteredAverage(s04, 3);
    var s06 := CenteredAverage(s05, 12);
    var s07 := CenteredAverage(s06, 2);
    var s08 := Ratio(s05, s07);
    var s09 := Ratio(s00, s08);
    var s10 := Henderson(s09);
    var s11 := Ratio(s00, s10);
    var s12 := CenteredAverage(s11, 5);
    var s13 := CenteredAverage(s12, 3);
    var s14 := Ratio(s11, s13);
    var s15 := Ratio(s00, s14);
    var s16 := CenteredAverage(s15, 12);
    var s17 := CenteredAverage(s16, 2);
    var s18 := Ratio(s15, s17);
    var s19 := Difference(s00, s15);
    Trace(s00, s01, s02, s03, s04, s05, s06, s07, s08, s09,
          s10, s11, s12, s13, s14, s15, s16, s17, s18, s19)
  }

  /** (seasonal, trend, error) = (step_18, step_17, step_19). */
  function X11(x: TimeSeries): (d: Components)
    ensures |d.seasonal| == |x| && |d.trend| == |x| && |d.error| == |x|
  {
    var s := Steps(x);
    Components(s.s18, s.s17, s.s19)
  }

  /** The seasonally adjusted series step_15 from which the outputs are formed. */
  function SeasonallyAdjusted(x: TimeSeries): (sa: TimeSeries)
    ensures |sa| == |x|
  {
    Steps(x).s15
  }

  /** How the three components relate to X and to the seasonally adjusted
      series `sa`, wherever they are defined. */
  predicate Reassembles(x: TimeSeries, d: Components, sa: TimeSeries)
    requires |d.seasonal| == |x| && |d.trend| == |x| && |d.error| == |x| && |sa| == |x|
  {
    forall i :: 0 <= i < |x| ==>
      (d.seasonal[i].Some? && d.trend[i].Some? ==>
         sa[i].Some? && d.seasonal[i].value * d.trend[i].value == sa[i].value) &&
      (d.error[i].Some? <==> x[i].Some? && sa[i].Some?) &&
      (d.error[i].Some? ==> d.error[i].value == x[i].value - sa[i].value) &&
      (d.seasonal[i].Some? && d.trend[i].Some? && d.error[i].Some? ==>
         x[i].value == d.seasonal[i].value * d.trend[i].value + d.error[i].value)
  }

  /** Seasonal times trend gives back the seasonally adjusted series step_15,
      the error is X minus that series (not a ratio, and not X minus the
      seasonal component), so X = seasonal * trend + error wherever all three
      components are defined. */
  lemma Reconstruction(x: TimeSeries)
    ensures Reassembles(x, X11(x), SeasonallyAdjusted(x))
  {
    var s := Steps(x);
    assert X11(x) == Components(Ratio(s.s15, s.s17), s.s17, Difference(x, s.s15));
    assert SeasonallyAdjusted(x) == s.s15;
    RatioDifferenceIdentity(x, s.s15, s.s17);
  }

  lemma RatioDifferenceIdentity(x: TimeSeries, sa: TimeSeries, t: TimeSeries)
    requires |sa| == |x| && |t| == |x|
    ensures Reassembles(x, Components(Ratio(sa, t), t, Difference(x, sa)), sa)
  {
  }

  /** On a fully defined X, the 2x12 average step_02 is missing on exactly 7
      entries at each end. */
  lemma TrendEstimateEdges(x: TimeSeries)
    requires forall i :: 0 <= i < |x| ==> x[i].Some?
    ensures DefinedOn(Steps(x).s02, 7)
  {
    TwoByTwelveEdges(x, Steps(x).s02);
  }

  lemma TwoByTwelveEdges(x: TimeSeries, s02: TimeSeries)
    requires forall i :: 0 <= i < |x| ==> x[i].Some?
    requires s02 == CenteredAverage(CenteredAverage(x, 12), 2)
    ensures DefinedOn(s02, 7)
  {
    assert DefinedOn(x, 0);
    AverageDefinedOn(x, 12, 0);
    AverageDefinedOn(CenteredAverage(x, 12), 2, 6);
  }

  /** Whatever X holds, the chain leaves the first and last 32 entries of the
      seasonal and trend outputs, and the first and last 25 of the error,
      undefined. */
  lemma EdgeErosion(x: TimeSeries)
    ensures NoneOutside(X11(x).seasonal, 32)
    ensures NoneOutside(X11(x).trend, 32)
    ensures NoneOutside(X11(x).error, 25)
  {
    var s := Steps(x);
    assert X11(x) == Components(s.s18, s.s17, s.s19);
    assert NoneOutside(x, 0);
    FirstPassErosion(x, s.s05, s.s09);
    SecondPassErosion(x, s.s09, s.s11, s.s15);
    FinalErosion(x, s.s15, s.s17, s.s18, s.s19);
  }

  lemma FirstPassErosion(x: TimeSeries, s05: TimeSeries, s09: TimeSeries)
    requires NoneOutside(x, 0)
    requires s05 == CenteredAverage(CenteredAverage(Ratio(x, CenteredAverage(CenteredAverage(x, 12), 2)), 3), 3)
    requires |s05| == |x|
    requires s09 == Ratio(x, Ratio(s05, CenteredAverage(CenteredAverage(s05, 12), 2)))
    ensures NoneOutside(s09, 16)
  {
    SmoothedNoneOutside(x, 0, 12, 2);
    var s03 := Ratio(x, CenteredAverage(CenteredAverage(x, 12), 2));
    AverageNoneOutside(s03, 3, 7);
    AverageNoneOutside(CenteredAverage(s03, 3), 3, 8);
    SmoothedNoneOutside(s05, 9, 12, 2);
    RatioNoneOutside(x, Ratio(s05, CenteredAverage(CenteredAverage(s05, 12), 2)), 16);
  }

  lemma SecondPassErosion(x: TimeSeries, s09: TimeSeries, s11: TimeSeries, s15: TimeSeries)
    requires |s09| == |x| && NoneOutside(s09, 16)
    requires s11 == Ratio(x, Henderson(s09))
    requires |s11| == |x|
    requires s15 == Ratio(x, Ratio(s11, CenteredAverage(CenteredAverage(s11, 5), 3)))
    ensures NoneOutside(s15, 25)
  {
    HendersonNoneOutside(s09, 16);
    RatioNoneOutside(x, Henderson(s09), 22);
    SmoothedNoneOutside(s11, 22, 5, 3);
    RatioNoneOutside(x, Ratio(s11, CenteredAverage(CenteredAverage(s11, 5), 3)), 25);
  }

  lemma FinalErosion(x: TimeSeries, s15: TimeSeries, s17: TimeSeries, s18: TimeSeries, s19: TimeSeries)
    requires |s15| == |x| && NoneOutside(s15, 25)
    requires s17 == CenteredAverage(CenteredAverage(s15, 12), 2)
    requires s18 == Ratio(s15, s17) && s19 == Difference(x, s15)
    ensures NoneOutside(s18, 32) && NoneOutside(s17, 32) && NoneOutside(s19, 25)
  {
    SmoothedNoneOutside(s15, 25, 12, 2);
    DifferenceNoneOutside(x, s15, 25);
  }

  /** The two-pass average of a series undefined outside [a, len - a), and
      the ratio to it, are undefined outside the range narrowed by n1/2 + n2/2. */
  lemma SmoothedNoneOutside(ts: TimeSeries, a: nat, n1: nat, n2: nat)
    requires NoneOutside(ts, a)
    ensures var m := CenteredAverage(CenteredAverage(ts, n1), n2);
            NoneOutside(m, a + n1 / 2 + n2 / 2) && NoneOutside(Ratio(ts, m), a + n1 / 2 + n2 / 2)
  {
    AverageNoneOutside(ts, n1, a);
    AverageNoneOutside(CenteredAverage(ts, n1), n2, a + n1 / 2);
    RatioNoneOutside(ts, CenteredAverage(CenteredAverage(ts, n1), n2), a + n1 / 2 + n2 / 2);
  }

  /** A series of at most 64 entries yields no defined seasonal or trend value. */
  lemma ShortSeriesUndefined(x: TimeSeries)
    requires |x| <= 64
    ensures forall i :: 0 <= i < |x| ==> X11(x).seasonal[i].None? && X11(x).trend[i].None?
  {
    var d := X11(x);
    EdgeErosion(x);
    NoneOutsideShort(d.seasonal, 32);
    NoneOutsideShort(d.trend, 32);
  }

  lemma NoneOutsideShort(ts: TimeSeries, a: nat)
    requires NoneOutside(ts, a) && |ts| <= 2 * a
    ensures forall i :: 0 <= i < |ts| ==> ts[i].None?
  {
  }

  /** For a fully defined, strictly positive X whose Henderson trend (step_10)
      stays positive, the erosion bounds are exact: seasonal and trend are
      defined precisely on [32, len - 32) and positive, the error precisely on
      [25, len - 25). */
  lemma DefinedRegions(x: TimeSeries)
    requires forall i :: 0 <= i < |x| ==> x[i].Some? && x[i].value > 0.0
    requires Positive(Steps(x).s10)
    ensures DefinedOn(X11(x).seasonal, 32) && Positive(X11(x).seasonal)
    ensures DefinedOn(X11(x).trend, 32) && Positive(X11(x).trend)
    ensures DefinedOn(X11(x).error, 25)
  {
    var s := Steps(x);
    assert X11(x) == Components(s.s18, s.s17, s.s19);
    assert DefinedOn(x, 0) && Positive(x);
    FirstPassRegion(x, s.s05, s.s09);
    SecondPassRegion(x, s.s09, s.s11, s.s15);
    FinalRegion(x, s.s15, s.s17, s.s18, s.s19);
  }

  /** Steps 01-09: the seasonal-irregular estimate step_09 is positive and
      defined on [16, len - 16). */
  lemma FirstPassRegion(x: TimeSeries, s05: TimeSeries, s09: TimeSeries)
    requires DefinedOn(x, 0) && Positive(x)
    requires s05 == CenteredAverage(CenteredAverage(Ratio(x, CenteredAverage(CenteredAverage(x, 12), 2)), 3), 3)
    requires |s05| == |x|
    requires s09 == Ratio(x, Ratio(s05, CenteredAverage(CenteredAverage(s05, 12), 2)))
    ensures DefinedOn(s09, 16) && Positive(s09)
  {
    RatioToSmoothed(x, 0, 12, 2);
    var s03 := Ratio(x, CenteredAverage(CenteredAverage(x, 12), 2));
    AverageDefinedOn(s03, 3, 7);
    AveragePositive(s03, 3, 7);
    var s04 := CenteredAverage(s03, 3);
    AverageDefinedOn(s04, 3, 8);
    AveragePositive(s04, 3, 8);
    RatioToSmoothed(s05, 9, 12, 2);
    RatioDefinedOn(x, Ratio(s05, CenteredAverage(CenteredAverage(s05, 12), 2)), 0, 16);
  }

  /** Steps 10-15: with a positive Henderson trend, the seasonally adjusted
      series step_15 is positive and defined on [25, len - 25). */
  lemma SecondPassRegion(x: TimeSeries, s09: TimeSeries, s11: TimeSeries, s15: TimeSeries)
    requires DefinedOn(x, 0) && Positive(x)
    requires |s09| == |x| && DefinedOn(s09, 16) && Positive(s09)
    requires Positive(Henderson(s09))
    requires s11 == Ratio(x, Henderson(s09))
    requires |s11| == |x|
    requires s15 == Ratio(x, Ratio(s11, CenteredAverage(CenteredAverage(s11, 5), 3)))
    ensures DefinedOn(s15, 25) && Positive(s15)
  {
    HendersonDefinedOn(s09, 16);
    RatioDefinedOn(x, Henderson(s09), 0, 22);
    RatioToSmoothed(s11, 22, 5, 3);
    RatioDefinedOn(x, Ratio(s11, CenteredAverage(CenteredAverage(s11, 5), 3)), 0, 25);
  }

  /** Steps 16-19: trend and seasonal factor on [32, len - 32), error on [25, len - 25). */
  lemma FinalRegion(x: TimeSeries, s15: TimeSeries, s17: TimeSeries, s18: TimeSeries, s19: TimeSeries)
    requires DefinedOn(x, 0) && |s15| == |x|
    requires DefinedOn(s15, 25) && Positive(s15)
    requires s17 == CenteredAverage(CenteredAverage(s15, 12), 2)
    requires s18 == Ratio(s15, s17) && s19 == Difference(x, s15)
    ensures DefinedOn(s18, 32) && Positive(s18)
    ensures DefinedOn(s17, 32) && Positive(s17)
    ensures DefinedOn(s19, 25)
  {
    RatioToSmoothed(s15, 25, 12, 2);
    DifferenceDefinedOn(x, s15, 0, 25);
  }

  /** Dividing a positive series by its two-pass moving average (windows n1
      then n2), as steps 03, 08, 14 and 18 do: the average and the ratio are
      both positive and defined on the range narrowed by n1/2 + n2/2. */
  lemma RatioToSmoothed(ts: TimeSeries, a: nat, n1: nat, n2: nat)
    requires 1 <= n1 && 1 <= n2
    requires DefinedOn(ts, a) && Positive(ts)
    ensures var m := CenteredAverage(CenteredAverage(ts, n1), n2);
            DefinedOn(m, a + n1 / 2 + n2 / 2) && Positive(m) &&
            DefinedOn(Ratio(ts, m), a + n1 / 2 + n2 / 2) && Positive(Ratio(ts, m))
  {
    var m1 := CenteredAverage(ts, n1);
    AverageDefinedOn(ts, n1, a);
    AveragePositive(ts, n1, a);
    var m := CenteredAverage(m1, n2);
    AverageDefinedOn(m1, n2, a + n1 / 2);
    AveragePositive(m1, n2, a + n1 / 2);
    RatioDefinedOn(ts, m, a, a + n1 / 2 + n2 / 2);
  }
}
