/**
  Reference definitions for the statistics of a window of samples: mean and variance of the
  interval averages, each weighted with the length of its interval, recomputed from the samples.
  */
module Windows {
  import opened Weighted

  datatype Sample = Sample(value: real, stamp: real)

  type Window = seq<Sample>

  ghost predicate Increasing(w: Window) {
    forall i, j :: 0 <= i < j < |w| ==> w[i].stamp < w[j].stamp
  }

  function Span(w: Window): real
    requires |w| > 0
  {
    w[|w| - 1].stamp - w[0].stamp
  }

  /** The interval between two consecutive samples, with the average of its end values. */
  function Between(a: Sample, b: Sample): Interval {
    Interval((a.value + b.value) / 2.0, b.stamp - a.stamp)
  }

  function IntervalsOf(w: Window): (r: Intervals)
    ensures |r| == if |w| == 0 then 0 else |w| - 1
    ensures forall i {:trigger r[i]} :: 0 <= i < |r| ==> r[i] == Between(w[i], w[i + 1])
  {
    if |w| == 0 then [] else seq(|w| - 1, i requires 0 <= i < |w| - 1 => Between(w[i], w[i + 1]))
  }

  function Mean(w: Window): real
    requires |w| > 0 && Increasing(w)
  {
    if |w| == 1 then w[0].value else SpanPositive(w); Sum(IntervalsOf(w)) / Span(w)
  }

  function Variance(w: Window): real
    requires |w| > 0 && Increasing(w)
  {
    if |w| == 1 then 0.0 else SpanPositive(w); Spread(IntervalsOf(w), Mean(w)) / Span(w)
  }

  // ----- stamps -----

  lemma SpanPositive(w: Window)
    requires |w| > 0 && Increasing(w)
    ensures if |w| == 1 then Span(w) == 0.0 else Span(w) > 0.0
  {}

  // ----- intervals -----

  lemma IntervalsPositive(w: Window)
    requires Increasing(w)
    ensures Positive(IntervalsOf(w))
  {}

  lemma IntervalsSnoc(w: Window, s: Sample)
    requires |w| > 0
    ensures IntervalsOf(w + [s]) == IntervalsOf(w) + [Between(w[|w| - 1], s)]
  {}

  lemma IntervalsTail(w: Window)
    requires |w| > 1
    ensures IntervalsOf(w)[0] == Between(w[0], w[1])
    ensures IntervalsOf(w)[1..] == IntervalsOf(w[1..])
  {}

  /** The interval lengths telescope. */
  lemma {:induction false} TotalIsSpan(w: Window)
    requires |w| > 0
    ensures Total(IntervalsOf(w)) == Span(w)
  {
    if |w| > 1 {
      IntervalsTail(w);
      TotalIsSpan(w[1..]);
    }
  }

  // ----- mean and variance of a window -----

  lemma WindowMoments(w: Window)
    requires |w| > 0 && Increasing(w)
    ensures Moments(IntervalsOf(w), Mean(w), Variance(w))
  {
    var r := IntervalsOf(w);
    TotalIsSpan(w);
    SpanPositive(w);
    if |w| == 1 {
      WeighZero(Mean(w));
      WeighZero(Variance(w));
    } else {
      WeighQuotient(Sum(r), Span(w));
      WeighQuotient(Spread(r, Mean(w)), Span(w));
    }
  }

  lemma MomentsAreWindows(w: Window, m: real, v: real)
    requires |w| > 1 && Increasing(w) && Moments(IntervalsOf(w), m, v)
    ensures m == Mean(w) && v == Variance(w)
  {
    IntervalsPositive(w);
    WindowMoments(w);
    MomentsUnique(IntervalsOf(w), m, v, Mean(w), Variance(w));
  }

  /** The running update computes the mean and variance of the window with one more sample. */
  lemma WindowAdd(w: Window, s: Sample)
    requires |w| > 0 && Increasing(w + [s])
    ensures Increasing(w) && Span(w) >= 0.0
    ensures var x, m, m' := Between(w[|w| - 1], s), Mean(w), Mean(w + [s]);
            x.length + Span(w) > 0.0
            && m' == AddedMean(Span(w), m, x.value - m, x.length)
            && Variance(w + [s]) == AddedVariance(Span(w), Variance(w), m - m', x.value - m', x.length)
  {
    assert Increasing(w) by { assert forall i :: 0 <= i < |w| ==> (w + [s])[i] == w[i]; }
    var x, m := Between(w[|w| - 1], s), Mean(w);
    assert x.length > 0.0 by { assert (w + [s])[|w| - 1] == w[|w| - 1] && (w + [s])[|w|] == s; }
    TotalIsSpan(w);
    SpanPositive(w);
    WindowMoments(w);
    IntervalsPositive(w);
    IntervalsSnoc(w, s);
    AddInterval(IntervalsOf(w), m, Variance(w), x);
    var m' := AddedMean(Span(w), m, x.value - m, x.length);
    MomentsAreWindows(w + [s], m', AddedVariance(Span(w), Variance(w), m - m', x.value - m', x.length));
  }

  /** The reversal computes the mean and variance of the window without its oldest sample. */
  lemma WindowDrop(w: Window)
    requires |w| > 2 && Increasing(w)
    ensures Increasing(w[1..]) && Span(w[1..]) > 0.0
    ensures var x, m, m' := Between(w[0], w[1]), Mean(w), Mean(w[1..]);
            m' == DroppedMean(Span(w[1..]), m, x.value - m, x.length)
            && Variance(w[1..]) == DroppedVariance(Span(w[1..]), Variance(w), m - m', x.value - m, x.length)
  {
    var rest, x, m := w[1..], Between(w[0], w[1]), Mean(w);
    TotalIsSpan(rest);
    SpanPositive(rest);
    WindowMoments(w);
    IntervalsPositive(w);
    IntervalsTail(w);
    DropInterval(IntervalsOf(w), m, Variance(w));
    var m' := DroppedMean(Span(rest), m, x.value - m, x.length);
    MomentsAreWindows(rest, m', DroppedVariance(Span(rest), Variance(w), m - m', x.value - m, x.length));
  }

  ghost predicate Within(w: Window, lo: real, hi: real) {
    forall i :: 0 <= i < |w| ==> lo <= w[i].value <= hi
  }

  /** The mean lies between the smallest and the largest sample, and the variance is never negative. */
  lemma WindowBounds(w: Window, lo: real, hi: real)
    requires |w| > 0 && Increasing(w) && Within(w, lo, hi)
    ensures lo <= Mean(w) <= hi
    ensures Variance(w) >= 0.0
  {
    if |w| > 1 {
      var r := IntervalsOf(w);
      IntervalsPositive(w);
      WindowMoments(w);
      MeanBetween(r, Mean(w), Variance(w), lo, hi);
      VarianceNonNegative(r, Mean(w), Variance(w));
    }
  }

  lemma Extremes(w: Window) returns (i: nat, j: nat)
    requires |w| > 0
    ensures i < |w| && j < |w| && Within(w, w[i].value, w[j].value)
  {
    i, j := 0, 0;
    for k := 1 to |w|
      invariant i < k && j < k
      invariant forall n :: 0 <= n < k ==> w[i].value <= w[n].value <= w[j].value
    {
      if w[k].value < w[i].value { i := k; }
      if w[k].value > w[j].value { j := k; }
    }
  }

  // ----- shifting all values -----

  function ShiftedWindow(w: Window, c: real): (r: Window)
    ensures |r| == |w|
    ensures forall i :: 0 <= i < |w| ==> r[i] == Sample(w[i].value + c, w[i].stamp)
  {
    seq(|w|, i requires 0 <= i < |w| => Sample(w[i].value + c, w[i].stamp))
  }

  lemma IntervalsShifted(w: Window, c: real)
    ensures IntervalsOf(ShiftedWindow(w, c)) == Shifted(IntervalsOf(w), c)
  {
    var r := ShiftedWindow(w, c);
    forall i | 0 <= i < |IntervalsOf(w)| ensures IntervalsOf(r)[i] == Shifted(IntervalsOf(w), c)[i] {
      BetweenShifted(w[i], w[i + 1], c);
      assert r[i] == Sample(w[i].value + c, w[i].stamp);
      assert r[i + 1] == Sample(w[i + 1].value + c, w[i + 1].stamp);
    }
  }

  lemma BetweenShifted(a: Sample, b: Sample, c: real)
    ensures Between(Sample(a.value + c, a.stamp), Sample(b.value + c, b.stamp))
         == Interval(Between(a, b).value + c, Between(a, b).length)
  {}

  lemma WindowShifted(w: Window, c: real)
    requires |w| > 0 && Increasing(w)
    ensures Increasing(ShiftedWindow(w, c))
    ensures Mean(ShiftedWindow(w, c)) == Mean(w) + c
    ensures Variance(ShiftedWindow(w, c)) == Variance(w)
  {
    var r := ShiftedWindow(w, c);
    if |w| > 1 {
      WindowMoments(w);
      MomentsShifted(IntervalsOf(w), Mean(w), Variance(w), c);
      IntervalsShifted(w, c);
      MomentsAreWindows(r, Mean(w) + c, Variance(w));
    }
  }

  // ----- the samples that have not expired -----

  /** The longest suffix within the period of its newest sample; never less than the newest sample. */
  function Unexpired(w: Window, period: real): Window {
    if |w| <= 1 || Span(w) <= period then w else Unexpired(w[1..], period)
  }

  lemma {:induction false} UnexpiredSize(w: Window, period: real)
    ensures |Unexpired(w, period)| <= |w|
    ensures |w| > 0 ==> |Unexpired(w, period)| > 0
    ensures |w| > 0 ==> Unexpired(w, period) == w[|w| - |Unexpired(w, period)|..]
  {
    if |w| > 1 && Span(w) > period {
      UnexpiredSize(w[1..], period);
      var u := Unexpired(w[1..], period);
      assert w[1..][|w| - 1 - |u|..] == w[|w| - |u|..];
    }
  }

  lemma {:induction false} ExpiryEdge(w: Window, period: real)
    requires |w| > 0 && period >= 0.0
    ensures 0 < |Unexpired(w, period)| <= |w| && Span(Unexpired(w, period)) <= period
    ensures var k := |w| - |Unexpired(w, period)|; k > 0 ==> w[|w| - 1].stamp - w[k - 1].stamp > period
  {
    if |w| > 1 && Span(w) > period {
      var r := w[1..];
      ExpiryEdge(r, period);
      var k := |r| - |Unexpired(r, period)|;
      assert k > 0 ==> r[k - 1] == w[k];
      assert r[|r| - 1] == w[|w| - 1];
    }
  }

  /** Exactly the samples within the period of the newest one are retained. */
  lemma UnexpiredIsLongestSuffix(w: Window, period: real)
    requires |w| > 0 && Increasing(w) && period >= 0.0
    ensures var k := |w| - |Unexpired(w, period)|;
            0 <= k < |w| && Unexpired(w, period) == w[k..]
            && forall i :: 0 <= i < |w| ==> (k <= i <==> w[|w| - 1].stamp - w[i].stamp <= period)
  {
    UnexpiredSize(w, period);
    ExpiryEdge(w, period);
    var k := |w| - |Unexpired(w, period)|;
    assert Unexpired(w, period)[0] == w[k];
  }

  /** What expired before the newest sample came expires with it too, so expiry may be done sample by sample. */
  lemma {:induction false} UnexpiredSnoc(w: Window, s: Sample, period: real)
    requires |w| > 0 && Increasing(w) && w[|w| - 1].stamp < s.stamp
    ensures Unexpired(Unexpired(w, period) + [s], period) == Unexpired(w + [s], period)
  {
    if |w| > 1 && Span(w) > period {
      UnexpiredSnoc(w[1..], s, period);
      assert (w + [s])[1..] == w[1..] + [s];
      assert Span(w + [s]) > Span(w);
    }
  }
}
