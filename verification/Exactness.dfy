/**
  Exactly when the running statistic is right, step by step and over every run. Each update of a stored mean moves its
  error: adding scales it down, dropping scales it up. A statistic that is right stays right as long as the differences
  that the code takes are within half a turn of the ones they stand for; a wrong one becomes right only when the window
  is down to one sample, or when the errors happen to cancel.
  */
module Exactness {
  import opened Numbers
  import opened Quantities
  import opened Weighted
  import opened Windows
  import opened Statistics
  import opened Readings

  // ----- the error of a stored mean -----

  /**
    The distance of a stored mean from the true mean m, with the stored one read next to an interval average avg.
    The reading of the average is a.
    */
  function MeanError(q: Quantity, mean: real, avg: real, a: real, m: real): real { (a - m) - Diff(q, avg, mean) }

  /** No error on the circle: whole turns for an angle, nothing for other quantities. */
  predicate Vanishes(q: Quantity, e: real) { if Angular(q) then Wrap(e, 0.0) == 0.0 else e == 0.0 }

  lemma VanishesIff(q: Quantity, v: real, m: real, e: real)
    requires Matches(q, v, m + e)
    ensures Matches(q, v, m) <==> Vanishes(q, e)
  {
    if Angular(q) {
      WrapCongruent(e, 0.0);
      if Congruent(v, m) {
        CongruentSym(v, m + e);
        CongruentTrans(m + e, v, m);
        CongruentShift(m + e, m, -m);
        CongruentSym(e, 0.0);
        WrapIs(0.0, e, 0.0);
      }
      if Wrap(e, 0.0) == 0.0 {
        CongruentSym(0.0, e);
        CongruentShift(e, 0.0, m);
        CongruentTrans(v, m + e, m);
      }
    }
  }

  lemma ZeroVanishes(q: Quantity)
    ensures Vanishes(q, 0.0)
  {
    MatchesSelf(q, 0.0);
    VanishesIff(q, 0.0, 0.0, 0.0);
  }

  /** The stored mean is the true one plus the error. */
  lemma ErrorMatches(q: Quantity, mean: real, avg: real, a: real, m: real)
    requires Matches(q, avg, a)
    ensures Matches(q, mean, m + MeanError(q, mean, avg, a, m))
  {
    if Angular(q) {
      var d := Diff(q, avg, mean);
      WrapCongruent(avg - mean, -PI);
      MatchesSelf(q, avg);
      CongruentDifference(avg, d, avg, avg - mean);
      CongruentSym(avg - d, mean);
      CongruentShift(avg, a, -d);
      CongruentTrans(mean, avg - d, a - d);
    }
  }

  /** There is no error exactly when the mean is right and the average is no more than half a turn from it. */
  lemma NoErrorIff(q: Quantity, mean: real, avg: real, a: real, m: real)
    requires Matches(q, avg, a)
    ensures MeanError(q, mean, avg, a, m) == 0.0 <==> Matches(q, mean, m) && Near(q, a - m)
  {
    ErrorMatches(q, mean, avg, a, m);
    if Matches(q, mean, m) && Near(q, a - m) { DiffMatches(q, avg, mean, a, m); }
  }

  /** The difference that the code takes between two angles, by their readings. */
  lemma DiffOfReadings(q: Quantity, a: real, b: real, x: real, y: real)
    requires Matches(q, a, x) && Matches(q, b, y)
    ensures Diff(q, a, b) == Diff(q, x, y)
  {
    if Angular(q) {
      WrapCongruent(a - b, -PI);
      CongruentDifference(a, b, x, y);
      CongruentTrans(Wrap(a - b, -PI), a - b, x - y);
      WrapIs(Wrap(a - b, -PI), x - y, -PI);
    }
  }

  lemma NearDiff(q: Quantity, x: real, y: real)
    requires Near(q, x - y)
    ensures Diff(q, x, y) == x - y
  {
    MatchesSelf(q, x);
    MatchesSelf(q, y);
    DiffMatches(q, x, y, x, y);
  }

  /** The reading of an update of the stored mean by a step. */
  lemma StepMatches(q: Quantity, mean: real, x: real, x': real)
    requires Matches(q, mean, x)
    ensures Matches(q, Norm(q, mean + (x' - x)), x')
  {
    MatchesShift(q, mean, x, x' - x);
    NormMatches(q, mean + (x' - x), x');
  }

  // ----- the error after one step -----

  /** What an added interval leaves of an error. */
  function Shrunk(e: real, total: real, length: real): real
    requires length + total != 0.0
  {
    e * total / (length + total)
  }

  /** What a dropped interval makes of an error, when the average is reversed with another value than it was added. */
  function Grown(e: real, total: real, length: real, off: real): real
    requires total != 0.0
  {
    e * (total + length) / total - off * length / total
  }

  lemma ShrunkMean(total: real, m: real, e: real, d: real, length: real)
    requires total >= 0.0 && length > 0.0
    ensures AddedMean(total, m + e, d - e, length) == AddedMean(total, m, d, length) + Shrunk(e, total, length)
  {
    var t := length + total;
    assert (d - e) * length == d * length - e * length;
    assert e * t == e * length + e * total;
    assert e == e * length / t + e * total / t;
  }

  lemma GrownMean(total: real, m: real, e: real, d: real, length: real, off: real)
    requires total > 0.0 && length > 0.0
    ensures DroppedMean(total, m + e, d + off - e, length)
         == DroppedMean(total, m, d, length) + Grown(e, total, length, off)
  {
    assert (d + off - e) * length == d * length + off * length - e * length;
    assert e * (total + length) == e * total + e * length;
    assert e * total / total == e;
  }

  lemma ShrunkZero(total: real, length: real)
    requires length + total != 0.0
    ensures Shrunk(0.0, total, length) == 0.0
  {}

  lemma GrownZero(total: real, length: real)
    requires total != 0.0
    ensures Grown(0.0, total, length, 0.0) == 0.0
  {}

  lemma Quotients(x: real, y: real, n: real)
    requires n > 0.0
    ensures x / n == y / n <==> x == y
  {}

  lemma AddedVarianceIff(total: real, v: real, v': real, shift: real, dev: real, length: real)
    requires total > 0.0 && length > 0.0
    ensures AddedVariance(total, v, shift, dev, length) == AddedVariance(total, v', shift, dev, length) <==> v == v'
  {
    var n, t := total + length, Sqr(shift);
    assert total * (v + t) - total * (v' + t) == total * (v - v');
    Quotients(total * (v + t) + length * Sqr(dev), total * (v' + t) + length * Sqr(dev), n);
  }

  lemma DroppedVarianceIff(total: real, v: real, v': real, shift: real, dev: real, length: real)
    requires total > 0.0 && length > 0.0
    ensures DroppedVariance(total, v, shift, dev, length) == DroppedVariance(total, v', shift, dev, length) <==> v == v'
  {
    var n := total + length;
    assert n * v - n * v' == n * (v - v');
    Quotients(n * v - length * Sqr(dev), n * v' - length * Sqr(dev), total);
  }

  // ----- one added sample -----

  /** The error of the stored mean as the next sample's update sees it. */
  function AddError(q: Quantity, t: Track, s: Sample, w: Window, c: Sample): real
    requires |t.samples| > 0 && |w| > 0 && Increasing(w)
  {
    MeanError(q, t.stat.mean, Average(q, s, Last(t.samples)), Between(Last(w), c).value, Mean(w))
  }

  /** The interval average that a sample adds is no more than half a turn from the mean, on the path. */
  predicate AddGuard(q: Quantity, w: Window, c: Sample)
    requires |w| > 0 && Increasing(w)
  {
    Near(q, Between(Last(w), c).value - Mean(w))
  }

  /** Adding a sample scales the error of the mean down; what it does to the variance depends on the error. */
  lemma AddScales(q: Quantity, t: Track, s: Sample, w: Window, c: Sample)
    requires WellFormed(t) && Last(t.samples).stamp < s.stamp
    requires |w| == |t.samples| && IsPath(q, t.samples + [s], w + [c]) && Increasing(w)
    ensures Increasing(w + [c]) && Span(w) >= 0.0 && c.stamp > Last(w).stamp
    ensures var e, r, a, m, m' := AddError(q, t, s, w, c), Add(q, t, s).stat, Between(Last(w), c).value, Mean(w), Mean(w + [c]);
            var total, length := Span(w), c.stamp - Last(w).stamp;
            && Matches(q, t.stat.mean, m + e)
            && Matches(q, r.mean, m' + Shrunk(e, total, length))
            && (Matches(q, r.mean, m') <==> Vanishes(q, Shrunk(e, total, length)))
            && (Matches(q, r.mean, m') ==>
                r.variance == AddedVariance(total, t.stat.variance, Diff(q, m + e, m'), Diff(q, a, m'), length))
            && (e == 0.0 <==> Matches(q, t.stat.mean, m) && AddGuard(q, w, c))
  {
    hide AddedMean, AddedVariance, Norm, Diff, Mean, Variance, Shrunk, Matches, Vanishes, IsPath, Near;
    var n, all, path := |w|, t.samples + [s], w + [c];
    PathIncreasing(q, all, path);
    PathStep(q, all, path, n - 1);
    PathSpan(q, t.samples, s, w, c);
    SpanPositive(w);
    var x, m, m' := Between(w[n - 1], c), Mean(w), Mean(path);
    WindowAdd(w, c);
    var avg := Average(q, s, t.samples[n - 1]);
    AverageMatches(q, s, t.samples[n - 1], c, w[n - 1]);
    ErrorMatches(q, t.stat.mean, avg, x.value, m);
    NoErrorIff(q, t.stat.mean, avg, x.value, m);
    var e := AddError(q, t, s, w, c);
    ShrunkMean(Span(w), m, e, x.value - m, x.length);
    AddedStep(Span(w), m + e, t.stat.mean, x.value - m - e, x.length);
    var f := Shrunk(e, Span(w), x.length);
    StepMatches(q, t.stat.mean, m + e, m' + f);
    var mean := Add(q, t, s).stat.mean;
    VanishesIff(q, mean, m', f);
    if Matches(q, mean, m') {
      DiffOfReadings(q, t.stat.mean, mean, m + e, m');
      DiffOfReadings(q, avg, mean, x.value, m');
    }
  }

  lemma PathSpan(q: Quantity, w: Window, s: Sample, u: Window, c: Sample)
    requires |w| > 0 && |u| == |w| && IsPath(q, w + [s], u + [c])
    ensures Span(u) == Span(w) && u[|u| - 1].stamp == w[|w| - 1].stamp && c.stamp == s.stamp
  {
    assert (w + [s])[0] == w[0] && (u + [c])[0] == u[0];
    assert (w + [s])[|w| - 1] == w[|w| - 1] && (u + [c])[|w| - 1] == u[|w| - 1];
    assert (w + [s])[|w|] == s && (u + [c])[|w|] == c;
  }

  /** The errors of mean and variance cancel in the update. */
  predicate AddCoincides(q: Quantity, t: Track, s: Sample, w: Window, c: Sample)
    requires |t.samples| > 0 && |w| > 0 && Increasing(w) && Increasing(w + [c])
    requires Span(w) >= 0.0 && c.stamp > Last(w).stamp
  {
    var e, m, m' := AddError(q, t, s, w, c), Mean(w), Mean(w + [c]);
    var total, length := Span(w), c.stamp - Last(w).stamp;
    && e != 0.0 && Vanishes(q, Shrunk(e, total, length))
    && AddedVariance(total, t.stat.variance, Diff(q, m + e, m'), Diff(q, Between(Last(w), c).value, m'), length)
       == Variance(w + [c])
  }

  /** A statistic is right after a sample is added exactly when it was right and guarded, or the errors cancel. */
  lemma AddExactly(q: Quantity, t: Track, s: Sample, w: Window, c: Sample)
    requires WellFormed(t) && Last(t.samples).stamp < s.stamp
    requires |w| == |t.samples| && IsPath(q, t.samples + [s], w + [c]) && Increasing(w)
    requires |w| == 1 ==> Represents(q, t.stat, w)
    ensures Increasing(w + [c]) && Span(w) >= 0.0 && c.stamp > Last(w).stamp
    ensures Represents(q, Add(q, t, s).stat, w + [c])
       <==> (Represents(q, t.stat, w) && AddGuard(q, w, c)) || AddCoincides(q, t, s, w, c)
  {
    hide Mean, Variance, Norm, Diff, AddedMean, AddedVariance, Average, Shrunk, Matches, Vanishes, IsPath, Near, AddError;
    AddScales(q, t, s, w, c);
    var e, total, length := AddError(q, t, s, w, c), Span(w), c.stamp - Last(w).stamp;
    if |w| == 1 { SingleGuard(q, t.samples, s, w, c); }
    if e == 0.0 {
      ShrunkZero(total, length);
      ZeroVanishes(q);
      WindowAdd(w, c);
      var a, m, m' := Between(Last(w), c).value, Mean(w), Mean(w + [c]);
      AddedNear(q, total, m, a, length);
      SpanPositive(w);
      if total > 0.0 {
        AddedVarianceIff(total, t.stat.variance, Variance(w), m - m', a - m', length);
      } else {
        NothingBefore(t.stat.variance, Diff(q, m, m'), Variance(w), m - m', a - m', length);
      }
    }
  }

  /** The first interval's variance does not depend on what was stored. */
  lemma NothingBefore(v: real, shift: real, v': real, shift': real, dev: real, length: real)
    requires length > 0.0
    ensures AddedVariance(0.0, v, shift, dev, length) == AddedVariance(0.0, v', shift', dev, length)
  {}

  /** The first interval's average is no more than a quarter of a turn from the only sample. */
  lemma SingleGuard(q: Quantity, w: Window, s: Sample, u: Window, c: Sample)
    requires |w| == |u| == 1 && IsPath(q, w + [s], u + [c]) && Increasing(u)
    ensures AddGuard(q, u, c)
  {
    PathStep(q, w + [s], u + [c], 0);
    assert Between(u[0], c).value - Mean(u) == (c.value - u[0].value) / 2.0;
  }

  /** With the average no more than half a turn from the mean, so are both means, and the average from the new one. */
  lemma AddedNear(q: Quantity, total: real, m: real, a: real, length: real)
    requires total >= 0.0 && length > 0.0 && Near(q, a - m)
    ensures var m' := AddedMean(total, m, a - m, length);
            Diff(q, a, m') == a - m' && (total > 0.0 ==> Diff(q, m, m') == m - m')
  {
    var y := StepTaken(total, m, a - m, length);
    hide AddedMean, Diff;
    var m' := AddedMean(total, m, a - m, length);
    NearDiff(q, a, m');
    if total > 0.0 { NearDiff(q, m, m'); }
  }

  /** The new mean is between the old one and the average. */
  lemma StepTaken(total: real, m: real, d: real, length: real) returns (y: real)
    requires total >= 0.0 && length > 0.0
    ensures AddedMean(total, m, d, length) == m + y
    ensures if d >= 0.0 then 0.0 <= y <= d else d <= y < 0.0
    ensures d < 0.0 && total > 0.0 ==> d < y
  {
    var k := length / (length + total);
    assert 0.0 < k <= 1.0 && (total > 0.0 ==> k < 1.0);
    y := d * k;
    assert d * length / (length + total) == y;
    Part(d, k);
  }

  lemma Part(d: real, k: real)
    requires 0.0 < k <= 1.0
    ensures if d >= 0.0 then 0.0 <= d * k <= d else d <= d * k < 0.0
    ensures d < 0.0 && k < 1.0 ==> d < d * k
  {}

  // ----- one dropped sample -----

  /** The error of the stored mean as the reversal of the oldest interval sees it. */
  function DropError(q: Quantity, t: Track, u: Window): real
    requires |t.samples| > 1 && |u| > 1 && Increasing(u)
  {
    MeanError(q, t.stat.mean, Average(q, t.samples[0], t.samples[1]), Reversed(q, u[0], u[1]), Mean(u))
  }

  /** How far the average that is reversed is from the one that was added. */
  function Off(q: Quantity, u: Window): real
    requires |u| > 1
  {
    Reversed(q, u[0], u[1]) - Between(u[0], u[1]).value
  }

  /**
    On the path, the two oldest samples are not exactly half a turn apart, their average is no more than half a turn
    from the mean, and neither is the mean that remains.
    */
  predicate DropGuard(q: Quantity, u: Window)
    requires |u| > 2 && Increasing(u) && Increasing(u[1..])
  {
    var a, m, m' := Between(u[0], u[1]).value, Mean(u), Mean(u[1..]);
    Angular(q) ==> u[1].value - u[0].value != -PI && -PI <= a - m < PI && -PI <= m - m' <= PI
  }

  /**
    The guard holds exactly when the reversal takes the average that was added, and the differences it takes from the
    mean are the plain ones, the last but for its sign.
    */
  lemma DropGuardIff(q: Quantity, u: Window)
    requires |u| > 2 && Increasing(u) && Increasing(u[1..])
    ensures var a, m, m' := Between(u[0], u[1]).value, Mean(u), Mean(u[1..]);
            (DropGuard(q, u) <==>
             Reversed(q, u[0], u[1]) == a && Diff(q, a, m) == a - m && Sqr(Diff(q, m, m')) == Sqr(m - m'))
  {
    hide Mean;
    var a, m, m' := Between(u[0], u[1]).value, Mean(u), Mean(u[1..]);
    DiffIsNear(q, a, m);
    SquareIff(q, m, m');
  }

  lemma DiffIsNear(q: Quantity, x: real, y: real)
    ensures Diff(q, x, y) == x - y <==> Near(q, x - y)
  {
    if Near(q, x - y) { NearDiff(q, x, y); }
  }

  lemma SquareIff(q: Quantity, x: real, y: real)
    ensures Sqr(Diff(q, x, y)) == Sqr(x - y) <==> (Angular(q) ==> -PI <= x - y <= PI)
  {
    if Angular(q) ==> -PI <= x - y <= PI {
      SquareOfDiff(q, x, y);
    } else {
      LargerSquare(x - y, Diff(q, x, y), PI);
    }
  }

  lemma LargerSquare(x: real, d: real, b: real)
    requires b > 0.0 && -b <= d <= b && !(-b <= x <= b)
    ensures Sqr(d) < Sqr(x)
  {
    assert b * b - d * d == (b - d) * (b + d) >= 0.0;
    assert x * x - b * b == (x - b) * (x + b) > 0.0;
  }

  /** The error of the mean after the oldest sample is dropped. */
  function DroppedError(q: Quantity, t: Track, u: Window): real
    requires |t.samples| > 2 && |u| > 2 && Increasing(u) && Span(u[1..]) > 0.0
  {
    Grown(DropError(q, t, u), Span(u[1..]), u[1].stamp - u[0].stamp, Off(q, u))
  }

  /** Dropping a sample scales the error of the mean up; what it does to the variance depends on the error. */
  lemma DropScales(q: Quantity, t: Track, u: Window)
    requires WellFormed(t) && |t.samples| > 2 && IsPath(q, t.samples, u) && Increasing(u)
    ensures |u| == |t.samples| && Increasing(u[1..]) && Span(u[1..]) > 0.0
    ensures var e, g, r, m, m' := DropError(q, t, u), DroppedError(q, t, u), Drop(q, t).stat, Mean(u), Mean(u[1..]);
            var total, length := Span(u[1..]), u[1].stamp - u[0].stamp;
            && Matches(q, t.stat.mean, m + e)
            && Matches(q, r.mean, m' + g)
            && (Matches(q, r.mean, m') <==> Vanishes(q, g))
            && (Matches(q, r.mean, m') ==>
                r.variance == DroppedVariance(total, t.stat.variance, Diff(q, m + e, m'),
                                              Reversed(q, u[0], u[1]) - m - e, length))
            && (e == 0.0 <==> Matches(q, t.stat.mean, m) && Near(q, Reversed(q, u[0], u[1]) - m))
  {
    hide DroppedMean, DroppedVariance, Norm, Diff, Mean, Variance, Grown, Matches, Vanishes, IsPath, Near, Reversed;
    PathSlice(q, t.samples, u, 1, |t.samples|);
    assert u[1..|t.samples|] == u[1..] && t.samples[1..|t.samples|] == t.samples[1..];
    PathIncreasing(q, t.samples[1..], u[1..]);
    PathStep(q, t.samples, u, 0);
    WindowDrop(u);
    var x, m, m', b := Between(u[0], u[1]), Mean(u), Mean(u[1..]), Reversed(q, u[0], u[1]);
    ReversedMatches(q, t.samples[0], t.samples[1], u[0], u[1]);
    var avg := Average(q, t.samples[0], t.samples[1]);
    ErrorMatches(q, t.stat.mean, avg, b, m);
    NoErrorIff(q, t.stat.mean, avg, b, m);
    var e := DropError(q, t, u);
    GrownMean(Span(u[1..]), m, e, x.value - m, x.length, b - x.value);
    DroppedStep(Span(u[1..]), m + e, t.stat.mean, b - m - e, x.length);
    var g := DroppedError(q, t, u);
    StepMatches(q, t.stat.mean, m + e, m' + g);
    var mean := Drop(q, t).stat.mean;
    VanishesIff(q, mean, m', g);
    if Matches(q, mean, m') { DiffOfReadings(q, t.stat.mean, mean, m + e, m'); }
  }

  /** The errors of mean and variance cancel in the reversal. */
  predicate DropCoincides(q: Quantity, t: Track, u: Window)
    requires |t.samples| > 2 && |u| > 2 && Increasing(u) && Increasing(u[1..]) && Span(u[1..]) > 0.0
  {
    var e, m, m' := DropError(q, t, u), Mean(u), Mean(u[1..]);
    && !(e == 0.0 && DropGuard(q, u))
    && Vanishes(q, DroppedError(q, t, u))
    && DroppedVariance(Span(u[1..]), t.stat.variance, Diff(q, m + e, m'), Reversed(q, u[0], u[1]) - m - e,
                       u[1].stamp - u[0].stamp)
       == Variance(u[1..])
  }

  /** A statistic is right after the oldest sample is dropped exactly when it was right and guarded, or errors cancel. */
  lemma DropExactly(q: Quantity, t: Track, u: Window)
    requires WellFormed(t) && |t.samples| > 2 && IsPath(q, t.samples, u) && Increasing(u)
    ensures |u| == |t.samples| && Increasing(u[1..]) && Span(u[1..]) > 0.0
    ensures Represents(q, Drop(q, t).stat, u[1..])
       <==> (Represents(q, t.stat, u) && DropGuard(q, u)) || DropCoincides(q, t, u)
  {
    hide Mean, Variance, Norm, DroppedMean, DroppedVariance, Average, Matches, Vanishes, IsPath, DropError, Grown, Wrap;
    DropScales(q, t, u);
    var e, total, length := DropError(q, t, u), Span(u[1..]), u[1].stamp - u[0].stamp;
    if DropGuard(q, u) {
      var a, m, m' := Between(u[0], u[1]).value, Mean(u), Mean(u[1..]);
      assert Reversed(q, u[0], u[1]) == a;
      if e == 0.0 {
        GrownZero(total, length);
        ZeroVanishes(q);
        WindowDrop(u);
        SquareOfDiff(q, m, m');
        SameSquares(total, t.stat.variance, Diff(q, m, m'), m - m', a - m, length);
        DroppedVarianceIff(total, t.stat.variance, Variance(u), m - m', a - m, length);
      }
    }
  }

  lemma SquareOfDiff(q: Quantity, x: real, y: real)
    requires Angular(q) ==> -PI <= x - y <= PI
    ensures Sqr(Diff(q, x, y)) == Sqr(x - y)
  {
    if Near(q, x - y) {
      NearDiff(q, x, y);
    } else {
      NearDiff(q, x - TAU, y);
      MatchesSelf(q, y);
      MatchesSelf(q, x);
      MatchesTurned(q, x, x, -1);
      DiffOfReadings(q, x, y, x - TAU, y);
    }
  }

  lemma SameSquares(total: real, v: real, shift: real, shift': real, dev: real, length: real)
    requires total > 0.0 && Sqr(shift) == Sqr(shift')
    ensures DroppedVariance(total, v, shift, dev, length) == DroppedVariance(total, v, shift', dev, length)
  {}

  // ----- one call -----

  lemma TailIncreasing(u: Window)
    requires |u| > 2 && Increasing(u)
    ensures Increasing(u[1..]) && Span(u[1..]) > 0.0
  {
    SpanPositive(u[1..]);
  }

  /** Whether the statistic is right after expiry, when it is right or wrong before, with u the path of the samples. */
  predicate ExpiresRight(q: Quantity, period: real, t: Track, u: Window, right: bool)
    requires WellFormed(t) && |u| == |t.samples| && Increasing(u)
    decreases |u|
  {
    if |u| <= 2 || Span(t.samples) <= period then right
    else
      TailIncreasing(u);
      DropSamples(q, t);
      ExpiresRight(q, period, Drop(q, t), u[1..], (right && DropGuard(q, u)) || DropCoincides(q, t, u))
  }

  /** Expiry that leaves two samples or more. */
  lemma {:induction false} ExpireExactly(q: Quantity, period: real, t: Track, u: Window)
    requires WellFormed(t) && |t.samples| > 1 && IsPath(q, t.samples, u) && Increasing(u)
    requires |Expire(q, period, t).samples| > 1
    ensures var r := Expire(q, period, t);
            var k := |t.samples| - |r.samples|;
            |u| == |t.samples| && 0 <= k < |u| && IsPath(q, r.samples, u[k..]) && Increasing(u[k..])
            && (Represents(q, r.stat, u[k..]) <==> ExpiresRight(q, period, t, u, Represents(q, t.stat, u)))
    decreases |t.samples|
  {
    hide Drop, Mean, Variance, Matches, IsPath, Expire, Increasing, Span, DropGuard, DropCoincides;
    PathIncreasing(q, t.samples, u);
    ExpireUnfolds(q, period, t);
    if Span(t.samples) <= period {
      assert u[0..] == u;
    } else {
      DropSamples(q, t);
      DropExactly(q, t, u);
      PathSlice(q, t.samples, u, 1, |u|);
      assert t.samples[1..|u|] == t.samples[1..] && u[1..|u|] == u[1..];
      ExpireExactly(q, period, Drop(q, t), u[1..]);
      var r := Expire(q, period, Drop(q, t));
      assert u[1..][|t.samples| - 1 - |r.samples|..] == u[|t.samples| - |r.samples|..];
    }
  }

  /** Whether the statistic is right after a newer sample is inserted, when it is right or wrong before. */
  predicate InsertsRight(q: Quantity, period: real, t: Track, s: Sample, right: bool)
    requires WellFormed(t) && Last(t.samples).stamp < s.stamp
  {
    var all := t.samples + [s];
    |Unexpired(all, period)| == 1 ||
    (var u := Unwrap(q, all);
     PathEnds(q, t, s);
     ExpiresRight(q, period, Add(q, t, s), u,
                  (right && AddGuard(q, u[..|u| - 1], u[|u| - 1]))
                  || AddCoincides(q, t, s, u[..|u| - 1], u[|u| - 1])))
  }

  lemma PathEnds(q: Quantity, t: Track, s: Sample)
    requires WellFormed(t) && Last(t.samples).stamp < s.stamp
    ensures WellFormed(Add(q, t, s)) && Add(q, t, s).samples == t.samples + [s]
    ensures var u := Unwrap(q, t.samples + [s]);
            var w := u[..|u| - 1];
            && Increasing(u) && |w| == |t.samples| && Increasing(w) && u == w + [u[|u| - 1]]
            && IsPath(q, t.samples, w) && IsPath(q, t.samples + [s], u)
            && Span(w) >= 0.0 && u[|u| - 1].stamp > Last(w).stamp
  {
    hide IsPath, Unwrap, Add;
    var all := t.samples + [s];
    AddSamples(q, t, s);
    UnwrapIsPath(q, all);
    var u := Unwrap(q, all);
    PathIncreasing(q, all, u);
    PathSlice(q, all, u, 0, |t.samples|);
    assert all[0..|t.samples|] == t.samples && u[0..|t.samples|] == u[..|u| - 1];
    SpanPositive(u[..|u| - 1]);
  }

  lemma InsertExactly(q: Quantity, period: real, t: Track, s: Sample)
    requires WellFormed(t) && t.stat.n == |t.samples| && Last(t.samples).stamp < s.stamp
    requires |t.samples| == 1 ==> Right(q, t)
    ensures Right(q, Insert(q, period, t, s)) <==> InsertsRight(q, period, t, s, Right(q, t))
  {
    hide Add, Expire, Right, ExpiresRight, IsPath, Unwrap, Represents, AddGuard, AddCoincides;
    var all, t1 := t.samples + [s], Add(q, t, s);
    PathEnds(q, t, s);
    ExpireSamples(q, period, t1);
    UnexpiredSize(all, period);
    if |Unexpired(all, period)| == 1 {
      ExpireToOne(q, period, t1);
      SingleRight(q, s);
    } else {
      var u := Unwrap(q, all);
      var w, c := u[..|u| - 1], u[|u| - 1];
      RightIff(q, t, w);
      AddExactly(q, t, s, w, c);
      ExpireExactly(q, period, t1, u);
      var r := Expire(q, period, t1);
      RightIff(q, r, u[|u| - |r.samples|..]);
    }
  }

  // ----- runs -----

  /** Whether the statistic is right after a run: step by step, from the first sample on. */
  predicate EndsRight(q: Quantity, period: real, xs: seq<Sample>) {
    xs == [] ||
    (var p, s := xs[..|xs| - 1], xs[|xs| - 1];
     var t := Run(q, period, p);
     if t.samples == [] then true
     else if !Accepts(t.samples, s) then EndsRight(q, period, p)
     else InsertsRight(q, period, t, s, EndsRight(q, period, p)))
  }

  lemma {:induction false} RunSingle(q: Quantity, period: real, xs: seq<Sample>)
    requires |Run(q, period, xs).samples| == 1
    ensures Run(q, period, xs).stat == Statistic(1, Run(q, period, xs).samples[0].value, 0.0)
    ensures Right(q, Run(q, period, xs))
  {
    hide Add, Expire, Right;
    var p, s := xs[..|xs| - 1], xs[|xs| - 1];
    var t := Run(q, period, p);
    if t.samples == [] {
      SingleRight(q, s);
    } else if Accepts(t.samples, s) {
      AddSamples(q, t, s);
      ExpireToOne(q, period, Add(q, t, s));
      SingleRight(q, s);
    } else {
      RunSingle(q, period, p);
    }
  }

  /**
    The exact condition, without any other, for every run of every quantity: mean and variance are those along the
    path of the retained samples exactly when the last sample left alone the window, or the statistic was right before
    and each addition and reversal of the last step was guarded, or errors cancelled.
    */
  lemma {:induction false} RightExactly(q: Quantity, period: real, xs: seq<Sample>)
    requires xs != []
    ensures Right(q, Run(q, period, xs)) <==> EndsRight(q, period, xs)
  {
    hide Insert, InsertsRight, Right;
    var p, s := xs[..|xs| - 1], xs[|xs| - 1];
    var t := Run(q, period, p);
    if t.samples == [] {
      FirstSample(q, period, t, s);
      SingleRight(q, s);
    } else {
      RightExactly(q, period, p);
      if Accepts(t.samples, s) {
        if |t.samples| == 1 { RunSingle(q, period, p); }
        InsertExactly(q, period, t, s);
      } else {
        Ignored(q, period, t, s);
      }
    }
  }

  lemma FirstSample(q: Quantity, period: real, t: Track, s: Sample)
    requires t.samples == []
    ensures Insert(q, period, t, s) == Single(s)
  {}

  lemma Ignored(q: Quantity, period: real, t: Track, s: Sample)
    requires WellFormed(t) && !Accepts(t.samples, s)
    ensures Insert(q, period, t, s) == t
  {}

  /** When the retained samples fit in an arc, that is when the statistic refines the direct recomputation. */
  lemma RefinesExactly(q: Quantity, period: real, xs: seq<Sample>)
    requires xs != [] && Compact(q, Unexpired(Accepted(xs), period))
    ensures Refines(q, Run(q, period, xs)) <==> EndsRight(q, period, xs)
  {
    hide Refines, Right, Run, EndsRight, Compact;
    RunWindow(q, period, xs);
    assert Run(q, period, xs).stat.n == |Run(q, period, xs).samples| && WellFormed(Run(q, period, xs));
    RefinesIff(q, Run(q, period, xs));
    RightExactly(q, period, xs);
  }

  /** The same in the stored numbers, along any path of the retained samples, within an arc or not. */
  lemma AngularExactly(q: Quantity, period: real, xs: seq<Sample>, u: Window)
    requires Angular(q) && xs != [] && IsPath(q, Unexpired(Accepted(xs), period), u)
    ensures var stat := Run(q, period, xs).stat;
            |u| > 0 && Increasing(u)
            && (stat.variance == Variance(u) && Congruent(stat.mean, Mean(u)) <==> EndsRight(q, period, xs))
  {
    hide Right, Run, EndsRight, IsPath, Mean, Variance;
    RunWindow(q, period, xs);
    assert Run(q, period, xs).stat.n == |Run(q, period, xs).samples| && WellFormed(Run(q, period, xs));
    RightExactly(q, period, xs);
    RightIff(q, Run(q, period, xs), u);
  }
}
