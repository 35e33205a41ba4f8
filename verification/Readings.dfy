/**
  Readings of angles on the real line. The samples of a window are read along a path that follows the wrap-around
  difference from each to the next; there is always such a path, and only one up to whole turns. When it stays within
  an arc shorter than half a turn, it is what every reading within such an arc is.
  */
module Readings {
  import opened Quantities
  import opened Weighted
  import opened Windows
  import opened Statistics

  // ----- paths -----

  /** No more than half a turn: the range of wrap-around differences. No condition on other quantities. */
  predicate Near(q: Quantity, d: real) { Angular(q) ==> -PI <= d < PI }

  /** u reads the samples of w, each no more than half a turn from the one before. */
  ghost predicate IsPath(q: Quantity, w: Window, u: Window) {
    && |u| == |w|
    && (forall i :: 0 <= i < |w| ==> u[i].stamp == w[i].stamp && Matches(q, w[i].value, u[i].value))
    && (forall i, j :: 0 <= i < j < |w| && j == i + 1 ==> Near(q, u[j].value - u[i].value))
  }

  lemma PathIncreasing(q: Quantity, w: Window, u: Window)
    requires Increasing(w) && IsPath(q, w, u)
    ensures |u| == |w| && Increasing(u)
    ensures |w| > 0 ==> Span(u) == Span(w)
  {}

  lemma PathSlice(q: Quantity, w: Window, u: Window, i: int, j: int)
    requires IsPath(q, w, u) && 0 <= i <= j <= |w|
    ensures |u| == |w| && IsPath(q, w[i..j], u[i..j])
  {
    forall m, n | 0 <= m < n < j - i && n == m + 1 ensures Near(q, u[i..j][n].value - u[i..j][m].value) {
      assert Near(q, u[i + n].value - u[i + m].value);
    }
  }

  /** The part of a path that two neighbours are. */
  lemma PathStep(q: Quantity, w: Window, u: Window, i: nat)
    requires IsPath(q, w, u) && i + 1 < |w|
    ensures |u| == |w| && Near(q, u[i + 1].value - u[i].value)
    ensures Matches(q, w[i].value, u[i].value) && u[i].stamp == w[i].stamp
    ensures Matches(q, w[i + 1].value, u[i + 1].value) && u[i + 1].stamp == w[i + 1].stamp
  {}

  /** The path that starts at the first sample. */
  function Unwrap(q: Quantity, w: Window): (u: Window)
    ensures |u| == |w|
  {
    if |w| <= 1 then w
    else
      var n := |w| - 1;
      var u := Unwrap(q, w[..n]);
      u + [Sample(u[n - 1].value + Diff(q, w[n].value, w[n - 1].value), w[n].stamp)]
  }

  lemma {:induction false} UnwrapIsPath(q: Quantity, w: Window)
    ensures IsPath(q, w, Unwrap(q, w))
  {
    hide Diff, Near, Matches, IsPath;
    if |w| == 0 {
      NoPath(q);
    } else if |w| == 1 {
      OneStepPath(q, w);
    } else {
      var n := |w| - 1;
      UnwrapIsPath(q, w[..n]);
      var u := Unwrap(q, w[..n]);
      PathAt(q, w[..n], u, n - 1);
      FollowMatches(q, w[n - 1].value, u[n - 1].value, w[n].value);
      PathSnoc(q, w[..n], u, w[n], Sample(u[n - 1].value + Diff(q, w[n].value, w[n - 1].value), w[n].stamp));
      assert w == w[..n] + [w[n]];
    }
  }

  lemma NoPath(q: Quantity)
    ensures IsPath(q, [], [])
  {}

  lemma OneStepPath(q: Quantity, w: Window)
    requires |w| == 1
    ensures IsPath(q, w, w)
  {
    MatchesSelf(q, w[0].value);
  }

  lemma PathAt(q: Quantity, w: Window, u: Window, i: nat)
    requires IsPath(q, w, u) && i < |w|
    ensures |u| == |w| && Matches(q, w[i].value, u[i].value)
  {}

  lemma PathSnoc(q: Quantity, w: Window, u: Window, s: Sample, c: Sample)
    requires IsPath(q, w, u) && |w| == |u| > 0 && s.stamp == c.stamp && Matches(q, s.value, c.value)
    requires Near(q, c.value - u[|u| - 1].value)
    ensures IsPath(q, w + [s], u + [c])
  {
    hide Matches, Near;
    var all, path := w + [s], u + [c];
    forall i | 0 <= i < |all| ensures path[i].stamp == all[i].stamp && Matches(q, all[i].value, path[i].value) {
      if i < |w| { assert all[i] == w[i] && path[i] == u[i]; }
    }
    forall i, j | 0 <= i < j < |all| && j == i + 1 ensures Near(q, path[j].value - path[i].value) {
      if j < |w| { assert Near(q, u[j].value - u[i].value); }
    }
  }

  lemma MatchesSelf(q: Quantity, v: real)
    ensures Matches(q, v, v)
  {
    assert v == v + Turns(0);
  }

  lemma FollowMatches(q: Quantity, a: real, x: real, b: real)
    requires Matches(q, a, x)
    ensures Matches(q, b, x + Diff(q, b, a)) && Near(q, x + Diff(q, b, a) - x)
  {
    if Angular(q) {
      var d := Diff(q, b, a);
      WrapCongruent(b - a, -PI);
      CongruentSym(d, b - a);
      CongruentShift(b - a, d, a);
      CongruentShift(a, x, d);
      CongruentTrans(b, a + d, x + d);
    }
  }

  // ----- paths are unique up to whole turns -----

  function Shift(q: Quantity, k: int): real { if Angular(q) then Turns(k) else 0.0 }

  lemma MatchesTurned(q: Quantity, v: real, x: real, k: int)
    ensures Matches(q, v, x + Shift(q, k)) <==> Matches(q, v, x)
  {
    if Angular(q) {
      TurnsAdd(0, k);
      assert x == x + Turns(k) + Turns(-k);
      assert x + Turns(k) == x + Turns(k);
      if Congruent(v, x) { CongruentTrans(v, x, x + Turns(k)); }
      if Congruent(v, x + Turns(k)) { CongruentTrans(v, x + Turns(k), x); }
    }
  }

  lemma TurnsBetween(q: Quantity, v: real, x: real, y: real) returns (k: int)
    requires Matches(q, v, x) && Matches(q, v, y)
    ensures y == x + Shift(q, k)
  {
    if Angular(q) {
      CongruentSym(v, y);
      CongruentTrans(y, v, x);
      k :| y == x + Turns(k);
    } else {
      k := 0;
    }
  }

  /** Two steps of no more than half a turn between the same samples are the same. */
  lemma SameStep(q: Quantity, v: real, v': real, x: real, x': real, y: real, y': real)
    requires Matches(q, v, x) && Matches(q, v', x') && Matches(q, v, y) && Matches(q, v', y')
    requires Near(q, x' - x) && Near(q, y' - y)
    ensures x' - x == y' - y
  {
    DiffMatches(q, v', v, x', x);
    DiffMatches(q, v', v, y', y);
  }

  lemma {:induction false} PathsDifferByTurns(q: Quantity, w: Window, a: Window, b: Window) returns (k: int)
    requires |w| > 0 && IsPath(q, w, a) && IsPath(q, w, b)
    ensures b == ShiftedWindow(a, Shift(q, k))
  {
    hide Matches, Near, Shift;
    var n := |w| - 1;
    if n == 0 {
      k := TurnsBetween(q, w[0].value, a[0].value, b[0].value);
    } else {
      PathSlice(q, w, a, 0, n);
      PathSlice(q, w, b, 0, n);
      k := PathsDifferByTurns(q, w[0..n], a[0..n], b[0..n]);
      PathStep(q, w, a, n - 1);
      PathStep(q, w, b, n - 1);
      SameStep(q, w[n - 1].value, w[n].value, a[n - 1].value, a[n].value, b[n - 1].value, b[n].value);
      var c := ShiftedWindow(a, Shift(q, k));
      forall i | 0 <= i < |w| ensures b[i] == c[i] {
        if i < n { assert b[i] == b[0..n][i] == ShiftedWindow(a[0..n], Shift(q, k))[i]; }
        assert b[n - 1] == b[0..n][n - 1] == ShiftedWindow(a[0..n], Shift(q, k))[n - 1];
      }
    }
  }

  // ----- representing a window -----

  /** The statistic is the one recomputed from a reading. */
  ghost predicate Represents(q: Quantity, stat: Statistic, u: Window)
    requires |u| > 0 && Increasing(u)
  {
    Matches(q, stat.mean, Mean(u)) && stat.variance == Variance(u)
  }

  /** A statistic that represents one path represents every path of the same samples. */
  lemma RepresentsEither(q: Quantity, stat: Statistic, w: Window, a: Window, b: Window)
    requires |w| > 0 && Increasing(w) && IsPath(q, w, a) && IsPath(q, w, b)
    ensures Increasing(a) && Increasing(b)
    ensures Represents(q, stat, a) <==> Represents(q, stat, b)
  {
    hide Mean, Variance, Matches, IsPath;
    PathIncreasing(q, w, a);
    PathIncreasing(q, w, b);
    var k := PathsDifferByTurns(q, w, a, b);
    WindowShifted(a, Shift(q, k));
    MatchesTurned(q, stat.mean, Mean(a), k);
  }

  /** The statistic is right: it is the one recomputed along the path of the retained samples. */
  ghost predicate Right(q: Quantity, t: Track) {
    && WellFormed(t)
    && t.stat.n == |t.samples|
    && Increasing(Unwrap(q, t.samples))
    && Represents(q, t.stat, Unwrap(q, t.samples))
  }

  lemma RightIff(q: Quantity, t: Track, u: Window)
    requires WellFormed(t) && t.stat.n == |t.samples| && IsPath(q, t.samples, u)
    ensures |u| > 0 && Increasing(u)
    ensures Right(q, t) <==> Represents(q, t.stat, u)
  {
    hide Represents, IsPath, Unwrap;
    UnwrapIsPath(q, t.samples);
    RepresentsEither(q, t.stat, t.samples, u, Unwrap(q, t.samples));
    PathIncreasing(q, t.samples, u);
  }

  // ----- readings within an arc -----

  /** Samples that spread over less than half a turn; no condition on other quantities. */
  predicate Arc(q: Quantity, w: Window) {
    Angular(q) ==> forall i, j :: 0 <= i < |w| && 0 <= j < |w| ==> w[i].value - w[j].value < PI
  }

  /** lift is a reading of the samples' values on the real line, within an arc shorter than half a turn. */
  ghost predicate IsLift(q: Quantity, w: Window, lift: Window) {
    && |lift| == |w|
    && (forall i :: 0 <= i < |w| ==> lift[i].stamp == w[i].stamp && Matches(q, w[i].value, lift[i].value))
    && Arc(q, lift)
  }

  ghost predicate Liftable(q: Quantity, w: Window) { exists lift :: IsLift(q, w, lift) }

  /** The statistic refines the direct recomputation, whichever way the samples are read within an arc. */
  ghost predicate Refines(q: Quantity, t: Track) {
    && WellFormed(t)
    && t.stat.n == |t.samples|
    && forall lift | IsLift(q, t.samples, lift) :: Increasing(lift) && Represents(q, t.stat, lift)
  }

  lemma LiftIsPath(q: Quantity, w: Window, lift: Window)
    requires IsLift(q, w, lift)
    ensures IsPath(q, w, lift)
  {
    forall i, j | 0 <= i < j < |w| && j == i + 1 ensures Near(q, lift[j].value - lift[i].value) {
      if Angular(q) { assert lift[i].value - lift[j].value < PI && lift[j].value - lift[i].value < PI; }
    }
  }

  lemma ArcSlice(q: Quantity, u: Window, i: nat, j: nat)
    requires Arc(q, u) && i <= j <= |u|
    ensures Arc(q, u[i..j])
  {
    if Angular(q) {
      forall m, n | 0 <= m < j - i && 0 <= n < j - i ensures u[i..j][m].value - u[i..j][n].value < PI {
        assert u[i + m].value - u[i + n].value < PI;
      }
    }
  }

  lemma ArcShifted(q: Quantity, u: Window, c: real)
    requires Arc(q, u)
    ensures Arc(q, ShiftedWindow(u, c))
  {
    if Angular(q) {
      var r := ShiftedWindow(u, c);
      forall i, j | 0 <= i < |u| && 0 <= j < |u| ensures r[i].value - r[j].value < PI {
        assert u[i].value - u[j].value < PI;
      }
    }
  }

  /** The samples stay within an arc when each is followed to the next: a condition that can be computed. */
  predicate Compact(q: Quantity, w: Window) { Arc(q, Unwrap(q, w)) }

  lemma PathIsLift(q: Quantity, w: Window, u: Window)
    requires IsPath(q, w, u) && Arc(q, u)
    ensures IsLift(q, w, u)
  {}

  /** Samples can be read within an arc exactly when they are compact; then their path is such a reading. */
  lemma LiftableIff(q: Quantity, w: Window)
    ensures Liftable(q, w) <==> Compact(q, w)
    ensures Compact(q, w) ==> IsLift(q, w, Unwrap(q, w))
  {
    hide Arc, IsPath, Unwrap;
    UnwrapIsPath(q, w);
    if Compact(q, w) { PathIsLift(q, w, Unwrap(q, w)); }
    if Liftable(q, w) {
      var lift :| IsLift(q, w, lift);
      LiftIsPath(q, w, lift);
      if |w| > 0 {
        var k := PathsDifferByTurns(q, w, lift, Unwrap(q, w));
        ArcShifted(q, lift, Shift(q, k));
      } else {
        assert lift == Unwrap(q, w);
      }
    }
  }

  /** Every part of a compact window is compact. */
  lemma CompactSlice(q: Quantity, w: Window, i: nat, j: nat)
    requires Compact(q, w) && i <= j <= |w|
    ensures Compact(q, w[i..j])
  {
    LiftableIff(q, w);
    UnwrapIsPath(q, w);
    PathSlice(q, w, Unwrap(q, w), i, j);
    ArcSlice(q, Unwrap(q, w), i, j);
    PathIsLift(q, w[i..j], Unwrap(q, w)[i..j]);
    LiftableIff(q, w[i..j]);
  }

  /** For a compact window, being right and refining the direct recomputation are the same. */
  lemma RefinesIff(q: Quantity, t: Track)
    requires WellFormed(t) && t.stat.n == |t.samples| && Compact(q, t.samples)
    ensures Refines(q, t) <==> Right(q, t)
  {
    hide Represents, IsPath, Unwrap, Compact;
    LiftableIff(q, t.samples);
    var u := Unwrap(q, t.samples);
    UnwrapIsPath(q, t.samples);
    PathIncreasing(q, t.samples, u);
    if Right(q, t) {
      forall lift | IsLift(q, t.samples, lift) ensures Increasing(lift) && Represents(q, t.stat, lift) {
        LiftIsPath(q, t.samples, lift);
        RightIff(q, t, lift);
      }
    }
  }

  /** With one retained sample the statistic is that sample, and right. */
  lemma SingleRight(q: Quantity, s: Sample)
    ensures Right(q, Single(s)) && Compact(q, [s])
  {
    MatchesSelf(q, s.value);
  }

  // ----- averages -----

  /** The circular interval average is the plain one of a reading. */
  lemma AverageMatches(q: Quantity, a: Sample, b: Sample, x: Sample, y: Sample)
    requires Matches(q, a.value, x.value) && Matches(q, b.value, y.value)
    requires Near(q, x.value - y.value)
    ensures Matches(q, Average(q, a, b), (x.value + y.value) / 2.0)
  {
    DiffMatches(q, a.value, b.value, x.value, y.value);
    var d := 0.5 * (x.value - y.value);
    MatchesShift(q, a.value, x.value, -d);
    NormMatches(q, a.value - d, x.value - d);
    assert x.value - d == (x.value + y.value) / 2.0;
  }

  /** What the reversal takes for the average of an interval: half a turn off when its ends are half a turn apart. */
  function Reversed(q: Quantity, x: Sample, y: Sample): real {
    if Angular(q) && y.value - x.value == -PI then (x.value + y.value) / 2.0 + PI else (x.value + y.value) / 2.0
  }

  lemma ReversedMatches(q: Quantity, a: Sample, b: Sample, x: Sample, y: Sample)
    requires Matches(q, a.value, x.value) && Matches(q, b.value, y.value)
    requires Near(q, y.value - x.value)
    ensures Matches(q, Average(q, a, b), Reversed(q, x, y))
  {
    if Angular(q) && y.value - x.value == -PI {
      MatchesTurned(q, b.value, y.value, 1);
      AverageMatches(q, a, b, x, Sample(y.value + TAU, y.stamp));
    } else {
      AverageMatches(q, a, b, x, y);
    }
  }
}
