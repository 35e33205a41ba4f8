/**
  The main results for the sliding-window statistics: conditions on the samples alone under which the running statistic
  is the direct recomputation over the retained samples.
  */
module Refinement {
  import opened Numbers
  import opened Quantities
  import opened Weighted
  import opened Windows
  import opened Statistics
  import opened Readings
  import opened Exactness

  // ----- guarded runs -----

  lemma UnexpiredIncreasing(w: Window, period: real)
    requires Increasing(w)
    ensures Increasing(Unexpired(w, period))
  {
    UnexpiredSize(w, period);
  }

  /** Every reversal of an expiry is guarded. */
  predicate ExpiryGuarded(q: Quantity, period: real, u: Window)
    requires Increasing(u)
  {
    |u| <= 2 || Span(u) <= period || (TailIncreasing(u); DropGuard(q, u) && ExpiryGuarded(q, period, u[1..]))
  }

  /** The addition and the reversals that a newer sample leads to are guarded, unless it is left alone. */
  predicate StepGuarded(q: Quantity, period: real, w: Window, s: Sample)
    requires |w| > 0 && Increasing(w) && Last(w).stamp < s.stamp
  {
    var all := w + [s];
    |Unexpired(all, period)| == 1 ||
    (var u := Unwrap(q, all);
     PathEnds(q, Track(w, Statistic(|w|, 0.0, 0.0)), s);
     AddGuard(q, u[..|u| - 1], u[|u| - 1]) && ExpiryGuarded(q, period, u))
  }

  /** Since the window last held a single sample, every step was guarded: a condition on the samples alone. */
  predicate Guarded(q: Quantity, period: real, xs: seq<Sample>) {
    xs == [] ||
    (var p, s := xs[..|xs| - 1], xs[|xs| - 1];
     var w := Unexpired(Accepted(p), period);
     UnexpiredIncreasing(Accepted(p), period);
     if |w| == 0 then true
     else if !Accepts(w, s) then Guarded(q, period, p)
     else |Unexpired(w + [s], period)| == 1 || (Guarded(q, period, p) && StepGuarded(q, period, w, s)))
  }

  lemma {:induction false} GuardedExpiry(q: Quantity, period: real, t: Track, u: Window)
    requires WellFormed(t) && |u| == |t.samples| && Increasing(u) && Span(u) == Span(t.samples)
    requires IsPath(q, t.samples, u) && ExpiryGuarded(q, period, u)
    ensures ExpiresRight(q, period, t, u, true)
    decreases |u|
  {
    hide IsPath, DropGuard, DropCoincides, Drop;
    if |u| > 2 && Span(u) > period {
      TailIncreasing(u);
      DropSamples(q, t);
      PathSlice(q, t.samples, u, 1, |u|);
      assert t.samples[1..|u|] == t.samples[1..] && u[1..|u|] == u[1..];
      PathIncreasing(q, t.samples[1..], u[1..]);
      GuardedExpiry(q, period, Drop(q, t), u[1..]);
    }
  }

  lemma GuardedStep(q: Quantity, period: real, t: Track, s: Sample)
    requires WellFormed(t) && Last(t.samples).stamp < s.stamp && StepGuarded(q, period, t.samples, s)
    ensures InsertsRight(q, period, t, s, true)
  {
    hide Unwrap, IsPath, AddGuard, Add, ExpiresRight;
    var all := t.samples + [s];
    PathEnds(q, t, s);
    PathIncreasing(q, all, Unwrap(q, all));
    if |Unexpired(all, period)| != 1 { GuardedExpiry(q, period, Add(q, t, s), Unwrap(q, all)); }
  }

  /** Along a guarded run the statistic is right, however far the samples spread. */
  lemma {:induction false} GuardedRight(q: Quantity, period: real, xs: seq<Sample>)
    requires xs != [] && Guarded(q, period, xs)
    ensures EndsRight(q, period, xs) && Right(q, Run(q, period, xs))
  {
    hide StepGuarded, InsertsRight, Right, Insert;
    var p, s := xs[..|xs| - 1], xs[|xs| - 1];
    var t := Run(q, period, p);
    RunWindow(q, period, p);
    if t.samples != [] {
      if !Accepts(t.samples, s) {
        GuardedRight(q, period, p);
      } else if |Unexpired(t.samples + [s], period)| == 1 {
        LeftAlone(q, period, t, s, EndsRight(q, period, p));
      } else {
        GuardedRight(q, period, p);
        GuardedStep(q, period, t, s);
      }
    }
    RightExactly(q, period, xs);
  }

  lemma LeftAlone(q: Quantity, period: real, t: Track, s: Sample, right: bool)
    requires WellFormed(t) && Last(t.samples).stamp < s.stamp && |Unexpired(t.samples + [s], period)| == 1
    ensures InsertsRight(q, period, t, s, right)
  {}

  /** The main result: along a guarded run, a window that fits in an arc has the statistic recomputed from it. */
  lemma RunRefines(q: Quantity, period: real, xs: seq<Sample>)
    requires xs != [] && Guarded(q, period, xs) && Compact(q, Unexpired(Accepted(xs), period))
    ensures Refines(q, Run(q, period, xs))
  {
    GuardedRight(q, period, xs);
    RefinesExactly(q, period, xs);
  }

  // ----- windows that fit in an arc -----

  /** Since the window last held a single sample, every retained window and new sample fitted in one arc. */
  predicate Tracked(q: Quantity, period: real, xs: seq<Sample>) {
    if xs == [] then true
    else
      var p, s := xs[..|xs| - 1], xs[|xs| - 1];
      var w := Unexpired(Accepted(p), period);
      if !Accepts(w, s) then Tracked(q, period, p)
      else |Unexpired(w + [s], period)| == 1 || (Tracked(q, period, p) && Compact(q, w + [s]))
  }

  /** Bounds of samples that are less than half a turn apart. */
  lemma ArcBounds(q: Quantity, u: Window) returns (lo: real, hi: real)
    requires |u| > 0 && Arc(q, u)
    ensures Within(u, lo, hi) && (Angular(q) ==> hi - lo < PI)
  {
    var i, j := Extremes(u);
    lo, hi := u[i].value, u[j].value;
  }

  lemma ArcAddGuard(q: Quantity, w: Window, c: Sample)
    requires |w| > 0 && Increasing(w) && Arc(q, w + [c])
    ensures AddGuard(q, w, c)
    ensures Angular(q) ==> -PI < Between(Last(w), c).value - Mean(w) < PI
  {
    var r := w + [c];
    var lo, hi := ArcBounds(q, r);
    assert r[|w|] == c && r[|w| - 1] == w[|w| - 1];
    assert Within(w, lo, hi) by { assert forall i :: 0 <= i < |w| ==> r[i] == w[i]; }
    WindowBounds(w, lo, hi);
  }

  lemma ArcDropGuard(q: Quantity, u: Window)
    requires |u| > 2 && Increasing(u) && Increasing(u[1..]) && Arc(q, u)
    ensures DropGuard(q, u)
  {
    var lo, hi := ArcBounds(q, u);
    WindowBounds(u, lo, hi);
    WindowBounds(u[1..], lo, hi);
  }

  lemma {:induction false} ArcExpiryGuarded(q: Quantity, period: real, u: Window)
    requires Increasing(u) && Arc(q, u)
    ensures ExpiryGuarded(q, period, u)
  {
    hide DropGuard, Arc;
    if |u| > 2 && Span(u) > period {
      TailIncreasing(u);
      ArcDropGuard(q, u);
      ArcSlice(q, u, 1, |u|);
      assert u[1..|u|] == u[1..];
      ArcExpiryGuarded(q, period, u[1..]);
    }
  }

  lemma {:induction false} TrackedGuarded(q: Quantity, period: real, xs: seq<Sample>)
    requires Tracked(q, period, xs)
    ensures Guarded(q, period, xs)
    ensures xs != [] ==> Compact(q, Unexpired(Accepted(xs), period))
  {
    hide AddGuard, ExpiryGuarded, Arc, Unwrap, Accepted;
    if xs != [] {
      var p, s := xs[..|xs| - 1], xs[|xs| - 1];
      var w := Unexpired(Accepted(p), period);
      UnexpiredIncreasing(Accepted(p), period);
      NextWindow(xs, period);
      if Accepts(w, s) {
        var all := w + [s];
        UnexpiredSize(all, period);
        if |Unexpired(all, period)| == 1 {
          assert Unexpired(all, period) == [s];
          SingleRight(q, s);
        } else {
          TrackedGuarded(q, period, p);
          CompactSlice(q, all, |all| - |Unexpired(all, period)|, |all|);
          assert all[|all| - |Unexpired(all, period)|..|all|] == Unexpired(all, period);
          if |w| > 0 {
            PathEnds(q, Track(w, Statistic(|w|, 0.0, 0.0)), s);
            var u := Unwrap(q, all);
            ArcAddGuard(q, u[..|u| - 1], u[|u| - 1]);
            ArcExpiryGuarded(q, period, u);
          }
        }
      } else {
        TrackedGuarded(q, period, p);
      }
    }
  }

  /** The retained samples after one more. */
  lemma NextWindow(xs: seq<Sample>, period: real)
    requires xs != []
    ensures var w, s := Unexpired(Accepted(xs[..|xs| - 1]), period), xs[|xs| - 1];
            Unexpired(Accepted(xs), period) == if Accepts(w, s) then Unexpired(w + [s], period) else w
  {
    var p, s := xs[..|xs| - 1], xs[|xs| - 1];
    RunWindow(UNWRAPPED, period, xs);
    RunWindow(UNWRAPPED, period, p);
    InsertSamples(UNWRAPPED, period, Run(UNWRAPPED, period, p), s);
  }

  /** Any quantity that is not an angle. */
  const UNWRAPPED: Quantity := FAX

  /** So windows that fit in an arc have the right statistic. */
  lemma TrackedRefines(q: Quantity, period: real, xs: seq<Sample>)
    requires xs != [] && Tracked(q, period, xs)
    ensures Refines(q, Run(q, period, xs))
  {
    TrackedGuarded(q, period, xs);
    RunRefines(q, period, xs);
  }

  lemma {:induction false} LinearTracked(q: Quantity, period: real, xs: seq<Sample>)
    requires !Angular(q)
    ensures Tracked(q, period, xs)
  {
    if xs != [] { LinearTracked(q, period, xs[..|xs| - 1]); }
  }

  /** For a quantity that is not an angle there is no condition. */
  lemma LinearRefinement(q: Quantity, period: real, xs: seq<Sample>, lo: real, hi: real)
    requires !Angular(q) && xs != []
    ensures var w := Unexpired(Accepted(xs), period);
            |w| > 0 && Increasing(w)
            && Run(q, period, xs) == Track(w, Statistic(|w|, Mean(w), Variance(w)))
            && Variance(w) >= 0.0
            && (Within(w, lo, hi) ==> lo <= Run(q, period, xs).stat.mean <= hi)
  {
    LinearTracked(q, period, xs);
    TrackedRefines(q, period, xs);
    RunWindow(q, period, xs);
    var w := Run(q, period, xs).samples;
    assert IsLift(q, w, w);
    if Within(w, lo, hi) { WindowBounds(w, lo, hi); }
    var i, j := Extremes(w);
    WindowBounds(w, w[i].value, w[j].value);
  }

  /** For angles: along a guarded run, every path of the window has the stored variance and, up to turns, mean. */
  lemma AngularRefinement(q: Quantity, period: real, xs: seq<Sample>, u: Window)
    requires Angular(q) && xs != [] && Guarded(q, period, xs)
    requires IsPath(q, Unexpired(Accepted(xs), period), u)
    ensures var stat := Run(q, period, xs).stat;
            |u| > 0 && Increasing(u)
            && stat.variance == Variance(u) && stat.variance >= 0.0 && Congruent(stat.mean, Mean(u))
  {
    GuardedRight(q, period, xs);
    AngularExactly(q, period, xs, u);
    var i, j := Extremes(u);
    WindowBounds(u, u[i].value, u[j].value);
  }

  // ----- how long a wrong statistic lasts -----

  /** Within an arc no errors cancel: adding a sample keeps a wrong statistic wrong and a right one right. */
  lemma AddKeepsExactly(q: Quantity, t: Track, s: Sample, w: Window, c: Sample)
    requires WellFormed(t) && |t.samples| > 1 && Last(t.samples).stamp < s.stamp
    requires |w| == |t.samples| && IsPath(q, t.samples + [s], w + [c]) && Increasing(w) && Arc(q, w + [c])
    ensures Increasing(w + [c])
    ensures Represents(q, Add(q, t, s).stat, w + [c]) <==> Represents(q, t.stat, w)
  {
    hide Mean, Variance, Shrunk, Matches, Vanishes, Add, Average, Represents, AddedVariance, Diff, IsPath, Arc;
    AddExactly(q, t, s, w, c);
    ArcAddGuard(q, w, c);
    SpanPositive(w);
    var e, length := AddError(q, t, s, w, c), c.stamp - Last(w).stamp;
    if e != 0.0 && Angular(q) {
      ErrorSmall(q, t, s, w, c);
      ShrunkSize(e, Span(w), length, TAU);
      SmallVanishes(q, Shrunk(e, Span(w), length));
    } else if e != 0.0 {
      ShrunkSize(e, Span(w), length, Abs(e) + 1.0);
      SmallVanishes(q, Shrunk(e, Span(w), length));
    }
  }

  lemma ErrorSmall(q: Quantity, t: Track, s: Sample, w: Window, c: Sample)
    requires |t.samples| > 0 && |w| > 0 && Increasing(w) && Angular(q)
    requires -PI < Between(Last(w), c).value - Mean(w) < PI
    ensures -TAU < AddError(q, t, s, w, c) < TAU
  {}

  lemma SmallVanishes(q: Quantity, e: real)
    requires Angular(q) ==> -TAU < e < TAU
    ensures Vanishes(q, e) <==> e == 0.0
  {
    ZeroVanishes(q);
    if Angular(q) && Wrap(e, 0.0) == 0.0 {
      WrapCongruent(e, 0.0);
      var k: int :| 0.0 == e + Turns(k);
      TurnsAdd(0, k);
      SmallTurns(-k);
    }
  }

  lemma ShrunkSize(e: real, total: real, length: real, b: real)
    requires total > 0.0 && length > 0.0 && -b < e < b
    ensures Shrunk(e, total, length) == 0.0 <==> e == 0.0
    ensures -b < Shrunk(e, total, length) < b
  {
    var f := total / (length + total);
    assert 0.0 < f < 1.0;
    assert Shrunk(e, total, length) == e * f;
    Fraction(b - e, f);
    Fraction(b + e, f);
    Fraction(b, f);
    assert b * f - e * f == (b - e) * f;
    assert b * f + e * f == (b + e) * f;
  }

  lemma Fraction(x: real, f: real)
    requires 0.0 < f < 1.0 && x > 0.0
    ensures 0.0 < x * f < x
  {}
}
