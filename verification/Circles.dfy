/** Runs in which the samples of an angle go round the circle. */
module Circles {
  import opened Quantities
  import opened Weighted
  import opened Windows
  import opened Statistics
  import opened Readings
  import opened Exactness
  import opened Refinement

  // ----- following a run by its means -----

  lemma TurnedBy(r: real, v: real, k: int)
    requires r == v + Turns(k) && -PI <= r < PI
    ensures Wrap(v, -PI) == r
  {
    WrapIs(r, v, -PI);
  }

  /** The mean after a roll sample is added; i, j, k and n are the turns that the four reductions take. */
  lemma AddedRoll(t: Track, s: Sample, i: int, j: int, k: int, n: int, mean: real)
    requires WellFormed(t) && Last(t.samples).stamp < s.stamp
    requires var diff := s.value - Last(t.samples).value + Turns(i);
             var avg := s.value - 0.5 * diff + Turns(j);
             var dev := avg - t.stat.mean + Turns(k);
             var total, length := Span(t.samples), s.stamp - Last(t.samples).stamp;
             -PI <= diff < PI && -PI <= avg < PI && -PI <= dev < PI && -PI <= mean < PI
             && length + total > 0.0 && mean == AddedMean(total, t.stat.mean, dev, length) + Turns(n)
    ensures WellFormed(Add(RO, t, s)) && Add(RO, t, s).samples == t.samples + [s]
    ensures Add(RO, t, s).stat.mean == mean
    ensures var avg := s.value - 0.5 * (s.value - Last(t.samples).value + Turns(i)) + Turns(j);
            var total, length := Span(t.samples), s.stamp - Last(t.samples).stamp;
            length + total > 0.0 && Add(RO, t, s).stat.variance
              == AddedVariance(total, t.stat.variance, Wrap(t.stat.mean - mean, -PI), Wrap(avg - mean, -PI), length)
  {
    hide AddedMean, AddedVariance, Turns;
    var diff := s.value - Last(t.samples).value + Turns(i);
    TurnedBy(diff, s.value - Last(t.samples).value, i);
    var avg := s.value - 0.5 * diff + Turns(j);
    TurnedBy(avg, s.value - 0.5 * diff, j);
    var dev := avg - t.stat.mean + Turns(k);
    TurnedBy(dev, avg - t.stat.mean, k);
    TurnedBy(mean, AddedMean(Span(t.samples), t.stat.mean, dev, s.stamp - Last(t.samples).stamp), n);
  }

  lemma DroppedRoll(t: Track, i: int, j: int, k: int, n: int, mean: real)
    requires WellFormed(t) && |t.samples| > 2
    requires var a, b := t.samples[0], t.samples[1];
             var diff := a.value - b.value + Turns(i);
             var avg := a.value - 0.5 * diff + Turns(j);
             var dev := avg - t.stat.mean + Turns(k);
             var total := Span(t.samples[1..]);
             -PI <= diff < PI && -PI <= avg < PI && -PI <= dev < PI && -PI <= mean < PI
             && total > 0.0 && mean == DroppedMean(total, t.stat.mean, dev, b.stamp - a.stamp) + Turns(n)
    ensures WellFormed(Drop(RO, t)) && Drop(RO, t).samples == t.samples[1..]
    ensures Drop(RO, t).stat.mean == mean
    ensures var a, b := t.samples[0], t.samples[1];
            var dev := a.value - 0.5 * (a.value - b.value + Turns(i)) + Turns(j) - t.stat.mean + Turns(k);
            var total := Span(t.samples[1..]);
            total > 0.0 && Drop(RO, t).stat.variance
              == DroppedVariance(total, t.stat.variance, Wrap(t.stat.mean - mean, -PI), dev, b.stamp - a.stamp)
  {
    hide DroppedMean, DroppedVariance, Turns;
    var a, b := t.samples[0], t.samples[1];
    var diff := a.value - b.value + Turns(i);
    TurnedBy(diff, a.value - b.value, i);
    var avg := a.value - 0.5 * diff + Turns(j);
    TurnedBy(avg, a.value - 0.5 * diff, j);
    var dev := avg - t.stat.mean + Turns(k);
    TurnedBy(dev, avg - t.stat.mean, k);
    TurnedBy(mean, DroppedMean(Span(t.samples[1..]), t.stat.mean, dev, b.stamp - a.stamp), n);
  }

  lemma NothingExpires(q: Quantity, period: real, t: Track, s: Sample)
    requires WellFormed(t) && Last(t.samples).stamp < s.stamp && s.stamp - t.samples[0].stamp <= period
    ensures Insert(q, period, t, s).samples == Add(q, t, s).samples
    ensures Insert(q, period, t, s).stat.mean == Add(q, t, s).stat.mean
    ensures Insert(q, period, t, s).stat.variance == Add(q, t, s).stat.variance
  {
    hide AddedMean, AddedVariance, Norm, Diff;
  }

  // ----- a roll through a full circle -----

  const A := Sample(0.0, 0.0)
  const B := Sample(3.0, 1.0)
  const C := Sample(-3.0, 2.0)
  const D := Sample(0.0, 3.0)
  const E := Sample(0.0, 6.0)

  lemma UpToD() returns (t: Track)
    ensures t == Run(RO, 3.0, [A, B, C, D]) && t.samples == [A, B, C, D] && t.stat.mean == -PI
  {
    hide Add, Expire, Insert;
    RunSnoc(RO, 3.0, [], A);
    assert [] + [A] == [A];
    FirstSample(RO, 3.0, UNTRACKED, A);
    hide Run;
    var t1 := Single(A);
    RunSnoc(RO, 3.0, [A], B);
    assert [A] + [B] == [A, B];
    AddedRoll(t1, B, 0, 0, 0, 0, 1.5);
    NothingExpires(RO, 3.0, t1, B);
    var t2 := Insert(RO, 3.0, t1, B);
    assert t2.samples == [A, B] && t2.stat.mean == 1.5;
    RunSnoc(RO, 3.0, [A, B], C);
    assert [A, B] + [C] == [A, B, C];
    AddedRoll(t2, C, 1, 0, 1, 0, PI / 2.0 + 0.75);
    NothingExpires(RO, 3.0, t2, C);
    var t3 := Insert(RO, 3.0, t2, C);
    assert t3.samples == [A, B, C] && t3.stat.mean == PI / 2.0 + 0.75;
    RunSnoc(RO, 3.0, [A, B, C], D);
    assert [A, B, C] + [D] == [A, B, C, D];
    AddedRoll(t3, D, 0, 0, 1, -1, -PI);
    NothingExpires(RO, 3.0, t3, D);
    t := Insert(RO, 3.0, t3, D);
  }

  lemma RollExpires(period: real, t: Track)
    requires WellFormed(t) && |t.samples| > 2 && Span(t.samples) > period
    ensures WellFormed(Drop(RO, t)) && Expire(RO, period, t) == Expire(RO, period, Drop(RO, t))
  {
    DropSamples(RO, t);
  }

  /** The three samples that E makes expire. */
  lemma DropThree(t: Track)
    requires t.samples == [A, B, C, D, E] && t.stat.mean == PI / 2.0
    ensures WellFormed(t)
    ensures Expire(RO, 3.0, t).samples == [D, E] && Expire(RO, 3.0, t).stat.mean == TAU / 3.0
  {
    hide Drop;
    RollExpires(3.0, t);
    assert t.samples[1..] == [B, C, D, E];
    DroppedRoll(t, 0, 0, 0, 0, 0.6 * PI - 0.3);
    var t1 := Drop(RO, t);
    RollExpires(3.0, t1);
    assert t1.samples[1..] == [C, D, E];
    DroppedRoll(t1, -1, -1, 1, 0, 0.5 * PI - 0.375);
    var t2 := Drop(RO, t1);
    RollExpires(3.0, t2);
    assert t2.samples[1..] == [D, E];
    DroppedRoll(t2, 0, 0, 0, 0, TAU / 3.0);
  }

  /**
    A roll sensor that has turned through a full circle: when all samples that did not fit in an arc have expired,
    and the two that are left are both zero, the stored mean is a third of a turn.
    */
  lemma DoesNotRecover()
    ensures var t := Run(RO, 3.0, [A, B, C, D, E]);
            && t.samples == [D, E] && Compact(RO, t.samples) && t.stat.mean == TAU / 3.0
            && !Refines(RO, t)
  {
    hide Add, Run, Expire, Refines;
    var t := UpToD();
    assert [A, B, C, D] + [E] == [A, B, C, D, E];
    RunSnoc(RO, 3.0, [A, B, C, D], E);
    assert Span(t.samples) == 3.0;
    AddedRoll(t, E, 0, 0, -1, 1, PI / 2.0);
    DropThree(Add(RO, t, E));
    ZeroesWrong(Run(RO, 3.0, [A, B, C, D, E]));
  }

  lemma ZeroesWrong(t: Track)
    requires t.samples == [D, E] && t.stat.mean == TAU / 3.0
    ensures Compact(RO, t.samples) && !Refines(RO, t)
  {
    MatchesSelf(RO, 0.0);
    assert IsLift(RO, [D, E], [D, E]);
    LiftableIff(RO, [D, E]);
    assert Increasing([D, E]);
    WindowBounds([D, E], 0.0, 0.0);
    if Congruent(TAU / 3.0, 0.0) {
      var k: int :| TAU / 3.0 == 0.0 + Turns(k);
      SmallTurns(k);
    }
  }

  // ----- following a run by its guards -----

  lemma {:induction false} GuardedFirst(period: real, s: Sample)
    ensures Guarded(RO, period, [s]) && Unexpired(Accepted([s]), period) == [s]
    ensures Unwrap(RO, [s]) == [s] && Increasing([s]) && Mean([s]) == s.value
  {
    assert [s][..0] == [];
    assert Accepted([]) == [] && Accepted([s]) == [s];
  }

  /** One more roll sample of a guarded run, when none expires; u is the path so far, and m its mean. */
  lemma GuardedSnoc(period: real, xs: seq<Sample>, s: Sample, w: Window, u: Window, c: Sample, i: int, m: real)
    requires xs != [] && Guarded(RO, period, xs) && Unexpired(Accepted(xs), period) == w
    requires |w| > 0 && Unwrap(RO, w) == u && Increasing(u) && Mean(u) == m
    requires Last(w).stamp < s.stamp && s.stamp - w[0].stamp <= period
    requires var d := s.value - Last(w).value + Turns(i);
             -PI <= d < PI && c == Sample(Last(u).value + d, s.stamp)
    requires -PI <= (Last(u).value + c.value) / 2.0 - m < PI
    ensures Guarded(RO, period, xs + [s]) && Unexpired(Accepted(xs + [s]), period) == w + [s]
    ensures Unwrap(RO, w + [s]) == u + [c] && Increasing(u + [c])
    ensures Span(u) >= 0.0 && c.stamp > Last(u).stamp
    ensures var a := (Last(u).value + c.value) / 2.0;
            Mean(u + [c]) == AddedMean(Span(u), m, a - m, c.stamp - Last(u).stamp)
  {
    hide Mean, Turns, AddedMean, Accepted, StepGuarded, Unwrap, Increasing, Diff, Guarded, Unexpired, Span;
    UnexpiredIncreasing(Accepted(xs), period);
    UnwrapSnoc(w, s, u, c, i);
    UnexpiredStep(period, w, s, u, c);
    GuardedNext(period, xs, s, w);
    NoneExpires(period, w, s);
    PathMean(u, c, m);
  }

  lemma PathMean(u: Window, c: Sample, m: real)
    requires |u| > 0 && Increasing(u + [c]) && Increasing(u) && Mean(u) == m
    ensures Span(u) >= 0.0 && c.stamp > Last(u).stamp
    ensures Mean(u + [c]) == AddedMean(Span(u), m, (Last(u).value + c.value) / 2.0 - m, c.stamp - Last(u).stamp)
  {
    hide Mean, AddedMean, Increasing;
    LastIncreases(u, c);
    WindowAdd(u, c);
  }

  lemma LastIncreases(u: Window, c: Sample)
    requires |u| > 0 && Increasing(u + [c])
    ensures c.stamp > Last(u).stamp
  {
    assert (u + [c])[|u| - 1] == Last(u) && (u + [c])[|u|] == c;
  }

  lemma GuardedNext(period: real, xs: seq<Sample>, s: Sample, w: Window)
    requires xs != [] && Guarded(RO, period, xs) && Unexpired(Accepted(xs), period) == w
    requires |w| > 0 && Increasing(w) && Last(w).stamp < s.stamp && StepGuarded(RO, period, w, s)
    ensures Guarded(RO, period, xs + [s]) && Unexpired(Accepted(xs + [s]), period) == Unexpired(w + [s], period)
  {
    hide StepGuarded, Accepted, Unexpired, Increasing;
    var all := xs + [s];
    assert all[..|all| - 1] == xs && all[|all| - 1] == s;
    NextWindow(all, period);
  }

  lemma NoneExpires(period: real, w: Window, s: Sample)
    requires |w| > 0 && s.stamp - w[0].stamp <= period
    ensures Unexpired(w + [s], period) == w + [s]
  {}

  lemma UnwrapSnoc(w: Window, s: Sample, u: Window, c: Sample, i: int)
    requires |w| > 0 && Unwrap(RO, w) == u
    requires var d := s.value - Last(w).value + Turns(i);
             -PI <= d < PI && c == Sample(Last(u).value + d, s.stamp)
    ensures Unwrap(RO, w + [s]) == u + [c]
  {
    hide Turns, Unwrap, Diff;
    RollDiff(s.value, Last(w).value, i);
    UnwrapGrows(RO, w, s);
  }

  lemma RollDiff(x: real, y: real, i: int)
    requires -PI <= x - y + Turns(i) < PI
    ensures Diff(RO, x, y) == x - y + Turns(i)
  {
    hide Turns, Wrap;
    TurnedBy(x - y + Turns(i), x - y, i);
  }

  lemma UnwrapGrows(q: Quantity, w: Window, s: Sample)
    requires |w| > 0
    ensures var u := Unwrap(q, w);
            Unwrap(q, w + [s]) == u + [Sample(Last(u).value + Diff(q, s.value, Last(w).value), s.stamp)]
  {
    hide Diff;
    assert (w + [s])[..|w|] == w;
  }

  lemma UnexpiredStep(period: real, w: Window, s: Sample, u: Window, c: Sample)
    requires |w| > 0 && Increasing(w) && Last(w).stamp < s.stamp && s.stamp - w[0].stamp <= period
    requires Unwrap(RO, w + [s]) == u + [c] && |u| == |w| && Increasing(u)
    requires -PI <= (Last(u).value + c.value) / 2.0 - Mean(u) < PI
    ensures StepGuarded(RO, period, w, s)
    ensures Increasing(u + [c]) && Span(u) >= 0.0 && c.stamp > Last(u).stamp
  {
    hide Mean, Unwrap, ExpiryGuarded, IsPath, StepGuarded;
    UnwrapIsPath(RO, w + [s]);
    PathSpans(RO, w, s, u, c);
    NothingToGuard(RO, period, u + [c]);
    GuardedBy(period, w, s, u, c);
  }

  lemma GuardedBy(period: real, w: Window, s: Sample, u: Window, c: Sample)
    requires |w| > 0 && Increasing(w) && Last(w).stamp < s.stamp
    requires Unwrap(RO, w + [s]) == u + [c] && |u| == |w| && Increasing(u) && Increasing(u + [c])
    requires -PI <= (Last(u).value + c.value) / 2.0 - Mean(u) < PI
    requires ExpiryGuarded(RO, period, u + [c])
    ensures StepGuarded(RO, period, w, s)
    ensures Span(u) >= 0.0 && c.stamp > Last(u).stamp
  {
    hide Mean, Unwrap, ExpiryGuarded, IsPath, Unexpired, Increasing;
    PathEnds(RO, Track(w, Statistic(|w|, 0.0, 0.0)), s);
    assert (u + [c])[..|w|] == u && (u + [c])[|w|] == c;
  }

  lemma PathSpans(q: Quantity, w: Window, s: Sample, u: Window, c: Sample)
    requires |w| > 0 && |u| == |w| && Increasing(w + [s]) && IsPath(q, w + [s], u + [c])
    ensures Increasing(u + [c]) && Span(u + [c]) == Span(w + [s])
  {
    PathIncreasing(q, w + [s], u + [c]);
  }

  lemma NothingToGuard(q: Quantity, period: real, u: Window)
    requires |u| > 0 && Increasing(u) && Span(u) <= period
    ensures ExpiryGuarded(q, period, u)
  {}

  /** Up to D the run is guarded: the steps with C and D are right although their windows do not fit in an arc. */
  lemma GuardedUpToD()
    ensures Guarded(RO, 3.0, [A, B, C, D]) && Unexpired(Accepted([A, B, C, D]), 3.0) == [A, B, C, D]
    ensures var u := [A, B, Sample(TAU - 3.0, 2.0), Sample(TAU, 3.0)];
            Unwrap(RO, [A, B, C, D]) == u && Increasing(u) && Mean(u) == PI
  {
    hide Guarded, Unwrap, Accepted, Mean, Increasing, Unexpired;
    var c, d := Sample(TAU - 3.0, 2.0), Sample(TAU, 3.0);
    GuardedFirst(3.0, A);
    GuardedSnoc(3.0, [A], B, [A], [A], B, 0, 0.0);
    assert [A] + [B] == [A, B];
    GuardedSnoc(3.0, [A, B], C, [A, B], [A, B], c, 1, 1.5);
    assert [A, B] + [C] == [A, B, C] && [A, B] + [c] == [A, B, c];
    GuardedSnoc(3.0, [A, B, C], D, [A, B, C], [A, B, c], d, 0, PI / 2.0 + 0.75);
    assert [A, B, C] + [D] == [A, B, C, D] && [A, B, c] + [d] == [A, B, c, d];
  }

  /**
    E is the step that fails: the statistic is right before it, along a path that goes once round, and wrong after it.
    The average that E adds is exactly half a turn from the mean, which is the guard.
    */
  lemma FailsAtE()
    ensures Right(RO, Run(RO, 3.0, [A, B, C, D])) && !Compact(RO, [A, B, C, D])
    ensures var u, c := Unwrap(RO, [A, B, C, D]), Sample(TAU, 6.0);
            |u| == 4 && Increasing(u) && Unwrap(RO, [A, B, C, D, E]) == u + [c]
            && Between(Last(u), c).value - Mean(u) == PI && !AddGuard(RO, u, c)
    ensures !Right(RO, Run(RO, 3.0, [A, B, C, D, E]))
  {
    hide Guarded, Run, Mean, Unwrap, Right, Refines, Compact, Increasing, AddGuard;
    GuardedUpToD();
    GuardedRight(RO, 3.0, [A, B, C, D]);
    DoesNotRecover();
    RefinesIff(RO, Run(RO, 3.0, [A, B, C, D, E]));
    var u := Unwrap(RO, [A, B, C, D]);
    UnwrapSnoc([A, B, C, D], E, u, Sample(TAU, 6.0), 0);
    assert [A, B, C, D] + [E] == [A, B, C, D, E];
    TooFar([A, B, C, D], u);
    NotGuarded(u, Sample(TAU, 6.0));
  }

  lemma TooFar(w: Window, u: Window)
    requires |u| == 4 && Unwrap(RO, w) == u && u[3].value - u[0].value >= PI
    ensures !Compact(RO, w)
  {}

  lemma NotGuarded(u: Window, c: Sample)
    requires |u| > 0 && Increasing(u) && (Last(u).value + c.value) / 2.0 - Mean(u) == PI
    ensures Between(Last(u), c).value - Mean(u) == PI && !AddGuard(RO, u, c)
  {
    hide Mean, Increasing;
  }

  // ----- windows that do not fit, followed rightly -----

  const F := Sample(1.5, 1.0)
  const G := Sample(3.0, 2.0)
  const H := Sample(4.5 - TAU, 3.0)

  /** Steady turning: the samples spread over more than half a turn, and the statistic is right along their path. */
  lemma SteadyTurn()
    ensures Guarded(RO, 10.0, [A, F, G, H]) && Right(RO, Run(RO, 10.0, [A, F, G, H]))
    ensures Run(RO, 10.0, [A, F, G, H]).samples == [A, F, G, H] && !Compact(RO, [A, F, G, H])
  {
    hide Guarded, Unwrap, Accepted, Mean, Increasing, Unexpired, Run;
    var h := Sample(4.5, 3.0);
    GuardedFirst(10.0, A);
    GuardedSnoc(10.0, [A], F, [A], [A], F, 0, 0.0);
    assert [A] + [F] == [A, F];
    GuardedSnoc(10.0, [A, F], G, [A, F], [A, F], G, 0, 0.75);
    assert [A, F] + [G] == [A, F, G];
    GuardedSnoc(10.0, [A, F, G], H, [A, F, G], [A, F, G], h, 1, 1.5);
    assert [A, F, G] + [H] == [A, F, G, H] && [A, F, G] + [h] == [A, F, G, h];
    GuardedRight(RO, 10.0, [A, F, G, H]);
    RunWindow(RO, 10.0, [A, F, G, H]);
    assert [A, F, G, h][3].value - [A, F, G, h][0].value > PI;
  }

  const M := Sample(2.0, 1.0)
  const N := Sample(4.0 - TAU, 2.0)

  /**
    That windows fit in an arc is not necessary: these three samples do not, but every step is guarded, the oldest one
    expires with the last, and the two that are left have the right statistic.
    */
  lemma RightThoughNotTracked()
    ensures !Tracked(RO, 1.5, [A, M, N]) && Guarded(RO, 1.5, [A, M, N])
    ensures Run(RO, 1.5, [A, M, N]).samples == [M, N] && Refines(RO, Run(RO, 1.5, [A, M, N]))
  {
    hide Guarded, Unwrap, Accepted, Mean, Increasing, Run, Refines, StepGuarded, Compact, Tracked;
    var xs, n := [A, M, N], Sample(4.0, 2.0);
    GuardedFirst(1.5, A);
    GuardedSnoc(1.5, [A], M, [A], [A], M, 0, 0.0);
    assert [A] + [M] == [A, M] && xs[..2] == [A, M] && [A, M] + [N] == xs && [A, M] + [n] == [A, M, n];
    UnwrapSnoc([A, M], N, [A, M], n, 1);
    UnexpiredIncreasing(Accepted([A, M]), 1.5);
    GuardedExpiring([A, M], N, n);
    NextWindow(xs, 1.5);
    assert xs[1..] == [M, N] && Unexpired(xs, 1.5) == [M, N];
    TooWide(xs, [A, M, n]);
    LastGuarded(xs);
    GuardedFirst(1.5, M);
    UnwrapSnoc([M], N, [M], n, 1);
    assert [M] + [N] == [M, N] && [M] + [n] == [M, n];
    NarrowPair(n);
    RunRefines(RO, 1.5, xs);
    RunWindow(RO, 1.5, xs);
  }

  lemma LastGuarded(xs: seq<Sample>)
    requires |xs| == 3 && Increasing(Unexpired(Accepted(xs[..2]), 1.5))
    requires var w := Unexpired(Accepted(xs[..2]), 1.5);
             |w| > 0 && Last(w).stamp < xs[2].stamp && |Unexpired(w + [xs[2]], 1.5)| != 1
    ensures Guarded(RO, 1.5, xs[..2]) && StepGuarded(RO, 1.5, Unexpired(Accepted(xs[..2]), 1.5), xs[2])
            ==> Guarded(RO, 1.5, xs)
    ensures !Compact(RO, Unexpired(Accepted(xs[..2]), 1.5) + [xs[2]]) ==> !Tracked(RO, 1.5, xs)
  {
    hide StepGuarded, Compact, Accepted, Unexpired;
  }

  lemma NarrowPair(n: Sample)
    requires n == Sample(4.0, 2.0) && Unwrap(RO, [M, N]) == [M, n]
    ensures Compact(RO, [M, N])
  {}

  lemma TooWide(w: Window, u: Window)
    requires |u| == 3 && Unwrap(RO, w) == u && u[2].value - u[0].value >= PI
    ensures !Compact(RO, w)
  {}

  lemma GuardedExpiring(w: Window, s: Sample, n: Sample)
    requires w == [A, M] && s == N && n == Sample(4.0, 2.0) && Unwrap(RO, [A, M, N]) == [A, M, n]
    requires Increasing(w) && Mean(w) == 1.0
    ensures StepGuarded(RO, 1.5, w, s)
  {
    hide Unwrap, Mean, ExpiryGuarded, Increasing, StepGuarded;
    var u := [A, M, n];
    assert w + [s] == [A, M, N] && w + [n] == u && u[1..] == [M, n];
    ThreeMean(A, M, n);
    TwoMean(M, n);
    ExpiringOnce(u);
    GuardedBy(1.5, w, s, w, n);
  }

  lemma SingleMean(s: Sample)
    ensures Increasing([s]) && Mean([s]) == s.value
  {}

  lemma TwoMean(a: Sample, b: Sample)
    requires b.stamp == a.stamp + 1.0
    ensures Increasing([a, b]) && Mean([a, b]) == (a.value + b.value) / 2.0
  {
    hide Mean;
    assert [a] + [b] == [a, b];
    SingleMean(a);
    WindowAdd([a], b);
  }

  lemma ThreeMean(a: Sample, b: Sample, c: Sample)
    requires b.stamp == a.stamp + 1.0 && c.stamp == b.stamp + 1.0
    ensures Increasing([a, b, c]) && Mean([a, b, c]) == (a.value + 2.0 * b.value + c.value) / 4.0
  {
    hide Mean;
    assert [a, b] + [c] == [a, b, c];
    TwoMean(a, b);
    WindowAdd([a, b], c);
  }

  lemma ExpiringOnce(u: Window)
    requires |u| == 3 && Increasing(u) && Increasing(u[1..])
    requires u[1].value - u[0].value == 2.0 && Between(u[0], u[1]).value == 1.0
    requires Mean(u) == 2.0 && Mean(u[1..]) == 3.0
    ensures ExpiryGuarded(RO, 1.5, u)
  {
    hide Mean;
  }

  // ----- a wrong statistic that becomes right -----

  const P := Sample(2.0 * PI / 3.0, 1.0)
  const Q := Sample(-2.0 * PI / 3.0, 2.0)
  const R := Sample(0.0, 3.0)
  const S := Sample(-2.0 * PI / 3.0, 4.0)

  /** The mean and variance after a roll sample is added and the oldest one dropped. */
  lemma RollAgain(t: Track, s: Sample)
    requires WellFormed(t) && |t.samples| == 3 && Last(t.samples).stamp < s.stamp
    requires s.stamp - t.samples[0].stamp > 2.0 && s.stamp - t.samples[1].stamp <= 2.0
    ensures WellFormed(Add(RO, t, s)) && Add(RO, t, s).samples == t.samples + [s]
    ensures var r := Drop(RO, Add(RO, t, s));
            Insert(RO, 2.0, t, s) == Track(r.samples, Statistic(3, r.stat.mean, r.stat.variance))
            && r.samples == t.samples[1..] + [s]
  {
    hide Add, Drop;
    AddSamples(RO, t, s);
    var t1 := Add(RO, t, s);
    assert Span(t1.samples) > 2.0;
    DropSamples(RO, t1);
    RollExpires(2.0, t1);
    assert (t.samples + [s])[1..] == t.samples[1..] + [s];
    ExpireUnfolds(RO, 2.0, Drop(RO, t1));
  }

  /** The four first samples: right along a path that goes once round, until the fourth. */
  lemma AfterThree() returns (t: Track)
    ensures t == Run(RO, 2.0, [A, P, Q]) && t.samples == [A, P, Q]
    ensures t.stat.mean == 2.0 * PI / 3.0 && t.stat.variance == PI * PI / 9.0
  {
    hide Add, Expire, Insert;
    RunSnoc(RO, 2.0, [], A);
    assert [] + [A] == [A];
    FirstSample(RO, 2.0, UNTRACKED, A);
    var t1 := Single(A);
    RunSnoc(RO, 2.0, [A], P);
    assert [A] + [P] == [A, P];
    AddedRoll(t1, P, 0, 0, 0, 0, PI / 3.0);
    TurnedBy(-PI / 3.0, 0.0 - PI / 3.0, 0);
    TurnedBy(0.0, PI / 3.0 - PI / 3.0, 0);
    NothingExpires(RO, 2.0, t1, P);
    var t2 := Insert(RO, 2.0, t1, P);
    FirstVariance(PI / 3.0);
    assert t2.samples == [A, P] && t2.stat.mean == PI / 3.0 && t2.stat.variance == 0.0;
    RunSnoc(RO, 2.0, [A, P], Q);
    assert [A, P] + [Q] == [A, P, Q];
    AddedRoll(t2, Q, 1, 0, 1, 0, 2.0 * PI / 3.0);
    TurnedBy(-PI / 3.0, PI / 3.0 - 2.0 * PI / 3.0, 0);
    TurnedBy(PI / 3.0, -PI - 2.0 * PI / 3.0, 1);
    NothingExpires(RO, 2.0, t2, Q);
    t := Insert(RO, 2.0, t2, Q);
  }

  lemma FirstVariance(x: real)
    ensures AddedVariance(0.0, 0.0, -x, 0.0, 1.0) == 0.0
  {}

  /** The fourth sample is the first whose average is half a turn from the mean: it leaves a wrong statistic. */
  lemma AfterFour() returns (t: Track)
    ensures t == Run(RO, 2.0, [A, P, Q, R]) && t.samples == [P, Q, R]
    ensures t.stat.mean == PI / 3.0 && t.stat.variance == 4.0 * PI * PI / 9.0
  {
    hide Add, Drop, Expire, Insert, Run;
    var t3 := AfterThree();
    RunSnoc(RO, 2.0, [A, P, Q], R);
    assert [A, P, Q] + [R] == [A, P, Q, R];
    AddedRoll(t3, R, 0, 0, 0, 0, PI / 3.0);
    TurnedBy(PI / 3.0, 2.0 * PI / 3.0 - PI / 3.0, 0);
    TurnedBy(-2.0 * PI / 3.0, -PI / 3.0 - PI / 3.0, 0);
    RollAgain(t3, R);
    var t4 := Add(RO, t3, R);
    assert t4.stat.variance == 8.0 * PI * PI / 27.0;
    assert t4.samples[1..] == [P, Q, R];
    DroppedRoll(t4, 0, 0, 0, 0, PI / 3.0);
    TurnedBy(0.0, PI / 3.0 - PI / 3.0, 0);
    t := Insert(RO, 2.0, t3, R);
  }

  lemma AfterFive() returns (t: Track)
    ensures t == Run(RO, 2.0, [A, P, Q, R, S]) && t.samples == [Q, R, S]
    ensures t.stat == Statistic(3, -PI / 3.0, 0.0)
  {
    hide Add, Drop, Expire, Insert, Run;
    var t4 := AfterFour();
    RunSnoc(RO, 2.0, [A, P, Q, R], S);
    assert [A, P, Q, R] + [S] == [A, P, Q, R, S];
    AddedRoll(t4, S, 0, 0, 0, 0, PI / 9.0);
    TurnedBy(2.0 * PI / 9.0, PI / 3.0 - PI / 9.0, 0);
    TurnedBy(-4.0 * PI / 9.0, -PI / 3.0 - PI / 9.0, 0);
    RollAgain(t4, S);
    var t5 := Add(RO, t4, S);
    assert t5.stat.variance == 32.0 * PI * PI / 81.0;
    assert t5.samples[1..] == [Q, R, S];
    DroppedRoll(t5, -1, -1, 1, 0, -PI / 3.0);
    TurnedBy(4.0 * PI / 9.0, PI / 9.0 - -PI / 3.0, 0);
    t := Insert(RO, 2.0, t4, S);
  }

  /**
    A wrong statistic that a later sample makes right, with three samples held all the time: the errors of mean and
    variance cancel when the second sample expires.
    */
  lemma HealedRun()
    ensures !Right(RO, Run(RO, 2.0, [A, P, Q, R])) && |Run(RO, 2.0, [A, P, Q, R]).samples| == 3
    ensures var t := Run(RO, 2.0, [A, P, Q, R, S]);
            t.samples == [Q, R, S] && Compact(RO, t.samples) && Refines(RO, t)
    ensures EndsRight(RO, 2.0, [A, P, Q, R, S])
  {
    hide Run, Right, Refines, EndsRight, Compact;
    var t4 := AfterFour();
    var t5 := AfterFive();
    WrongAfterFour(t4);
    RightAfterFive(t5);
    RightExactly(RO, 2.0, [A, P, Q, R, S]);
  }

  lemma WrongAfterFour(t: Track)
    requires WellFormed(t) && t.stat.n == 3 && t.samples == [P, Q, R] && t.stat.mean == PI / 3.0
    ensures !Right(RO, t)
  {
    hide Mean, Variance, Unwrap, IsPath, Increasing, Right;
    var q, r := Sample(4.0 * PI / 3.0, 2.0), Sample(TAU, 3.0);
    GuardedFirst(2.0, P);
    UnwrapSnoc([P], Q, [P], q, 1);
    assert [P] + [Q] == [P, Q] && [P] + [q] == [P, q];
    UnwrapSnoc([P, Q], R, [P, q], r, 0);
    assert [P, Q] + [R] == [P, Q, R] && [P, q] + [r] == [P, q, r];
    UnwrapIsPath(RO, t.samples);
    RightIff(RO, t, [P, q, r]);
    ThreeMean(P, q, r);
    HalfTurnApart(PI / 3.0, 4.0 * PI / 3.0);
  }

  lemma HalfTurnApart(a: real, b: real)
    requires b == a + PI
    ensures !Congruent(a, b)
  {
    if Congruent(a, b) {
      var k: int :| a == b + Turns(k);
      SmallTurns(k);
    }
  }

  lemma RightAfterFive(t: Track)
    requires WellFormed(t) && t.samples == [Q, R, S] && t.stat == Statistic(3, -PI / 3.0, 0.0)
    ensures Right(RO, t) && Compact(RO, t.samples) && Refines(RO, t)
  {
    hide Variance, Mean, Unwrap, IsPath, Right, Refines, Increasing, Compact;
    var u := t.samples;
    AfterFiveAverages();
    GuardedFirst(2.0, Q);
    UnwrapSnoc([Q], R, [Q], R, 0);
    assert [Q] + [R] == [Q, R];
    UnwrapSnoc([Q, R], S, [Q, R], S, 0);
    assert [Q, R] + [S] == u;
    UnwrapIsPath(RO, u);
    ThreeMean(Q, R, S);
    TwoSteps(u, -PI / 3.0);
    MatchesSelf(RO, -PI / 3.0);
    RightIff(RO, t, u);
    NarrowThree(u);
    RefinesIff(RO, t);
  }

  lemma AfterFiveAverages()
    ensures Between(Q, R).value == -PI / 3.0 == Between(R, S).value
  {}

  lemma NarrowThree(u: Window)
    requires u == [Q, R, S] && Unwrap(RO, u) == u
    ensures Compact(RO, u)
  {}

  /** Two intervals with the same average have that for their mean, and no variance. */
  lemma TwoSteps(u: Window, m: real)
    requires |u| == 3 && Increasing(u) && Mean(u) == m
    requires Between(u[0], u[1]).value == m == Between(u[1], u[2]).value
    ensures Variance(u) == 0.0
  {
    var w := IntervalsOf(u);
    hide Mean;
    assert w[0].value == m && w[1].value == m;
    NoSpread(w, m);
  }

  lemma {:induction false} NoSpread(w: Intervals, m: real)
    requires forall i :: 0 <= i < |w| ==> w[i].value == m
    ensures Spread(w, m) == 0.0
  {
    if w != [] {
      NoSpread(w[1..], m);
      assert Sqr(w[0].value - m) == 0.0;
      WeighZero(w[0].length);
    }
  }
}
