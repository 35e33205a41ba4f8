/**
  The sliding-window statistics processor: mean and variance over the last `period` seconds, kept up
  to date by adding every new sample to the running values and reversing expired samples out of them.
  */
module Statistics {
  import opened Quantities
  import opened Weighted
  import opened Windows

  /** The processor's statistic, with the variance rather than its root and without the time stamp. */
  datatype Statistic = Statistic(n: int, mean: real, variance: real)

  /** What the processor holds for one quantity: the retained samples and the statistic. */
  datatype Track = Track(samples: Window, stat: Statistic)

  const UNTRACKED := Track([], Statistic(0, 0.0, 0.0))

  ghost predicate WellFormed(t: Track) { |t.samples| > 0 && Increasing(t.samples) }

  // ----- the running form -----

  /** Average over the interval between two samples, on the circle for angles. */
  function Average(q: Quantity, a: Sample, b: Sample): real {
    Norm(q, a.value - 0.5 * Diff(q, a.value, b.value))
  }

  function Add(q: Quantity, t: Track, s: Sample): Track
    requires WellFormed(t) && Last(t.samples).stamp < s.stamp
  {
    SpanPositive(t.samples);
    var span := Span(t.samples);
    var interval := s.stamp - Last(t.samples).stamp;
    var avg := Average(q, s, Last(t.samples));
    var mean := Norm(q, AddedMean(span, t.stat.mean, Diff(q, avg, t.stat.mean), interval));
    var variance := AddedVariance(span, t.stat.variance, Diff(q, t.stat.mean, mean), Diff(q, avg, mean), interval);
    Track(t.samples + [s], Statistic(t.stat.n, mean, variance))
  }

  function Drop(q: Quantity, t: Track): Track
    requires WellFormed(t) && |t.samples| > 2
  {
    var rest := t.samples[1..];
    SpanPositive(rest);
    var span := Span(rest);
    var interval := rest[0].stamp - t.samples[0].stamp;
    var avg := Average(q, t.samples[0], rest[0]);
    var mean := Norm(q, DroppedMean(span, t.stat.mean, Diff(q, avg, t.stat.mean), interval));
    var variance := DroppedVariance(span, t.stat.variance, Diff(q, t.stat.mean, mean),
                                    Diff(q, avg, t.stat.mean), interval);
    Track(rest, Statistic(t.stat.n, mean, variance))
  }

  function Single(s: Sample): Track { Track([s], Statistic(1, s.value, 0.0)) }

  function Expire(q: Quantity, period: real, t: Track): Track
    requires WellFormed(t) && |t.samples| > 1
    decreases |t.samples|
  {
    if Span(t.samples) <= period then t.(stat := t.stat.(n := |t.samples|))
    else if |t.samples| == 2 then Single(t.samples[1])
    else Expire(q, period, Drop(q, t))
  }

  /** One call of insert_value on the state of its quantity. Samples that are not newer are ignored. */
  function Insert(q: Quantity, period: real, t: Track, s: Sample): Track
    requires t.samples == [] || WellFormed(t)
  {
    if t.samples == [] then Single(s)
    else if s.stamp <= Last(t.samples).stamp then t
    else Expire(q, period, Add(q, t, s))
  }

  function Last(w: Window): Sample
    requires |w| > 0
  {
    w[|w| - 1]
  }

  // ----- the retained samples -----

  lemma {:induction false} ExpireSamples(q: Quantity, period: real, t: Track)
    requires WellFormed(t) && |t.samples| > 1
    ensures WellFormed(Expire(q, period, t))
    ensures Expire(q, period, t).samples == Unexpired(t.samples, period)
    ensures Expire(q, period, t).stat.n == |Unexpired(t.samples, period)|
    decreases |t.samples|
  {
    if Span(t.samples) > period {
      if |t.samples| == 2 {
        assert t.samples[1..] == [t.samples[1]];
      } else {
        ExpireSamples(q, period, Drop(q, t));
      }
    }
  }

  lemma InsertSamples(q: Quantity, period: real, t: Track, s: Sample)
    requires t.samples == [] || WellFormed(t)
    requires t.stat.n == |t.samples|
    ensures var r := Insert(q, period, t, s);
            WellFormed(r) && r.stat.n == |r.samples|
            && r.samples == if Accepts(t.samples, s) then Unexpired(t.samples + [s], period) else t.samples
  {
    if t.samples == [] {
      assert t.samples + [s] == [s];
    } else if s.stamp > Last(t.samples).stamp {
      ExpireSamples(q, period, Add(q, t, s));
    }
  }

  predicate Accepts(w: Window, s: Sample) { |w| == 0 || Last(w).stamp < s.stamp }

  // ----- expiry -----

  /** What expiry does first. */
  lemma ExpireUnfolds(q: Quantity, period: real, t: Track)
    requires WellFormed(t) && |t.samples| > 1
    ensures Span(t.samples) <= period ==> Expire(q, period, t) == t.(stat := t.stat.(n := |t.samples|))
    ensures Span(t.samples) > period && |t.samples| == 2 ==> Expire(q, period, t) == Single(t.samples[1])
    ensures Span(t.samples) > period && |t.samples| > 2 ==>
      WellFormed(Drop(q, t)) && Expire(q, period, t) == Expire(q, period, Drop(q, t))
  {
    if |t.samples| > 2 { DropSamples(q, t); }
  }

  lemma DropSamples(q: Quantity, t: Track)
    requires WellFormed(t) && |t.samples| > 2
    ensures WellFormed(Drop(q, t)) && Drop(q, t).samples == t.samples[1..]
  {}

  lemma AddSamples(q: Quantity, t: Track, s: Sample)
    requires WellFormed(t) && Last(t.samples).stamp < s.stamp
    ensures WellFormed(Add(q, t, s)) && Add(q, t, s).samples == t.samples + [s]
  {}

  lemma {:induction false} ExpireToOne(q: Quantity, period: real, t: Track)
    requires WellFormed(t) && |t.samples| > 1
    requires |Expire(q, period, t).samples| == 1
    ensures Expire(q, period, t) == Single(Last(t.samples))
    decreases |t.samples|
  {
    hide Drop;
    if Span(t.samples) > period && |t.samples| > 2 {
      DropSamples(q, t);
      ExpireToOne(q, period, Drop(q, t));
    }
  }

  lemma {:induction false} ExpireRange(q: Quantity, period: real, t: Track)
    requires WellFormed(t) && |t.samples| > 1 && InNormalRange(q, t.stat.mean)
    ensures |Expire(q, period, t).samples| > 1 ==> InNormalRange(q, Expire(q, period, t).stat.mean)
    decreases |t.samples|
  {
    hide DroppedMean, DroppedVariance;
    if Span(t.samples) > period && |t.samples| > 2 {
      DropSamples(q, t);
      ExpireRange(q, period, Drop(q, t));
    }
  }

  // ----- all runs -----

  /** The state after a sequence of calls for one quantity, from the processor's initial state. */
  function Run(q: Quantity, period: real, xs: seq<Sample>): (t: Track)
    ensures t.samples == [] <==> xs == []
    ensures xs != [] ==> WellFormed(t)
    ensures t.stat.n == |t.samples|
  {
    if xs == [] then UNTRACKED
    else
      var t := Run(q, period, xs[..|xs| - 1]);
      InsertSamples(q, period, t, xs[|xs| - 1]);
      Insert(q, period, t, xs[|xs| - 1])
  }

  lemma RunSnoc(q: Quantity, period: real, xs: seq<Sample>, s: Sample)
    ensures Run(q, period, []) == UNTRACKED
    ensures Run(q, period, xs + [s]) == Insert(q, period, Run(q, period, xs), s)
  {
    assert (xs + [s])[..|xs|] == xs;
  }

  /** The samples that were newer than all samples before them. */
  function Accepted(xs: seq<Sample>): (h: Window)
    ensures h == [] <==> xs == []
    ensures Increasing(h)
  {
    if xs == [] then []
    else
      var h := Accepted(xs[..|xs| - 1]);
      if Accepts(h, xs[|xs| - 1]) then h + [xs[|xs| - 1]] else h
  }

  ghost predicate NewerThanAll(s: Sample, xs: seq<Sample>) { forall i :: 0 <= i < |xs| ==> xs[i].stamp < s.stamp }

  /** A sample is accepted exactly when it is newer than every sample before it, accepted or not. */
  lemma AcceptedIff(xs: seq<Sample>, s: Sample)
    ensures Accepted([]) == []
    ensures Accepted(xs + [s]) == if NewerThanAll(s, xs) then Accepted(xs) + [s] else Accepted(xs)
  {
    assert (xs + [s])[..|xs|] == xs;
    NewestAccepted(xs);
  }

  lemma {:induction false} NewestAccepted(xs: seq<Sample>)
    ensures forall i :: 0 <= i < |xs| ==> xs[i].stamp <= Last(Accepted(xs)).stamp
    ensures xs != [] ==> exists i :: 0 <= i < |xs| && xs[i] == Last(Accepted(xs))
  {
    if xs != [] {
      var p := xs[..|xs| - 1];
      NewestAccepted(p);
      assert forall i :: 0 <= i < |p| ==> xs[i] == p[i];
      if p != [] {
        var i :| 0 <= i < |p| && p[i] == Last(Accepted(p));
        assert xs[i] == Last(Accepted(p));
      }
      assert xs[|xs| - 1] == xs[|xs| - 1];
    }
  }

  /** In every reachable state the retained samples are the unexpired accepted ones, and n counts them. */
  lemma {:induction false} RunWindow(q: Quantity, period: real, xs: seq<Sample>)
    ensures Run(q, period, xs).samples == Unexpired(Accepted(xs), period)
    ensures Run(q, period, xs).stat.n == |Unexpired(Accepted(xs), period)|
  {
    hide Insert;
    if xs != [] {
      var p, s := xs[..|xs| - 1], xs[|xs| - 1];
      RunWindow(q, period, p);
      InsertSamples(q, period, Run(q, period, p), s);
      if p == [] {
        assert Accepted(xs) == [s];
      } else {
        UnexpiredSize(Accepted(p), period);
        if Accepts(Accepted(p), s) { UnexpiredSnoc(Accepted(p), s, period); }
      }
    }
  }

  /** With two or more samples held the mean is normalised, whether or not the samples fitted in an arc. */
  lemma {:induction false} RunNormalRange(q: Quantity, period: real, xs: seq<Sample>)
    requires |Run(q, period, xs).samples| > 1
    ensures InNormalRange(q, Run(q, period, xs).stat.mean)
  {
    hide AddedMean, AddedVariance, Expire;
    var p, s := xs[..|xs| - 1], xs[|xs| - 1];
    var t := Run(q, period, p);
    if t.samples != [] && Accepts(t.samples, s) {
      AddSamples(q, t, s);
      ExpireRange(q, period, Add(q, t, s));
    } else if t.samples != [] {
      RunNormalRange(q, period, p);
    }
  }

  // ----- the processor -----

  class Processor {
    var data: map<Quantity, Window>
    var statistics: map<Quantity, Statistic>
    const period: real
    const filter: set<Quantity>
    /** Everything handed to the processor, by quantity. */
    ghost var received: map<Quantity, seq<Sample>>

    ghost predicate Valid()
      reads this
    {
      && data.Keys == received.Keys && statistics.Keys == received.Keys
      && forall q | q in received ::
           received[q] != [] && Track(data[q], statistics[q]) == Run(q, period, received[q])
    }

    constructor (period: real, filter: set<Quantity>)
      ensures Valid() && received == map[] && this.period == period && this.filter == filter
    {
      data, statistics, received := map[], map[], map[];
      this.period, this.filter := period, filter;
    }

    ghost function Received(q: Quantity): seq<Sample>
      reads this
    {
      if q in received then received[q] else []
    }

    /** Adds the newest sample to the running values. */
    method Update(q: Quantity, list: Window, stat: Statistic, value: Sample) returns (r: Statistic)
      requires |list| > 0 && Increasing(list) && Last(list).stamp < value.stamp
      ensures Track(list + [value], r) == Add(q, Track(list, stat), value)
    {
      hide Norm, Diff, AddedMean, AddedVariance;
      SpanPositive(list);
      var back := list[|list| - 1];
      var span := back.stamp - list[0].stamp;
      var interval := value.stamp - back.stamp;
      var diff := ValueDiff(q, value.value, back.value);
      var avg := ValueNorm(q, value.value - 0.5 * diff);
      var dev := ValueDiff(q, avg, stat.mean);
      var mean := ValueNorm(q, AddedMean(span, stat.mean, dev, interval));
      var shift := ValueDiff(q, stat.mean, mean);
      dev := ValueDiff(q, avg, mean);
      r := Statistic(stat.n, mean, AddedVariance(span, stat.variance, shift, dev, interval));
    }

    /** Reverses the effect of the dropped oldest sample on the running values. */
    method Reverse(q: Quantity, popped: Sample, list: Window, stat: Statistic) returns (r: Statistic)
      requires |list| > 1 && Increasing([popped] + list)
      ensures Track(list, r) == Drop(q, Track([popped] + list, stat))
    {
      hide Norm, Diff, DroppedMean, DroppedVariance;
      ghost var all := [popped] + list;
      assert all[1..] == list && all[0] == popped;
      SpanPositive(list);
      var span := list[|list| - 1].stamp - list[0].stamp;
      var interval := list[0].stamp - popped.stamp;
      var diff := ValueDiff(q, popped.value, list[0].value);
      var avg := ValueNorm(q, popped.value - 0.5 * diff);
      var dev := ValueDiff(q, avg, stat.mean);
      var mean := ValueNorm(q, DroppedMean(span, stat.mean, dev, interval));
      var shift := ValueDiff(q, stat.mean, mean);
      r := Statistic(stat.n, mean, DroppedVariance(span, stat.variance, shift, dev, interval));
    }

    /** The body of insert_value on the quantity's own list and statistic. */
    method InsertInto(q: Quantity, list: Window, stat: Statistic, value: Sample)
      returns (list': Window, stat': Statistic)
      requires list == [] || WellFormed(Track(list, stat))
      ensures Track(list', stat') == Insert(q, period, Track(list, stat), value)
    {
      hide Add, Drop;
      list', stat' := list, stat;
      if list == [] {
        stat' := Statistic(1, value.value, 0.0);
        list' := [value];
        return;
      }
      if value.stamp - list[|list| - 1].stamp <= 0.0 {
        return;
      }
      ghost var was := Track(list, stat);
      AddSamples(q, was, value);
      stat' := Update(q, list, stat, value);
      list' := list + [value];
      while value.stamp - list'[0].stamp > period
        invariant |list'| > 1 && Increasing(list') && Last(list') == value
        invariant Expire(q, period, Track(list', stat')) == Insert(q, period, was, value)
        decreases |list'|
      {
        var popped := list'[0];
        assert list' == [popped] + list'[1..];
        list' := list'[1..];
        if |list'| == 1 {
          stat' := Statistic(1, value.value, 0.0);
          return;
        }
        DropSamples(q, Track([popped] + list', stat'));
        stat' := Reverse(q, popped, list', stat');
      }
      stat' := stat'.(n := |list'|);
    }

    method InsertValue(q: Quantity, value: Sample)
      requires Valid()
      modifies this
      ensures Valid()
      ensures received == if filter != {} && q !in filter then old(received)
                          else old(received)[q := old(Received(q)) + [value]]
    {
      hide Insert, Run;
      if filter != {} && q !in filter {
        return;
      }
      RunSnoc(q, period, Received(q), value);
      var list := if q in data then data[q] else [];
      var stat := if q in statistics then statistics[q] else Statistic(0, 0.0, 0.0);
      assert Track(list, stat) == Run(q, period, Received(q));
      list, stat := InsertInto(q, list, stat, value);
      received := received[q := Received(q) + [value]];
      data, statistics := data[q := list], statistics[q := stat];
    }
  }
}
