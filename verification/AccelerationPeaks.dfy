/**
  The acceleration peak detector. Samples of the selected components are combined into amplitudes;
  every maximal run of amplitudes over a threshold that lasts long enough is kept, newest first, with
  its largest amplitude and its time-weighted mean and root mean square.
  */
module AccelerationPeaks {
  import opened Numbers
  import opened Quantities
  import opened Weighted

  datatype Axis = X | Y | Z

  datatype Event = Event(axis: Axis, value: real, stamp: real)

  datatype Stamped = Stamped(value: real, stamp: real)

  const ZERO := Stamped(0.0, 0.0)

  /** A combined sample: the amplitude and its square. */
  datatype Sample = Sample(stamp: real, amp: real, sqamp: real)

  datatype Peak = Peak(start: real, duration: real, peak: real, mean: real, rms: real)

  const PEAK_ZERO := Peak(0.0, 0.0, 0.0, 0.0, 0.0)

  datatype Params = Params(valueThreshold: real, durationThreshold: real, itemCount: nat, direction: nat,
                           root: real -> real)

  /** The square root the processor calls. */
  ghost predicate IsRoot(root: real -> real) {
    forall x :: x >= 0.0 ==> root(x) >= 0.0 && Sqr(root(x)) == x
  }

  const X_DIR := 1
  const Y_DIR := 2
  const Z_DIR := 4

  predicate Selected(direction: nat, axis: Axis) {
    match axis
    case X => direction % 2 == 1
    case Y => direction / 2 % 2 == 1
    case Z => direction / 4 % 2 == 1
  }

  // ----- combining components -----

  predicate Has(g: seq<Event>, axis: Axis) { exists i :: 0 <= i < |g| && g[i].axis == axis }

  /** The components collected since the last combined sample. */
  function OpenGroup(es: seq<Event>): (g: seq<Event>)
    ensures es != [] ==> g != [] && g[|g| - 1] == es[|es| - 1]
  {
    if es == [] then []
    else
      var g, e := OpenGroup(es[..|es| - 1]), es[|es| - 1];
      if Has(g, e.axis) then [e] else g + [e]
  }

  /** The component on an axis, zero when there is none. */
  function Slot(g: seq<Event>, axis: Axis): Stamped {
    if g == [] then ZERO
    else if g[|g| - 1].axis == axis then Stamped(g[|g| - 1].value, g[|g| - 1].stamp)
    else Slot(g[..|g| - 1], axis)
  }

  /** The slot of an axis holds its only component, when there is one in the group, and zero otherwise. */
  lemma {:induction false} SlotIs(g: seq<Event>, axis: Axis)
    ensures !Has(g, axis) ==> Slot(g, axis).value == 0.0 && Slot(g, axis).stamp == 0.0
    ensures Has(g, axis) ==>
      exists i :: 0 <= i < |g| && g[i].axis == axis && Slot(g, axis) == Stamped(g[i].value, g[i].stamp)
                  && forall j :: i < j < |g| ==> g[j].axis != axis
  {
    if g != [] {
      var n := |g| - 1;
      var q := g[..n];
      if g[n].axis != axis {
        SlotIs(q, axis);
        HasPrefix(g, axis);
        if Has(q, axis) {
          var i :| 0 <= i < n && q[i].axis == axis && Slot(q, axis) == Stamped(q[i].value, q[i].stamp)
                   && forall j :: i < j < n ==> q[j].axis != axis;
          assert g[i].axis == axis;
          assert forall j :: i < j < n ==> g[j] == q[j];
        }
      }
    }
  }

  lemma HasPrefix(g: seq<Event>, axis: Axis)
    requires g != [] && g[|g| - 1].axis != axis
    ensures Has(g, axis) <==> Has(g[..|g| - 1], axis)
  {
    var q := g[..|g| - 1];
    assert forall i :: 0 <= i < |q| ==> q[i] == g[i];
    assert forall i :: 0 <= i < |g| && g[i].axis == axis ==> i < |q| && q[i].axis == axis;
  }

  function SquareOf(p: Params, x: real, y: real, z: real): real {
    if p.direction == X_DIR then Sqr(x)
    else if p.direction == Y_DIR then Sqr(y)
    else if p.direction == Z_DIR then Sqr(z)
    else Sqr(x) + Sqr(y) + Sqr(z)
  }

  function AmpOf(p: Params, x: real, y: real, z: real): real {
    if p.direction == X_DIR then x
    else if p.direction == Y_DIR then y
    else if p.direction == Z_DIR then z
    else p.root(Sqr(x) + Sqr(y) + Sqr(z))
  }

  /** A group as one sample, stamped with its newest component. */
  function Combined(p: Params, g: seq<Event>): Sample {
    var x, y, z := Slot(g, X).value, Slot(g, Y).value, Slot(g, Z).value;
    Sample(if g == [] then 0.0 else g[|g| - 1].stamp, AmpOf(p, x, y, z), SquareOf(p, x, y, z))
  }

  /**
    With a single direction selected the amplitude is that component, with its sign; otherwise it is the length of the
    vector of all three. The square goes with it, and the stamp is that of the newest component.
    */
  lemma CombinedMeans(p: Params, g: seq<Event>)
    requires IsRoot(p.root) && g != []
    ensures var s, x, y, z := Combined(p, g), Slot(g, X).value, Slot(g, Y).value, Slot(g, Z).value;
            && s.stamp == g[|g| - 1].stamp
            && (p.direction == 1 ==> s.amp == x && s.sqamp == x * x)
            && (p.direction == 2 ==> s.amp == y && s.sqamp == y * y)
            && (p.direction == 4 ==> s.amp == z && s.sqamp == z * z)
            && (p.direction !in {1, 2, 4} ==>
                s.amp >= 0.0 && s.amp * s.amp == x * x + y * y + z * z && s.sqamp == x * x + y * y + z * z)
  {
    var x, y, z := Slot(g, X).value, Slot(g, Y).value, Slot(g, Z).value;
    hide Slot;
    var square := Sqr(x) + Sqr(y) + Sqr(z);
    SquaresAdd(x, y, z);
    var r := p.root(square);
    assert r >= 0.0 && Sqr(r) == square;
  }

  lemma SquaresAdd(x: real, y: real, z: real)
    ensures Sqr(x) + Sqr(y) + Sqr(z) >= 0.0
  {}

  /** The three lowest bits of the direction select the components: one for x, two for y, four for z. */
  lemma SelectedIff(d: nat)
    ensures Selected(d, X) <==> d % 8 in {1, 3, 5, 7}
    ensures Selected(d, Y) <==> d % 8 in {2, 3, 6, 7}
    ensures Selected(d, Z) <==> d % 8 in {4, 5, 6, 7}
  {
    LowBits(d);
    EightCases(d % 8);
  }

  lemma EightCases(r: nat)
    requires r < 8
    ensures r % 2 == 1 <==> r in {1, 3, 5, 7}
    ensures r / 2 % 2 == 1 <==> r in {2, 3, 6, 7}
    ensures r / 4 % 2 == 1 <==> r in {4, 5, 6, 7}
  {
    assert r == 0 || r == 1 || r == 2 || r == 3 || r == 4 || r == 5 || r == 6 || r == 7;
  }

  lemma LowBits(d: nat)
    ensures d % 8 % 2 == d % 2 && d % 8 / 2 % 2 == d / 2 % 2 && d % 8 / 4 % 2 == d / 4 % 2
  {
    var q := d / 8;
    assert d == 8 * q + d % 8;
    assert d / 2 == 4 * q + d % 8 / 2;
    assert d / 4 == 2 * q + d % 8 / 4;
  }

  /** A group is complete, and makes a sample, when a component arrives that it already has. */
  function Samples(p: Params, es: seq<Event>): seq<Sample> {
    if es == [] then []
    else
      var g := OpenGroup(es[..|es| - 1]);
      Samples(p, es[..|es| - 1]) + (if Has(g, es[|es| - 1].axis) then [Combined(p, g)] else [])
  }

  // ----- runs -----

  predicate Loud(p: Params, x: Sample) { Abs(x.amp) > p.valueThreshold }

  /** Where the loud samples at the end begin. */
  function OpenStart(p: Params, xs: seq<Sample>): (r: nat)
    ensures r <= |xs|
  {
    if xs == [] || !Loud(p, xs[|xs| - 1]) then |xs| else OpenStart(p, xs[..|xs| - 1])
  }

  function OpenRun(p: Params, xs: seq<Sample>): seq<Sample> { xs[OpenStart(p, xs)..] }

  datatype Range = Range(start: nat, end: nat)

  /** The runs that a quiet sample has closed, newest first. */
  function ClosedRuns(p: Params, xs: seq<Sample>): seq<Range> {
    if xs == [] then []
    else
      var n := |xs| - 1;
      var i := OpenStart(p, xs[..n]);
      if Loud(p, xs[n]) || i == n then ClosedRuns(p, xs[..n]) else [Range(i, n)] + ClosedRuns(p, xs[..n])
  }

  /** A run of loud samples with quiet ones, or the beginning, around it. */
  ghost predicate MaximalRun(p: Params, xs: seq<Sample>, r: Range) {
    && r.start < r.end < |xs|
    && (forall k :: r.start <= k < r.end ==> Exceeds(xs[k].amp, p.valueThreshold))
    && !Exceeds(xs[r.end].amp, p.valueThreshold)
    && (r.start > 0 ==> !Exceeds(xs[r.start - 1].amp, p.valueThreshold))
  }

  /** Over the threshold in either direction. */
  predicate Exceeds(amp: real, threshold: real) { amp > threshold || amp < -threshold }

  lemma {:induction false} OpenStartIs(p: Params, xs: seq<Sample>)
    ensures var i := OpenStart(p, xs);
            (forall k :: i <= k < |xs| ==> Loud(p, xs[k])) && (i > 0 ==> !Loud(p, xs[i - 1]))
  {
    if xs != [] && Loud(p, xs[|xs| - 1]) {
      var q := xs[..|xs| - 1];
      OpenStartIs(p, q);
      assert forall k :: 0 <= k < |q| ==> q[k] == xs[k];
    }
  }

  /** The closed runs are exactly the maximal runs. */
  lemma {:induction false} ClosedRunsAreMaximal(p: Params, xs: seq<Sample>, r: Range)
    ensures r in ClosedRuns(p, xs) <==> MaximalRun(p, xs, r)
  {
    if xs != [] {
      var n := |xs| - 1;
      var q := xs[..n];
      ClosedRunsAreMaximal(p, q, r);
      OpenStartIs(p, q);
      assert forall k :: 0 <= k < n ==> q[k] == xs[k];
      var i := OpenStart(p, q);
      assert r.end == n && MaximalRun(p, xs, r) ==> r.start == i;
      assert r.end < n ==> (MaximalRun(p, xs, r) <==> MaximalRun(p, q, r));
    }
  }

  /** Listed from the newest to the oldest, without overlap. */
  ghost predicate NewestFirst(rs: seq<Range>) { forall i, j :: 0 <= i < j < |rs| ==> rs[j].end < rs[i].start }

  lemma {:induction false} ClosedRunsNewestFirst(p: Params, xs: seq<Sample>)
    ensures NewestFirst(ClosedRuns(p, xs))
  {
    if xs != [] {
      var n := |xs| - 1;
      var q := xs[..n];
      ClosedRunsNewestFirst(p, q);
      OpenStartIs(p, q);
      var rs := ClosedRuns(p, q);
      forall j | 0 <= j < |rs| ensures rs[j].end < OpenStart(p, q) || OpenStart(p, q) == n {
        assert rs[j] in rs;
        ClosedRunsAreMaximal(p, q, rs[j]);
      }
    }
  }

  // ----- the peak of a run -----

  ghost predicate Ordered(xs: seq<Sample>) {
    && (forall i :: 0 <= i < |xs| ==> xs[i].stamp > 0.0)
    && (forall i, j :: 0 <= i <= j < |xs| ==> xs[i].stamp <= xs[j].stamp)
  }

  function Duration(run: seq<Sample>): real
    requires run != []
  {
    run[|run| - 1].stamp - run[0].stamp
  }

  /** The amplitudes, each weighted with the time since the sample before. */
  function Amps(run: seq<Sample>): (w: Intervals)
    requires run != []
    ensures |w| == |run| - 1
    ensures forall i {:trigger w[i]} :: 0 <= i < |w| ==>
      w[i] == Interval(run[i + 1].amp, run[i + 1].stamp - run[i].stamp)
  {
    seq(|run| - 1, i requires 0 <= i < |run| - 1 => Interval(run[i + 1].amp, run[i + 1].stamp - run[i].stamp))
  }

  function Squares(run: seq<Sample>): (w: Intervals)
    requires run != []
    ensures |w| == |run| - 1
    ensures forall i {:trigger w[i]} :: 0 <= i < |w| ==>
      w[i] == Interval(run[i + 1].sqamp, run[i + 1].stamp - run[i].stamp)
  {
    seq(|run| - 1, i requires 0 <= i < |run| - 1 => Interval(run[i + 1].sqamp, run[i + 1].stamp - run[i].stamp))
  }

  /** The first of the amplitudes that are largest in absolute value. */
  function Largest(run: seq<Sample>): real
    requires run != []
  {
    var x := run[|run| - 1];
    if |run| == 1 then x.amp
    else
      var m := Largest(run[..|run| - 1]);
      if Abs(x.amp) > Abs(m) then x.amp else m
  }

  lemma {:induction false} LargestIs(run: seq<Sample>) returns (k: nat)
    requires run != []
    ensures k < |run| && Largest(run) == run[k].amp
    ensures forall i :: 0 <= i < |run| ==> Abs(run[i].amp) <= Abs(run[k].amp)
    ensures forall i :: 0 <= i < k ==> Abs(run[i].amp) < Abs(run[k].amp)
  {
    if |run| == 1 {
      k := 0;
    } else {
      var q := run[..|run| - 1];
      k := LargestIs(q);
      assert forall i :: 0 <= i < |q| ==> q[i] == run[i];
      if Abs(run[|run| - 1].amp) > Abs(q[k].amp) { k := |run| - 1; }
    }
  }

  function TimeMean(w: Intervals, first: real, duration: real): real {
    if duration == 0.0 then first else Sum(w) / duration
  }

  /** The peak a run amounts to while it lasts; its last component is still the mean square. */
  function RunPeak(run: seq<Sample>): Peak
    requires run != []
  {
    Peak(run[0].stamp, Duration(run), Largest(run), TimeMean(Amps(run), run[0].amp, Duration(run)),
         TimeMean(Squares(run), run[0].sqamp, Duration(run)))
  }

  function Stored(p: Params, k: Peak): Peak { k.(rms := p.root(k.rms)) }

  lemma OrderedSlice(xs: seq<Sample>, i: nat, j: nat)
    requires Ordered(xs) && i <= j <= |xs|
    ensures Ordered(xs[i..j])
  {
    assert forall k :: 0 <= k < j - i ==> xs[i..j][k] == xs[i + k];
  }

  lemma LengthsNonNegative(run: seq<Sample>)
    requires run != [] && Ordered(run)
    ensures NonNegative(Amps(run)) && NonNegative(Squares(run))
  {}

  lemma {:induction false} AmpsTelescope(run: seq<Sample>)
    requires run != [] && Ordered(run)
    ensures Total(Amps(run)) == Duration(run) && NonNegative(Amps(run))
  {
    hide Ordered, Amps;
    if |run| == 1 { assert Amps(run) == []; }
    LengthsNonNegative(run);
    if |run| > 1 {
      OrderedSlice(run, 1, |run|);
      assert run[1..|run|] == run[1..];
      AmpsTelescope(run[1..]);
      AmpsTail(run);
    }
  }

  lemma AmpsTail(run: seq<Sample>)
    requires |run| > 1
    ensures Amps(run)[1..] == Amps(run[1..]) && Amps(run)[0].length == run[1].stamp - run[0].stamp
  {}

  lemma {:induction false} SquaresTelescope(run: seq<Sample>)
    requires run != [] && Ordered(run)
    ensures Total(Squares(run)) == Duration(run) && NonNegative(Squares(run))
  {
    hide Ordered, Squares;
    if |run| == 1 { assert Squares(run) == []; }
    LengthsNonNegative(run);
    if |run| > 1 {
      OrderedSlice(run, 1, |run|);
      assert run[1..|run|] == run[1..];
      SquaresTelescope(run[1..]);
      SquaresTail(run);
    }
  }

  lemma SquaresTail(run: seq<Sample>)
    requires |run| > 1
    ensures Squares(run)[1..] == Squares(run[1..]) && Squares(run)[0].length == run[1].stamp - run[0].stamp
  {}

  /** The mean times the duration is the weighted sum, also before any time has passed. */
  lemma TimeMeanSum(w: Intervals, first: real)
    requires NonNegative(w)
    ensures Weigh(TimeMean(w, first, Total(w)), Total(w)) == Sum(w)
  {
    NothingWeighed(w);
    WeighZero(first);
    if Total(w) != 0.0 { WeighQuotient(Sum(w), Total(w)); }
  }

  /** A running mean after one more interval, when some time has passed in all. */
  function Refreshed(m: real, a: real, interval: real, total: real): real {
    if total > 0.0 then m + (a - m) * interval / total else m
  }

  /** One more interval in a mean over time. */
  lemma TimeMeanSnoc(w: Intervals, first: real, x: Interval)
    requires NonNegative(w) && x.length >= 0.0
    ensures Total(w) + x.length >= 0.0
    ensures TimeMean(w + [x], first, Total(w) + x.length)
         == Refreshed(TimeMean(w, first, Total(w)), x.value, x.length, Total(w) + x.length)
  {
    NothingWeighed(w);
    var total := Total(w) + x.length;
    var m := TimeMean(w, first, Total(w));
    if total > 0.0 {
      TimeMeanSum(w, first);
      Snoc(w, x);
      RefreshedSum(Total(w), m, x);
      hide Weigh, TimeMean, Refreshed, Sum, Total;
      PositiveMean(w + [x], first, total);
      WeighCancel(Refreshed(m, x.value, x.length, total), TimeMean(w + [x], first, total), total);
    }
  }

  lemma PositiveMean(w: Intervals, first: real, total: real)
    requires total > 0.0
    ensures Weigh(TimeMean(w, first, total), total) == Sum(w)
  {
    WeighQuotient(Sum(w), total);
  }

  lemma RefreshedSum(before: real, m: real, x: Interval)
    requires before + x.length > 0.0
    ensures Weigh(Refreshed(m, x.value, x.length, before + x.length), before + x.length)
         == Weigh(m, before) + Weigh(x.value, x.length)
  {
    AddedMeanIs(before, m, x);
    assert x.length + before == before + x.length;
  }

  lemma AmpsSnoc(run: seq<Sample>, x: Sample)
    requires run != []
    ensures Amps(run + [x]) == Amps(run) + [Interval(x.amp, x.stamp - run[|run| - 1].stamp)]
  {}

  lemma SquaresSnoc(run: seq<Sample>, x: Sample)
    requires run != []
    ensures Squares(run + [x]) == Squares(run) + [Interval(x.sqamp, x.stamp - run[|run| - 1].stamp)]
  {}

  /** What one more loud sample does to the peak of the run. */
  function Extended(k: Peak, x: Sample): Peak {
    var d := x.stamp - k.start;
    var interval := d - k.duration;
    Peak(k.start, d, if Abs(x.amp) > Abs(k.peak) then x.amp else k.peak,
         Refreshed(k.mean, x.amp, interval, d), Refreshed(k.rms, x.sqamp, interval, d))
  }

  lemma RunPeakSnoc(run: seq<Sample>, x: Sample)
    requires run != [] && Ordered(run + [x])
    ensures x.stamp >= run[0].stamp
    ensures RunPeak(run + [x]) == Extended(RunPeak(run), x)
  {
    hide TimeMean, Refreshed, Amps, Squares;
    var r := run + [x];
    assert r[..|run|] == run && r[|run|] == x && r[|run| - 1] == run[|run| - 1] && r[0] == run[0];
    OrderedSlice(r, 0, |run|);
    var t := x.stamp - run[|run| - 1].stamp;
    assert t >= 0.0;
    AmpsTelescope(run);
    SquaresTelescope(run);
    AmpsSnoc(run, x);
    SquaresSnoc(run, x);
    TimeMeanSnoc(Amps(run), run[0].amp, Interval(x.amp, t));
    TimeMeanSnoc(Squares(run), run[0].sqamp, Interval(x.sqamp, t));
  }

  /** Moments of a run: weighted sums, largest amplitude, and mean square against squared mean. */
  lemma RunMoments(run: seq<Sample>)
    requires run != [] && Ordered(run)
    requires forall i :: 0 <= i < |run| ==> run[i].sqamp == Sqr(run[i].amp)
    ensures var k := RunPeak(run);
            && Weigh(k.mean, k.duration) == Sum(Amps(run))
            && Weigh(k.rms, k.duration) == Sum(Squares(run))
            && k.rms >= Sqr(k.mean)
            && forall i :: 0 <= i < |run| ==> Abs(run[i].amp) <= Abs(k.peak)
  {
    hide TimeMean, Weigh, Sum, Total, Sqr, Ordered;
    AmpsTelescope(run);
    SquaresTelescope(run);
    TimeMeanSum(Amps(run), run[0].amp);
    TimeMeanSum(Squares(run), run[0].sqamp);
    var k := LargestIs(run);
    NothingWeighed(Amps(run));
    SquaresAreSquared(run);
    if Duration(run) > 0.0 {
      MeanSquareBound(Amps(run), RunPeak(run).mean, RunPeak(run).rms);
    } else {
      NoTimeMean(Amps(run), run[0].amp);
      NoTimeMean(Squares(run), run[0].sqamp);
    }
  }

  lemma NoTimeMean(w: Intervals, first: real)
    ensures TimeMean(w, first, 0.0) == first
  {}

  lemma SquaresAreSquared(run: seq<Sample>)
    requires run != [] && forall i :: 0 <= i < |run| ==> run[i].sqamp == Sqr(run[i].amp)
    ensures Squares(run) == Squared(Amps(run))
  {}

  // ----- the history -----

  function Newest<T>(n: nat, s: seq<T>): seq<T> { if |s| <= n then s else s[..n] }

  /** The peak of the samples at the end that are loud, zero when there are none. */
  function CurrentPeak(p: Params, xs: seq<Sample>): Peak {
    if OpenRun(p, xs) == [] then PEAK_ZERO else RunPeak(OpenRun(p, xs))
  }

  /** A peak is added in front when it lasted long enough. */
  function AddLong(p: Params, k: Peak, ks: seq<Peak>): seq<Peak> {
    if k.duration > p.durationThreshold then [Stored(p, k)] + ks else ks
  }

  /** All peaks recorded at quiet samples, newest first. */
  function Recorded(p: Params, xs: seq<Sample>): seq<Peak> {
    if xs == [] then []
    else
      var q := xs[..|xs| - 1];
      if Loud(p, xs[|xs| - 1]) then Recorded(p, q) else AddLong(p, CurrentPeak(p, q), Recorded(p, q))
  }

  function PeakOf(xs: seq<Sample>, r: Range): Peak {
    if r.start < r.end <= |xs| then RunPeak(xs[r.start..r.end]) else PEAK_ZERO
  }

  /** The peaks of those of the given runs that last longer than the threshold. */
  function LongPeaks(p: Params, xs: seq<Sample>, rs: seq<Range>): seq<Peak> {
    if rs == [] then []
    else AddLong(p, PeakOf(xs, rs[0]), LongPeaks(p, xs, rs[1..]))
  }

  /** The peaks of all maximal runs that last longer than the threshold, newest first. */
  function PeakHistory(p: Params, xs: seq<Sample>): seq<Peak> { LongPeaks(p, xs, ClosedRuns(p, xs)) }

  lemma {:induction false} LongPeaksPrefix(p: Params, xs: seq<Sample>, n: nat, rs: seq<Range>)
    requires n <= |xs| && forall i :: 0 <= i < |rs| ==> rs[i].start < rs[i].end <= n
    ensures LongPeaks(p, xs, rs) == LongPeaks(p, xs[..n], rs)
  {
    hide RunPeak, Stored;
    if rs != [] {
      assert xs[rs[0].start..rs[0].end] == xs[..n][rs[0].start..rs[0].end];
      LongPeaksPrefix(p, xs, n, rs[1..]);
    }
  }

  lemma {:induction false} RecordedIsHistory(p: Params, xs: seq<Sample>)
    requires p.durationThreshold >= 0.0
    ensures Recorded(p, xs) == PeakHistory(p, xs)
  {
    hide RunPeak, Loud, Stored;
    if xs != [] {
      var n := |xs| - 1;
      var q := xs[..n];
      RecordedIsHistory(p, q);
      var rs := ClosedRuns(p, q);
      forall i | 0 <= i < |rs| ensures rs[i].start < rs[i].end <= n {
        assert rs[i] in rs;
        ClosedRunsAreMaximal(p, q, rs[i]);
      }
      LongPeaksPrefix(p, xs, n, rs);
      var i := OpenStart(p, q);
      assert q[i..] == xs[i..n];
      if !Loud(p, xs[n]) && i < n {
        LongPeaksCons(p, xs, Range(i, n), rs);
      }
    }
  }

  lemma LongPeaksCons(p: Params, xs: seq<Sample>, r: Range, rs: seq<Range>)
    ensures LongPeaks(p, xs, [r] + rs) == AddLong(p, PeakOf(xs, r), LongPeaks(p, xs, rs))
  {
    assert ([r] + rs)[1..] == rs;
  }

  lemma {:induction false} NeverQuiet(p: Params, xs: seq<Sample>)
    requires p.valueThreshold < 0.0
    ensures Recorded(p, xs) == [] && ClosedRuns(p, xs) == []
  {
    if xs != [] { NeverQuiet(p, xs[..|xs| - 1]); }
  }

  // ----- one combined sample -----

  lemma OpenRunSnoc(p: Params, xs: seq<Sample>, x: Sample)
    ensures OpenRun(p, xs + [x]) == if Loud(p, x) then OpenRun(p, xs) + [x] else []
  {
    assert (xs + [x])[..|xs|] == xs;
  }

  lemma RecordedSnoc(p: Params, xs: seq<Sample>, x: Sample)
    ensures Recorded(p, xs + [x])
         == if Loud(p, x) then Recorded(p, xs) else AddLong(p, CurrentPeak(p, xs), Recorded(p, xs))
  {
    assert (xs + [x])[..|xs|] == xs;
  }

  lemma CurrentPeakSnoc(p: Params, xs: seq<Sample>, x: Sample)
    requires Ordered(xs + [x])
    ensures CurrentPeak(p, xs).start == 0.0 <==> OpenRun(p, xs) == []
    ensures CurrentPeak(p, xs + [x])
         == if !Loud(p, x) then PEAK_ZERO
            else if CurrentPeak(p, xs).start == 0.0 then Peak(x.stamp, 0.0, x.amp, x.amp, x.sqamp)
            else Extended(CurrentPeak(p, xs), x)
  {
    hide TimeMean;
    OpenRunSnoc(p, xs, x);
    var run, i := OpenRun(p, xs), OpenStart(p, xs);
    if run == [] {
      assert run + [x] == [x];
      NoTimeMean(Amps([x]), x.amp);
      NoTimeMean(Squares([x]), x.sqamp);
    } else {
      assert run[0] == (xs + [x])[i];
      OrderedSlice(xs + [x], i, |xs| + 1);
      assert (xs + [x])[i..|xs| + 1] == run + [x];
      RunPeakSnoc(run, x);
    }
  }

  // ----- the order of combined samples -----

  ghost predicate WellStamped(es: seq<Event>) {
    && (forall i :: 0 <= i < |es| ==> es[i].stamp > 0.0)
    && (forall i, j :: 0 <= i <= j < |es| ==> es[i].stamp <= es[j].stamp)
  }

  lemma WellStampedPrefix(es: seq<Event>)
    requires es != [] && WellStamped(es)
    ensures WellStamped(es[..|es| - 1])
  {}

  lemma {:induction false} SlotStamps(g: seq<Event>, axis: Axis)
    requires g != [] && WellStamped(g)
    ensures Slot(g, axis).stamp != 0.0 <==> Has(g, axis)
    ensures 0.0 <= Slot(g, axis).stamp <= g[|g| - 1].stamp
    ensures Slot(g, g[|g| - 1].axis).stamp == g[|g| - 1].stamp
  {
    var n := |g| - 1;
    assert g[n].stamp > 0.0;
    if g[n].axis != axis && n > 0 {
      WellStampedPrefix(g);
      SlotStamps(g[..n], axis);
      assert g[n - 1].stamp <= g[n].stamp;
      assert Has(g[..n], axis) ==> Has(g, axis) by {
        if Has(g[..n], axis) {
          var i :| 0 <= i < n && g[..n][i].axis == axis;
          assert g[i].axis == axis;
        }
      }
      assert Has(g, axis) ==> Has(g[..n], axis) by {
        if Has(g, axis) {
          var i :| 0 <= i < |g| && g[i].axis == axis;
          assert g[..n][i].axis == axis;
        }
      }
    }
  }

  lemma {:induction false} OpenGroupStamped(es: seq<Event>)
    requires WellStamped(es)
    ensures WellStamped(OpenGroup(es))
  {
    hide Has;
    if es != [] {
      var q, e := es[..|es| - 1], es[|es| - 1];
      WellStampedPrefix(es);
      OpenGroupStamped(q);
      var g := OpenGroup(q);
      assert WellStamped([e]);
      forall i | 0 <= i < |g| ensures g[i].stamp <= e.stamp {
        assert g[i].stamp <= g[|g| - 1].stamp == q[|q| - 1].stamp == es[|q| - 1].stamp;
      }
    }
  }

  /** Combined samples keep the order of the components they are made of. */
  lemma {:induction false} SamplesOrdered(p: Params, es: seq<Event>)
    requires WellStamped(es)
    ensures Ordered(Samples(p, es))
    ensures forall i :: 0 <= i < |Samples(p, es)| ==> es != [] && Samples(p, es)[i].stamp <= es[|es| - 1].stamp
  {
    hide AmpOf, SquareOf, Has, OpenGroup;
    if es != [] {
      var n := |es| - 1;
      var q := es[..n];
      WellStampedPrefix(es);
      SamplesOrdered(p, q);
      var xs := Samples(p, q);
      if n > 0 { assert q[n - 1].stamp <= es[n].stamp; }
      forall i | 0 <= i < |xs| ensures n > 0 && xs[i].stamp <= q[n - 1].stamp {}
      if Has(OpenGroup(q), es[n].axis) {
        NonEmptyGroup(q, es[n].axis);
        assert Combined(p, OpenGroup(q)).stamp == q[n - 1].stamp;
      }
    }
  }

  lemma NonEmptyGroup(es: seq<Event>, axis: Axis)
    requires Has(OpenGroup(es), axis)
    ensures es != [] && OpenGroup(es) != [] && OpenGroup(es)[|OpenGroup(es)| - 1] == es[|es| - 1]
  {}

  // ----- when the history is that of the long runs -----

  ghost predicate AllSelected(p: Params, es: seq<Event>) {
    forall i :: 0 <= i < |es| ==> Selected(p.direction, es[i].axis)
  }

  /** For all that can be received the stored peaks are those of the long maximal runs. */
  ghost predicate AlwaysHistory(p: Params) {
    forall es :: WellStamped(es) && AllSelected(p, es) ==>
      Newest(p.itemCount, Recorded(p, Samples(p, es))) == Newest(p.itemCount, PeakHistory(p, Samples(p, es)))
  }

  /**
    The processor stores the peaks of the long runs and nothing else, exactly when the duration threshold is not
    negative, or nothing is stored, or no sample is quiet, or no component is selected: otherwise it also stores an
    empty peak for every quiet sample after a quiet one.
    */
  lemma HistoryIff(p: Params)
    requires IsRoot(p.root)
    ensures AlwaysHistory(p)
       <==> p.durationThreshold >= 0.0 || p.itemCount == 0 || p.valueThreshold < 0.0 || p.direction % 8 == 0
  {
    if p.durationThreshold >= 0.0 {
      forall es ensures Recorded(p, Samples(p, es)) == PeakHistory(p, Samples(p, es)) {
        RecordedIsHistory(p, Samples(p, es));
      }
    } else if p.valueThreshold < 0.0 {
      forall es ensures Recorded(p, Samples(p, es)) == [] == PeakHistory(p, Samples(p, es)) {
        NeverQuiet(p, Samples(p, es));
      }
    } else if p.direction % 8 == 0 {
      forall es: seq<Event> | AllSelected(p, es) ensures es == [] { NothingToSelect(p, es); }
    } else if p.itemCount > 0 {
      var es := QuietEvents(p);
      assert WellStamped(es) && AllSelected(p, es);
    }
  }

  lemma NothingToSelect(p: Params, es: seq<Event>)
    requires p.direction % 8 == 0 && AllSelected(p, es)
    ensures es == []
  {
    hide Selected;
    NoAxisSelected(p);
    assert es == [] || Selected(p.direction, es[0].axis);
  }

  lemma NoAxisSelected(p: Params)
    requires p.direction % 8 == 0
    ensures forall axis :: !Selected(p.direction, axis)
  {
    hide Selected;
    SelectedIff(p.direction);
    forall axis ensures !Selected(p.direction, axis) {
      match axis
      case X =>
      case Y =>
      case Z =>
    }
  }

  /** Two zeroes on a selected axis make a quiet sample, for which an empty peak is stored. */
  lemma QuietEvents(p: Params) returns (es: seq<Event>)
    requires IsRoot(p.root)
    requires p.durationThreshold < 0.0 && p.itemCount > 0 && p.valueThreshold >= 0.0 && p.direction % 8 != 0
    ensures WellStamped(es) && AllSelected(p, es)
    ensures Newest(p.itemCount, Recorded(p, Samples(p, es))) != Newest(p.itemCount, PeakHistory(p, Samples(p, es)))
  {
    var axis := SomeAxis(p);
    hide Recorded, PeakHistory, AmpOf, SquareOf, Slot, Samples, OpenGroup, Selected, Newest, Combined, IsRoot;
    var e := Event(axis, 0.0, 1.0);
    es := [e, e];
    TwiceTheSame(p, e);
    ZeroAmp(p, axis);
    QuietSample(p, Combined(p, [e]));
  }

  lemma SomeAxis(p: Params) returns (axis: Axis)
    requires p.direction % 8 != 0
    ensures Selected(p.direction, axis)
  {
    if p.direction % 2 == 0 && p.direction / 2 % 2 == 0 && p.direction / 4 % 2 == 0 {
      ThreeBits(p.direction);
    }
    axis := if p.direction % 2 == 1 then X else if p.direction / 2 % 2 == 1 then Y else Z;
  }

  lemma ThreeBits(d: nat)
    requires d % 2 == 0 && d / 2 % 2 == 0 && d / 4 % 2 == 0
    ensures d % 8 == 0
  {
    var a := d / 2;
    var b := a / 2;
    assert d == 2 * a && a == 2 * b;
    assert d / 4 == b;
    var c := b / 2;
    assert d == 8 * c;
  }

  lemma TwiceTheSame(p: Params, e: Event)
    ensures Samples(p, [e, e]) == [Combined(p, [e])]
  {
    hide Combined;
    var none: seq<Event> := [];
    assert [e, e][..1] == [e] && [e][..0] == none && none + [e] == [e];
    NoAxis(e.axis);
    assert Samples(p, none) == [] && OpenGroup(none) == none;
    assert OpenGroup([e]) == [e];
    assert Has([e], e.axis) by { assert [e][0].axis == e.axis; }
    assert Samples(p, [e]) == [];
  }

  lemma ZeroAmp(p: Params, axis: Axis)
    requires IsRoot(p.root)
    ensures Combined(p, [Event(axis, 0.0, 1.0)]).amp == 0.0
  {
    var g := [Event(axis, 0.0, 1.0)];
    assert g[..0] == [];
    assert forall a :: Slot(g, a).value == 0.0;
    ZeroRoot(p.root, p.root(0.0));
    assert Sqr(0.0) + Sqr(0.0) + Sqr(0.0) == 0.0;
  }

  lemma ZeroRoot(root: real -> real, r: real)
    requires IsRoot(root) && r == root(0.0)
    ensures r == 0.0
  {
    assert r >= 0.0 && Sqr(r) == 0.0;
    if r > 0.0 { PositiveSquare(r); }
  }

  lemma PositiveSquare(r: real)
    requires r > 0.0
    ensures Sqr(r) > 0.0
  {
    WeighOrder(0.0, r, r);
    WeighZero(r);
    assert Sqr(r) == Weigh(r, r);
  }

  lemma QuietRecorded(p: Params, x: Sample)
    requires x.amp == 0.0 && p.durationThreshold < 0.0 && p.valueThreshold >= 0.0
    ensures Recorded(p, [x]) == [Stored(p, PEAK_ZERO)]
  {
    hide Stored, RunPeak;
    var none: seq<Sample> := [];
    assert none + [x] == [x] && !Loud(p, x);
    RecordedSnoc(p, none, x);
    assert CurrentPeak(p, none) == PEAK_ZERO && Recorded(p, none) == [];
  }

  lemma QuietHistory(p: Params, x: Sample)
    requires x.amp == 0.0 && p.valueThreshold >= 0.0
    ensures PeakHistory(p, [x]) == []
  {
    hide RunPeak, Stored;
    var none: seq<Sample> := [];
    assert [x][..0] == none && !Loud(p, x);
    assert OpenStart(p, none) == 0;
    assert ClosedRuns(p, [x]) == ClosedRuns(p, none) == [];
  }

  lemma QuietSample(p: Params, x: Sample)
    requires x.amp == 0.0 && p.durationThreshold < 0.0 && p.itemCount > 0 && p.valueThreshold >= 0.0
    ensures Newest(p.itemCount, Recorded(p, [x])) != Newest(p.itemCount, PeakHistory(p, [x]))
  {
    hide Recorded, PeakHistory, Stored;
    QuietRecorded(p, x);
    QuietHistory(p, x);
    assert |Newest(p.itemCount, Recorded(p, [x]))| == 1;
  }

  // ----- what the stored numbers mean -----

  lemma {:induction false} LongPeaksContain(p: Params, xs: seq<Sample>, rs: seq<Range>, k: Peak)
    ensures k in LongPeaks(p, xs, rs)
       <==> exists r :: r in rs && PeakOf(xs, r).duration > p.durationThreshold && k == Stored(p, PeakOf(xs, r))
  {
    hide PeakOf, Stored;
    if rs != [] {
      LongPeaksContain(p, xs, rs[1..], k);
      assert rs[0] in rs;
      assert forall r :: r in rs <==> r == rs[0] || r in rs[1..];
    }
  }

  /** A peak is in the history exactly when it is that of a maximal run over the duration threshold. */
  lemma HistoryContains(p: Params, xs: seq<Sample>, k: Peak)
    ensures k in PeakHistory(p, xs)
       <==> exists r :: MaximalRun(p, xs, r) && PeakOf(xs, r).duration > p.durationThreshold
                        && k == Stored(p, PeakOf(xs, r))
  {
    hide PeakOf, Stored, MaximalRun, ClosedRuns;
    LongPeaksContain(p, xs, ClosedRuns(p, xs), k);
    forall r ensures r in ClosedRuns(p, xs) <==> MaximalRun(p, xs, r) { ClosedRunsAreMaximal(p, xs, r); }
  }

  /** The long ones among the given runs. */
  function LongRuns(p: Params, xs: seq<Sample>, rs: seq<Range>): seq<Range> {
    if rs == [] then []
    else if PeakOf(xs, rs[0]).duration > p.durationThreshold then [rs[0]] + LongRuns(p, xs, rs[1..])
    else LongRuns(p, xs, rs[1..])
  }

  lemma {:induction false} LongRunsAre(p: Params, xs: seq<Sample>, rs: seq<Range>, r: Range)
    ensures r in LongRuns(p, xs, rs) <==> r in rs && PeakOf(xs, r).duration > p.durationThreshold
  {
    hide PeakOf;
    if rs != [] {
      LongRunsAre(p, xs, rs[1..], r);
      assert r in rs <==> r == rs[0] || r in rs[1..];
    }
  }

  lemma {:induction false} LongRunsOrdered(p: Params, xs: seq<Sample>, rs: seq<Range>)
    requires NewestFirst(rs)
    ensures NewestFirst(LongRuns(p, xs, rs))
  {
    hide PeakOf;
    if rs != [] {
      LongRunsOrdered(p, xs, rs[1..]);
      var ls := LongRuns(p, xs, rs[1..]);
      forall j | 0 <= j < |ls| ensures ls[j].end < rs[0].start {
        LongRunsAre(p, xs, rs[1..], ls[j]);
        assert ls[j] in rs[1..];
      }
    }
  }

  lemma {:induction false} LongPeaksOf(p: Params, xs: seq<Sample>, rs: seq<Range>)
    ensures var ls, ks := LongRuns(p, xs, rs), LongPeaks(p, xs, rs);
            |ls| == |ks| && forall i :: 0 <= i < |ls| ==> ks[i] == Stored(p, PeakOf(xs, ls[i]))
  {
    hide PeakOf, Stored;
    if rs != [] { LongPeaksOf(p, xs, rs[1..]); }
  }

  /**
    The history is the list of the peaks of all maximal runs over the duration threshold, one for each, from the
    newest run to the oldest.
    */
  lemma HistoryRuns(p: Params, xs: seq<Sample>) returns (rs: seq<Range>)
    ensures forall r :: r in rs <==> MaximalRun(p, xs, r) && PeakOf(xs, r).duration > p.durationThreshold
    ensures forall i, j :: 0 <= i < j < |rs| ==> rs[j].end < rs[i].start
    ensures |rs| == |PeakHistory(p, xs)|
    ensures forall i :: 0 <= i < |rs| ==> PeakHistory(p, xs)[i] == Stored(p, PeakOf(xs, rs[i]))
  {
    hide PeakOf, Stored, MaximalRun, ClosedRuns, LongRuns, LongPeaks;
    var all := ClosedRuns(p, xs);
    ClosedRunsNewestFirst(p, xs);
    LongRunsOrdered(p, xs, all);
    LongPeaksOf(p, xs, all);
    rs := LongRuns(p, xs, all);
    forall r ensures r in rs <==> MaximalRun(p, xs, r) && PeakOf(xs, r).duration > p.durationThreshold {
      LongRunsAre(p, xs, all, r);
      ClosedRunsAreMaximal(p, xs, r);
    }
  }

  lemma {:induction false} SamplesSquared(p: Params, es: seq<Event>)
    requires IsRoot(p.root)
    ensures forall i :: 0 <= i < |Samples(p, es)| ==> Samples(p, es)[i].sqamp == Sqr(Samples(p, es)[i].amp)
  {
    hide Has, OpenGroup;
    if es != [] {
      SamplesSquared(p, es[..|es| - 1]);
      var g := OpenGroup(es[..|es| - 1]);
      AmpSquared(p, Slot(g, X).value, Slot(g, Y).value, Slot(g, Z).value);
    }
  }

  lemma AmpSquared(p: Params, x: real, y: real, z: real)
    requires IsRoot(p.root)
    ensures SquareOf(p, x, y, z) == Sqr(AmpOf(p, x, y, z))
  {
    assert Sqr(x) >= 0.0 && Sqr(y) >= 0.0 && Sqr(z) >= 0.0;
  }

  /** A stored peak: its mean and mean square are those over time, and its root mean square covers its mean. */
  lemma StoredMoments(p: Params, es: seq<Event>, r: Range)
    requires IsRoot(p.root) && WellStamped(es) && MaximalRun(p, Samples(p, es), r)
    ensures var run := Samples(p, es)[r.start..r.end];
            var k := Stored(p, RunPeak(run));
            && k.start == run[0].stamp && k.duration == run[|run| - 1].stamp - run[0].stamp
            && Weigh(k.mean, k.duration) == Sum(Amps(run))
            && Weigh(Sqr(k.rms), k.duration) == Sum(Squares(run))
            && k.rms >= 0.0 && Sqr(k.rms) >= Sqr(k.mean)
            && (exists i :: 0 <= i < |run| && k.peak == run[i].amp)
            && forall i :: 0 <= i < |run| ==> Abs(run[i].amp) <= Abs(k.peak)
  {
    var xs := Samples(p, es);
    var run := xs[r.start..r.end];
    SamplesOrdered(p, es);
    OrderedSlice(xs, r.start, r.end);
    SamplesSquared(p, es);
    hide *;
    SquaredSlice(xs, r.start, r.end);
    StoredRun(p, run);
  }

  lemma SquaredSlice(xs: seq<Sample>, i: nat, j: nat)
    requires i <= j <= |xs| && forall k :: 0 <= k < |xs| ==> xs[k].sqamp == Sqr(xs[k].amp)
    ensures forall k :: 0 <= k < j - i ==> xs[i..j][k].sqamp == Sqr(xs[i..j][k].amp)
  {}

  lemma StoredRun(p: Params, run: seq<Sample>)
    requires IsRoot(p.root) && run != [] && Ordered(run)
    requires forall i :: 0 <= i < |run| ==> run[i].sqamp == Sqr(run[i].amp)
    ensures var k := Stored(p, RunPeak(run));
            && k.start == run[0].stamp && k.duration == run[|run| - 1].stamp - run[0].stamp
            && Weigh(k.mean, k.duration) == Sum(Amps(run))
            && Weigh(Sqr(k.rms), k.duration) == Sum(Squares(run))
            && k.rms >= 0.0 && Sqr(k.rms) >= Sqr(k.mean)
            && (exists i :: 0 <= i < |run| && k.peak == run[i].amp)
            && forall i :: 0 <= i < |run| ==> Abs(run[i].amp) <= Abs(k.peak)
  {
    assert RunPeak(run).start == run[0].stamp && RunPeak(run).peak == Largest(run);
    assert RunPeak(run).duration == run[|run| - 1].stamp - run[0].stamp;
    hide RunPeak, Weigh, Sum, Ordered, Abs, Largest;
    var largest := LargestIs(run);
    RunMoments(run);
    SquareNonNegative(RunPeak(run).mean);
    hide Sqr;
    assert p.root(RunPeak(run).rms) >= 0.0;
  }

  lemma SquareNonNegative(x: real)
    ensures Sqr(x) >= 0.0
  {}

  // ----- the processor -----

  class AccelerationHistory {
    const p: Params
    var current: Peak
    var peaks: seq<Peak>
    var fax: Stamped
    var fay: Stamped
    var faz: Stamped
    /** The selected components received so far. */
    ghost var received: seq<Event>

    /** The state that belongs to the combined samples xs. */
    ghost predicate Follows(xs: seq<Sample>)
      reads this
    {
      current == CurrentPeak(p, xs) && peaks == Newest(p.itemCount, Recorded(p, xs))
    }

    ghost predicate Holds(g: seq<Event>)
      reads this
    {
      fax == Slot(g, X) && fay == Slot(g, Y) && faz == Slot(g, Z)
    }

    /** For stamps that are positive and do not decrease, the state follows from what was received. */
    ghost predicate Valid()
      reads this
    {
      WellStamped(received) ==> Follows(Samples(p, received)) && Holds(OpenGroup(received))
    }

    constructor (params: Params)
      ensures Valid() && received == [] && p == params
    {
      p, received := params, [];
      current, peaks := PEAK_ZERO, [];
      fax, fay, faz := ZERO, ZERO, ZERO;
    }

    /** The main result: the stored peaks are the newest of those of the long maximal runs. */
    lemma PeaksAreHistory()
      requires Valid() && WellStamped(received) && p.durationThreshold >= 0.0
      ensures var history := PeakHistory(p, Samples(p, received));
              peaks <= history && |peaks| == if |history| < p.itemCount then |history| else p.itemCount
    {
      RecordedIsHistory(p, Samples(p, received));
    }

    function Newer(a: real, b: real): real { if a < b then b else a }

    /** The sample that the collected components combine to. */
    function Pending(): Sample
      reads this
    {
      Sample(Newer(Newer(fax.stamp, fay.stamp), faz.stamp),
             AmpOf(p, fax.value, fay.value, faz.value), SquareOf(p, fax.value, fay.value, faz.value))
    }

    /** Takes a loud sample into the current peak. */
    method Extend(amp: real, sqamp: real, stamp: real)
      modifies this`current
      ensures old(current).start == 0.0 ==> current == Peak(stamp, 0.0, amp, amp, sqamp)
      ensures old(current).start != 0.0 && 0.0 <= old(current).duration <= stamp - old(current).start ==>
        current == Extended(old(current), Sample(stamp, amp, sqamp))
    {
      hide Abs;
      if current.start == 0.0 {
        current := Peak(stamp, 0.0, amp, amp, sqamp);
      } else {
        if Abs(amp) > Abs(current.peak) {
          current := current.(peak := amp);
        }
        var newDuration := stamp - current.start;
        var interval := newDuration - current.duration;
        if newDuration > 0.0 {
          var mean := current.mean + (amp - current.mean) * interval / newDuration;
          var rms := current.rms + (sqamp - current.rms) * interval / newDuration;
          assert mean == Refreshed(current.mean, amp, interval, newDuration);
          assert rms == Refreshed(current.rms, sqamp, interval, newDuration);
          current := current.(duration := newDuration, mean := mean, rms := rms);
        }
      }
    }

    /** Combines the collected components and lets the sample extend or close the current run. */
    method HandleValue(ghost xs: seq<Sample>)
      modifies this`current, this`peaks, this`fax, this`fay, this`faz
      ensures Holds([])
      ensures old(Follows(xs)) && Ordered(xs + [old(Pending())]) ==> Follows(xs + [old(Pending())])
    {
      hide Recorded, CurrentPeak, RunPeak, Sqr;
      ghost var x := Pending();
      var amp := AmpOf(p, fax.value, fay.value, faz.value);
      var sqamp := SquareOf(p, fax.value, fay.value, faz.value);
      var stamp := Newer(Newer(fax.stamp, fay.stamp), faz.stamp);
      ghost var follows := Follows(xs) && Ordered(xs + [x]);
      if follows {
        CurrentPeakSnoc(p, xs, x);
        CurrentStart(p, xs, x);
      }
      RecordedSnoc(p, xs, x);
      if Abs(amp) > p.valueThreshold {
        Extend(amp, sqamp, stamp);
      } else {
        if current.duration > p.durationThreshold {
          ghost var before := Recorded(p, xs);
          current := current.(rms := p.root(current.rms));
          ghost var all := [current] + before;
          peaks := [current] + peaks;
          while |peaks| > p.itemCount
            invariant follows ==> |peaks| >= |Newest(p.itemCount, all)| && peaks <= all
            invariant follows && |peaks| < p.itemCount ==> peaks == all
          {
            peaks := peaks[..|peaks| - 1];
          }
        }
        current := PEAK_ZERO;
      }
      fax, fay, faz := ZERO, ZERO, ZERO;
    }

    /** The component held for an axis. */
    function Component(axis: Axis): Stamped
      reads this
    {
      match axis
      case X => fax
      case Y => fay
      case Z => faz
    }

    method InsertValue(q: Quantity, value: Stamped)
      requires Valid()
      modifies this
      ensures Valid()
      ensures received == old(received)
        + (if q == FAX && Selected(p.direction, X) then [Event(X, value.value, value.stamp)]
           else if q == FAY && Selected(p.direction, Y) then [Event(Y, value.value, value.stamp)]
           else if q == FAZ && Selected(p.direction, Z) then [Event(Z, value.value, value.stamp)] else [])
    {
      hide Samples, OpenGroup, Slot, Recorded, CurrentPeak, WellStamped, Newest, Selected;
      if Selected(p.direction, X) && q == FAX {
        Complete(X, value);
        fax := value;
      } else if Selected(p.direction, Y) && q == FAY {
        Complete(Y, value);
        fay := value;
      } else if Selected(p.direction, Z) && q == FAZ {
        Complete(Z, value);
        faz := value;
      }
    }

    /** Before a component is stored: when one is already there, the collected components make a sample. */
    method Complete(axis: Axis, value: Stamped)
      requires Valid()
      modifies this
      ensures received == old(received) + [Event(axis, value.value, value.stamp)]
      ensures WellStamped(received) ==> Follows(Samples(p, received))
      ensures WellStamped(received) ==>
        forall a :: Slot(OpenGroup(received), a) == if a == axis then value else Component(a)
    {
      hide Samples, OpenGroup, Slot, Recorded, CurrentPeak, WellStamped, Newest, Combined, Ordered;
      ghost var es, e := received, Event(axis, value.value, value.stamp);
      ghost var g, well := OpenGroup(es), WellStamped(es + [e]);
      received := es + [e];
      if well {
        EventTaken(p, es, e);
        EmptySlots();
        if Has(g, axis) { CombinedIs(p, g); }
      }
      if Component(axis).stamp != 0.0 {
        HandleValue(Samples(p, es));
      }
    }
  }

  lemma EmptySlots()
    ensures forall a :: Slot([], a) == ZERO
  {}

  lemma SlotSnoc(g: seq<Event>, e: Event)
    ensures forall a :: Slot(g + [e], a) == if a == e.axis then Stamped(e.value, e.stamp) else Slot(g, a)
    ensures forall a :: Slot([e], a) == if a == e.axis then Stamped(e.value, e.stamp) else ZERO
  {
    assert (g + [e])[..|g|] == g;
    assert [e][..0] == [];
  }

  /** The largest stamp among the collected components is that of the newest. */
  lemma CombinedIs(p: Params, g: seq<Event>)
    requires g != [] && WellStamped(g)
    ensures var x, y, z := Slot(g, X), Slot(g, Y), Slot(g, Z);
            Combined(p, g).stamp >= x.stamp && Combined(p, g).stamp >= y.stamp && Combined(p, g).stamp >= z.stamp
            && Combined(p, g).stamp in {x.stamp, y.stamp, z.stamp}
            && Combined(p, g).amp == AmpOf(p, x.value, y.value, z.value)
            && Combined(p, g).sqamp == SquareOf(p, x.value, y.value, z.value)
  {
    hide AmpOf, SquareOf, Has, Slot, WellStamped;
    SlotStamps(g, X);
    SlotStamps(g, Y);
    SlotStamps(g, Z);
    match g[|g| - 1].axis
    case X =>
    case Y =>
    case Z =>
  }

  /** What a received component does to the samples and to the open group. */
  lemma EventTaken(p: Params, es: seq<Event>, e: Event)
    requires WellStamped(es + [e])
    ensures WellStamped(es) && WellStamped(OpenGroup(es))
    ensures var g := OpenGroup(es);
            && (Slot(g, e.axis).stamp != 0.0 <==> Has(g, e.axis))
            && (Has(g, e.axis) ==> g != [])
            && Samples(p, es + [e])
               == (if Has(g, e.axis) then Samples(p, es) + [Combined(p, g)] else Samples(p, es))
            && Ordered(Samples(p, es + [e]))
            && forall a :: Slot(OpenGroup(es + [e]), a)
                 == if a == e.axis then Stamped(e.value, e.stamp) else if Has(g, e.axis) then ZERO else Slot(g, a)
  {
    hide Has, Combined, Slot, WellStamped;
    var g := OpenGroup(es);
    assert (es + [e])[..|es|] == es;
    WellStampedPrefix(es + [e]);
    OpenGroupStamped(es);
    if g == [] {
      EmptySlots();
      NoAxis(e.axis);
    } else {
      SlotStamps(g, e.axis);
    }
    SlotSnoc(g, e);
    SamplesOrdered(p, es + [e]);
  }

  lemma NoAxis(axis: Axis)
    ensures !Has([], axis)
  {}

  /** The current peak began, and its duration counts, no later than the next sample. */
  lemma CurrentStart(p: Params, xs: seq<Sample>, x: Sample)
    requires Ordered(xs + [x])
    ensures var k := CurrentPeak(p, xs); k.start <= x.stamp && 0.0 <= k.duration
    ensures var k := CurrentPeak(p, xs); k.start != 0.0 ==> k.duration <= x.stamp - k.start
  {
    var i, r := OpenStart(p, xs), xs + [x];
    assert r[|xs|] == x;
    if i < |xs| {
      assert r[i] == OpenRun(p, xs)[0] && r[|xs| - 1] == OpenRun(p, xs)[|xs| - 1 - i];
    }
  }
}
