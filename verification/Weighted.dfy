/**
  Weighted moments of a sequence of interval averages, with the real-arithmetic facts about them.
  A mean over time weighs every average with the length of its interval.
  */
module Weighted {

  datatype Interval = Interval(value: real, length: real)

  type Intervals = seq<Interval>

  function Sqr(x: real): real { x * x }

  /** x weighted with t. Naming the product keeps the nonlinear terms out of the inductive proofs. */
  function Weigh(x: real, t: real): real { x * t }

  function Total(w: Intervals): real {
    if w == [] then 0.0 else w[0].length + Total(w[1..])
  }

  function Sum(w: Intervals): real {
    if w == [] then 0.0 else Weigh(w[0].value, w[0].length) + Sum(w[1..])
  }

  /** Second moment about c. */
  function Spread(w: Intervals, c: real): real {
    if w == [] then 0.0 else Weigh(Sqr(w[0].value - c), w[0].length) + Spread(w[1..], c)
  }

  ghost predicate Positive(w: Intervals) {
    forall i :: 0 <= i < |w| ==> w[i].length > 0.0
  }

  /** m is the mean and v the variance of the averages, written without division. */
  ghost predicate Moments(w: Intervals, m: real, v: real) {
    Sum(w) == Weigh(m, Total(w)) && Spread(w, m) == Weigh(v, Total(w))
  }

  // ----- arithmetic -----

  lemma WeighAdd(x: real, s: real, t: real)
    ensures Weigh(x, s + t) == Weigh(x, s) + Weigh(x, t)
  {}

  lemma AddWeigh(x: real, y: real, t: real)
    ensures Weigh(x + y, t) == Weigh(x, t) + Weigh(y, t)
    ensures Weigh(x - y, t) == Weigh(x, t) - Weigh(y, t)
  {}

  lemma WeighZero(x: real)
    ensures Weigh(x, 0.0) == 0.0
    ensures Weigh(0.0, x) == 0.0
  {}

  lemma WeighQuotient(x: real, t: real)
    requires t != 0.0
    ensures Weigh(x / t, t) == x
  {}

  lemma WeighOrder(x: real, y: real, t: real)
    requires t >= 0.0 && x <= y
    ensures Weigh(x, t) <= Weigh(y, t)
    ensures t > 0.0 && x < y ==> Weigh(x, t) < Weigh(y, t)
  {}

  lemma WeighCancel(x: real, y: real, t: real)
    requires t > 0.0 && Weigh(x, t) == Weigh(y, t)
    ensures x == y
  {
    if x < y { WeighOrder(x, y, t); } else { WeighOrder(y, x, t); }
  }

  // ----- appending -----

  lemma {:induction false} Snoc(w: Intervals, x: Interval)
    ensures Total(w + [x]) == Total(w) + x.length
    ensures Sum(w + [x]) == Sum(w) + Weigh(x.value, x.length)
  {
    if w == [] {
      assert [] + [x] == [x];
    } else {
      assert (w + [x])[1..] == w[1..] + [x];
      Snoc(w[1..], x);
    }
  }

  lemma {:induction false} SpreadSnoc(w: Intervals, x: Interval, c: real)
    ensures Spread(w + [x], c) == Spread(w, c) + Weigh(Sqr(x.value - c), x.length)
  {
    if w == [] {
      assert [] + [x] == [x];
    } else {
      assert (w + [x])[1..] == w[1..] + [x];
      SpreadSnoc(w[1..], x, c);
    }
  }

  // ----- parallel axis -----

  /** What moving the reference point from d to c adds to a second moment with the given sum and total. */
  function Moved(c: real, d: real, sum: real, total: real): real {
    Weigh(2.0 * (d - c), sum - Weigh(d, total)) + Weigh(Sqr(d - c), total)
  }

  lemma ShiftSquare(a: real, c: real, d: real, t: real)
    ensures Weigh(Sqr(a - c), t) == Weigh(Sqr(a - d), t) + Moved(c, d, Weigh(a, t), t)
  {
    var u := 2.0 * (d - c);
    assert Sqr(a - c) == Sqr(a - d) + u * (a - d) + Sqr(d - c);
    AddWeigh(Sqr(a - d) + u * (a - d), Sqr(d - c), t);
    AddWeigh(Sqr(a - d), u * (a - d), t);
    assert Weigh(u * (a - d), t) == Weigh(u, Weigh(a - d, t));
    AddWeigh(a, d, t);
  }

  lemma MovedAdds(c: real, d: real, sum: real, total: real, sum': real, total': real)
    ensures Moved(c, d, sum + sum', total + total') == Moved(c, d, sum, total) + Moved(c, d, sum', total')
  {
    WeighAdd(d, total, total');
    WeighAdd(Sqr(d - c), total, total');
    WeighAdd(2.0 * (d - c), sum - Weigh(d, total), sum' - Weigh(d, total'));
  }

  /** Changing the point the second moment is taken about. */
  lemma {:induction false} SpreadAbout(w: Intervals, c: real, d: real)
    ensures Spread(w, c) == Spread(w, d) + Moved(c, d, Sum(w), Total(w))
  {
    if w == [] {
      WeighZero(d);
      WeighZero(Sqr(d - c));
      WeighZero(2.0 * (d - c));
    } else {
      var a, t := w[0].value, w[0].length;
      SpreadAbout(w[1..], c, d);
      ShiftSquare(a, c, d, t);
      MovedAdds(c, d, Weigh(a, t), t, Sum(w[1..]), Total(w[1..]));
    }
  }

  /** About the mean the cross term vanishes. */
  lemma ParallelAxis(w: Intervals, m: real, v: real, c: real)
    requires Moments(w, m, v)
    ensures Spread(w, c) == Weigh(v + Sqr(m - c), Total(w))
  {
    SpreadAbout(w, c, m);
    WeighZero(2.0 * (m - c));
    AddWeigh(v, Sqr(m - c), Total(w));
  }

  // ----- mean and variance -----

  lemma {:induction false} TotalPositive(w: Intervals)
    requires Positive(w)
    ensures Total(w) >= 0.0
    ensures w != [] ==> Total(w) > 0.0
  {
    if w != [] {
      assert Positive(w[1..]);
      TotalPositive(w[1..]);
    }
  }

  /** The moments of a non-empty list of intervals are determined. */
  lemma MomentsUnique(w: Intervals, m: real, v: real, m': real, v': real)
    requires Positive(w) && w != [] && Moments(w, m, v) && Moments(w, m', v')
    ensures m == m' && v == v'
  {
    TotalPositive(w);
    WeighCancel(m, m', Total(w));
    WeighCancel(v, v', Total(w));
  }

  ghost predicate NonNegative(w: Intervals) {
    forall i :: 0 <= i < |w| ==> w[i].length >= 0.0
  }

  lemma {:induction false} SpreadNonNegative(w: Intervals, c: real)
    requires NonNegative(w)
    ensures Spread(w, c) >= 0.0
  {
    if w != [] {
      assert NonNegative(w[1..]);
      SpreadNonNegative(w[1..], c);
      WeighZero(w[0].length);
      WeighOrder(0.0, Sqr(w[0].value - c), w[0].length);
    }
  }

  /** With no time passed there is nothing to sum. */
  lemma {:induction false} NothingWeighed(w: Intervals)
    requires NonNegative(w)
    ensures Total(w) >= 0.0
    ensures Total(w) == 0.0 ==> Sum(w) == 0.0
  {
    if w != [] {
      assert NonNegative(w[1..]);
      NothingWeighed(w[1..]);
      WeighZero(w[0].value);
    }
  }

  function Squared(w: Intervals): (r: Intervals)
    ensures |r| == |w|
    ensures forall i {:trigger r[i]} :: 0 <= i < |w| ==> r[i] == Interval(Sqr(w[i].value), w[i].length)
  {
    seq(|w|, i requires 0 <= i < |w| => Interval(Sqr(w[i].value), w[i].length))
  }

  lemma {:induction false} SpreadAboutZero(w: Intervals)
    ensures Spread(w, 0.0) == Sum(Squared(w))
  {
    if w != [] {
      SpreadAboutZero(w[1..]);
      assert Squared(w)[1..] == Squared(w[1..]);
    }
  }

  /** The mean square is at least the square of the mean. */
  lemma MeanSquareBound(w: Intervals, m: real, ms: real)
    requires NonNegative(w) && Total(w) > 0.0
    requires Sum(w) == Weigh(m, Total(w)) && Sum(Squared(w)) == Weigh(ms, Total(w))
    ensures ms >= Sqr(m)
  {
    SpreadNonNegative(w, m);
    SpreadAbout(w, m, 0.0);
    SpreadAboutZero(w);
    WeighZero(Total(w));
    MovedFromZero(m, Total(w));
    if ms < Sqr(m) {
      WeighOrder(ms, Sqr(m), Total(w));
      assert false;
    }
  }

  lemma MovedFromZero(m: real, total: real)
    ensures Moved(m, 0.0, Weigh(m, total), total) == -Weigh(Sqr(m), total)
  {
    var d := 0.0 - m;
    WeighZero(total);
    assert Weigh(2.0 * d, Weigh(m, total)) == -2.0 * Weigh(Sqr(m), total);
    assert Sqr(d) == Sqr(m);
  }

  lemma VarianceNonNegative(w: Intervals, m: real, v: real)
    requires Positive(w) && w != [] && Moments(w, m, v)
    ensures v >= 0.0
  {
    TotalPositive(w);
    SpreadNonNegative(w, m);
    if v < 0.0 {
      WeighOrder(v, 0.0, Total(w));
      WeighZero(Total(w));
      assert false;
    }
  }

  lemma {:induction false} SumBounds(w: Intervals, lo: real, hi: real)
    requires Positive(w) && forall i :: 0 <= i < |w| ==> lo <= w[i].value <= hi
    ensures Weigh(lo, Total(w)) <= Sum(w) <= Weigh(hi, Total(w))
  {
    if w == [] {
      WeighZero(lo);
      WeighZero(hi);
    } else {
      var t, r := w[0].length, w[1..];
      assert Positive(r);
      SumBounds(r, lo, hi);
      WeighOrder(lo, w[0].value, t);
      WeighOrder(w[0].value, hi, t);
      WeighAdd(lo, t, Total(r));
      WeighAdd(hi, t, Total(r));
    }
  }

  /** A mean is a convex combination. */
  lemma MeanBetween(w: Intervals, m: real, v: real, lo: real, hi: real)
    requires Positive(w) && w != [] && Moments(w, m, v)
    requires forall i :: 0 <= i < |w| ==> lo <= w[i].value <= hi
    ensures lo <= m <= hi
  {
    TotalPositive(w);
    SumBounds(w, lo, hi);
    if m < lo {
      WeighOrder(m, lo, Total(w));
      assert false;
    }
    if m > hi {
      WeighOrder(hi, m, Total(w));
      assert false;
    }
  }

  // ----- the running update and its reversal -----

  // dev is the distance of the interval's average from a mean, shift the distance between the two means

  function AddedMean(total: real, m: real, dev: real, length: real): real
    requires length + total != 0.0
  {
    m + dev * length / (length + total)
  }

  function AddedVariance(total: real, v: real, shift: real, dev: real, length: real): real
    requires total + length != 0.0
  {
    (total * (v + Sqr(shift)) + length * Sqr(dev)) / (total + length)
  }

  function DroppedMean(total: real, m: real, dev: real, length: real): real
    requires total != 0.0
  {
    m - dev * length / total
  }

  function DroppedVariance(total: real, v: real, shift: real, dev: real, length: real): real
    requires total != 0.0
  {
    ((total + length) * v - length * Sqr(dev)) / total - Sqr(shift)
  }

  /** The step added to the mean does not depend on the mean it is added to. */
  lemma AddedStep(total: real, m: real, mean: real, dev: real, length: real)
    requires length + total != 0.0
    ensures AddedMean(total, mean, dev, length) == mean + (AddedMean(total, m, dev, length) - m)
  {}

  lemma DroppedStep(total: real, m: real, mean: real, dev: real, length: real)
    requires total != 0.0
    ensures DroppedMean(total, mean, dev, length) == mean + (DroppedMean(total, m, dev, length) - m)
  {}

  lemma AddedMeanIs(total: real, m: real, x: Interval)
    requires x.length + total != 0.0
    ensures Weigh(AddedMean(total, m, x.value - m, x.length), total + x.length) == Weigh(m, total) + Weigh(x.value, x.length)
  {
    var t := x.length + total;
    var d := (x.value - m) * x.length;
    AddWeigh(m, d / t, t);
    WeighQuotient(d, t);
    WeighAdd(m, total, x.length);
    AddWeigh(x.value, m, x.length);
    assert d == Weigh(x.value - m, x.length);
  }

  lemma AddedVarianceIs(total: real, m: real, v: real, m': real, x: Interval)
    requires total + x.length != 0.0
    ensures Weigh(AddedVariance(total, v, m - m', x.value - m', x.length), total + x.length)
         == Weigh(v + Sqr(m - m'), total) + Weigh(Sqr(x.value - m'), x.length)
  {
    WeighQuotient(total * (v + Sqr(m - m')) + x.length * Sqr(x.value - m'), total + x.length);
  }

  lemma DroppedMeanIs(total: real, m: real, x: Interval)
    requires total != 0.0
    ensures Weigh(DroppedMean(total, m, x.value - m, x.length), total) == Weigh(m, x.length + total) - Weigh(x.value, x.length)
  {
    var d := (x.value - m) * x.length;
    AddWeigh(m, d / total, total);
    WeighQuotient(d, total);
    WeighAdd(m, x.length, total);
    AddWeigh(x.value, m, x.length);
    assert d == Weigh(x.value - m, x.length);
  }

  lemma DroppedVarianceIs(total: real, m: real, v: real, m': real, x: Interval)
    requires total != 0.0
    ensures Weigh(DroppedVariance(total, v, m - m', x.value - m, x.length), total)
         == Weigh(v, x.length + total) - Weigh(Sqr(x.value - m), x.length) - Weigh(Sqr(m - m'), total)
  {
    var n := (total + x.length) * v - x.length * Sqr(x.value - m);
    AddWeigh(n / total, Sqr(m - m'), total);
    WeighQuotient(n, total);
  }

  /** Adding one interval to the running mean and variance gives the mean and variance of the longer list. */
  lemma AddInterval(w: Intervals, m: real, v: real, x: Interval)
    requires Positive(w) && x.length > 0.0 && Moments(w, m, v)
    ensures Total(w) + x.length > 0.0
    ensures var m' := AddedMean(Total(w), m, x.value - m, x.length);
            Moments(w + [x], m', AddedVariance(Total(w), v, m - m', x.value - m', x.length))
  {
    TotalPositive(w);
    var m' := AddedMean(Total(w), m, x.value - m, x.length);
    Snoc(w, x);
    AddedMeanIs(Total(w), m, x);
    SpreadSnoc(w, x, m');
    ParallelAxis(w, m, v, m');
    AddedVarianceIs(Total(w), m, v, m', x);
  }

  /** Moving from m to the mean m' of the remaining intervals takes the squared shift off the second moment. */
  lemma MovedToMean(m: real, m': real, total: real)
    ensures Moved(m', m, Weigh(m', total), total) == -Weigh(Sqr(m - m'), total)
  {
    var d := m - m';
    AddWeigh(m', m, total);
    assert Weigh(m' - m, total) == -Weigh(d, total);
    assert Weigh(2.0 * d, -Weigh(d, total)) == -2.0 * Weigh(Sqr(d), total);
  }

  /** Reversing the oldest interval out of the mean and variance gives those of the shorter list. */
  lemma DropInterval(w: Intervals, m: real, v: real)
    requires Positive(w) && |w| > 1 && Moments(w, m, v)
    ensures Total(w[1..]) > 0.0
    ensures var m' := DroppedMean(Total(w[1..]), m, w[0].value - m, w[0].length);
            Moments(w[1..], m', DroppedVariance(Total(w[1..]), v, m - m', w[0].value - m, w[0].length))
  {
    var r, x := w[1..], w[0];
    assert Positive(r);
    TotalPositive(r);
    var m' := DroppedMean(Total(r), m, x.value - m, x.length);
    DroppedMeanIs(Total(r), m, x);
    SpreadAbout(r, m', m);
    MovedToMean(m, m', Total(r));
    DroppedVarianceIs(Total(r), m, v, m', x);
  }

  // ----- shifting all values -----

  function Shifted(w: Intervals, c: real): (r: Intervals)
    ensures |r| == |w|
    ensures forall i :: 0 <= i < |w| ==> r[i] == Interval(w[i].value + c, w[i].length)
  {
    seq(|w|, i requires 0 <= i < |w| => Interval(w[i].value + c, w[i].length))
  }

  lemma {:induction false} SumsShifted(w: Intervals, c: real, m: real)
    ensures Total(Shifted(w, c)) == Total(w)
    ensures Sum(Shifted(w, c)) == Sum(w) + Weigh(c, Total(w))
    ensures Spread(Shifted(w, c), m + c) == Spread(w, m)
  {
    if w == [] {
      WeighZero(c);
    } else {
      var r := Shifted(w, c);
      SumsShifted(w[1..], c, m);
      assert r[1..] == Shifted(w[1..], c);
      AddWeigh(w[0].value, c, w[0].length);
      WeighAdd(c, w[0].length, Total(w[1..]));
      assert r[0].value - (m + c) == w[0].value - m;
    }
  }

  /** Adding a constant to every value moves the mean by it and leaves the variance alone. */
  lemma MomentsShifted(w: Intervals, m: real, v: real, c: real)
    requires Moments(w, m, v)
    ensures Moments(Shifted(w, c), m + c, v)
  {
    SumsShifted(w, c, m);
    AddWeigh(m, c, Total(w));
  }
}
