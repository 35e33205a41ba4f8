/** The central clock: it follows the system clock, is steered towards other time sources, and never runs back. */
module Clocks {
  import opened Numbers

  const DEFAULT_ADJUST_RATE: real := 0.025

  datatype State = State(value: real, offset: real, rate: real)

  /** What can happen to the clock. The time of the system clock comes with each event that looks at it. */
  datatype Event =
    | GetTime(sys: real)
    | Adjust(sys: real, towards: real)
    | AdjustDiff(diff: real)
    | SetRate(rate: real)

  /** The clock's reading, when the system clock stands at the given time. */
  function Reading(s: State, sys: real): real { sys + s.offset }

  function Max(a: real, b: real): real { if a > b then a else b }

  function Next(s: State, e: Event): State {
    match e
    case GetTime(sys) => s.(value := Max(Reading(s, sys), s.value))
    case Adjust(sys, towards) => s.(offset := s.offset + s.rate * (towards - Reading(s, sys)))
    case AdjustDiff(diff) => s.(offset := s.offset + s.rate * diff)
    case SetRate(rate) => s.(rate := rate)
  }

  function After(s: State, es: seq<Event>): State
    decreases |es|
  {
    if es == [] then s else Next(After(s, es[..|es| - 1]), es[|es| - 1])
  }

  class Clock {
    var value: real
    var offset: real
    var adjustRate: real

    function Snapshot(): State
      reads this
    {
      State(value, offset, adjustRate)
    }

    constructor (utc: real, sys: real)
      ensures Snapshot() == State(0.0, utc - sys, 0.025) && Reading(Snapshot(), sys) == utc
    {
      value, offset, adjustRate := 0.0, utc - sys, DEFAULT_ADJUST_RATE;
    }

    method Time(sys: real) returns (t: real)
      modifies this`value
      ensures Snapshot() == Next(old(Snapshot()), GetTime(sys))
      ensures t == value && t >= old(value)
    {
      var reading := GetClock(sys);
      SetValue(reading);
      t := value;
    }

    method SetValue(v: real)
      modifies this`value
      ensures value == Max(v, old(value))
    {
      if v > value {
        value := v;
      }
    }

    method GetClock(sys: real) returns (r: real)
      ensures r == Reading(Snapshot(), sys)
    {
      r := sys + offset;
    }

    method SteerTowards(sys: real, towards: real)
      modifies this`offset
      ensures Snapshot() == Next(old(Snapshot()), Adjust(sys, towards))
    {
      var reading := GetClock(sys);
      SteerBy(towards - reading);
    }

    method SteerBy(diff: real)
      modifies this`offset
      ensures Snapshot() == Next(old(Snapshot()), AdjustDiff(diff))
    {
      offset := offset + adjustRate * diff;
    }

    method SetAdjustRate(rate: real)
      modifies this`adjustRate
      ensures Snapshot() == Next(old(Snapshot()), SetRate(rate))
    {
      adjustRate := rate;
    }
  }

  // ----- the times returned -----

  /** The clock readings at each call that asks for the time, whatever the clock then returns. */
  function Readings(s: State, es: seq<Event>): seq<real>
    decreases |es|
  {
    if es == [] then []
    else
      var init, e := es[..|es| - 1], es[|es| - 1];
      if e.GetTime? then Readings(s, init) + [Reading(After(s, init), e.sys)] else Readings(s, init)
  }

  /** The times that the calls return. */
  function Times(s: State, es: seq<Event>): (r: seq<real>)
    ensures |r| == |Readings(s, es)|
    decreases |es|
  {
    if es == [] then []
    else
      var init, e := es[..|es| - 1], es[|es| - 1];
      if e.GetTime? then Times(s, init) + [After(s, es).value] else Times(s, init)
  }

  /** The largest of a value and the readings. */
  ghost predicate IsMaximum(m: real, first: real, rs: seq<real>) {
    && (m == first || m in rs)
    && m >= first
    && (forall i :: 0 <= i < |rs| ==> m >= rs[i])
  }

  lemma {:induction false} ValueIsMaximum(s: State, es: seq<Event>)
    ensures IsMaximum(After(s, es).value, s.value, Readings(s, es))
    decreases |es|
  {
    if es != [] {
      var init, e := es[..|es| - 1], es[|es| - 1];
      ValueIsMaximum(s, init);
      if e.GetTime? {
        var m, r := After(s, init).value, Reading(After(s, init), e.sys);
        assert Readings(s, es) == Readings(s, init) + [r];
        assert r in Readings(s, init) + [r];
        assert m == s.value || m in Readings(s, init) + [r];
      }
    }
  }

  /** Each time returned is the largest of the initial value and the clock readings up to and including that call. */
  lemma {:induction false} TimesAreMaxima(s: State, es: seq<Event>, i: nat)
    requires i < |Times(s, es)|
    ensures IsMaximum(Times(s, es)[i], s.value, Readings(s, es)[..i + 1])
    decreases |es|
  {
    var init, e := es[..|es| - 1], es[|es| - 1];
    if i < |Times(s, init)| {
      TimesAreMaxima(s, init, i);
      assert Readings(s, es)[..i + 1] == Readings(s, init)[..i + 1];
    } else {
      ValueIsMaximum(s, es);
      assert Readings(s, es)[..i + 1] == Readings(s, es);
    }
  }

  /** However the clock is steered and the system clock set, time never runs back. */
  lemma NeverBack(s: State, es: seq<Event>, i: nat, j: nat)
    requires i <= j < |Times(s, es)|
    ensures Times(s, es)[i] <= Times(s, es)[j]
  {
    TimesAreMaxima(s, es, i);
    TimesAreMaxima(s, es, j);
    var rs, t := Readings(s, es), Times(s, es)[i];
    if t != s.value {
      var k :| 0 <= k < i + 1 && rs[..i + 1][k] == t;
      assert rs[..j + 1][k] == t;
    }
  }

  // ----- convergence -----

  /** The error, multiplied k times by the factor. */
  function Decayed(error: real, factor: real, k: nat): real {
    if k == 0 then error else Scaled(factor, Decayed(error, factor, k - 1))
  }

  function Scaled(factor: real, x: real): real { factor * x }

  /** A run that steers only by looking at a source which is ahead of the system clock by a fixed amount. */
  ghost predicate Follows(es: seq<Event>, ahead: real) {
    forall e :: e in es ==> e.GetTime? || (e.Adjust? && e.towards == e.sys + ahead)
  }

  function Adjustments(es: seq<Event>): nat {
    if es == [] then 0 else Adjustments(es[..|es| - 1]) + if es[|es| - 1].Adjust? then 1 else 0
  }

  /** Every adjustment leaves the same fraction of the error, at whatever times it is made and the clock is read. */
  lemma {:induction false} ErrorShrinks(s: State, es: seq<Event>, ahead: real)
    requires Follows(es, ahead)
    ensures After(s, es).rate == s.rate
    ensures ahead - After(s, es).offset == Decayed(ahead - s.offset, 1.0 - s.rate, Adjustments(es))
    decreases |es|
  {
    if es != [] {
      var init, e := es[..|es| - 1], es[|es| - 1];
      assert e in es;
      hide Next, Scaled;
      ErrorShrinks(s, init, ahead);
      FollowedOnce(After(s, init), e, ahead);
    }
  }

  lemma FollowedOnce(s: State, e: Event, ahead: real)
    requires e.GetTime? || (e.Adjust? && e.towards == e.sys + ahead)
    ensures Next(s, e).rate == s.rate
    ensures ahead - Next(s, e).offset == if e.Adjust? then Scaled(1.0 - s.rate, ahead - s.offset) else ahead - s.offset
  {
    if e.Adjust? {
      assert e.towards - Reading(s, e.sys) == ahead - s.offset;
      OneAdjustment(ahead, s.offset, s.rate);
    }
  }

  lemma OneAdjustment(ahead: real, offset: real, rate: real)
    ensures ahead - (offset + rate * (ahead - offset)) == (1.0 - rate) * (ahead - offset)
  {}

  /** An adjustment brings a clock that is wrong nearer to its source, exactly for rates between zero and two. */
  lemma NearerIff(s: State, sys: real, towards: real)
    requires Reading(s, sys) != towards
    ensures Abs(towards - Reading(Next(s, Adjust(sys, towards)), sys)) < Abs(towards - Reading(s, sys))
       <==> 0.0 < s.rate < 2.0
  {
    var x, f := towards - Reading(s, sys), 1.0 - s.rate;
    assert s.rate == 1.0 - f;
    var y := towards - Reading(Next(s, Adjust(sys, towards)), sys);
    assert y == x - s.rate * x;
    NearerFactor(f, x, y);
  }

  lemma NearerFactor(f: real, x: real, y: real)
    requires x != 0.0 && y == x - (1.0 - f) * x
    ensures Abs(y) < Abs(x) <==> -1.0 < f < 1.0
  {
    var a := Abs(x);
    var u, w := (1.0 - f) * a, (1.0 + f) * a;
    assert u > 0.0 <==> f < 1.0 by { SignOfProduct(1.0 - f, a); }
    assert w > 0.0 <==> f > -1.0 by { SignOfProduct(1.0 + f, a); }
    if x > 0.0 {
      assert a - y == u && a + y == w;
    } else {
      assert a + y == u && a - y == w;
    }
  }

  lemma SignOfProduct(c: real, a: real)
    requires a > 0.0
    ensures c * a > 0.0 <==> c > 0.0
  {}

  // ----- steering by differences and with changing rates -----

  /** Adjusting by the difference to a time is adjusting towards it. */
  lemma SteeredBy(s: State, sys: real, towards: real)
    ensures Next(s, AdjustDiff(towards - Reading(s, sys))) == Next(s, Adjust(sys, towards))
  {}

  /** The rate that was set last. */
  function RateAfter(rate: real, es: seq<Event>): real
    decreases |es|
  {
    if es == [] then rate
    else if es[|es| - 1].SetRate? then es[|es| - 1].rate else RateAfter(rate, es[..|es| - 1])
  }

  /**
    A run that steers to a source which is ahead of the system clock by a fixed amount, towards its time or by the
    difference to it, and may set the rate.
    */
  ghost predicate Steers(s: State, es: seq<Event>, ahead: real)
    decreases |es|
  {
    es == [] ||
    (var init, e := es[..|es| - 1], es[|es| - 1];
     Steers(s, init, ahead) &&
     match e
     case GetTime(_) => true
     case Adjust(sys, towards) => towards == sys + ahead
     case AdjustDiff(diff) => diff == ahead - After(s, init).offset
     case SetRate(_) => true)
  }

  /** What is left of an error, when every adjustment takes off the fraction that the rate says at that time. */
  function Left(error: real, rate: real, es: seq<Event>): real
    decreases |es|
  {
    if es == [] then error
    else
      var init, e := es[..|es| - 1], es[|es| - 1];
      if e.Adjust? || e.AdjustDiff? then Scaled(1.0 - RateAfter(rate, init), Left(error, rate, init))
      else Left(error, rate, init)
  }

  /** The error after any such run. */
  lemma {:induction false} ErrorLeft(s: State, es: seq<Event>, ahead: real)
    requires Steers(s, es, ahead)
    ensures After(s, es).rate == RateAfter(s.rate, es)
    ensures ahead - After(s, es).offset == Left(ahead - s.offset, s.rate, es)
    decreases |es|
  {
    if es != [] {
      var init, e := es[..|es| - 1], es[|es| - 1];
      hide Next, Scaled;
      ErrorLeft(s, init, ahead);
      SteeredOnce(After(s, init), e, ahead);
    }
  }

  lemma SteeredOnce(s: State, e: Event, ahead: real)
    ensures e.SetRate? ==> Next(s, e) == s.(rate := e.rate)
    ensures e.GetTime? ==> Next(s, e).offset == s.offset && Next(s, e).rate == s.rate
    ensures (e.Adjust? && e.towards == e.sys + ahead) || (e.AdjustDiff? && e.diff == ahead - s.offset) ==>
              Next(s, e).rate == s.rate && ahead - Next(s, e).offset == Scaled(1.0 - s.rate, ahead - s.offset)
  {
    OneAdjustment(ahead, s.offset, s.rate);
    if e.Adjust? && e.towards == e.sys + ahead {
      assert e.towards - Reading(s, e.sys) == ahead - s.offset;
    }
  }
}
