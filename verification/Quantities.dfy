/** The quantities a sensor reports, and the wrap-around arithmetic for the ones that are angles. */
module Quantities {

  /** A quantity is the underlying integer of the enumeration, so that register numbers can be cast to it. */
  type Quantity = int

  const LO: Quantity := 2    // longitude
  const HDG: Quantity := 7   // heading
  const CRS: Quantity := 8   // course
  const RO: Quantity := 22   // roll
  const PITCH: Quantity := 23
  const YA: Quantity := 24   // yaw
  const FAX: Quantity := 32  // free acceleration, three components
  const FAY: Quantity := 33
  const FAZ: Quantity := 34
  const END: Quantity := 78  // end marker

  const PI: real := 3.14159265358979323846
  const TAU: real := 6.28318530717958647692

  predicate SignedAngle(q: Quantity) { q == LO || q == RO || q == PITCH || q == YA }

  predicate CompassAngle(q: Quantity) { q == HDG || q == CRS }

  predicate Angular(q: Quantity) { SignedAngle(q) || CompassAngle(q) }

  /** The angles by name and by their places in the enumeration, and the places of the other quantities named here. */
  lemma AngularIff(q: Quantity)
    ensures Angular(q) <==> q in {LO, HDG, CRS, RO, PITCH, YA}
    ensures Angular(q) <==> q in {2, 7, 8, 22, 23, 24}
    ensures FAX == 32 && FAY == 33 && FAZ == 34 && END == 78
    ensures TAU == 2.0 * PI
  {}

  // ----- whole turns -----

  function Turns(k: int): real { k as real * TAU }

  lemma TurnsAdd(j: int, k: int)
    ensures Turns(j + k) == Turns(j) + Turns(k)
    ensures Turns(j - k) == Turns(j) - Turns(k)
  {}

  /** Only zero whole turns fit strictly between minus one turn and one turn. */
  lemma SmallTurns(k: int)
    requires -TAU < Turns(k) < TAU
    ensures k == 0
  {}

  /** Two reals denote the same direction. */
  ghost predicate Congruent(a: real, b: real) { exists k: int :: a == b + Turns(k) }

  lemma CongruentShift(a: real, b: real, x: real)
    requires Congruent(a, b)
    ensures Congruent(a + x, b + x)
  {
    var k: int :| a == b + Turns(k);
    assert a + x == b + x + Turns(k);
  }

  lemma CongruentTrans(a: real, b: real, c: real)
    requires Congruent(a, b) && Congruent(b, c)
    ensures Congruent(a, c)
  {
    var j: int :| a == b + Turns(j);
    var k: int :| b == c + Turns(k);
    TurnsAdd(j, k);
    assert a == c + Turns(j + k);
  }

  lemma CongruentDifference(a: real, b: real, x: real, y: real)
    requires Congruent(a, x) && Congruent(b, y)
    ensures Congruent(a - b, x - y)
  {
    var j: int :| a == x + Turns(j);
    var k: int :| b == y + Turns(k);
    TurnsAdd(j, k);
    assert a - b == x - y + Turns(j - k);
  }

  /** Each direction has one representative in a half-open interval of one turn. */
  lemma CongruentUnique(a: real, b: real, lo: real)
    requires Congruent(a, b) && lo <= a < lo + TAU && lo <= b < lo + TAU
    ensures a == b
  {
    var k: int :| a == b + Turns(k);
    SmallTurns(k);
  }

  // ----- wrapping -----

  /** The representative of v's direction in [lo, lo + TAU). */
  function Wrap(v: real, lo: real): (r: real)
    ensures lo <= r < lo + TAU
  {
    WrapRange(v - lo);
    v - Turns(((v - lo) / TAU).Floor)
  }

  lemma WrapRange(x: real)
    ensures 0.0 <= x - Turns((x / TAU).Floor) < TAU
  {
    var y := x / TAU;
    assert x == y * TAU;
    assert y.Floor as real <= y < y.Floor as real + 1.0;
  }

  lemma WrapCongruent(v: real, lo: real)
    ensures Congruent(Wrap(v, lo), v)
  {
    var k := ((v - lo) / TAU).Floor;
    assert Wrap(v, lo) == v + Turns(-k);
  }

  lemma WrapIs(r: real, v: real, lo: real)
    requires Congruent(r, v) && lo <= r < lo + TAU
    ensures r == Wrap(v, lo)
  {
    WrapCongruent(v, lo);
    CongruentSym(Wrap(v, lo), v);
    CongruentTrans(r, v, Wrap(v, lo));
    CongruentUnique(r, Wrap(v, lo), lo);
  }

  lemma CongruentSym(a: real, b: real)
    requires Congruent(a, b)
    ensures Congruent(b, a)
  {
    var k: int :| a == b + Turns(k);
    TurnsAdd(0, k);
    assert b == a + Turns(0 - k);
  }

  function Norm(q: Quantity, v: real): real {
    if SignedAngle(q) then Wrap(v, -PI) else if CompassAngle(q) then Wrap(v, 0.0) else v
  }

  function Diff(q: Quantity, a: real, b: real): real {
    if Angular(q) then Wrap(a - b, -PI) else a - b
  }

  /** The interval that value_norm reduces to. */
  predicate InNormalRange(q: Quantity, v: real) {
    (SignedAngle(q) ==> -PI <= v < PI) && (CompassAngle(q) ==> 0.0 <= v < TAU)
  }

  /** Reduction by repeated whole turns, as the two loops of value_norm do it. */
  method Reduce(value: real, lo: real) returns (r: real)
    requires lo == -PI || lo == 0.0
    ensures r == Wrap(value, lo)
  {
    r := value;
    assert r == value + Turns(0);
    while r >= lo + TAU
      invariant Congruent(r, value)
      decreases r
    {
      assert r - TAU == r + Turns(-1);
      CongruentTrans(r - TAU, r, value);
      r := r - TAU;
    }
    while r < lo
      invariant Congruent(r, value) && r < lo + TAU
      decreases -r
    {
      assert r + TAU == r + Turns(1);
      CongruentTrans(r + TAU, r, value);
      r := r + TAU;
    }
    WrapIs(r, value, lo);
  }

  method ValueNorm(q: Quantity, value: real) returns (r: real)
    ensures r == Norm(q, value)
    ensures q in {LO, RO, PITCH, YA} ==> -PI <= r < PI && Congruent(r, value)
    ensures q in {HDG, CRS} ==> 0.0 <= r < 2.0 * PI && Congruent(r, value)
    ensures q !in {LO, RO, PITCH, YA, HDG, CRS} ==> r == value
    ensures InNormalRange(q, r)
  {
    WrapCongruent(value, -PI);
    WrapCongruent(value, 0.0);
    if q == LO || q == RO || q == PITCH || q == YA {
      r := Reduce(value, -PI);
    } else if q == HDG || q == CRS {
      r := Reduce(value, 0.0);
    } else {
      r := value;
    }
  }

  method ValueDiff(q: Quantity, value1: real, value2: real) returns (r: real)
    ensures r == Diff(q, value1, value2)
    ensures q in {LO, RO, PITCH, YA, HDG, CRS} ==> -PI <= r < PI && Congruent(r, value1 - value2)
    ensures q !in {LO, RO, PITCH, YA, HDG, CRS} ==> r == value1 - value2
  {
    WrapCongruent(value1 - value2, -PI);
    r := value1 - value2;
    if Angular(q) {
      r := Reduce(r, -PI);
    }
  }

  // ----- unwrapped values -----

  /** x is a real-line reading of the stored value v: for an angle, equal up to whole turns. */
  ghost predicate Matches(q: Quantity, v: real, x: real) {
    if Angular(q) then Congruent(v, x) else v == x
  }

  lemma MatchesShift(q: Quantity, v: real, x: real, d: real)
    requires Matches(q, v, x)
    ensures Matches(q, v + d, x + d)
  {
    if Angular(q) { CongruentShift(v, x, d); }
  }

  lemma NormMatches(q: Quantity, v: real, x: real)
    requires Matches(q, v, x)
    ensures Matches(q, Norm(q, v), x)
    ensures InNormalRange(q, Norm(q, v))
  {
    if SignedAngle(q) {
      WrapCongruent(v, -PI);
      CongruentTrans(Norm(q, v), v, x);
    } else if CompassAngle(q) {
      WrapCongruent(v, 0.0);
      CongruentTrans(Norm(q, v), v, x);
    }
  }

  /** The wrap-around difference of two stored angles is the plain difference of readings less than half a turn apart. */
  lemma DiffMatches(q: Quantity, a: real, b: real, x: real, y: real)
    requires Matches(q, a, x) && Matches(q, b, y)
    requires Angular(q) ==> -PI <= x - y < PI
    ensures Diff(q, a, b) == x - y
  {
    if Angular(q) {
      CongruentDifference(a, b, x, y);
      CongruentSym(a - b, x - y);
      WrapIs(x - y, a - b, -PI);
    }
  }
}
