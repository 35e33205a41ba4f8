/** Quantisation of a value to an unsigned register of a given width, with saturation and an optional sign. */
module Scaling {
  import opened Numbers
  import opened Quantities

  datatype Scale = Scale(min: real, max: real, multiplier: real, offset: real, signedType: bool)

  /** The value at the low end of the register's range, and the width of that range. */
  function Low(s: Scale, bits: nat): real {
    if s.multiplier != 0.0 then s.offset - Pow2(bits) as real / s.multiplier / 2.0 else s.min
  }

  function Width(s: Scale, bits: nat): real {
    if s.multiplier != 0.0 then Pow2(bits) as real / s.multiplier else s.max - s.min
  }

  /** With an empty range the code divides by zero, which has no result for a value at the very end of the range. */
  predicate Defined(s: Scale, bits: nat, v: real) { Width(s, bits) != 0.0 || v != Low(s, bits) }

  lemma WidthNonZero(s: Scale, bits: nat)
    requires s.multiplier != 0.0
    ensures Width(s, bits) != 0.0
  {
    var w := Width(s, bits);
    assert w * s.multiplier == Pow2(bits) as real;
  }

  function Saturate(k: int, lo: int, hi: int): int { if k < lo then lo else if k > hi then hi else k }

  function Scaled(x: real, d: real, n: real): real
    requires d != 0.0
  {
    x / d * n
  }

  /** Where the value lies in the range, counted in steps from the low end. */
  function Position(s: Scale, bits: nat, v: real): real
    requires Width(s, bits) != 0.0
  {
    Scaled(v - Low(s, bits), Width(s, bits), Pow2(bits) as real)
  }

  /** An infinite position saturates like any other that is out of the range. */
  function Cell(s: Scale, bits: nat, v: real): int
    requires Defined(s, bits, v)
  {
    if Width(s, bits) == 0.0 then (if v > Low(s, bits) then Pow2(bits) - 1 else 0)
    else Saturate(Position(s, bits, v).Floor, 0, Pow2(bits) - 1)
  }

  /** Exclusive or with the top bit. */
  function FlipTop(x: int, bits: nat): int
    requires bits >= 1
  {
    if x < Pow2(bits - 1) then x + Pow2(bits - 1) else x - Pow2(bits - 1)
  }

  /** On the two register types, the exclusive or of the code. */
  lemma TopBit16(x: bv16)
    ensures (x ^ 0x8000) as int == FlipTop(x as int, 16)
  {
    assert Pow2(15) == 0x8000;
  }

  lemma TopBit32(x: bv32)
    ensures (x ^ 0x8000_0000) as int == FlipTop(x as int, 32)
  {
    assert Pow2(15) == 0x8000;
    assert Pow2(23) == 0x80_0000;
    assert Pow2(31) == 0x8000_0000;
  }

  function Register(s: Scale, bits: nat, v: real): int
    requires bits >= 1 && Defined(s, bits, v)
  {
    if s.signedType then FlipTop(Cell(s, bits, v), bits) else Cell(s, bits, v)
  }

  /** An unknown quantity reads as zero. */
  method ScaleTo(scales: map<Quantity, Scale>, bits: nat, quantity: Quantity, v: real) returns (result: int)
    requires bits >= 1
    requires quantity in scales ==> Defined(scales[quantity], bits, v)
    ensures quantity !in scales ==> result == 0
    ensures quantity in scales ==> result == Register(scales[quantity], bits, v)
  {
    if quantity !in scales {
      return 0;
    }
    var scale := scales[quantity];
    var min, max := scale.min, scale.max;
    if scale.multiplier != 0.0 {
      WidthNonZero(scale, bits);
      var range := Pow2(bits) as real / scale.multiplier;
      min := scale.offset - range / 2.0;
      max := scale.offset + range / 2.0;
    }
    var value := v - min;
    assert max - min == Width(scale, bits) && min == Low(scale, bits);
    if max - min == 0.0 {
      // the quotient is infinite, with the sign of the value
      value := if value < 0.0 then -1.0 else Pow2(bits) as real;
    } else {
      value := value / (max - min);
      value := value * Pow2(bits) as real;
      assert value == Scaled(v - min, max - min, Pow2(bits) as real);
    }
    value := if value < 0.0 then 0.0 else value;
    value := if value >= (Pow2(bits) - 1) as real then (Pow2(bits) - 1) as real else value;
    result := value.Floor;
    if scale.signedType {
      result := FlipTop(result, bits);
    }
  }

  // ----- what the register means -----

  function Step(s: Scale, bits: nat): real { Width(s, bits) / Pow2(bits) as real }

  function Times(k: int, step: real): real { k as real * step }

  /** Dividing a positive width into n steps, x is in step k or beyond exactly when it is at least k steps. */
  lemma StepsUp(x: real, d: real, n: real, k: int)
    requires d > 0.0 && n > 0.0
    ensures Scaled(x, d, n) >= k as real <==> x >= Times(k, d / n)
  {
    var y, step := x / d, d / n;
    assert step > 0.0 && d == step * n && x == y * d;
    assert x == (y * n) * step;
    Compare(y * n, k as real, step);
  }

  lemma Compare(a: real, b: real, step: real)
    requires step > 0.0
    ensures a >= b <==> a * step >= b * step
  {
    assert a * step - b * step == (a - b) * step;
  }

  /** The whole number below a real is the only one within one of it. */
  lemma FloorIs(x: real, k: int)
    ensures x.Floor == k <==> k as real <= x < (k + 1) as real
  {}

  /** A cell counts the steps below the value: k or more of them exactly when the value is k steps up. */
  lemma CellAtLeastIff(s: Scale, bits: nat, v: real, k: int)
    requires Width(s, bits) > 0.0
    requires 0 < k < Pow2(bits)
    ensures Cell(s, bits, v) >= k <==> v >= Low(s, bits) + Times(k, Step(s, bits))
  {
    var x, d, n := v - Low(s, bits), Width(s, bits), Pow2(bits) as real;
    StepsUp(x, d, n, k);
    hide Low, Width, Pow2, Scaled, Times;
    FloorAtLeast(Scaled(x, d, n), k);
  }

  lemma FloorAtLeast(x: real, k: int)
    ensures x.Floor >= k <==> x >= k as real
  {}

  /**
    In a rising range, the register's cell is the one step that contains the value, and no other; the first step
    extends to everything below, and the last to everything above.
    */
  lemma CellIff(s: Scale, bits: nat, v: real, k: int)
    requires Width(s, bits) > 0.0
    requires 0 <= k < Pow2(bits)
    ensures Cell(s, bits, v) == k <==>
            && (k == 0 || v >= Low(s, bits) + Times(k, Step(s, bits)))
            && (k == Pow2(bits) - 1 || v < Low(s, bits) + Times(k + 1, Step(s, bits)))
  {
    CellRange(s, bits, v);
    hide Low, Width, Cell, Step, Times;
    if k > 0 { CellAtLeastIff(s, bits, v, k); }
    if k + 1 < Pow2(bits) { CellAtLeastIff(s, bits, v, k + 1); }
  }

  lemma CellRange(s: Scale, bits: nat, v: real)
    requires Defined(s, bits, v)
    ensures 0 <= Cell(s, bits, v) < Pow2(bits)
  {}

  /** Reading a register back gives a value within one step of the one that was written. */
  lemma DecodesWithinStep(s: Scale, bits: nat, v: real)
    requires Width(s, bits) > 0.0
    requires Low(s, bits) <= v < Low(s, bits) + Width(s, bits)
    ensures 0.0 <= v - (Low(s, bits) + Times(Cell(s, bits, v), Step(s, bits))) < Step(s, bits)
  {
    var k, step := Cell(s, bits, v), Step(s, bits);
    CellRange(s, bits, v);
    CellIff(s, bits, v, k);
    AllSteps(Width(s, bits), Pow2(bits));
    hide Low, Width, Cell, Step;
    assert Times(k + 1, step) == Times(k, step) + step;
    assert Times(0, step) == 0.0;
  }

  lemma AllSteps(d: real, n: int)
    requires n > 0
    ensures Times(n, d / n as real) == d
  {}

  /** A larger value never gets a smaller cell, exactly when the scale's range does not fall. */
  lemma MonotoneIff(s: Scale, bits: nat)
    requires bits >= 1
    ensures Monotone(s, bits) <==> if s.multiplier != 0.0 then s.multiplier > 0.0 else s.min <= s.max
  {
    if s.multiplier != 0.0 { WidthNonZero(s, bits); }
    if Width(s, bits) != 0.0 { RisingIff(s, bits); }
    if Width(s, bits) > 0.0 {
      forall v, w | v <= w ensures Cell(s, bits, v) <= Cell(s, bits, w) {
        CellRises(s, bits, v, w);
      }
    } else if Width(s, bits) < 0.0 {
      FallingEnds(s, bits);
    }
  }

  /** For all values that have a result. */
  ghost predicate Monotone(s: Scale, bits: nat) {
    forall v, w :: Defined(s, bits, v) && Defined(s, bits, w) && v <= w ==> Cell(s, bits, v) <= Cell(s, bits, w)
  }

  lemma CellRises(s: Scale, bits: nat, v: real, w: real)
    requires Width(s, bits) > 0.0 && v <= w
    ensures Cell(s, bits, v) <= Cell(s, bits, w)
  {
    var k := Cell(s, bits, v);
    CellRange(s, bits, v);
    CellRange(s, bits, w);
    hide Low, Width, Cell, Step, Times;
    if k > 0 {
      CellAtLeastIff(s, bits, v, k);
      CellAtLeastIff(s, bits, w, k);
    }
  }

  /** When the range falls, its low end gets the first cell and its high end, though smaller, the last. */
  lemma FallingEnds(s: Scale, bits: nat)
    requires bits >= 1 && Width(s, bits) < 0.0
    ensures var lo, hi := Low(s, bits), Low(s, bits) + Width(s, bits);
            hi <= lo && Cell(s, bits, hi) > Cell(s, bits, lo)
  {
    var lo, d, n := Low(s, bits), Width(s, bits), Pow2(bits) as real;
    hide Low, Width, Pow2;
    assert Scaled(0.0, d, n) == 0.0;
    assert d / d == 1.0;
    assert Scaled(d, d, n) == n;
    assert lo + d - lo == d;
    assert Pow2(bits) >= 2;
    hide Scaled;
    assert n.Floor == Pow2(bits);
  }

  lemma RisingIff(s: Scale, bits: nat)
    requires Width(s, bits) != 0.0
    ensures Width(s, bits) > 0.0 <==> if s.multiplier != 0.0 then s.multiplier > 0.0 else s.min < s.max
  {
    if s.multiplier != 0.0 {
      var w := Width(s, bits);
      assert w * s.multiplier == Pow2(bits) as real;
    }
  }

  // ----- two's complement -----

  function TwosComplement(k: int, bits: nat): int { k % Pow2(bits) }

  /** The bits of a signed register are the two's complement of the cell counted from the middle of the range. */
  lemma SignedIsTwosComplement(s: Scale, bits: nat, v: real)
    requires bits >= 1 && Defined(s, bits, v) && s.signedType
    ensures Register(s, bits, v) == TwosComplement(Cell(s, bits, v) - Pow2(bits - 1), bits)
  {
    var c, h := Cell(s, bits, v), Pow2(bits - 1);
    assert 0 <= c < 2 * h;
    if c >= h {
      Residue(c - h, 2 * h);
    } else {
      Residue(c + h, 2 * h);
    }
  }

  lemma Residue(x: int, n: int)
    requires 0 <= x < n
    ensures x % n == x && (x - n) % n == x
  {
    hide *;
    assert x / n == 0;
    var q, r := (x - n) / n, (x - n) % n;
    assert n * (q + 1) == x - r;
    Multiple(n, q + 1);
  }

  lemma Multiple(n: int, k: int)
    requires n > 0 && -n < n * k < n
    ensures k == 0
  {}

  /** With a multiplier, a signed register holds the scaled offset from the centre, rounded down and saturated. */
  lemma SignedFixedPoint(s: Scale, bits: nat, v: real)
    requires bits >= 1 && s.multiplier != 0.0 && s.signedType
    ensures Width(s, bits) != 0.0
    ensures Register(s, bits, v) ==
            TwosComplement(Saturate(((v - s.offset) * s.multiplier).Floor, -Pow2(bits - 1), Pow2(bits - 1) - 1), bits)
  {
    WidthNonZero(s, bits);
    SignedIsTwosComplement(s, bits, v);
    PositionFromCentre(s, bits, v);
    FloorShift((v - s.offset) * s.multiplier, Pow2(bits - 1));
  }

  lemma CentredPosition(x: real, m: real, h: real)
    requires m != 0.0 && h > 0.0
    ensures 2.0 * h / m != 0.0
    ensures (x + 2.0 * h / m / 2.0) / (2.0 * h / m) * (2.0 * h) == x * m + h
  {
    var w := 2.0 * h / m;
    assert w * m == 2.0 * h;
    assert w != 0.0;
    var p := (x + w / 2.0) / w;
    assert p * w == x + w / 2.0;
    assert p * (2.0 * h) == p * (w * m) == (p * w) * m;
    assert (x + w / 2.0) * m == x * m + (w * m) / 2.0;
  }

  lemma FloorShift(x: real, h: int)
    ensures (x + h as real).Floor == x.Floor + h
  {
    FloorIs(x + h as real, x.Floor + h);
  }

  // ----- the unsigned register -----

  /** Where the k-th of n equal steps from lo to hi begins. */
  function Mark(lo: real, hi: real, n: int, k: int): real
    requires n > 0
  {
    lo + k as real * (hi - lo) / n as real
  }

  lemma MarkIs(s: Scale, bits: nat, k: int)
    requires s.multiplier == 0.0
    ensures Low(s, bits) + Times(k, Step(s, bits)) == Mark(s.min, s.max, Pow2(bits), k)
  {
    hide Times, Mark, Pow2;
    StepsFrom(s.min, s.max, Pow2(bits), k);
  }

  lemma StepsFrom(lo: real, hi: real, n: int, k: int)
    requires n > 0
    ensures lo + Times(k, (hi - lo) / n as real) == Mark(lo, hi, n, k)
  {
    var w, d := hi - lo, n as real;
    assert k as real * (w / d) * d == k as real * w;
  }

  /** Without a multiplier: the register is k exactly when the value is in the k-th of 2^bits equal steps from min. */
  lemma UnsignedRegisterIff(s: Scale, bits: nat, v: real, k: int)
    requires bits >= 1 && !s.signedType && s.multiplier == 0.0 && s.min < s.max
    requires 0 <= k < Pow2(bits)
    ensures Defined(s, bits, v)
    ensures Register(s, bits, v) == k <==>
            && (k == 0 || v >= Mark(s.min, s.max, Pow2(bits), k))
            && (k == Pow2(bits) - 1 || v < Mark(s.min, s.max, Pow2(bits), k + 1))
  {
    hide Cell, Times, Step, Mark, Pow2;
    CellIff(s, bits, v, k);
    MarkIs(s, bits, k);
    MarkIs(s, bits, k + 1);
  }

  /** Its value read back is less than one step below the value written, for all values from min to before max. */
  lemma UnsignedDecodes(s: Scale, bits: nat, v: real)
    requires bits >= 1 && !s.signedType && s.multiplier == 0.0 && s.min <= v < s.max
    ensures Defined(s, bits, v) && 0 <= Register(s, bits, v) < Pow2(bits)
    ensures 0.0 <= v - Mark(s.min, s.max, Pow2(bits), Register(s, bits, v)) < (s.max - s.min) / Pow2(bits) as real
  {
    hide Cell, Times, Mark, Pow2;
    DecodesWithinStep(s, bits, v);
    CellRange(s, bits, v);
    MarkIs(s, bits, Cell(s, bits, v));
  }

  /** A larger value never gets a smaller register. */
  lemma UnsignedRises(s: Scale, bits: nat, v: real, w: real)
    requires bits >= 1 && !s.signedType && v <= w
    requires if s.multiplier != 0.0 then s.multiplier > 0.0 else s.min < s.max
    ensures Defined(s, bits, v) && Defined(s, bits, w)
    ensures Register(s, bits, v) <= Register(s, bits, w)
  {
    if s.multiplier != 0.0 { WidthNonZero(s, bits); }
    RisingIff(s, bits);
    CellRises(s, bits, v, w);
  }

  /** With a multiplier: the scaled distance from the offset, rounded down, counted from the middle and cut off. */
  lemma UnsignedFixedPoint(s: Scale, bits: nat, v: real)
    requires bits >= 1 && !s.signedType && s.multiplier != 0.0
    ensures Defined(s, bits, v)
    ensures var k := ((v - s.offset) * s.multiplier).Floor + Pow2(bits - 1);
            Register(s, bits, v) == if k < 0 then 0 else if k >= Pow2(bits) then Pow2(bits) - 1 else k
  {
    WidthNonZero(s, bits);
    PositionFromCentre(s, bits, v);
    FloorShift((v - s.offset) * s.multiplier, Pow2(bits - 1));
  }

  lemma PositionFromCentre(s: Scale, bits: nat, v: real)
    requires bits >= 1 && s.multiplier != 0.0
    ensures Width(s, bits) != 0.0
    ensures Position(s, bits, v) == (v - s.offset) * s.multiplier + Pow2(bits - 1) as real
  {
    WidthNonZero(s, bits);
    var h := Pow2(bits - 1);
    CentredPosition(v - s.offset, s.multiplier, h as real);
    assert v - Low(s, bits) == v - s.offset + 2.0 * h as real / s.multiplier / 2.0;
  }
}
