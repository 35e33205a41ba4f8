/** The plain register map: eight registers a quantity, four for its value and four for its stamp. */
module Modbus {
  import opened Bytes
  import opened Quantities

  /** A double precision number, as the unsigned value of the 64 bits that hold it. */
  type double = x: int | 0 <= x < 0x1_0000_0000_0000_0000

  datatype Sample = Sample(value: double, stamp: double)

  const ZERO := Sample(0, 0)

  /** For each quantity, the samples the device keeps, newest last. */
  type Device = map<Quantity, seq<Sample>>

  predicate Has(device: Device, q: Quantity) { q in device && device[q] != [] }

  function Newest(device: Device, q: Quantity): Sample {
    if Has(device, q) then device[q][|device[q]| - 1] else ZERO
  }

  function Part(sample: Sample, i: int): double {
    if i == 0 then sample.value else if i == 1 then sample.stamp else 0
  }

  /** The low sixteen bits after a shift to the right. */
  function Shifted(x: double, shft: int): word {
    if shft == 48 then x / 0x1_0000_0000_0000 % 0x1_0000
    else if shft == 32 then x / 0x1_0000_0000 % 0x1_0000
    else if shft == 16 then x / 0x1_0000 % 0x1_0000
    else x % 0x1_0000
  }

  /** A register holds sixteen bits of the value or of the stamp, most significant first. */
  function RegisterOf(sample: Sample, reg: nat): word {
    Shifted(Part(sample, reg % 8 / 4), (3 - reg % 4) * 16)
  }

  /** What a register holds, looked up by itself. */
  function Lookup(device: Device, reg: nat): word { RegisterOf(Newest(device, reg / 8), reg) }

  /** The sample in the cache when a read that began at one register reaches another. */
  function Cached(device: Device, start: nat, reg: nat): Sample {
    if start / 8 == END && reg / 8 == END then ZERO else Newest(device, reg / 8)
  }

  function Window(device: Device, start: nat, count: nat): (r: seq<word>)
    ensures |r| == count
    ensures forall i {:trigger r[i]} :: 0 <= i < count ==> r[i] == RegisterOf(Cached(device, start, start + i), start + i)
  {
    seq<word>(count, i requires 0 <= i < count => RegisterOf(Cached(device, start, start + i), start + i))
  }

  /** What the cache holds when a read that began at one register is about to look at another. */
  predicate CacheHolds(device: Device, start: nat, reg: nat, curq: Quantity, sample: Sample)
    requires start <= reg
  {
    if reg == start then curq == END && sample == ZERO
    else curq == (reg - 1) / 8 && sample == Cached(device, start, reg - 1)
  }

  lemma CacheStep(device: Device, start: nat, reg: nat, curq: Quantity, sample: Sample)
    requires start <= reg && CacheHolds(device, start, reg, curq, sample)
    ensures Cached(device, start, reg) == if reg / 8 == curq then sample else Newest(device, reg / 8)
  {
    hide Newest;
  }

  lemma IsRegister(sample: Sample, reg: nat)
    ensures Shifted(Part(sample, reg % 8 / 4), (3 - reg % 8 % 4) * 16) == RegisterOf(sample, reg)
  {
    hide Shifted, Part;
    assert reg % 8 % 4 == reg % 4;
  }

  method PlainMap(device: Device, start: nat, count: nat, values: array<word>)
    requires count <= values.Length
    modifies values
    ensures values[..] == Window(device, start, count) + old(values[count..])
  {
    hide Shifted, Newest, Part, Cached, RegisterOf;
    var reg := start;
    var curq := END;
    var sample := ZERO;
    for index := 0 to count
      invariant reg == start + index
      invariant CacheHolds(device, start, reg, curq, sample)
      invariant forall i {:trigger values[i]} :: 0 <= i < index ==> values[i] == Window(device, start, count)[i]
      invariant values[count..] == old(values[count..])
    {
      CacheStep(device, start, reg, curq, sample);
      var newq := reg / 8;
      if newq != curq {
        sample := GetSample(device, newq);
        curq := newq;
      }
      var off := reg % 8;
      var shft := (3 - off % 4) * 16;
      var i := off / 4;
      var value := Part(sample, i);
      IsRegister(sample, reg);
      values[index] := Shifted(value, shft);
      reg := reg + 1;
    }
    assert values[..count] == Window(device, start, count);
  }

  method GetSample(device: Device, q: Quantity) returns (sample: Sample)
    ensures sample == Newest(device, q)
  {
    if q !in device || device[q] == [] {
      return ZERO;
    }
    sample := device[q][|device[q]| - 1];
  }

  // ----- what a reader sees -----

  function Assembled(w: seq<int>): int
    requires |w| == 4
  {
    w[0] * 0x1_0000_0000_0000 + w[1] * 0x1_0000_0000 + w[2] * 0x1_0000 + w[3]
  }

  /** The four shifts of a number, put together again, are the number. */
  lemma Reassembled(x: double)
    ensures Assembled([Shifted(x, 48), Shifted(x, 32), Shifted(x, 16), Shifted(x, 0)]) == x
  {
    var a := x / 0x1_0000;
    var b := a / 0x1_0000;
    var c := b / 0x1_0000;
    assert x / 0x1_0000_0000 == b;
    assert x / 0x1_0000_0000_0000 == c;
  }

  function Octet(s: Sample): (r: seq<word>)
    ensures |r| == 8
  {
    [Shifted(s.value, 48), Shifted(s.value, 32), Shifted(s.value, 16), Shifted(s.value, 0),
     Shifted(s.stamp, 48), Shifted(s.stamp, 32), Shifted(s.stamp, 16), Shifted(s.stamp, 0)]
  }

  lemma OctetAt(s: Sample, q: nat, i: nat)
    requires i < 8
    ensures RegisterOf(s, q * 8 + i) == Octet(s)[i]
  {
    hide Shifted;
    assert (q * 8 + i) % 8 == i && (q * 8 + i) % 4 == i % 4;
  }

  lemma OctetAssembled(s: Sample)
    ensures Assembled(Octet(s)[..4]) == s.value && Assembled(Octet(s)[4..]) == s.stamp
  {
    hide Shifted, Assembled;
    assert Octet(s)[..4] == [Shifted(s.value, 48), Shifted(s.value, 32), Shifted(s.value, 16), Shifted(s.value, 0)];
    assert Octet(s)[4..] == [Shifted(s.stamp, 48), Shifted(s.stamp, 32), Shifted(s.stamp, 16), Shifted(s.stamp, 0)];
    Reassembled(s.value);
    Reassembled(s.stamp);
  }

  lemma OctetRead(device: Device, q: nat)
    requires q != END
    ensures Window(device, q * 8, 8) == Octet(Newest(device, q))
  {
    hide Newest, Octet, RegisterOf;
    forall i {:trigger Octet(Newest(device, q))[i]} | 0 <= i < 8
      ensures Window(device, q * 8, 8)[i] == Octet(Newest(device, q))[i]
    {
      OctetAt(Newest(device, q), q, i);
    }
  }

  /** The eight registers of a quantity hold the value and the stamp of its newest sample. */
  lemma SampleRead(device: Device, q: nat)
    requires q != END
    ensures Assembled(Window(device, q * 8, 8)[..4]) == Newest(device, q).value
    ensures Assembled(Window(device, q * 8, 8)[4..]) == Newest(device, q).stamp
  {
    hide Newest, Octet, Assembled;
    OctetRead(device, q);
    OctetAssembled(Newest(device, q));
  }

  /** The cache is not in the way of a read, exactly when it does not begin at the end marker's own quantity. */
  ghost predicate Transparent(device: Device, start: nat) { start / 8 != END || Newest(device, END) == ZERO }

  /** That is register 624 and the seven after it. */
  lemma TransparentIff(device: Device, start: nat)
    ensures Transparent(device, start) <==> start < 624 || start >= 632 || Newest(device, END) == ZERO
  {}

  lemma WindowIsLookup(device: Device, start: nat, count: nat, i: nat)
    requires Transparent(device, start) && i < count
    ensures Window(device, start, count)[i] == Lookup(device, start + i)
  {
    hide Newest, Shifted, Part;
  }

  /**
    Every window of registers equals the lookup of each register by itself, exactly when the device has nothing but
    zero for the end marker, which is the quantity that the empty cache claims to hold.
    */
  lemma CacheInvisibleIff(device: Device)
    ensures CacheInvisible(device) <==> Newest(device, END) == ZERO
  {
    if Newest(device, END) == ZERO {
      forall start: nat, count: nat, i: nat | i < count
        ensures Window(device, start, count)[i] == Lookup(device, start + i)
      {
        WindowIsLookup(device, start, count, i);
      }
    } else if CacheInvisible(device) {
      EndIsZero(device);
    }
  }

  ghost predicate CacheInvisible(device: Device) {
    forall start: nat, count: nat, i: nat {:trigger Window(device, start, count)[i]} :: i < count ==>
      Window(device, start, count)[i] == Lookup(device, start + i)
  }

  lemma EndIsZero(device: Device)
    requires CacheInvisible(device)
    ensures Newest(device, END) == ZERO
  {
    hide Newest, Octet, Assembled, RegisterOf;
    var s, w := Newest(device, END), Window(device, END * 8, 8);
    forall i {:trigger Octet(s)[i]} | 0 <= i < 8 ensures Octet(s)[i] == Octet(ZERO)[i] {
      OctetAt(s, END, i);
      OctetAt(ZERO, END, i);
      assert w[i] == Lookup(device, END * 8 + i);
    }
    assert Octet(s) == Octet(ZERO);
    OctetAssembled(s);
    OctetAssembled(ZERO);
  }

  /** Reading two windows one after the other gives the same registers as reading them at once. */
  lemma WindowsConcatenate(device: Device, start: nat, a: nat, b: nat)
    requires Transparent(device, start) && Transparent(device, start + a)
    ensures Window(device, start, a) + Window(device, start + a, b) == Window(device, start, a + b)
  {
    hide Newest, Shifted, Part;
    var joined, whole := Window(device, start, a) + Window(device, start + a, b), Window(device, start, a + b);
    forall i {:trigger joined[i]} | 0 <= i < a + b ensures joined[i] == whole[i] {
      WindowIsLookup(device, start, a + b, i);
      if i < a { WindowIsLookup(device, start, a, i); } else { WindowIsLookup(device, start + a, b, i - a); }
    }
  }

  // ----- a sample that comes in -----

  function Appended(device: Device, q: Quantity, s: Sample): Device {
    device[q := (if q in device then device[q] else []) + [s]]
  }

  /** The sample that came in last is the one that is read, and the registers of other quantities stay as they were. */
  lemma AppendedRead(device: Device, q: nat, s: Sample)
    requires q != END
    ensures var w := Window(Appended(device, q, s), q * 8, 8);
            Assembled(w[..4]) == s.value && Assembled(w[4..]) == s.stamp
    ensures forall start: nat, count: nat :: start + count <= q * 8 || q * 8 + 8 <= start ==>
              Window(Appended(device, q, s), start, count) == Window(device, start, count)
  {
    var after := Appended(device, q, s);
    SampleRead(after, q);
    assert Newest(after, q) == s;
    forall start: nat, count: nat | start + count <= q * 8 || q * 8 + 8 <= start
      ensures Window(after, start, count) == Window(device, start, count)
    {
      OtherQuantities(device, q, s, start, count);
    }
  }

  lemma OtherQuantities(device: Device, q: nat, s: Sample, start: nat, count: nat)
    requires start + count <= q * 8 || q * 8 + 8 <= start
    ensures Window(Appended(device, q, s), start, count) == Window(device, start, count)
  {
    hide RegisterOf;
    var a, b := Window(Appended(device, q, s), start, count), Window(device, start, count);
    forall i {:trigger a[i]} | 0 <= i < count ensures a[i] == b[i] {
      assert (start + i) / 8 != q;
      assert Cached(Appended(device, q, s), start, start + i) == Cached(device, start, start + i);
    }
  }
}
