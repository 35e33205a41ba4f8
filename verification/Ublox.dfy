/** The u-blox UBX protocol: data packets, their checksum, and the stream parser. */
module Ublox {
  import opened Bytes
  import opened Framing
  import opened Numbers

  // ----- checksum -----

  /** The product, named to keep it out of the inductive proofs. */
  function Scaled(n: int, x: int): int { n * x }

  lemma ScaledAdds(m: int, n: int, x: int, y: int)
    ensures Scaled(m + n, x) == Scaled(m, x) + Scaled(n, x)
    ensures Scaled(m - n, x) == Scaled(m, x) - Scaled(n, x)
    ensures Scaled(m, x - y) == Scaled(m, x) - Scaled(m, y)
  {}

  /** Every byte weighted with the number of bytes from it to the end. */
  function Rank(s: seq<byte>): int {
    if s == [] then 0 else Scaled(|s|, s[0]) + Rank(s[1..])
  }

  /** Closed form of the checksum: the plain sum in the low byte, the weighted sum in the high byte. */
  function Fletcher(s: seq<byte>): word { Rank(s) % 0x100 * 0x100 + Total(s) % 0x100 }

  lemma {:induction false} RankSnoc(s: seq<byte>, x: byte)
    ensures Rank(s + [x]) == Rank(s) + Total(s) + x
  {
    if s == [] {
      assert [] + [x] == [x] && [x][1..] == [];
    } else {
      assert (s + [x])[1..] == s[1..] + [x];
      RankSnoc(s[1..], x);
      ScaledAdds(|s|, 1, s[0], 0);
    }
  }

  lemma ModAdd(t: int, u: int)
    ensures (t % 0x100 + u) % 0x100 == (t + u) % 0x100
    ensures (t + u % 0x100) % 0x100 == (t + u) % 0x100
  {}

  lemma PrefixSums(data: seq<byte>, i: nat)
    requires i < |data|
    ensures Total(data[..i + 1]) == Total(data[..i]) + data[i]
    ensures Rank(data[..i + 1]) == Rank(data[..i]) + Total(data[..i + 1])
  {
    assert data[..i + 1] == data[..i] + [data[i]];
    assert [data[i]][1..] == [];
    TotalConcat(data[..i], [data[i]]);
    RankSnoc(data[..i], data[i]);
  }

  method CalcChecksum(data: seq<byte>) returns (r: word)
    ensures r == Fletcher(data)
  {
    hide Rank, Total;
    var chkA: byte, chkB: byte := 0, 0;
    assert data[..0] == [];
    EmptySums();
    for i := 0 to |data|
      invariant chkA == Total(data[..i]) % 0x100 && chkB == Rank(data[..i]) % 0x100
    {
      PrefixSums(data, i);
      ModAdd(Total(data[..i]), data[i]);
      chkA := (chkA + data[i]) % 0x100;
      ModAdd(Rank(data[..i]), Total(data[..i + 1]));
      ModAdd(Rank(data[..i]) % 0x100, Total(data[..i + 1]));
      chkB := (chkB + chkA) % 0x100;
    }
    assert data[..|data|] == data;
    r := chkB * 0x100 + chkA;
  }

  lemma EmptySums()
    ensures Rank([]) == 0 && Total([]) == 0
  {}

  // ----- what the checksum detects -----

  /** The length field of a packet's data. */
  function LengthField(data: seq<byte>): word {
    (if |data| > 2 then data[2] as nat else 0) + 0x100 * (if |data| > 3 then data[3] as nat else 0)
  }

  function PayloadLength(data: seq<byte>): word {
    if |data| > 3 then (|data| - 4) % 0x1_0000 else 0
  }

  predicate Checks(data: seq<byte>, checksum: word) {
    LengthField(data) == PayloadLength(data) && checksum == Fletcher(data)
  }

  /** Replacing any single byte by another one is detected. */
  lemma SubstitutionDetected(data: seq<byte>, checksum: word, i: nat, x: byte)
    requires Checks(data, checksum) && i < |data| && x != data[i]
    ensures !Checks(data[i := x], checksum)
  {
    hide Fletcher, Total, Rank, LengthField, PayloadLength;
    TotalUpdate(data, i, x);
    LowByte(data);
    LowByte(data[i := x]);
    DifferentRemainders(Total(data), Total(data[i := x]), x as int - data[i] as int);
  }

  lemma LowByte(s: seq<byte>)
    ensures Fletcher(s) % 0x100 == Total(s) % 0x100
    ensures Fletcher(s) / 0x100 == Rank(s) % 0x100
  {}

  lemma DifferentRemainders(a: int, b: int, d: int)
    requires b == a + d && d % 0x100 != 0
    ensures a % 0x100 != b % 0x100
  {}

  lemma {:induction false} RankUpdate(s: seq<byte>, i: nat, x: byte)
    requires i < |s|
    ensures Rank(s[i := x]) == Rank(s) + Scaled(|s| - i, x as int - s[i] as int)
  {
    if i == 0 {
      assert s[i := x][1..] == s[1..];
      ScaledAdds(|s|, 0, x, s[0]);
    } else {
      assert s[i := x][1..] == s[1..][i - 1 := x];
      RankUpdate(s[1..], i - 1, x);
    }
  }

  function Exchanged(s: seq<byte>, i: nat, j: nat): seq<byte>
    requires i < j < |s|
  {
    s[i := s[j]][j := s[i]]
  }

  lemma ScaledExchange(n: int, i: int, j: int, x: int, y: int)
    ensures Scaled(n - i, x - y) + Scaled(n - j, y - x) == Scaled(j - i, x - y)
  {
    var d := x - y;
    assert (n - j) * (y - x) == -((n - j) * d);
    assert (n - i) * d - (n - j) * d == (j - i) * d;
  }

  lemma ExchangeSums(s: seq<byte>, i: nat, j: nat)
    requires i < j < |s|
    ensures Total(Exchanged(s, i, j)) == Total(s)
    ensures Rank(Exchanged(s, i, j)) == Rank(s) + Scaled(j - i, s[j] as int - s[i] as int)
  {
    hide Rank, Total, Scaled;
    TotalUpdate(s, i, s[j]);
    TotalUpdate(s[i := s[j]], j, s[i]);
    RankUpdate(s, i, s[j]);
    RankUpdate(s[i := s[j]], j, s[i]);
    ScaledExchange(|s|, i, j, s[j] as int, s[i] as int);
  }

  /** An exchange of two bytes goes unnoticed exactly when distance times difference is a multiple of 256. */
  lemma ExchangeUndetectedIff(data: seq<byte>, checksum: word, i: nat, j: nat)
    requires Checks(data, checksum) && i < j < |data|
    ensures Checks(Exchanged(data, i, j), checksum)
       <==> LengthField(Exchanged(data, i, j)) == LengthField(data)
            && Scaled(j - i, data[j] as int - data[i] as int) % 0x100 == 0
  {
    var e := Exchanged(data, i, j);
    ExchangeSums(data, i, j);
    LowByte(data);
    LowByte(e);
    SameRemainders(Rank(data), Rank(e), Scaled(j - i, data[j] as int - data[i] as int));
  }

  lemma SameRemainders(a: int, b: int, d: int)
    requires b == a + d
    ensures a % 0x100 == b % 0x100 <==> d % 0x100 == 0
  {}

  /** Powers of two that divide an odd multiple of x divide x. */
  lemma {:induction false} OddFactor(d: int, x: int, k: nat, q: int) returns (r: int)
    requires d % 2 == 1 && d * x == Pow2(k) * q
    ensures x == Pow2(k) * r
    decreases k
  {
    if k == 0 {
      r := x;
    } else {
      var y := HalveFactor(d, x, Pow2(k - 1), q);
      r := OddFactor(d, y, k - 1, q);
      assert 2 * (Pow2(k - 1) * r) == Pow2(k) * r;
    }
  }

  lemma HalveFactor(d: int, x: int, m: int, q: int) returns (y: int)
    requires d % 2 == 1 && d * x == 2 * m * q
    ensures x == 2 * y && d * y == m * q
  {
    var e := d / 2;
    assert d * x == 2 * (e * x) + x by { assert (2 * e + 1) * x == 2 * (e * x) + x; }
    y := m * q - e * x;
    assert 2 * m * q == 2 * (m * q);
    assert d * (2 * y) == 2 * (d * y);
  }

  /** So exchanging two unequal bytes an odd distance apart is always detected. */
  lemma OddExchangeDetected(data: seq<byte>, checksum: word, i: nat, j: nat)
    requires Checks(data, checksum) && i < j < |data| && (j - i) % 2 == 1 && data[i] != data[j]
    ensures !Checks(Exchanged(data, i, j), checksum)
  {
    var d := data[j] as int - data[i] as int;
    ExchangeUndetectedIff(data, checksum, i, j);
    if Scaled(j - i, d) % 0x100 == 0 {
      assert Pow2(4) == 16;
      assert Pow2(8) == 0x100;
      var r := OddFactor(j - i, d, 8, Scaled(j - i, d) / 0x100);
      assert false;
    }
  }

  // ----- data packets -----

  function LittleWord(w: word): seq<byte> { [w % 0x100, w / 0x100] }

  /** The frame that carries a packet's data and checksum. */
  function FrameOf(data: seq<byte>, checksum: word): Frame
    requires |data| >= 4
  {
    Frame(data[..4], data[4..], LittleWord(checksum))
  }

  function PayloadData(cls: byte, id: byte, payload: seq<byte>): seq<byte> {
    [cls, id] + LittleWord(|payload| % 0x1_0000) + payload
  }

  const CLEARED: seq<byte> := [0, 0, 0, 0]

  class DataPacket {
    var data: seq<byte>
    var checksum: word

    constructor ()
      ensures data == CLEARED && checksum == 0
    {
      data, checksum := [], 0;
      new;
      SetLength(0);
    }

    constructor WithPayload(cls: byte, id: byte, payload: seq<byte>)
      ensures data == PayloadData(cls, id, payload) && checksum == Fletcher(data)
    {
      data, checksum := [], 0;
      new;
      data := data + [cls];
      data := data + [id];
      SetLength(|payload| % 0x1_0000);
      data := data + payload;
      checksum := CalcChecksum(data);
    }

    function GetDataByte(index: nat): byte
      reads this
    {
      if index < |data| then data[index] else 0
    }

    method SetDataByte(index: nat, value: byte)
      modifies this`data
      ensures |data| == if index < |old(data)| then |old(data)| else index + 1
      ensures forall i :: 0 <= i < |data| ==>
        data[i] == if i == index then value else if i < |old(data)| then old(data)[i] else 0
    {
      while |data| <= index
        invariant |data| <= index + 1 || data == old(data)
        invariant |data| >= |old(data)| && data[..|old(data)|] == old(data)
        invariant forall i :: |old(data)| <= i < |data| ==> data[i] == 0
        decreases index + 1 - |data|
      {
        data := data + [0];
      }
      assert forall i :: 0 <= i < |old(data)| ==> data[i] == data[..|old(data)|][i];
      data := data[index := value];
    }

    method SetLength(length: word)
      modifies this`data
      ensures |data| == if |old(data)| < 4 then 4 else |old(data)|
      ensures data[2..4] == LittleWord(length)
      ensures forall i :: 0 <= i < |data| && i != 2 && i != 3 ==>
        data[i] == if i < |old(data)| then old(data)[i] else 0
    {
      SetDataByte(2, length % 0x100);
      SetDataByte(3, length / 0x100);
    }

    method AddData(value: byte)
      modifies this`data
      ensures data == old(data) + [value]
    {
      data := data + [value];
    }

    method Clear()
      modifies this
      ensures data == CLEARED && checksum == 0
    {
      data, checksum := [], 0;
      SetLength(0);
    }

    method Check() returns (ok: bool)
      ensures ok == Checks(data, checksum)
    {
      var c := CalcChecksum(data);
      var length := GetDataByte(2) as nat + 0x100 * GetDataByte(3) as nat;
      var calculated := if |data| > 3 then (|data| - 4) % 0x1_0000 else 0;
      ok := length == calculated && checksum == c;
    }

    method GetPacket() returns (r: seq<byte>)
      ensures r == [Protocol.Ublox.Sync0(), Protocol.Ublox.Sync1()] + data + LittleWord(checksum)
      ensures |data| >= 4 ==> r == Wire(Protocol.Ublox, FrameOf(data, checksum))
    {
      r := [0xB5, 0x62] + data + [checksum % 0x100, checksum / 0x100];
      if |data| >= 4 { assert data == data[..4] + data[4..]; }
    }
  }

  /** A packet set up with a payload of up to 65535 bytes is a valid frame that passes its own check. */
  lemma EncodedChecks(cls: byte, id: byte, payload: seq<byte>)
    requires |payload| < 0x1_0000
    ensures var data := PayloadData(cls, id, payload);
            Checks(data, Fletcher(data)) && ValidFrame(Protocol.Ublox, FrameOf(data, Fletcher(data)))
  {}

  // ----- the parser -----

  function WordOf(tail: seq<byte>): word
    requires |tail| == 2
  {
    tail[0] as nat + 0x100 * tail[1] as nat
  }

  predicate Accepted(f: Frame) { |f.tail| == 2 && Checks(f.head + f.payload, WordOf(f.tail)) }

  /**
    A frame passes the check exactly when the length in its header is that of the payload, the first checksum byte is
    the sum of head and payload, and the second the sum of the sums of all their beginnings.
    */
  lemma AcceptedIff(cls: byte, id: byte, lo: byte, hi: byte, payload: seq<byte>, a: byte, b: byte)
    requires |payload| < 0x1_0000
    ensures var data := [cls, id, lo, hi] + payload;
            Accepted(Frame([cls, id, lo, hi], payload, [a, b])) <==>
              |payload| == lo + 0x100 * hi && a == Total(data) % 0x100 && b == Beginnings(data) % 0x100
  {
    var data := [cls, id, lo, hi] + payload;
    BeginningsAreRank(data);
    LowByte(data);
    hide Total, Rank, Beginnings;
    TwoBytes(a, b, Fletcher(data));
  }

  lemma TwoBytes(a: byte, b: byte, w: word)
    ensures a as nat + 0x100 * b as nat == w <==> a == w % 0x100 && b == w / 0x100
  {}

  /** The sum of the sums of all beginnings. */
  function Beginnings(s: seq<byte>): nat {
    if s == [] then 0 else Beginnings(s[..|s| - 1]) + Total(s)
  }

  lemma {:induction false} BeginningsAreRank(s: seq<byte>)
    ensures Beginnings(s) == Rank(s)
  {
    if s != [] {
      var q := s[..|s| - 1];
      BeginningsAreRank(q);
      RankSnoc(q, s[|s| - 1]);
      TotalConcat(q, [s[|s| - 1]]);
      assert s == q + [s[|s| - 1]];
      assert [s[|s| - 1]][1..] == [];
    }
  }

  /** The bytes that an encoded packet is sent as. */
  lemma PacketBytes(cls: byte, id: byte, payload: seq<byte>)
    requires |payload| < 0x1_0000
    ensures var data := PayloadData(cls, id, payload);
            && data == [cls, id, |payload| % 0x100, |payload| / 0x100] + payload
            && Wire(Protocol.Ublox, FrameOf(data, Fletcher(data)))
               == [0xB5, 0x62] + data + [Total(data) % 0x100, Beginnings(data) % 0x100]
  {
    var data := PayloadData(cls, id, payload);
    BeginningsAreRank(data);
    LowByte(data);
    assert data == data[..4] + data[4..];
  }

  /** The data of the packets that pass their check, in order. */
  function DataIn(frames: seq<Frame>): seq<seq<byte>> {
    if frames == [] then []
    else (if Accepted(frames[0]) then [frames[0].head + frames[0].payload] else []) + DataIn(frames[1..])
  }

  lemma {:induction false} DataInConcat(a: seq<Frame>, b: seq<Frame>)
    ensures DataIn(a + b) == DataIn(a) + DataIn(b)
  {
    if a == [] {
      assert a + b == b;
    } else {
      assert (a + b)[1..] == a[1..] + b;
      DataInConcat(a[1..], b);
    }
  }

  /** A packet to be sent. */
  datatype Message = Message(garbage: seq<byte>, cls: byte, id: byte, payload: seq<byte>)

  ghost predicate ValidMessage(m: Message) {
    && Garbage(Protocol.Ublox, m.garbage)
    && |m.payload| < 0x1_0000
    && |m.garbage| + |m.payload| + 8 <= BUFFER_LIMIT + 1
  }

  function DataOf(m: Message): seq<byte> { PayloadData(m.cls, m.id, m.payload) }

  function SegmentsOf(ms: seq<Message>): (r: seq<Segment>)
    requires forall m :: m in ms ==> ValidMessage(m)
    ensures forall s :: s in r ==> ValidSegment(Protocol.Ublox, s) && Fits(Protocol.Ublox, s)
  {
    if ms == [] then []
    else
      assert ValidMessage(ms[0]);
      EncodedChecks(ms[0].cls, ms[0].id, ms[0].payload);
      [Segment(ms[0].garbage, FrameOf(DataOf(ms[0]), Fletcher(DataOf(ms[0]))))] + SegmentsOf(ms[1..])
  }

  function AllData(ms: seq<Message>): seq<seq<byte>> {
    if ms == [] then [] else [DataOf(ms[0])] + AllData(ms[1..])
  }

  lemma {:induction false} MessageData(ms: seq<Message>)
    requires forall m :: m in ms ==> ValidMessage(m)
    ensures DataIn(FramesOf(SegmentsOf(ms))) == AllData(ms)
  {
    if ms != [] {
      MessageData(ms[1..]);
      assert ValidMessage(ms[0]);
      EncodedChecks(ms[0].cls, ms[0].id, ms[0].payload);
      var data := DataOf(ms[0]);
      assert data[..4] + data[4..] == data;
      assert SegmentsOf(ms)[1..] == SegmentsOf(ms[1..]);
      assert FramesOf(SegmentsOf(ms))[1..] == FramesOf(SegmentsOf(ms[1..]));
    }
  }

  /** Whatever the garbage and the chunking, the packets sent are the packets handed to the payload parser. */
  lemma PacketsDelivered(ms: seq<Message>, tail: seq<byte>, chunks: seq<seq<byte>>)
    requires forall m :: m in ms ==> ValidMessage(m)
    requires Ending(Protocol.Ublox, tail)
    requires Flatten(chunks) == Stream(Protocol.Ublox, SegmentsOf(ms), tail)
    ensures DataIn(FeedAll(Protocol.Ublox, chunks).frames) == AllData(ms)
  {
    FramesDelivered(Protocol.Ublox, SegmentsOf(ms), tail, chunks);
    MessageData(ms);
  }

  class UbloxParser {
    var buffer: seq<byte>
    /** Stands for the values handed on: the data of the packets given to the payload parser. */
    var parsed: seq<seq<byte>>
    /** The chunks read so far. */
    ghost var chunks: seq<seq<byte>>

    ghost predicate Valid()
      reads this
    {
      var d := FeedAll(Protocol.Ublox, chunks);
      buffer == d.rest && parsed == DataIn(d.frames)
    }

    constructor ()
      ensures Valid() && chunks == []
    {
      buffer, parsed, chunks := [], [], [];
    }

    /** The content rule: moves size bytes into the packet; succeeds if there were that many. */
    static method TakeContent(b: seq<byte>, start: nat, size: nat, packet: DataPacket)
      returns (ok: bool, cur: nat)
      requires start <= |b|
      modifies packet`data
      ensures ok <==> start + size <= |b|
      ensures ok ==> cur == start + size && packet.data == old(packet.data) + b[start..cur]
    {
      var len: int := size;
      cur := start;
      var more := true;
      while more
        invariant start <= cur <= |b| && packet.data == old(packet.data) + b[start..cur]
        invariant more ==> 0 <= len && cur == start + size - len
        invariant !more ==> if len < 0 then cur == start + size else cur == |b| < start + size
        decreases |b| - cur, more
      {
        more := len > 0;
        len := len - 1;
        if more {
          if cur == |b| {
            more := false;
          } else {
            assert b[start..cur + 1] == b[start..cur] + [b[cur]];
            packet.AddData(b[cur]);
            cur := cur + 1;
          }
        }
      }
      ok := len < 0;
    }

    /** Looks for one packet in b and moves it into the cleared packet. */
    static method FindPacket(b: seq<byte>, packet: DataPacket) returns (found: bool, end: nat)
      requires packet.data == CLEARED
      modifies packet
      ensures found <==> ParseSingle(Protocol.Ublox, b).Some?
      ensures found ==>
        var r := ParseSingle(Protocol.Ublox, b).value;
        |r.frame.tail| == 2 && end == r.end
        && packet.data == r.frame.head + r.frame.payload && packet.checksum == WordOf(r.frame.tail)
    {
      hide FindSync;
      found := false;
      end := SkipJunk(Protocol.Ublox, b);
      var h := end + 2;
      if |b| < h + 4 {
        return;
      }
      packet.SetDataByte(0, b[h]);
      packet.SetDataByte(1, b[h + 1]);
      var len := b[h + 2] as nat + 0x100 * b[h + 3] as nat;
      assert ParseSingle(Protocol.Ublox, b) == ParseSized(Protocol.Ublox, b, h, len);
      packet.SetLength(len);
      assert packet.data == b[h..h + 4] by {
        assert packet.data[2..4][0] == packet.data[2] && packet.data[2..4][1] == packet.data[3];
      }
      found, end := TakeContent(b, h + 4, len, packet);
      if !found || |b| < end + 2 {
        found := false;
        return;
      }
      packet.checksum := b[end] as nat + 0x100 * b[end + 1] as nat;
      end := end + 2;
    }

    static lemma SingleData(f: Frame)
      ensures DataIn([f]) == if Accepted(f) then [f.head + f.payload] else []
      ensures DataIn([]) == []
    {
      assert DataIn([f][1..]) == [];
    }

    method Parse()
      modifies this`buffer, this`parsed
      ensures var d := Decode(Protocol.Ublox, old(buffer));
              buffer == d.rest && parsed == old(parsed) + DataIn(d.frames)
    {
      hide ParseSingle, Decode, DataIn, Checks;
      var packet := new DataPacket();
      ghost var frames: seq<Frame> := [];
      SingleData(Frame([], [], []));
      var more := true;
      while more
        invariant fresh(packet) && (more ==> packet.data == CLEARED)
        invariant var d, e := Decode(Protocol.Ublox, old(buffer)), Decode(Protocol.Ublox, buffer);
                  d.frames == frames + e.frames && d.rest == e.rest
        invariant parsed == old(parsed) + DataIn(frames)
        invariant !more ==> Decode(Protocol.Ublox, buffer) == Decoded([], buffer)
        decreases |buffer|, more
      {
        ghost var r := ParseSingle(Protocol.Ublox, buffer);
        DecodeStep(Protocol.Ublox, buffer);
        var end;
        more, end := FindPacket(buffer, packet);
        if more {
          SingleData(r.value.frame);
          DataInConcat(frames, [r.value.frame]);
          frames := frames + [r.value.frame];
          buffer := buffer[end..];
          var ok := packet.Check();
          if ok {
            parsed := parsed + [packet.data];
          }
          packet.Clear();
        }
      }
      assert frames + [] == frames;
    }

    /** One read from the port. */
    method AddAndParse(chunk: seq<byte>)
      requires Valid()
      modifies this
      ensures Valid() && chunks == old(chunks) + [chunk]
    {
      if |buffer| > BUFFER_LIMIT {
        buffer := [];
      }
      ghost var before := FeedAll(Protocol.Ublox, chunks);
      buffer := buffer + chunk;
      DataInConcat(before.frames, Decode(Protocol.Ublox, buffer).frames);
      Parse();
      chunks := chunks + [chunk];
      assert chunks[..|chunks| - 1] == old(chunks);
    }
  }
}
