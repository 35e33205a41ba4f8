/** The Xsens Xbus protocol: the command encoder and the stream parser. */
module Xsens {
  import opened Bytes
  import opened Framing
  import opened Records

  const PACKET_START: byte := 0xFA
  const SYS_COMMAND: byte := 0xFF
  const MT_DATA2: byte := 0x36

  // ----- encoder -----

  /** The byte that brings the sum of all bytes after the first to zero. */
  function CheckByte(data: seq<byte>): byte
    requires data != []
  {
    (-(Total(data[1..]) as int)) % 0x100
  }

  lemma ModSub(t: int, x: int)
    ensures ((-t) % 0x100 - x) % 0x100 == (-(t + x)) % 0x100
  {}

  method Checksum(data: seq<byte>) returns (result: byte)
    requires data != []
    ensures result == CheckByte(data)
  {
    result := 0;
    var i := 1;
    while i != |data|
      invariant 1 <= i <= |data|
      invariant result == (-(Total(data[1..i]) as int)) % 0x100
    {
      assert data[1..i + 1] == data[1..i] + [data[i]];
      TotalConcat(data[1..i], [data[i]]);
      ModSub(Total(data[1..i]), data[i]);
      result := (result as int - data[i] as int) % 0x100;
      i := i + 1;
    }
    assert data[1..i] == data[1..];
  }

  function SystemFrame(mid: byte, command: seq<byte>): Frame
    requires |command| < 0x100
  {
    var head := [mid, |command| as byte];
    Frame(head, command, [CheckByte([PACKET_START, SYS_COMMAND] + head + command)])
  }

  method PacketHead(mid: byte) returns (result: seq<byte>)
    ensures result == [PACKET_START, SYS_COMMAND, mid]
  {
    result := [PACKET_START, SYS_COMMAND];
    result := result + [mid];
  }

  /** Builds a packet; the length byte is the low byte of the command's size. */
  method Packet(mid: byte, command: seq<byte>) returns (result: seq<byte>)
    ensures |command| < 0x100 ==>
      ValidFrame(Protocol.Xsens, SystemFrame(mid, command)) && result == Wire(Protocol.Xsens, SystemFrame(mid, command))
    ensures var body := [PACKET_START, SYS_COMMAND, mid, |command| % 0x100] + command;
            result == body + [CheckByte(body)]
  {
    result := PacketHead(mid);
    result := result + [|command| % 0x100] + command;
    ghost var body := [PACKET_START, SYS_COMMAND, mid, |command| % 0x100] + command;
    assert result == body;
    var sum := Checksum(result);
    result := result + [sum];
    if |command| < 0x100 {
      assert body == [PACKET_START, SYS_COMMAND] + [mid, |command| as byte] + command;
    }
  }

  // ----- checksum of a received frame -----

  /** The sum the parser accumulates from the second preamble byte on. */
  function FrameSum(f: Frame): byte {
    (SYS_COMMAND + Total(f.head) + Total(f.payload) + Total(f.tail)) % 0x100
  }

  predicate Accepted(f: Frame) { FrameSum(f) == 0 }

  /** Frames built by the encoder pass the check. */
  lemma EncodedAccepted(mid: byte, command: seq<byte>)
    requires |command| < 0x100
    ensures ValidFrame(Protocol.Xsens, SystemFrame(mid, command))
    ensures Accepted(SystemFrame(mid, command))
  {
    var f := SystemFrame(mid, command);
    var body := [PACKET_START, SYS_COMMAND] + f.head + command;
    assert body[1..] == [SYS_COMMAND] + f.head + command;
    TotalConcat([SYS_COMMAND] + f.head, command);
    TotalConcat([SYS_COMMAND], f.head);
    assert Total([SYS_COMMAND]) == SYS_COMMAND;
    assert Total(f.tail) == CheckByte(body);
  }

  /** Any change of a single payload byte is detected. */
  lemma SubstitutionDetected(f: Frame, i: nat, x: byte)
    requires Accepted(f) && i < |f.payload| && x != f.payload[i]
    ensures !Accepted(f.(payload := f.payload[i := x]))
  {
    TotalUpdate(f.payload, i, x);
  }

  /** A frame passes the check exactly when all its bytes after the first of the preamble add up to zero. */
  lemma AcceptedIff(mid: byte, len: byte, payload: seq<byte>, check: byte)
    ensures Accepted(Frame([mid, len], payload, [check]))
       <==> (0xFF + mid + len + Total(payload) + check) % 0x100 == 0
  {
    TotalOne(len);
    TotalOne(check);
    assert [mid, len][1..] == [len];
    hide Total;
  }

  lemma TotalOne(x: byte)
    ensures Total([x]) == x
  {
    assert [x][1..] == [];
  }

  /** The encoder's packet, byte by byte. */
  lemma PacketBytes(mid: byte, command: seq<byte>)
    requires |command| < 0x100
    ensures var w := Wire(Protocol.Xsens, SystemFrame(mid, command));
            && w[..|w| - 1] == [0xFA, 0xFF, mid, |command|] + command
            && |w| == |command| + 5 && (0xFF + mid + |command| + Total(command) + w[|w| - 1]) % 0x100 == 0
  {
    hide Accepted, CheckByte, Total;
    EncodedAccepted(mid, command);
    var f := SystemFrame(mid, command);
    var c := f.tail[0];
    assert f == Frame([mid, |command|], command, [c]);
    AcceptedIff(mid, |command|, command, c);
    assert [0xFA, 0xFF] + [mid, |command|] == [0xFA, 0xFF, mid, |command|];
    assert Wire(Protocol.Xsens, f) == [0xFA, 0xFF, mid, |command|] + command + [c];
  }

  // ----- what a read delivers -----

  /** The records in the data messages among the accepted frames. */
  function RecordsIn(frames: seq<Frame>): seq<Record> {
    if frames == [] then []
    else (if Accepted(frames[0]) && frames[0].head != [] && frames[0].head[0] == MT_DATA2
          then SplitRecords(frames[0].payload).records else []) + RecordsIn(frames[1..])
  }

  /** Records are read from the accepted frames whose message identifier is that of data messages. */
  lemma DataMessage(mid: byte, len: byte, payload: seq<byte>, check: byte)
    ensures RecordsIn([Frame([mid, len], payload, [check])])
         == if mid == 0x36 && (0xFF + mid + len + Total(payload) + check) % 0x100 == 0
            then SplitRecords(payload).records else []
  {
    var f := Frame([mid, len], payload, [check]);
    AcceptedIff(mid, len, payload, check);
    hide SplitRecords, Accepted;
    assert RecordsIn([f][1..]) == [];
  }

  lemma {:induction false} RecordsInConcat(a: seq<Frame>, b: seq<Frame>)
    ensures RecordsIn(a + b) == RecordsIn(a) + RecordsIn(b)
  {
    if a == [] {
      assert a + b == b;
    } else {
      assert (a + b)[1..] == a[1..] + b;
      RecordsInConcat(a[1..], b);
    }
  }

  /** A data message to be sent. */
  datatype Message = Message(garbage: seq<byte>, records: seq<Raw>)

  ghost predicate ValidMessage(m: Message) {
    && Garbage(Protocol.Xsens, m.garbage)
    && (forall r :: r in m.records ==> ValidRaw(r))
    && |Content(m.records)| < 0x100
    && |m.garbage| + |Content(m.records)| + 5 <= BUFFER_LIMIT + 1
  }

  function SegmentsOf(ms: seq<Message>): (r: seq<Segment>)
    requires forall m :: m in ms ==> ValidMessage(m)
    ensures forall s :: s in r ==> ValidSegment(Protocol.Xsens, s) && Fits(Protocol.Xsens, s)
  {
    if ms == [] then []
    else
      assert ValidMessage(ms[0]);
      EncodedAccepted(MT_DATA2, Content(ms[0].records));
      [Segment(ms[0].garbage, SystemFrame(MT_DATA2, Content(ms[0].records)))] + SegmentsOf(ms[1..])
  }

  function AllReadings(ms: seq<Message>): seq<Record>
    requires forall m :: m in ms ==> ValidMessage(m)
  {
    if ms == [] then [] else assert ValidMessage(ms[0]); Readings(ms[0].records) + AllReadings(ms[1..])
  }

  lemma {:induction false} MessageRecords(ms: seq<Message>)
    requires forall m :: m in ms ==> ValidMessage(m)
    ensures RecordsIn(FramesOf(SegmentsOf(ms))) == AllReadings(ms)
  {
    if ms != [] {
      MessageRecords(ms[1..]);
      assert ValidMessage(ms[0]);
      var rs := ms[0].records;
      EncodedAccepted(MT_DATA2, Content(rs));
      SplitContent(rs, []);
      assert Content(rs) + [] == Content(rs);
      assert SegmentsOf(ms)[1..] == SegmentsOf(ms[1..]);
    }
  }

  /** From records to records: whatever the garbage and the chunking, the records sent are the records read. */
  lemma RecordsDelivered(ms: seq<Message>, tail: seq<byte>, chunks: seq<seq<byte>>)
    requires forall m :: m in ms ==> ValidMessage(m)
    requires Ending(Protocol.Xsens, tail)
    requires Flatten(chunks) == Stream(Protocol.Xsens, SegmentsOf(ms), tail)
    ensures RecordsIn(FeedAll(Protocol.Xsens, chunks).frames) == AllReadings(ms)
  {
    FramesDelivered(Protocol.Xsens, SegmentsOf(ms), tail, chunks);
    MessageRecords(ms);
  }

  // ----- the parser object -----

  class XsensParser {
    var buffer: seq<byte>
    /** Stands for the values handed on: the records of the data messages parsed so far. */
    var records: seq<Record>
    /** The chunks read so far. */
    ghost var chunks: seq<seq<byte>>

    ghost predicate Valid()
      reads this
    {
      var d := FeedAll(Protocol.Xsens, chunks);
      buffer == d.rest && records == RecordsIn(d.frames)
    }

    constructor ()
      ensures Valid() && chunks == []
    {
      buffer, records, chunks := [], [], [];
    }

    /** The content rule: takes len bytes, adding them to the sum; succeeds if there were that many. */
    static method TakeContent(b: seq<byte>, start: nat, size: nat, sum0: byte)
      returns (ok: bool, data: seq<byte>, cur: nat, sum: byte)
      requires start <= |b|
      ensures ok <==> start + size <= |b|
      ensures ok ==> cur == start + size && data == b[start..cur] && sum == (sum0 + Total(data)) % 0x100
    {
      var len: int := size;
      cur, data, sum := start, [], sum0;
      var more := true;
      while more
        invariant start <= cur <= |b| && data == b[start..cur]
        invariant more ==> 0 <= len && cur == start + size - len
        invariant !more ==> if len < 0 then cur == start + size else cur == |b| < start + size
        invariant sum == (sum0 + Total(data)) % 0x100
        decreases |b| - cur, more
      {
        more := len > 0;
        len := len - 1;
        if more {
          if cur == |b| {
            more := false;
          } else {
            assert b[start..cur + 1] == b[start..cur] + [b[cur]];
            TotalConcat(data, [b[cur]]);
            data := data + [b[cur]];
            sum := (sum + b[cur]) % 0x100;
            cur := cur + 1;
          }
        }
      }
      ok := len < 0;
    }

    /** Looks for one packet in b; end is where it ends. */
    static method FindPacket(b: seq<byte>)
      returns (found: bool, mid: byte, data: seq<byte>, sum: byte, end: nat)
      ensures found <==> Framing.ParseSingle(Protocol.Xsens, b).Some?
      ensures found ==>
        var r := Framing.ParseSingle(Protocol.Xsens, b).value;
        end == r.end && r.frame.head != [] && mid == r.frame.head[0] && data == r.frame.payload
        && sum == FrameSum(r.frame)
    {
      hide FindSync, FrameSum;
      found, mid, data, sum := false, 0, [], SYS_COMMAND;
      end := SkipJunk(Protocol.Xsens, b);
      ghost var h := end + 2;
      if |b| < end + 4 {
        return;
      }
      mid := b[end + 2];
      sum := (sum + mid) % 0x100;
      var len := b[end + 3];
      sum := (sum + len) % 0x100;
      assert Framing.ParseSingle(Protocol.Xsens, b) == ParseSized(Protocol.Xsens, b, h, len);
      found, data, end, sum := TakeContent(b, end + 4, len, sum);
      if !found || end == |b| {
        found := false;
        return;
      }
      SumOfFrame(Framing.ParseSingle(Protocol.Xsens, b).value.frame, mid, len, b[end]);
      sum := (sum + b[end]) % 0x100;
      end := end + 1;
    }

    static lemma SumOfFrame(f: Frame, mid: byte, len: byte, chk: byte)
      requires |f.head| == 2 && f.head[0] == mid && f.head[1] == len && |f.tail| == 1 && f.tail[0] == chk
      ensures FrameSum(f)
           == (((((SYS_COMMAND + mid) % 0x100 + len) % 0x100) + Total(f.payload)) % 0x100 + chk) % 0x100
    {
      assert Total(f.head) == mid as nat + Total(f.head[1..]);
      assert Total(f.head[1..]) == len as nat + Total(f.head[1..][1..]);
      assert Total(f.tail) == chk as nat + Total(f.tail[1..]);
      ModSum(SYS_COMMAND, mid, len, Total(f.payload), chk);
    }

    static lemma ModSum(a: nat, b: nat, c: nat, d: nat, e: nat)
      ensures ((((a + b) % 0x100 + c) % 0x100 + d) % 0x100 + e) % 0x100 == (a + (b + c) + d + e) % 0x100
    {}

    /** Looks for one packet in the buffer and consumes it. */
    method ParseSingle() returns (found: bool)
      modifies this`buffer, this`records
      ensures var r := Framing.ParseSingle(Protocol.Xsens, old(buffer));
              found == r.Some?
              && (!found ==> buffer == old(buffer) && records == old(records))
              && (found ==> buffer == old(buffer)[r.value.end..]
                            && records == old(records) + RecordsIn([r.value.frame]))
    {
      hide RecordsIn, Framing.ParseSingle;
      var mid, data, sum, end;
      found, mid, data, sum, end := FindPacket(buffer);
      if found {
        SingleRecords(Framing.ParseSingle(Protocol.Xsens, buffer).value.frame);
        buffer := buffer[end..];
        if sum == 0 && mid == MT_DATA2 {
          records := records + SplitRecords(data).records;
        }
      }
    }

    static lemma SingleRecords(f: Frame)
      requires f.head != []
      ensures RecordsIn([f])
           == if Accepted(f) && f.head[0] == MT_DATA2 then SplitRecords(f.payload).records else []
    {
      assert RecordsIn([f][1..]) == [];
    }

    static lemma NoRecords()
      ensures RecordsIn([]) == []
    {}

    method Parse()
      modifies this`buffer, this`records
      ensures var d := Decode(Protocol.Xsens, old(buffer));
              buffer == d.rest && records == old(records) + RecordsIn(d.frames)
    {
      hide Framing.ParseSingle, Decode, RecordsIn;
      ghost var frames: seq<Frame> := [];
      NoRecords();
      var more := true;
      while more
        invariant var d, e := Decode(Protocol.Xsens, old(buffer)), Decode(Protocol.Xsens, buffer);
                  d.frames == frames + e.frames && d.rest == e.rest
        invariant records == old(records) + RecordsIn(frames)
        invariant !more ==> Decode(Protocol.Xsens, buffer) == Decoded([], buffer)
        decreases |buffer|, more
      {
        ghost var r := Framing.ParseSingle(Protocol.Xsens, buffer);
        DecodeStep(Protocol.Xsens, buffer);
        more := ParseSingle();
        if more {
          RecordsInConcat(frames, [r.value.frame]);
          frames := frames + [r.value.frame];
        }
      }
      assert frames + [] == frames;
    }

    /** One read from the port. */
    method AddAndParse(chunk: seq<byte>)
      requires Valid()
      modifies this
      ensures Valid() && chunks == old(chunks) + [chunk]
    {
      if |buffer| > BUFFER_LIMIT {
        buffer := [];
      }
      ghost var before := FeedAll(Protocol.Xsens, chunks);
      buffer := buffer + chunk;
      RecordsInConcat(before.frames, Decode(Protocol.Xsens, buffer).frames);
      Parse();
      chunks := chunks + [chunk];
      assert chunks[..|chunks| - 1] == old(chunks);
    }
  }
}
