/** Splitting the content of an Xsens data message into records of an identifier, a length and that many bytes. */
module Records {
  import opened Bytes
  import opened Options

  /** A record as sent. */
  datatype Raw = Raw(id: word, data: seq<byte>)

  /** A record as parsed: the ones of interest with their bytes, the others skipped. */
  datatype Record = Known(id: word, data: seq<byte>) | Skipped(id: word, size: byte)

  /** The size the parse rule of a known identifier asks for. */
  function KnownSize(id: word): Option<byte> {
    match id
    case 0x1010 => Some(12)  // UTC time
    case 0x4020 => Some(12)  // acceleration
    case 0x4030 => Some(12)  // free acceleration
    case 0x8020 => Some(12)  // rate of turn
    case 0x5043 => Some(16)  // latitude and longitude, double precision
    case 0xC020 => Some(12)  // magnetic flux
    case 0xD010 => Some(12)  // velocity
    case 0x5020 => Some(4)   // altitude above ellipsoid
    case 0x5010 => Some(4)   // altitude above mean sea level
    case 0x2030 => Some(12)  // Euler angles
    case 0x2010 => Some(16)  // quaternion
    case _ => None
  }

  function BigWord(hi: byte, lo: byte): word { hi as nat * 0x100 + lo as nat }

  // ----- the parser -----

  datatype Step = Step(record: Record, end: nat)

  /** The end of the record that starts b, by its length byte. */
  function End(b: seq<byte>): nat
    requires |b| >= 3
  {
    3 + b[2] as nat
  }

  /** The rule of the record's identifier, with its own length. */
  function ParseKnown(b: seq<byte>): (r: Option<Step>)
    ensures r.Some? ==> 3 <= r.value.end <= |b|
  {
    if |b| < 3 || KnownSize(BigWord(b[0], b[1])) != Some(b[2]) || |b| < End(b) then None
    else Some(Step(Known(BigWord(b[0], b[1]), b[3..End(b)]), End(b)))
  }

  /** The rule that skips any record. */
  function ParseUnknown(b: seq<byte>): (r: Option<Step>)
    ensures r.Some? ==> 3 <= r.value.end <= |b|
  {
    if |b| < 3 || |b| < End(b) then None else Some(Step(Skipped(BigWord(b[0], b[1]), b[2]), End(b)))
  }

  function ParseRecord(b: seq<byte>): (r: Option<Step>)
    ensures r.Some? ==> 3 <= r.value.end <= |b|
  {
    if ParseKnown(b).Some? then ParseKnown(b) else ParseUnknown(b)
  }

  datatype Split = Split(records: seq<Record>, rest: seq<byte>)

  function SplitRecords(b: seq<byte>): Split
    decreases |b|
  {
    match ParseRecord(b)
    case None => Split([], b)
    case Some(s) =>
      var r := SplitRecords(b[s.end..]);
      Split([s.record] + r.records, r.rest)
  }

  // ----- the records as sent -----

  ghost predicate ValidRaw(r: Raw) { |r.data| < 0x100 }

  function RawBytes(r: Raw): seq<byte>
    requires ValidRaw(r)
  {
    [r.id / 0x100, r.id % 0x100, |r.data|] + r.data
  }

  function Content(rs: seq<Raw>): seq<byte>
    requires forall r :: r in rs ==> ValidRaw(r)
  {
    if rs == [] then [] else RawBytes(rs[0]) + Content(rs[1..])
  }

  /** A known identifier with its own length is parsed, everything else is skipped. */
  function Reading(r: Raw): Record
    requires ValidRaw(r)
  {
    if KnownSize(r.id) == Some(|r.data|) then Known(r.id, r.data) else Skipped(r.id, |r.data|)
  }

  function Readings(rs: seq<Raw>): seq<Record>
    requires forall r :: r in rs ==> ValidRaw(r)
  {
    if rs == [] then [] else [Reading(rs[0])] + Readings(rs[1..])
  }

  /** What cannot be a complete record. */
  predicate Incomplete(b: seq<byte>) { |b| < 3 || |b| < End(b) }

  lemma ParseRaw(r: Raw, rest: seq<byte>)
    requires ValidRaw(r)
    ensures ParseRecord(RawBytes(r) + rest) == Some(Step(Reading(r), |RawBytes(r)|))
  {
    var b := RawBytes(r) + rest;
    assert BigWord(b[0], b[1]) == r.id;
    assert b[3..End(b)] == r.data;
  }

  /** Records come back as sent, in order; a truncated last one leaves exactly its bytes. */
  lemma {:induction false} SplitContent(rs: seq<Raw>, rest: seq<byte>)
    requires forall r :: r in rs ==> ValidRaw(r)
    requires Incomplete(rest)
    ensures SplitRecords(Content(rs) + rest) == Split(Readings(rs), rest)
  {
    if rs == [] {
      assert [] + rest == rest;
    } else {
      var tail := Content(rs[1..]) + rest;
      assert Content(rs) + rest == RawBytes(rs[0]) + tail;
      ParseRaw(rs[0], tail);
      assert (RawBytes(rs[0]) + tail)[|RawBytes(rs[0])|..] == tail;
      SplitContent(rs[1..], rest);
    }
  }

  /** A proper prefix of a record is incomplete. */
  lemma TruncatedIncomplete(r: Raw, b: seq<byte>)
    requires ValidRaw(r) && b < RawBytes(r)
    ensures Incomplete(b)
  {
    if |b| >= 3 { assert b[2] == RawBytes(r)[2]; }
  }

  /** Conversely, any content is split at record boundaries and nothing is lost. */
  lemma {:induction false} SplitAligned(b: seq<byte>) returns (rs: seq<Raw>)
    ensures forall r :: r in rs ==> ValidRaw(r)
    ensures var s := SplitRecords(b);
            b == Content(rs) + s.rest && s.records == Readings(rs) && Incomplete(s.rest)
    decreases |b|
  {
    if Incomplete(b) {
      rs := [];
      assert [] + b == b;
    } else {
      var n := End(b);
      var r := Raw(BigWord(b[0], b[1]), b[3..n]);
      BytesOfFirst(b, r);
      var tail := SplitAligned(b[n..]);
      rs := [r] + tail;
      hide Content, Readings, ParseRecord;
      ContentCons(r, tail, SplitRecords(b[n..]).rest);
    }
  }

  lemma ContentCons(r: Raw, rs: seq<Raw>, rest: seq<byte>)
    requires ValidRaw(r) && forall x :: x in rs ==> ValidRaw(x)
    ensures Content([r] + rs) + rest == RawBytes(r) + (Content(rs) + rest)
    ensures Readings([r] + rs) == [Reading(r)] + Readings(rs)
  {
    assert ([r] + rs)[1..] == rs;
  }

  lemma BytesOfFirst(b: seq<byte>, r: Raw)
    requires !Incomplete(b) && r == Raw(BigWord(b[0], b[1]), b[3..End(b)])
    ensures ValidRaw(r) && RawBytes(r) + b[End(b)..] == b
    ensures ParseRecord(b) == Some(Step(Reading(r), End(b)))
  {
    assert r.id / 0x100 == b[0] && r.id % 0x100 == b[1];
    assert b == [b[0], b[1], b[2]] + b[3..End(b)] + b[End(b)..];
  }

  // ----- the records of interest -----

  /** Identifier, as it is sent, and length of the records of interest. */
  predicate Listed(hi: byte, lo: byte, size: nat) {
    (hi, lo, size) in {
      (0x10, 0x10, 12), (0x40, 0x20, 12), (0x40, 0x30, 12), (0x80, 0x20, 12), (0x50, 0x43, 16), (0xC0, 0x20, 12),
      (0xD0, 0x10, 12), (0x50, 0x20, 4), (0x50, 0x10, 4), (0x20, 0x30, 12), (0x20, 0x10, 16)
    }
  }

  /** A record comes with its bytes exactly when its identifier and length are listed; any other is skipped. */
  lemma ListedExactly(hi: byte, lo: byte, data: seq<byte>)
    requires |data| < 0x100
    ensures SplitRecords([hi, lo, |data|] + data)
         == Split([if Listed(hi, lo, |data|) then Known(hi * 0x100 + lo, data)
                   else Skipped(hi * 0x100 + lo, |data|)], [])
  {
    hide Listed, KnownSize, SplitRecords;
    var r := Raw(hi * 0x100 + lo, data);
    ListedSizes(hi, lo, |data|);
    OnlyRecord(r);
    assert r.id / 0x100 == hi && r.id % 0x100 == lo;
  }

  lemma OnlyRecord(r: Raw)
    requires ValidRaw(r)
    ensures SplitRecords(RawBytes(r)) == Split([Reading(r)], [])
  {
    assert [r] + [] == [r] && RawBytes(r) + [] == RawBytes(r);
    ContentCons(r, [], []);
    assert Content([r]) + [] == RawBytes(r);
    SplitContent([r], []);
  }

  lemma ListedSizes(hi: byte, lo: byte, size: byte)
    ensures KnownSize(hi * 0x100 + lo) == Some(size) <==> Listed(hi, lo, size)
  {}
}
