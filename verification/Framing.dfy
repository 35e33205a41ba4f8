/**
  Framing of the two binary sensor protocols: a preamble of two bytes, a header that holds the payload
  size, the payload and a checksum. The decoder skips anything up to the next preamble, and keeps what
  may still become a packet in a buffer between reads.
  */
module Framing {
  import opened Bytes
  import opened Options

  datatype Protocol = Xsens | Ublox {
    function Sync0(): byte { if Xsens? then 0xFA else 0xB5 }

    function Sync1(): byte { if Xsens? then 0xFF else 0x62 }

    /** Xsens: message id, length. Ublox: class, id, length as a little-endian word. */
    function HeadSize(): nat { if Xsens? then 2 else 4 }

    function TailSize(): nat { if Xsens? then 1 else 2 }

    /** The payload size in the header at h. */
    function PayloadSize(b: seq<byte>, h: nat): nat
      requires h + HeadSize() <= |b|
    {
      if Xsens? then b[h + 1] else b[h + 2] as nat + 0x100 * b[h + 3] as nat
    }
  }

  datatype Frame = Frame(head: seq<byte>, payload: seq<byte>, tail: seq<byte>)

  /** The buffer is dropped by a read that finds more bytes than this in it. */
  const BUFFER_LIMIT := 0x1000

  // ----- the decoder -----

  predicate IsSync(p: Protocol, b: seq<byte>, i: nat) {
    i + 1 < |b| && b[i] == p.Sync0() && b[i + 1] == p.Sync1()
  }

  /** Where the junk before the next preamble ends: at the first preamble from i on, or at the end. */
  function FindSync(p: Protocol, b: seq<byte>, i: nat): (r: nat)
    requires i <= |b|
    ensures i <= r <= |b|
    ensures r < |b| ==> IsSync(p, b, r)
    ensures forall j :: i <= j < r ==> !IsSync(p, b, j)
    decreases |b| - i
  {
    if i == |b| || IsSync(p, b, i) then i else FindSync(p, b, i + 1)
  }

  /** The junk rule: moves on while no preamble starts here. */
  method SkipJunk(p: Protocol, b: seq<byte>) returns (cur: nat)
    ensures cur == FindSync(p, b, 0)
  {
    cur := 0;
    while cur < |b| && !IsSync(p, b, cur)
      invariant cur <= |b| && FindSync(p, b, 0) == FindSync(p, b, cur)
    {
      cur := cur + 1;
    }
  }

  datatype Parsed = Parsed(frame: Frame, end: nat)

  /** A packet with n payload bytes whose header starts at h. */
  function ParseSized(p: Protocol, b: seq<byte>, h: nat, n: nat): (r: Option<Parsed>)
    ensures r.Some? ==> h < r.value.end <= |b|
  {
    var d := h + p.HeadSize();
    var t := d + n;
    var end := t + p.TailSize();
    if |b| < end then None else Some(Parsed(Frame(b[h..d], b[d..t], b[t..end]), end))
  }

  /** What follows a preamble that ends at h: header, as many payload bytes as it says, checksum. */
  function ParseAt(p: Protocol, b: seq<byte>, h: nat): (r: Option<Parsed>)
    ensures r.Some? ==> h < r.value.end <= |b|
  {
    if |b| < h + p.HeadSize() then None else ParseSized(p, b, h, p.PayloadSize(b, h))
  }

  /** The packet rule: junk, preamble, packet. */
  function ParseSingle(p: Protocol, b: seq<byte>): (r: Option<Parsed>)
    ensures r.Some? ==> 0 < r.value.end <= |b|
  {
    ParseAt(p, b, FindSync(p, b, 0) + 2)
  }

  datatype Decoded = Decoded(frames: seq<Frame>, rest: seq<byte>)

  /** All packets in the buffer, and what stays in it. */
  function Decode(p: Protocol, b: seq<byte>): (r: Decoded)
    ensures |r.rest| <= |b|
    decreases |b|
  {
    match ParseSingle(p, b)
    case None => Decoded([], b)
    case Some(s) =>
      var r := Decode(p, b[s.end..]);
      Decoded([s.frame] + r.frames, r.rest)
  }

  /** One read: the bytes are added to the buffer, which is dropped first if it has grown too long. */
  function Feed(p: Protocol, buffer: seq<byte>, chunk: seq<byte>): Decoded {
    Decode(p, (if |buffer| > BUFFER_LIMIT then [] else buffer) + chunk)
  }

  function FeedAll(p: Protocol, chunks: seq<seq<byte>>): Decoded {
    if chunks == [] then Decoded([], [])
    else
      var d := FeedAll(p, chunks[..|chunks| - 1]);
      var e := Feed(p, d.rest, chunks[|chunks| - 1]);
      Decoded(d.frames + e.frames, e.rest)
  }

  /** The packet rule, by the parts of the packet. */
  lemma ParseAtIs(p: Protocol, b: seq<byte>, h: nat, f: Frame)
    requires ValidFrame(p, f)
    requires var d := h + |f.head|;
             var t := d + |f.payload|;
             var end := t + |f.tail|;
             end <= |b| && b[h..d] == f.head && b[d..t] == f.payload && b[t..end] == f.tail
    ensures ParseAt(p, b, h) == Some(Parsed(f, h + |f.head| + |f.payload| + |f.tail|))
  {
    SizeInHead(p, b, h);
  }

  lemma SizeInHead(p: Protocol, b: seq<byte>, h: nat)
    requires h + p.HeadSize() <= |b|
    ensures p.PayloadSize(b, h) == p.PayloadSize(b[h..h + p.HeadSize()], 0)
  {}

  lemma DecodeStep(p: Protocol, b: seq<byte>)
    ensures match ParseSingle(p, b)
            case None => Decode(p, b) == Decoded([], b)
            case Some(s) => var r := Decode(p, b[s.end..]); Decode(p, b) == Decoded([s.frame] + r.frames, r.rest)
  {}

  // ----- independence of how the bytes are split over reads -----

  lemma {:induction false} FindSyncExtends(p: Protocol, b: seq<byte>, c: seq<byte>, i: nat)
    requires i <= |b| && FindSync(p, b, i) < |b|
    ensures FindSync(p, b + c, i) == FindSync(p, b, i)
    decreases |b| - i
  {
    if !IsSync(p, b, i) {
      assert FindSync(p, b, i) == FindSync(p, b, i + 1);
      FindSyncExtends(p, b, c, i + 1);
    }
  }

  lemma ParseAtParts(p: Protocol, b: seq<byte>, h: nat)
    requires ParseAt(p, b, h).Some?
    ensures var f := ParseAt(p, b, h).value.frame;
            var d := h + |f.head|;
            var t := d + |f.payload|;
            var end := t + |f.tail|;
            ValidFrame(p, f) && ParseAt(p, b, h).value.end == end <= |b|
            && b[h..d] == f.head && b[d..t] == f.payload && b[t..end] == f.tail
  {
    SizeInHead(p, b, h);
  }

  lemma ParseAtExtends(p: Protocol, b: seq<byte>, c: seq<byte>, h: nat)
    requires ParseAt(p, b, h).Some?
    ensures ParseAt(p, b + c, h) == ParseAt(p, b, h)
  {
    hide ParseAt;
    ParseAtParts(p, b, h);
    var f := ParseAt(p, b, h).value.frame;
    var d := h + |f.head|;
    var t := d + |f.payload|;
    SlicePrefix(b, c, h, d);
    SlicePrefix(b, c, d, t);
    SlicePrefix(b, c, t, t + |f.tail|);
    ParseAtIs(p, b + c, h, f);
  }

  /** A packet that was complete is found unchanged when more bytes follow. */
  lemma ParseExtends(p: Protocol, b: seq<byte>, c: seq<byte>)
    requires ParseSingle(p, b).Some?
    ensures ParseSingle(p, b + c) == ParseSingle(p, b)
  {
    hide FindSync;
    FindSyncExtends(p, b, c, 0);
    ParseAtExtends(p, b, c, FindSync(p, b, 0) + 2);
  }

  lemma {:induction false} DecodeConcat(p: Protocol, b: seq<byte>, c: seq<byte>)
    ensures var d := Decode(p, b);
            var e := Decode(p, d.rest + c);
            Decode(p, b + c) == Decoded(d.frames + e.frames, e.rest)
    decreases |b|
  {
    hide ParseSingle;
    DecodeStep(p, b);
    DecodeStep(p, b + c);
    if ParseSingle(p, b).Some? {
      var s := ParseSingle(p, b).value;
      ParseExtends(p, b, c);
      assert (b + c)[s.end..] == b[s.end..] + c;
      DecodeConcat(p, b[s.end..], c);
    }
  }

  /** No read begins with a buffer that is over the limit. */
  predicate NoOverflow(p: Protocol, chunks: seq<seq<byte>>) {
    chunks == [] ||
    (NoOverflow(p, chunks[..|chunks| - 1]) && |FeedAll(p, chunks[..|chunks| - 1]).rest| <= BUFFER_LIMIT)
  }

  /** Packets and remaining bytes do not depend on the chunking, as long as no read overflows. */
  lemma {:induction false} ChunkingIndependence(p: Protocol, chunks: seq<seq<byte>>)
    requires NoOverflow(p, chunks)
    ensures FeedAll(p, chunks) == Decode(p, Flatten(chunks))
  {
    if chunks != [] {
      var n := |chunks| - 1;
      ChunkingIndependence(p, chunks[..n]);
      DecodeConcat(p, Flatten(chunks[..n]), chunks[n]);
    }
  }

  /** In all runs the buffer holds at most the limit plus the last chunk. */
  lemma BufferBound(p: Protocol, chunks: seq<seq<byte>>)
    requires chunks != []
    ensures |FeedAll(p, chunks).rest| <= BUFFER_LIMIT + |chunks[|chunks| - 1]|
  {}

  // ----- streams of packets with garbage between them -----

  ghost predicate ValidFrame(p: Protocol, f: Frame) {
    |f.head| == p.HeadSize() && |f.payload| == p.PayloadSize(f.head, 0) && |f.tail| == p.TailSize()
  }

  function Wire(p: Protocol, f: Frame): seq<byte> {
    [p.Sync0(), p.Sync1()] + f.head + f.payload + f.tail
  }

  /** Garbage may contain single preamble bytes, and may end in one, but not a whole preamble. */
  ghost predicate Garbage(p: Protocol, g: seq<byte>) {
    forall i: nat :: !IsSync(p, g, i)
  }

  datatype Segment = Segment(garbage: seq<byte>, frame: Frame)

  ghost predicate ValidSegment(p: Protocol, s: Segment) { Garbage(p, s.garbage) && ValidFrame(p, s.frame) }

  function SegmentBytes(p: Protocol, s: Segment): seq<byte> { s.garbage + Wire(p, s.frame) }

  function Stream(p: Protocol, segments: seq<Segment>, tail: seq<byte>): seq<byte> {
    if segments == [] then tail else SegmentBytes(p, segments[0]) + Stream(p, segments[1..], tail)
  }

  function FramesOf(segments: seq<Segment>): seq<Frame> {
    if segments == [] then [] else [segments[0].frame] + FramesOf(segments[1..])
  }

  lemma FirstSync(p: Protocol, b: seq<byte>, i: nat)
    requires IsSync(p, b, i) && forall j: nat :: j < i ==> !IsSync(p, b, j)
    ensures FindSync(p, b, 0) == i
  {}

  lemma SegmentSync(p: Protocol, s: Segment, b: seq<byte>)
    requires ValidSegment(p, s) && SegmentBytes(p, s) <= b
    ensures FindSync(p, b, 0) == |s.garbage|
  {
    var g, w := s.garbage, Wire(p, s.frame);
    assert b[|g|] == (g + w)[|g|] == w[0] && b[|g| + 1] == (g + w)[|g| + 1] == w[1];
    forall j: nat | j < |g| ensures !IsSync(p, b, j) {
      assert b[j] == (g + w)[j] == g[j];
      assert j + 1 < |g| ==> b[j + 1] == (g + w)[j + 1] == g[j + 1];
      assert !IsSync(p, g, j);
    }
    FirstSync(p, b, |g|);
  }

  lemma WireParts(p: Protocol, f: Frame)
    requires ValidFrame(p, f)
    ensures var w := Wire(p, f);
            var d := 2 + |f.head|;
            var t := d + |f.payload|;
            |w| == t + |f.tail| && w[2..d] == f.head && w[d..t] == f.payload && w[t..|w|] == f.tail
  {}

  lemma ParseSegment(p: Protocol, s: Segment, r: seq<byte>)
    requires ValidSegment(p, s)
    ensures ParseSingle(p, SegmentBytes(p, s) + r) == Some(Parsed(s.frame, |SegmentBytes(p, s)|))
  {
    hide ParseAt, FindSync, Wire;
    var f, w := s.frame, Wire(p, s.frame);
    SegmentSync(p, s, SegmentBytes(p, s) + r);
    WireParts(p, f);
    var d := 2 + |f.head|;
    var t := d + |f.payload|;
    SliceMiddle(s.garbage, w, r, 2, d);
    SliceMiddle(s.garbage, w, r, d, t);
    SliceMiddle(s.garbage, w, r, t, |w|);
    ParseAtIs(p, SegmentBytes(p, s) + r, |s.garbage| + 2, f);
  }

  /** The beginning of garbage and a packet. */
  ghost predicate Unfinished(p: Protocol, b: seq<byte>) { exists s :: ValidSegment(p, s) && b < SegmentBytes(p, s) }

  /** An incomplete segment yields nothing and is kept whole. */
  lemma IncompleteSegment(p: Protocol, s: Segment, b: seq<byte>)
    requires ValidSegment(p, s) && b < SegmentBytes(p, s)
    ensures ParseSingle(p, b).None? && Decode(p, b) == Decoded([], b)
  {
    var w := SegmentBytes(p, s);
    if ParseSingle(p, b).Some? {
      ParseExtends(p, b, w[|b|..]);
      assert b + w[|b|..] == w && w + [] == w;
      ParseSegment(p, s, []);
      assert false;
    }
  }

  function Zeroes(n: nat): (r: seq<byte>)
    ensures |r| == n
  {
    seq<byte>(n, i => 0)
  }

  /** What follows a preamble, with zeroes for whatever has not come yet. */
  function Completed(p: Protocol, b: seq<byte>): (f: Frame)
    ensures ValidFrame(p, f)
    ensures b <= f.head + f.payload + f.tail || f.head + f.payload + f.tail <= b
  {
    var all := b + Zeroes(p.HeadSize() + 0x1_0000 + p.TailSize());
    var d := p.HeadSize();
    var t := d + p.PayloadSize(all, 0);
    SizeInHead(p, all, 0);
    var e := t + p.TailSize();
    assert all[..d] + all[d..t] + all[t..e] == all[..e];
    Frame(all[..d], all[d..t], all[t..e])
  }

  /** What holds no complete packet is exactly what is the beginning of garbage and a packet. */
  lemma NoneExactly(p: Protocol, b: seq<byte>)
    ensures ParseSingle(p, b).None? <==> Unfinished(p, b)
  {
    hide ParseAt, FindSync, Completed, SegmentBytes;
    if Unfinished(p, b) {
      var s :| ValidSegment(p, s) && b < SegmentBytes(p, s);
      IncompleteSegment(p, s, b);
    }
    if ParseSingle(p, b).None? {
      var i := FindSync(p, b, 0);
      NoSyncBefore(p, b, i);
      if i == |b| {
        assert b[..i] == b;
        GarbageUnfinished(p, b);
      } else {
        AfterSync(p, b, i);
      }
    }
  }

  /** What has come of a packet can be completed. */
  lemma AfterSync(p: Protocol, b: seq<byte>, i: nat)
    requires IsSync(p, b, i) && Garbage(p, b[..i]) && ParseAt(p, b, i + 2).None?
    ensures Unfinished(p, b)
  {
    hide ParseAt, Completed, Garbage;
    var f := Completed(p, b[i + 2..]);
    var all := f.head + f.payload + f.tail;
    if all <= b[i + 2..] { CompleteIn(p, b, i + 2, f); }
    var s := Segment(b[..i], f);
    var sync := [p.Sync0(), p.Sync1()];
    assert SegmentBytes(p, s) == b[..i] + sync + all;
    assert b == b[..i] + sync + b[i + 2..];
    assert b < SegmentBytes(p, s) && ValidSegment(p, s);
  }

  lemma NoSyncBefore(p: Protocol, b: seq<byte>, i: nat)
    requires i <= |b| && forall j :: 0 <= j < i ==> !IsSync(p, b, j)
    ensures Garbage(p, b[..i])
  {
    forall j: nat ensures !IsSync(p, b[..i], j) {
      if j < i { assert !IsSync(p, b, j); }
    }
  }

  lemma CompleteIn(p: Protocol, b: seq<byte>, h: nat, f: Frame)
    requires h <= |b| && ValidFrame(p, f) && f.head + f.payload + f.tail <= b[h..]
    ensures ParseAt(p, b, h).Some?
  {
    var all := f.head + f.payload + f.tail;
    var d := |f.head|;
    var t := d + |f.payload|;
    assert b[h..][..|all|] == all;
    assert b[h..h + d] == all[..d] == f.head;
    assert b[h + d..h + t] == all[d..t] == f.payload;
    assert b[h + t..h + |all|] == all[t..] == f.tail;
    ParseAtIs(p, b, h, f);
  }

  /** Garbage is the beginning of itself and a packet. */
  lemma GarbageUnfinished(p: Protocol, g: seq<byte>)
    requires Garbage(p, g)
    ensures Unfinished(p, g)
  {
    assert ValidSegment(p, Segment(g, Completed(p, [])));
    assert g < SegmentBytes(p, Segment(g, Completed(p, [])));
  }

  /** The decoder finds exactly the packets sent, in order, whatever garbage lies between them, and keeps the rest. */
  lemma {:induction false} DecodeStream(p: Protocol, segments: seq<Segment>, tail: seq<byte>)
    requires forall s :: s in segments ==> ValidSegment(p, s)
    requires Unfinished(p, tail)
    ensures Decode(p, Stream(p, segments, tail)) == Decoded(FramesOf(segments), tail)
  {
    if segments == [] {
      var s :| ValidSegment(p, s) && tail < SegmentBytes(p, s);
      IncompleteSegment(p, s, tail);
    } else {
      var s, r := segments[0], Stream(p, segments[1..], tail);
      ParseSegment(p, s, r);
      assert (SegmentBytes(p, s) + r)[|SegmentBytes(p, s)|..] == r;
      DecodeStream(p, segments[1..], tail);
    }
  }

  // ----- streams that never overflow the buffer -----

  /** Any proper prefix of a segment fits in the buffer. */
  predicate Fits(p: Protocol, s: Segment) { |SegmentBytes(p, s)| <= BUFFER_LIMIT + 1 }

  lemma {:induction false} PrefixRest(p: Protocol, segments: seq<Segment>, tail: seq<byte>, b: seq<byte>)
    requires forall s :: s in segments ==> ValidSegment(p, s) && Fits(p, s)
    requires |tail| <= BUFFER_LIMIT
    requires b <= Stream(p, segments, tail)
    ensures |Decode(p, b).rest| <= BUFFER_LIMIT
  {
    if segments != [] {
      var s := segments[0];
      var w := SegmentBytes(p, s);
      if |b| < |w| {
        assert b < w by { assert b == Stream(p, segments, tail)[..|b|] == w[..|b|]; }
        IncompleteSegment(p, s, b);
      } else {
        assert b[..|w|] == w by { assert b[..|w|] == Stream(p, segments, tail)[..|w|]; }
        var r := b[|w|..];
        assert b == w + r;
        assert r <= Stream(p, segments[1..], tail) by {
          assert r == Stream(p, segments, tail)[|w|..|b|];
        }
        ParseSegment(p, s, r);
        PrefixRest(p, segments[1..], tail, r);
      }
    }
  }

  lemma {:induction false} FittingStreamNoOverflow(
    p: Protocol, segments: seq<Segment>, tail: seq<byte>, chunks: seq<seq<byte>>)
    requires forall s :: s in segments ==> ValidSegment(p, s) && Fits(p, s)
    requires |tail| <= BUFFER_LIMIT
    requires Flatten(chunks) <= Stream(p, segments, tail)
    ensures NoOverflow(p, chunks)
  {
    if chunks != [] {
      var init := chunks[..|chunks| - 1];
      assert Flatten(init) <= Flatten(chunks);
      FittingStreamNoOverflow(p, segments, tail, init);
      ChunkingIndependence(p, init);
      PrefixRest(p, segments, tail, Flatten(init));
    }
  }

  /** End to end: packets with bounded garbage between them arrive complete and in order in every chunking. */
  lemma Delivery(p: Protocol, segments: seq<Segment>, tail: seq<byte>, chunks: seq<seq<byte>>)
    requires forall s :: s in segments ==> ValidSegment(p, s) && Fits(p, s)
    requires Unfinished(p, tail) && |tail| <= BUFFER_LIMIT
    requires Flatten(chunks) == Stream(p, segments, tail)
    ensures FeedAll(p, chunks) == Decoded(FramesOf(segments), tail)
  {
    FittingStreamNoOverflow(p, segments, tail, chunks);
    ChunkingIndependence(p, chunks);
    DecodeStream(p, segments, tail);
  }

  // ----- after the last packet -----

  /** A stream may end in any amount of garbage, or inside a packet as long as that fits in the buffer. */
  ghost predicate Ending(p: Protocol, tail: seq<byte>) {
    Garbage(p, tail) || (Unfinished(p, tail) && |tail| <= BUFFER_LIMIT)
  }

  lemma {:induction false} StreamTail(p: Protocol, segments: seq<Segment>, tail: seq<byte>)
    ensures Stream(p, segments, tail) == Stream(p, segments, []) + tail
  {
    if segments == [] {
      assert [] + tail == tail;
    } else {
      StreamTail(p, segments[1..], tail);
    }
  }

  lemma GarbageSlice(p: Protocol, g: seq<byte>, i: nat, j: nat)
    requires Garbage(p, g) && i <= j <= |g|
    ensures Garbage(p, g[i..j])
  {
    forall k: nat ensures !IsSync(p, g[i..j], k) { assert !IsSync(p, g, i + k); }
  }

  lemma DecodeGarbage(p: Protocol, g: seq<byte>)
    requires Garbage(p, g)
    ensures Decode(p, g) == Decoded([], g)
  {
    GarbageUnfinished(p, g);
    NoneExactly(p, g);
  }

  ghost predicate EndOf(rest: seq<byte>, g: seq<byte>) { |rest| <= |g| && rest == g[|g| - |rest|..] }

  /** One more read of garbage. */
  lemma GarbageRead(p: Protocol, buffer: seq<byte>, h: seq<byte>, c: seq<byte>)
    requires Garbage(p, h + c) && EndOf(buffer, h)
    ensures Feed(p, buffer, c).frames == [] && EndOf(Feed(p, buffer, c).rest, h + c)
  {
    hide Decode;
    var g, rest := h + c, if |buffer| > BUFFER_LIMIT then [] else buffer;
    var k := |g| - |rest + c|;
    assert rest + c == g[k..|g|] == g[k..];
    GarbageSlice(p, g, k, |g|);
    DecodeGarbage(p, rest + c);
  }

  /** Up to the end of the last packet, and with the first garbage behind it, nothing is dropped. */
  lemma NothingDropped(p: Protocol, segments: seq<Segment>, g: seq<byte>, chunks: seq<seq<byte>>)
    requires forall s :: s in segments ==> ValidSegment(p, s) && Fits(p, s)
    requires Garbage(p, g) && Flatten(chunks) == Stream(p, segments, []) + g
    requires chunks == [] || Flatten(chunks[..|chunks| - 1]) <= Stream(p, segments, [])
    ensures FeedAll(p, chunks) == Decoded(FramesOf(segments), g)
  {
    hide Decode, FeedAll, Flatten, Stream, Ending;
    if chunks == [] {
      assert NoOverflow(p, chunks);
    } else {
      var init := chunks[..|chunks| - 1];
      FittingStreamNoOverflow(p, segments, [], init);
      ChunkingIndependence(p, init);
      PrefixRest(p, segments, [], Flatten(init));
    }
    ChunkingIndependence(p, chunks);
    StreamTail(p, segments, g);
    GarbageUnfinished(p, g);
    DecodeStream(p, segments, g);
  }

  /** Reads that only bring garbage may drop some of it, but find no packets. */
  lemma {:induction false} GarbageReads(p: Protocol, segments: seq<Segment>, g: seq<byte>, chunks: seq<seq<byte>>)
    requires forall s :: s in segments ==> ValidSegment(p, s) && Fits(p, s)
    requires Garbage(p, g) && Flatten(chunks) == Stream(p, segments, []) + g
    ensures FeedAll(p, chunks).frames == FramesOf(segments) && EndOf(FeedAll(p, chunks).rest, g)
    decreases |chunks|
  {
    hide Feed, Garbage, Stream, Fits;
    var whole := Stream(p, segments, []);
    if chunks == [] || |Flatten(chunks[..|chunks| - 1])| <= |whole| {
      if chunks != [] { ShorterThan(Flatten(chunks[..|chunks| - 1]), chunks[|chunks| - 1], whole, g); }
      NothingDropped(p, segments, g, chunks);
    } else {
      var init, c := chunks[..|chunks| - 1], chunks[|chunks| - 1];
      var h := LongerThan(Flatten(init), c, whole, g);
      GarbageSlice(p, g, 0, |h|);
      assert g[0..|h|] == h;
      GarbageReads(p, segments, h, init);
      GarbageRead(p, FeedAll(p, init).rest, h, c);
      assert FramesOf(segments) + [] == FramesOf(segments);
    }
  }

  lemma ShorterThan<T>(a: seq<T>, c: seq<T>, whole: seq<T>, g: seq<T>)
    requires a + c == whole + g && |a| <= |whole|
    ensures a <= whole
  {
    assert a == (whole + g)[..|a|] == whole[..|a|];
  }

  lemma LongerThan<T>(a: seq<T>, c: seq<T>, whole: seq<T>, g: seq<T>) returns (h: seq<T>)
    requires a + c == whole + g && |a| > |whole|
    ensures a == whole + h && g == h + c
  {
    assert a == (whole + g)[..|a|] && c == (whole + g)[|a|..];
    h := a[|whole|..];
    assert g == (a + c)[|whole|..];
  }

  /** Whatever the stream ends in, in every chunking the packets found are the packets sent. */
  lemma FramesDelivered(p: Protocol, segments: seq<Segment>, tail: seq<byte>, chunks: seq<seq<byte>>)
    requires forall s :: s in segments ==> ValidSegment(p, s) && Fits(p, s)
    requires Ending(p, tail)
    requires Flatten(chunks) == Stream(p, segments, tail)
    ensures FeedAll(p, chunks).frames == FramesOf(segments)
  {
    hide ParseSingle, Decode;
    if Garbage(p, tail) {
      StreamTail(p, segments, tail);
      GarbageReads(p, segments, tail, chunks);
    } else {
      Delivery(p, segments, tail, chunks);
    }
  }

  // ----- the limit is exact -----

  /** All ways to split b over reads deliver exactly the frame f. */
  ghost predicate AlwaysDelivered(p: Protocol, f: Frame, b: seq<byte>) {
    forall chunks :: Flatten(chunks) == b ==> FeedAll(p, chunks) == Decoded([f], [])
  }

  lemma TwoReads(p: Protocol, s: Segment, n: nat)
    requires ValidSegment(p, s) && BUFFER_LIMIT < n < |SegmentBytes(p, s)|
    ensures var w := SegmentBytes(p, s);
            Flatten([w[..n], w[n..]]) == w && FeedAll(p, [w[..n], w[n..]]) == Decode(p, w[n..])
  {
    hide ParseSingle, SegmentBytes, FindSync, Decode;
    var w := SegmentBytes(p, s);
    var chunks: seq<seq<byte>> := [w[..n], w[n..]];
    assert chunks[..1] == [w[..n]];
    assert |chunks[..1][..0]| == 0;
    assert [] + w[..n] == w[..n] && [] + w[n..] == w[n..];
    assert Flatten(chunks[..1]) == w[..n];
    assert Flatten(chunks) == w[..n] + w[n..] == w;
    IncompleteSegment(p, s, w[..n]);
    assert FeedAll(p, chunks[..1]) == Decoded([], w[..n]);
  }

  /**
    A packet arrives in every chunking exactly when it fits together with the garbage before it: otherwise it is lost
    when only its last byte comes in a second read.
    */
  lemma DeliveredIffFits(p: Protocol, s: Segment)
    requires ValidSegment(p, s)
    ensures AlwaysDelivered(p, s.frame, SegmentBytes(p, s)) <==> Fits(p, s)
  {
    var f, w := s.frame, SegmentBytes(p, s);
    if Fits(p, s) {
      assert [s][1..] == [];
      assert Stream(p, [s], []) == w;
      assert FramesOf([s]) == [f];
      GarbageUnfinished(p, []);
      forall chunks | Flatten(chunks) == w ensures FeedAll(p, chunks) == Decoded([f], []) {
        Delivery(p, [s], [], chunks);
      }
    } else {
      var n := |w| - 1;
      TwoReads(p, s, n);
      assert ParseSingle(p, w[n..]).None?;
      assert FeedAll(p, [w[..n], w[n..]]).frames == [];
    }
  }

  /** So a packet with nothing before it arrives exactly when it is no longer than the limit and one byte. */
  lemma PacketDeliveredIffFits(p: Protocol, f: Frame)
    requires ValidFrame(p, f)
    ensures AlwaysDelivered(p, f, Wire(p, f)) <==> |Wire(p, f)| <= 4097
  {
    assert SegmentBytes(p, Segment([], f)) == Wire(p, f);
    DeliveredIffFits(p, Segment([], f));
  }

  // ----- the bytes on the wire -----

  lemma OnlyFrame(p: Protocol, f: Frame)
    requires ValidFrame(p, f)
    ensures Decode(p, Wire(p, f)) == Decoded([f], [])
  {
    var s := Segment([], f);
    assert ValidSegment(p, s) && SegmentBytes(p, s) == Wire(p, f);
    assert [s][1..] == [] && Stream(p, [s], []) == Wire(p, f) && FramesOf([s]) == [f];
    GarbageUnfinished(p, []);
    DecodeStream(p, [s], []);
  }

  /** An Xbus packet, byte by byte. */
  lemma XsensBytes(mid: byte, len: byte, payload: seq<byte>, check: byte)
    requires |payload| == len
    ensures Decode(Protocol.Xsens, [0xFA, 0xFF, mid, len] + payload + [check])
         == Decoded([Frame([mid, len], payload, [check])], [])
  {
    hide Decode;
    var f := Frame([mid, len], payload, [check]);
    assert Wire(Protocol.Xsens, f) == [0xFA, 0xFF, mid, len] + payload + [check];
    OnlyFrame(Protocol.Xsens, f);
  }

  /** A UBX packet, byte by byte, with its length in little-endian order. */
  lemma UbloxBytes(cls: byte, id: byte, lo: byte, hi: byte, payload: seq<byte>, a: byte, b: byte)
    requires |payload| == lo + 0x100 * hi
    ensures Decode(Protocol.Ublox, [0xB5, 0x62, cls, id, lo, hi] + payload + [a, b])
         == Decoded([Frame([cls, id, lo, hi], payload, [a, b])], [])
  {
    hide Decode;
    var head, tail := [cls, id, lo, hi], [a, b];
    var f := Frame(head, payload, tail);
    assert [0xB5, 0x62] + head == [0xB5, 0x62, cls, id, lo, hi];
    assert Wire(Protocol.Ublox, f) == [0xB5, 0x62] + head + payload + tail;
    assert Protocol.Ublox.PayloadSize(head, 0) == lo + 0x100 * hi;
    hide *;
    OnlyFrame(Protocol.Ublox, f);
  }
}
