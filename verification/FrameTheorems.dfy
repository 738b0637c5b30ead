/** Round trips, rejection and error detection of the wire format. */
module FrameTheorems {
  import opened Basics
  import opened Words
  import opened Frames
  import Crc
  import S = Sack
  import T = Transfer

  // ----- One frame there and back -----

  /** A frame that Decode accepts once encoded. */
  predicate WellFormed(f: Frame) {
    && (f.version == 0 || f.version == VERSION)
    && (if f.kind == DATA then |f.payload| <= MAX_PAYLOAD_SIZE
        else
          f.payload == [] &&
          if f.kind == ACK then f.ack.Some? && !AnyBackward(S.FirstRanges(f.ack.value.ranges))
          else if f.kind == CONTROL then f.control.Some? && 0 < |f.control.value| <= MAX_PAYLOAD_SIZE
          else f.kind == HEARTBEAT && f.heartbeat.Some?)
  }

  /** The body as it arrives: the part that belongs to the kind, an ACK cut to its first ranges. */
  function ArrivedAck(f: Frame): Option<Ack> {
    if f.kind == ACK && f.ack.Some? then
      Some(f.ack.value.(ranges := S.FirstRanges(f.ack.value.ranges)))
    else None
  }

  /** The frame as it arrives when f is sent. */
  function Arrived(f: Frame): Frame {
    var g := Encode(f).0;
    Frame(g.version, f.kind, f.flags, f.sessionId, f.streamId, f.seqno,
          if f.kind == DATA then f.payload else [],
          if HasChecksum(f.flags) then g.checksum else 0, false, g.wireLength,
          ArrivedAck(f),
          if f.kind == CONTROL then f.control else None,
          if f.kind == HEARTBEAT then f.heartbeat else None)
  }

  lemma HeaderSlices(f: Frame, length: nat, h: seq<Byte>)
    requires h == HeaderBytes(f, length)
    ensures h[0] == f.version && h[1] == f.kind && h[2] == f.flags
    ensures h[4..8] == BigEndian(f.sessionId, 4) && h[8..12] == BigEndian(f.streamId, 4)
    ensures h[12..20] == BigEndian(f.seqno, 8) && h[20..24] == BigEndian(length, 4)
  {
  }

  lemma HeaderRoundTrip(f: Frame, length: Uint32, h: seq<Byte>)
    requires h == HeaderBytes(f, length)
    ensures ParseHeader(h) == Frame(f.version, f.kind, f.flags, f.sessionId, f.streamId, f.seqno,
                                    [], 0, false, 0, None, None, None)
    ensures PayloadLength(h) == length
  {
    HeaderSlices(f, length, h);
    Uint32RoundTrip(f.sessionId);
    Uint32RoundTrip(f.streamId);
    Uint64RoundTrip(f.seqno);
    Uint32RoundTrip(length);
  }

  lemma PrefixSlice(a: seq<Byte>, tail: seq<Byte>, lo: nat, hi: nat)
    requires lo <= hi <= |a|
    ensures (a + tail)[lo..hi] == a[lo..hi]
  {
  }

  lemma TailSlice(a: seq<Byte>, b: seq<Byte>, tail: seq<Byte>)
    ensures (a + (b + tail))[|a|..|a| + |b|] == b
    ensures (a + (tail + b))[|a| + |tail|..|a| + |tail| + |b|] == b
  {
  }

  lemma {:induction false} RangeBytesAt(ranges: seq<S.Range>, i: nat)
    requires i < |ranges|
    ensures RangeBytes(ranges)[16 * i..16 * i + 8] == BigEndian(ranges[i].start, 8)
    ensures RangeBytes(ranges)[16 * i + 8..16 * i + 16] == BigEndian(ranges[i].end, 8)
    decreases |ranges|
  {
    var n := |ranges| - 1;
    var rest := RangeBytes(ranges[..n]);
    var start, end := BigEndian(ranges[n].start, 8), BigEndian(ranges[n].end, 8);
    if i < n {
      RangeBytesAt(ranges[..n], i);
      PrefixSlice(rest, start + end, 16 * i, 16 * i + 8);
      PrefixSlice(rest, start + end, 16 * i + 8, 16 * i + 16);
    } else {
      TailSlice(rest, start, end);
      TailSlice(rest, end, start);
    }
  }

  lemma AckSlices(ack: Ack, ranges: seq<S.Range>, b: seq<Byte>)
    requires ranges == S.FirstRanges(ack.ranges) && b == AckBytes(ack)
    ensures b[..8] == BigEndian(ack.ackSeq, 8) && b[8..12] == BigEndian(ack.credit, 4)
    ensures b[12] == |ranges| && b[16..] == RangeBytes(ranges)
  {
  }

  lemma SliceOfDrop(b: seq<Byte>, d: nat, lo: nat, hi: nat)
    requires lo <= hi && d + hi <= |b|
    ensures b[d..][lo..hi] == b[d + lo..d + hi]
  {
  }

  lemma RangeRoundTrip(ranges: seq<S.Range>, b: seq<Byte>, i: nat)
    requires i < |ranges| && |b| == 16 + 16 * |ranges| && b[16..] == RangeBytes(ranges)
    requires ranges[i].start < TWO_TO_64 && ranges[i].end < TWO_TO_64
    ensures RangeAt(b, i) == ranges[i]
  {
    RangeBytesAt(ranges, i);
    RangeFromSlices(b, i, ranges[i]);
  }

  lemma RangeFromSlices(b: seq<Byte>, i: nat, r: S.Range)
    requires 16 * i + 32 <= |b|
    requires r.start < TWO_TO_64 && r.end < TWO_TO_64
    requires b[16..][16 * i..16 * i + 8] == BigEndian(r.start, 8)
    requires b[16..][16 * i + 8..16 * i + 16] == BigEndian(r.end, 8)
    ensures RangeAt(b, i) == r
  {
    var at := 16 * i;
    SliceOfDrop(b, 16, at, at + 8);
    SliceOfDrop(b, 16, at + 8, at + 16);
    RangeFields(b[at + 16..at + 24], b[at + 24..at + 32], r);
  }

  lemma RangeFields(start: seq<Byte>, end: seq<Byte>, r: S.Range)
    requires r.start < TWO_TO_64 && r.end < TWO_TO_64
    requires start == BigEndian(r.start, 8) && end == BigEndian(r.end, 8)
    ensures S.Range(Number(start), Number(end)) == r
  {
    Uint64RoundTrip(r.start);
    Uint64RoundTrip(r.end);
  }

  lemma AckFields(ack: Ack, ranges: seq<S.Range>, b: seq<Byte>)
    requires ranges == S.FirstRanges(ack.ranges) && b == AckBytes(ack)
    ensures RangeCount(b) == |ranges|
    ensures AckOf(b) == ack.(ranges := ranges)
  {
    AckSlices(ack, ranges, b);
    Uint64RoundTrip(ack.ackSeq);
    Uint32RoundTrip(ack.credit);
    forall i | 0 <= i < |ranges|
      ensures RangeAt(b, i) == ranges[i]
    {
      RangeRoundTrip(ranges, b, i);
    }
    assert RangesOf(b, |ranges|) == ranges;
  }

  lemma AckRoundTrip(ack: Ack)
    requires !AnyBackward(S.FirstRanges(ack.ranges))
    ensures ParseAck(AckBytes(ack)) == Ok(ack.(ranges := S.FirstRanges(ack.ranges)))
  {
    AckFields(ack, S.FirstRanges(ack.ranges), AckBytes(ack));
  }

  lemma BodyRoundTrip(f: Frame, g: Frame)
    requires WellFormed(f) && g.kind == f.kind && g.payload == [] && g.ack == None
    requires g.control == None && g.heartbeat == None
    ensures PayloadBytes(f).Ok? && |PayloadBytes(f).value| <= MAX_PAYLOAD_SIZE
    ensures ParseBody(g, PayloadBytes(f).value)
         == Ok(g.(payload := if f.kind == DATA then f.payload else [], ack := ArrivedAck(f),
                  control := if f.kind == CONTROL then f.control else None,
                  heartbeat := if f.kind == HEARTBEAT then f.heartbeat else None))
  {
    if f.kind == ACK {
      AckRoundTrip(f.ack.value);
    } else if f.kind == HEARTBEAT {
      Uint64RoundTrip(Unsigned(f.heartbeat.value));
    }
  }

  lemma SlicesLocal(a: seq<Byte>, b: seq<Byte>, covered: nat)
    requires HEADER_SIZE <= |a| && covered == HEADER_SIZE + PayloadLength(a) <= |a|
    ensures (a + b)[..HEADER_SIZE] == a[..HEADER_SIZE] && (a + b)[0] == a[0] && (a + b)[2] == a[2]
    ensures PayloadLength(a + b) == PayloadLength(a) && FrameLength(a + b) == FrameLength(a)
    ensures (a + b)[..covered] == a[..covered]
    ensures (a + b)[HEADER_SIZE..covered] == a[HEADER_SIZE..covered]
    ensures covered + TRAILER_SIZE <= |a| ==> SumMatches(a + b, covered) == SumMatches(a, covered)
  {
    assert (a + b)[20..24] == a[20..24];
    if covered + TRAILER_SIZE <= |a| {
      assert (a + b)[covered..covered + TRAILER_SIZE] == a[covered..covered + TRAILER_SIZE];
    }
  }

  lemma RefusalLocal(a: seq<Byte>, b: seq<Byte>)
    requires |a| >= HEADER_SIZE && FrameLength(a) <= |a|
    ensures Refusal(a + b) == Refusal(a)
  {
    SlicesLocal(a, b, HEADER_SIZE + PayloadLength(a));
  }

  /** What is decoded depends only on the bytes of the frame. */
  lemma DecodeLocal(a: seq<Byte>, b: seq<Byte>)
    requires |a| >= HEADER_SIZE && FrameLength(a) <= |a|
    ensures DecodeFrame(a + b) == DecodeFrame(a)
    ensures FrameLength(a + b) == FrameLength(a)
  {
    RefusalLocal(a, b);
    SlicesLocal(a, b, HEADER_SIZE + PayloadLength(a));
  }

  lemma PartsSliced(h: seq<Byte>, payload: seq<Byte>, trailer: seq<Byte>, bytes: seq<Byte>)
    requires |h| == HEADER_SIZE && Number(h[20..24]) == |payload|
    requires |trailer| == if HasChecksum(h[2]) then TRAILER_SIZE else 0
    requires bytes == h + payload + trailer
    ensures bytes[..HEADER_SIZE] == h && bytes[2] == h[2]
    ensures PayloadLength(bytes) == |payload| && FrameLength(bytes) == |bytes|
    ensures bytes[HEADER_SIZE..HEADER_SIZE + |payload|] == payload
    ensures bytes[..HEADER_SIZE + |payload|] == h + payload
    ensures bytes[HEADER_SIZE + |payload|..] == trailer
  {
    assert bytes[20..24] == h[20..24];
  }

  /** A frame in one piece, with the right sum, decodes to whatever its body says. */
  lemma DecodeOfParts(h: seq<Byte>, payload: seq<Byte>, trailer: seq<Byte>, bytes: seq<Byte>)
    requires |h| == HEADER_SIZE && h[0] == VERSION
    requires Number(h[20..24]) == |payload| <= MAX_PAYLOAD_SIZE
    requires trailer == Trailer(h[2], h + payload) && bytes == h + payload + trailer
    ensures FrameLength(bytes) == |bytes|
    ensures DecodeFrame(bytes) == ParseBody(Opened(h, Crc.Update(0, h + payload), |bytes|), payload)
  {
    PartsSliced(h, payload, trailer, bytes);
    PartsAccepted(h, payload, trailer, bytes);
  }

  lemma PartsAccepted(h: seq<Byte>, payload: seq<Byte>, trailer: seq<Byte>, bytes: seq<Byte>)
    requires |h| == HEADER_SIZE && h[0] == VERSION
    requires Number(h[20..24]) == |payload| <= MAX_PAYLOAD_SIZE
    requires trailer == Trailer(h[2], h + payload) && bytes == h + payload + trailer
    ensures Refusal(bytes) == None
  {
    PartsSliced(h, payload, trailer, bytes);
    if HasChecksum(h[2]) {
      Uint32RoundTrip(Crc.Update(0, h + payload));
      assert bytes[|h + payload|..|h + payload| + TRAILER_SIZE] == trailer;
    }
  }

  lemma EncodedBody(f: Frame, v: Frame, payload: seq<Byte>, h: seq<Byte>, sum: Uint32, length: nat)
    requires WellFormed(f) && v == Versioned(f) && PayloadBytes(v) == Ok(payload)
    requires |payload| <= MAX_PAYLOAD_SIZE && h == HeaderBytes(v, |payload|)
    ensures h[0] == VERSION && Number(h[20..24]) == |payload| && h[2] == f.flags
    ensures ParseBody(Opened(h, sum, length), payload)
         == Ok(Frame(VERSION, f.kind, f.flags, f.sessionId, f.streamId, f.seqno,
                     if f.kind == DATA then f.payload else [],
                     if HasChecksum(f.flags) then sum else 0, false, length, ArrivedAck(f),
                     if f.kind == CONTROL then f.control else None,
                     if f.kind == HEARTBEAT then f.heartbeat else None))
  {
    HeaderSlices(v, |payload|, h);
    HeaderRoundTrip(v, |payload|, h);
    BodyRoundTrip(v, Opened(h, sum, length));
  }

  lemma EncodeParts(f: Frame, v: Frame)
    requires WellFormed(f) && v == Versioned(f)
    ensures PayloadBytes(v).Ok? && |PayloadBytes(v).value| <= MAX_PAYLOAD_SIZE
    ensures var payload := PayloadBytes(v).value;
            var covered := HeaderBytes(v, |payload|) + payload;
            var (g, r) := Encode(f);
            && r == Ok(covered + Trailer(f.flags, covered))
            && g.wireLength == |covered| + |Trailer(f.flags, covered)|
            && g.version == VERSION
            && (HasChecksum(f.flags) ==> g.checksum == Crc.Update(0, covered))
  {
    BodyRoundTrip(v, v.(payload := [], ack := None, control := None, heartbeat := None));
  }

  /** Decoding what Encode wrote gives the frame back, consumes exactly the length that Encode
      reported, and leaves the rest of the input alone. */
  lemma FrameRoundTrip(f: Frame, rest: seq<Byte>)
    requires WellFormed(f)
    ensures var (g, r) := Encode(f);
            && r.Ok? && g.wireLength == |r.value|
            && Decode(r.value + rest) == Ok((Arrived(f), rest))
  {
    var v := Versioned(f);
    EncodeParts(f, v);
    var payload := PayloadBytes(v).value;
    var h := HeaderBytes(v, |payload|);
    var bytes := Encode(f).1.value;
    EncodedBody(f, v, payload, h, Crc.Update(0, h + payload), |bytes|);
    DecodeOfParts(h, payload, Trailer(f.flags, h + payload), bytes);
    DecodeThen(bytes, rest);
  }

  lemma DecodeThen(bytes: seq<Byte>, rest: seq<Byte>)
    requires |bytes| >= HEADER_SIZE && FrameLength(bytes) == |bytes|
    ensures Decode(bytes + rest)
         == match DecodeFrame(bytes) case Ok(f) => Ok((f, rest)) case Err(e) => Err(e)
  {
    DecodeLocal(bytes, rest);
    assert (bytes + rest)[|bytes|..] == rest;
  }

  // ----- Streams of frames -----

  function EncodeAll(fs: seq<Frame>): seq<Byte>
    requires forall i :: 0 <= i < |fs| ==> WellFormed(fs[i])
  {
    if fs == [] then []
    else
      FrameRoundTrip(fs[0], []);
      Encode(fs[0]).1.value + EncodeAll(fs[1..])
  }

  /** Frame after frame until the input ends between two of them. */
  function DecodeAll(input: seq<Byte>): Result<seq<Frame>, Error>
    decreases |input|
  {
    if input == [] then Ok([])
    else
      match Decode(input)
      case Err(e) => Err(e)
      case Ok((f, rest)) =>
        match DecodeAll(rest)
        case Err(e) => Err(e)
        case Ok(fs) => Ok([f] + fs)
  }

  function ArrivedAll(fs: seq<Frame>): (r: seq<Frame>)
    ensures |r| == |fs| && forall i :: 0 <= i < |fs| ==> r[i] == Arrived(fs[i])
  {
    seq(|fs|, i requires 0 <= i < |fs| => Arrived(fs[i]))
  }

  /** A list of frames written one after another arrives as the same list. */
  lemma {:induction false} StreamRoundTrip(fs: seq<Frame>)
    requires forall i :: 0 <= i < |fs| ==> WellFormed(fs[i])
    ensures DecodeAll(EncodeAll(fs)) == Ok(ArrivedAll(fs))
    decreases |fs|
  {
    if fs != [] {
      var rest := EncodeAll(fs[1..]);
      FrameRoundTrip(fs[0], rest);
      StreamRoundTrip(fs[1..]);
      DecodeAllStep(Encode(fs[0]).1.value + rest, Arrived(fs[0]), rest, ArrivedAll(fs[1..]));
      ArrivedHead(fs);
    }
  }

  lemma ArrivedHead(fs: seq<Frame>)
    requires fs != []
    ensures ArrivedAll(fs) == [Arrived(fs[0])] + ArrivedAll(fs[1..])
  {
  }

  lemma DecodeAllStep(input: seq<Byte>, f: Frame, rest: seq<Byte>, fs: seq<Frame>)
    requires Decode(input) == Ok((f, rest)) && DecodeAll(rest) == Ok(fs)
    ensures DecodeAll(input) == Ok([f] + fs)
  {
  }

  /** Decode takes exactly the bytes that it reports as the wire length: they decode to the same
      frame by themselves, and what follows them is left. */
  lemma DecodeConsumes(input: seq<Byte>)
    requires Decode(input).Ok?
    ensures var (f, rest) := Decode(input).value;
            && f.wireLength == FrameLength(input) <= |input| && f.flags == input[2]
            && rest == input[f.wireLength..]
            && Decode(input[..f.wireLength]) == Ok((f, []))
  {
    var n := FrameLength(input);
    var frame, rest := input[..n], input[n..];
    assert input == frame + rest;
    assert frame[20..24] == input[20..24];
    DecodeLocal(frame, rest);
    assert frame[n..] == [];
  }

  lemma RefusalOfPrefix(input: seq<Byte>, k: nat)
    requires Refusal(input) == None && k < FrameLength(input)
    ensures k <= |input|
    ensures Refusal(input[..k]) in {Some(EndOfInput), Some(UnexpectedEnd)}
  {
    var p := input[..k];
    if k >= HEADER_SIZE {
      assert p[20..24] == input[20..24];
    }
  }

  /** Whatever Decode accepts, it rejects every strict prefix of the bytes it consumed, for want of
      input and for no other reason. */
  lemma PrefixRejected(input: seq<Byte>, k: nat)
    requires DecodeFrame(input).Ok? && k < FrameLength(input)
    ensures k <= |input|
    ensures DecodeFrame(input[..k]) in {Err(EndOfInput), Err(UnexpectedEnd)}
  {
    RefusalOfPrefix(input, k);
  }

  /** What a failed write leaves of a frame, some strict prefix, is not a frame: the receiver
      rejects it for want of input. */
  lemma CutFrameRejected(f: Frame, k: nat)
    requires WellFormed(f) && Encode(f).1.Ok? && k < |Encode(f).1.value|
    ensures DecodeFrame(Encode(f).1.value[..k]) in {Err(EndOfInput), Err(UnexpectedEnd)}
  {
    var bytes := Encode(f).1.value;
    FrameRoundTrip(f, []);
    assert bytes + [] == bytes;
    PrefixRejected(bytes, k);
  }

  // ----- Acknowledgements -----

  /** Every acknowledgement that a receiver builds arrives unchanged: its ranges are few enough to
      be sent in full, and none is turned down. */
  lemma AckArrivesUnchanged(f: Frame, rx: T.Receiver, credit: Uint32, rest: seq<Byte>)
    requires WellFormedAckHeader(f)
    requires T.AckFor(rx, credit).Some? && FitsWire(T.AckFor(rx, credit).value)
    requires f.ack == T.AckFor(rx, credit)
    ensures var (g, r) := Encode(f);
            && r.Ok?
            && Decode(r.value + rest) == Ok((Arrived(f), rest))
            && Arrived(f).ack == T.AckFor(rx, credit)
  {
    var ranges := f.ack.value.ranges;
    S.SackExact(rx.buffer.entries);
    assert S.FirstRanges(ranges) == ranges;
    assert !AnyBackward(ranges);
    FrameRoundTrip(f, rest);
  }

  predicate WellFormedAckHeader(f: Frame) {
    f.kind == ACK && f.payload == [] && (f.version == 0 || f.version == VERSION)
  }

  // ----- Decoding normalises -----

  /** A decoded frame can be sent on, and arrives as it is but for the sum and the length. */
  lemma DecodedWellFormed(input: seq<Byte>)
    requires DecodeFrame(input).Ok?
    ensures var f := DecodeFrame(input).value;
            && WellFormed(f)
            && Arrived(f) == f.(checksum := Arrived(f).checksum, wireLength := Arrived(f).wireLength)
  {
    var covered := HEADER_SIZE + PayloadLength(input);
    var base := Opened(input[..HEADER_SIZE], Crc.Update(0, input[..covered]), FrameLength(input));
    BodyWellFormed(base, input[HEADER_SIZE..covered]);
  }

  lemma BodyWellFormed(base: Frame, buf: seq<Byte>)
    requires base.version == VERSION && base.payload == [] && !base.isDuplicate
    requires base.ack == None && base.control == None && base.heartbeat == None
    requires !HasChecksum(base.flags) ==> base.checksum == 0
    requires |buf| <= MAX_PAYLOAD_SIZE && ParseBody(base, buf).Ok?
    ensures var f := ParseBody(base, buf).value;
            && WellFormed(f)
            && Arrived(f) == f.(checksum := Arrived(f).checksum, wireLength := Arrived(f).wireLength)
  {
    var f := ParseBody(base, buf).value;
    if f.kind == ACK {
      var ranges := f.ack.value.ranges;
      assert S.FirstRanges(ranges) == ranges;
    }
  }

  /** Whatever Decode accepts, encoding the result and decoding that gives the same frame but for
      the sum and the length. */
  lemma DecodingNormalises(input: seq<Byte>, rest: seq<Byte>)
    requires DecodeFrame(input).Ok?
    ensures var f := DecodeFrame(input).value;
            var (g, r) := Encode(f);
            && r.Ok?
            && Decode(r.value + rest)
               == Ok((f.(checksum := Arrived(f).checksum, wireLength := |r.value|), rest))
  {
    DecodedWellFormed(input);
    FrameRoundTrip(DecodeFrame(input).value, rest);
  }

  /** Nothing in a frame that Decode would ignore: reserved bytes are zero, and an ACK has no more
      ranges than are read. */
  predicate Canonical(input: seq<Byte>)
    requires |input| >= HEADER_SIZE
  {
    && input[3] == 0
    && (input[1] == ACK && |input| >= HEADER_SIZE + 16 ==>
          input[36] <= S.MAX_SACK_RANGES && input[37] == input[38] == input[39] == 0)
  }

  lemma NumberBack(bytes: seq<Byte>, k: nat)
    requires |bytes| == k
    ensures BigEndian(Number(bytes), k) == bytes
  {
    BigEndianOfNumber(bytes);
  }

  lemma HeaderBack(h: seq<Byte>, f: Frame)
    requires |h| == HEADER_SIZE
    requires f.version == h[0] && f.kind == h[1] && f.flags == h[2]
    requires f.sessionId == Number(h[4..8]) && f.streamId == Number(h[8..12]) && f.seqno == Number(h[12..20])
    ensures HeaderBytes(f, Number(h[20..24])) == h[3 := 0]
  {
    NumberBack(h[4..8], 4);
    NumberBack(h[8..12], 4);
    NumberBack(h[12..20], 8);
    NumberBack(h[20..24], 4);
  }

  lemma Joined(buf: seq<Byte>, a: nat, b: nat, c: nat, d: nat)
    requires a <= b <= c <= d <= |buf|
    ensures buf[a..b] + (buf[b..c] + buf[c..d]) == buf[a..d]
  {
  }

  lemma {:induction false} RangesBack(buf: seq<Byte>, n: nat)
    requires 16 * n + 16 <= |buf|
    ensures RangeBytes(RangesOf(buf, n)) == buf[16..16 * n + 16]
    decreases n
  {
    if n > 0 {
      RangesBack(buf, n - 1);
      var at := 16 * n;
      assert RangesOf(buf, n)[..n - 1] == RangesOf(buf, n - 1);
      NumberBack(buf[at..at + 8], 8);
      NumberBack(buf[at + 8..at + 16], 8);
      Joined(buf, 16, at, at + 8, at + 16);
    }
  }

  lemma AckBack(buf: seq<Byte>)
    requires |buf| >= 16 && |buf| == 16 + 16 * RangeCount(buf)
    ensures var b, n := AckBytes(AckOf(buf)), Min(RangeCount(buf), S.MAX_SACK_RANGES);
            b == buf[..12] + [n, 0, 0, 0] + buf[16..16 * n + 16]
  {
    var n := Min(RangeCount(buf), S.MAX_SACK_RANGES);
    NumberBack(buf[..8], 8);
    NumberBack(buf[8..12], 4);
    RangesBack(buf, n);
    assert S.FirstRanges(AckOf(buf).ranges) == RangesOf(buf, n);
    assert buf[..12] == buf[..8] + buf[8..12];
  }

  /** The payload that goes out when a frame read from `buf` is sent on. */
  lemma BodyBack(f: Frame, buf: seq<Byte>, g: Frame)
    requires f.payload == [] && ParseBody(f, buf) == Ok(g)
    ensures PayloadBytes(g).Ok?
    ensures var b := PayloadBytes(g).value;
            b == buf <==> (f.kind == ACK ==>
              RangeCount(buf) <= S.MAX_SACK_RANGES && buf[13] == buf[14] == buf[15] == 0)
    ensures |PayloadBytes(g).value| <= |buf|
  {
    if f.kind == ACK {
      AckBack(buf);
      AckSame(buf, AckBytes(AckOf(buf)), Min(RangeCount(buf), S.MAX_SACK_RANGES));
    } else if f.kind == HEARTBEAT {
      Widths();
      NumberBound(buf);
      NumberBack(buf, 8);
    }
  }

  lemma AckSame(buf: seq<Byte>, b: seq<Byte>, n: nat)
    requires |buf| >= 16 && |buf| == 16 + 16 * RangeCount(buf)
    requires n == Min(RangeCount(buf), S.MAX_SACK_RANGES)
    requires b == buf[..12] + [n, 0, 0, 0] + buf[16..16 * n + 16]
    ensures b == buf <==> RangeCount(buf) <= S.MAX_SACK_RANGES && buf[13] == buf[14] == buf[15] == 0
    ensures |b| <= |buf|
  {
    assert buf == buf[..12] + [buf[12], buf[13], buf[14], buf[15]] + buf[16..];
    if b == buf {
      assert b[13] == 0 && b[14] == 0 && b[15] == 0;
    }
  }

  lemma TrailerBack(input: seq<Byte>, covered: nat, flags: Byte)
    requires covered <= |input|
    requires |input| == covered + if HasChecksum(flags) then TRAILER_SIZE else 0
    requires HasChecksum(flags) ==> SumMatches(input, covered)
    ensures input[covered..] == Trailer(flags, input[..covered])
    ensures input == input[..covered] + Trailer(flags, input[..covered])
  {
    assert input == input[..covered] + input[covered..];
    if HasChecksum(flags) {
      assert input[covered..covered + TRAILER_SIZE] == input[covered..];
      NumberBack(input[covered..], 4);
    }
  }

  lemma InputParts(input: seq<Byte>, h: seq<Byte>, buf: seq<Byte>)
    requires Refusal(input) == None && FrameLength(input) == |input|
    requires h == input[..HEADER_SIZE] && buf == input[HEADER_SIZE..HEADER_SIZE + PayloadLength(input)]
    ensures Number(h[20..24]) == |buf| <= MAX_PAYLOAD_SIZE && h[0] == VERSION
    ensures input[..HEADER_SIZE + |buf|] == h + buf
    ensures input == h + buf + Trailer(h[2], h + buf)
  {
    assert h[20..24] == input[20..24];
    assert input[..HEADER_SIZE + |buf|] == h + buf;
    TrailerBack(input, HEADER_SIZE + |buf|, h[2]);
  }

  /** What is sent on for a decoded frame: the header with its reserved byte cleared, and the
      payload as BodyBack describes it. */
  lemma SentOn(input: seq<Byte>, f: Frame, h: seq<Byte>, buf: seq<Byte>, base: Frame)
    requires DecodeFrame(input) == Ok(f) && FrameLength(input) == |input|
    requires h == input[..HEADER_SIZE] && buf == input[HEADER_SIZE..HEADER_SIZE + PayloadLength(input)]
    requires base == Opened(h, Crc.Update(0, input[..HEADER_SIZE + |buf|]), FrameLength(input))
    ensures ParseBody(base, buf) == Ok(f) && base.payload == [] && base.kind == h[1]
    ensures f.flags == h[2] && f.version == h[0] && |h| == HEADER_SIZE
    ensures HeaderBytes(f, Number(h[20..24])) == h[3 := 0]
  {
    HeaderBack(h, f);
  }

  lemma SameParts(h: seq<Byte>, a: seq<Byte>, t: seq<Byte>, h': seq<Byte>, a': seq<Byte>, t': seq<Byte>)
    requires |h| == |h'| && |t| == |t'| && h + a + t == h' + a' + t'
    ensures h == h' && a == a'
  {
    assert |a| == |a'|;
    assert h == (h + a + t)[..|h|] && h' == (h' + a' + t')[..|h|];
    assert a == (h + a + t)[|h|..|h| + |a|] && a' == (h' + a' + t')[|h|..|h| + |a|];
  }

  lemma OutSame(input: seq<Byte>, f: Frame, h: seq<Byte>, buf: seq<Byte>, payload: seq<Byte>)
    requires |h| == HEADER_SIZE && input == h + buf + Trailer(h[2], h + buf)
    requires f.flags == h[2] && Versioned(f) == f && PayloadBytes(f) == Ok(payload)
    requires |payload| <= |buf| <= MAX_PAYLOAD_SIZE
    requires HeaderBytes(f, |buf|) == h[3 := 0]
    ensures Encode(f).1 == Ok(input) <==> payload == buf && h[3] == 0
  {
    EncodeIs(f, f, payload);
    var out := HeaderBytes(f, |payload|);
    if payload == buf && h[3] == 0 {
      assert h[3 := 0] == h;
    }
    if Encode(f).1 == Ok(input) {
      SameParts(h, buf, Trailer(h[2], h + buf), out, payload, Trailer(f.flags, out + payload));
      assert out[3] == 0;
    }
  }

  /** Sending a decoded frame on reproduces its very bytes if and only if they held nothing that
      Decode ignores. */
  lemma ReproducesCanonical(input: seq<Byte>)
    requires DecodeFrame(input).Ok? && FrameLength(input) == |input|
    ensures Encode(DecodeFrame(input).value).1 == Ok(input) <==> Canonical(input)
  {
    var f := DecodeFrame(input).value;
    var h, buf := input[..HEADER_SIZE], input[HEADER_SIZE..HEADER_SIZE + PayloadLength(input)];
    var base := Opened(h, Crc.Update(0, input[..HEADER_SIZE + |buf|]), FrameLength(input));
    InputParts(input, h, buf);
    SentOn(input, f, h, buf, base);
    BodyBack(base, buf, f);
    OutSame(input, f, h, buf, PayloadBytes(f).value);
    CanonicalParts(input, h, buf);
  }

  lemma CanonicalParts(input: seq<Byte>, h: seq<Byte>, buf: seq<Byte>)
    requires |h| == HEADER_SIZE && HEADER_SIZE + |buf| <= |input| && input[..HEADER_SIZE + |buf|] == h + buf
    ensures input[3] == h[3] && input[1] == h[1]
    ensures |buf| >= 16 ==> input[36] == RangeCount(buf) && input[37..40] == buf[13..16]
    ensures |buf| >= 16 ==> input[37] == buf[13] && input[38] == buf[14] && input[39] == buf[15]
  {
    var p := input[..HEADER_SIZE + |buf|];
    assert p[3] == h[3] && p[1] == h[1];
    if |buf| >= 16 {
      assert p[36] == buf[12] && p[37] == buf[13] && p[38] == buf[14] && p[39] == buf[15];
      assert p[37..40] == buf[13..16] && p[37..40] == input[37..40];
    }
  }

  // ----- Error detection -----

  lemma {:induction false} NumberInjective(a: seq<Byte>, b: seq<Byte>)
    requires |a| == |b| && Number(a) == Number(b)
    ensures a == b
  {
    BigEndianOfNumber(a);
    BigEndianOfNumber(b);
  }

  lemma AlteredSum(p: seq<Byte>, q: seq<Byte>, i: nat, j: nat, covered: nat)
    requires |p| == |q| && i <= j <= covered && j - i <= 4 && covered + TRAILER_SIZE <= |p|
    requires p[..i] == q[..i] && p[j..] == q[j..] && p != q
    ensures Crc.Update(0, p[..covered]) != Crc.Update(0, q[..covered])
  {
    var before, after := p[..i], p[j..covered];
    assert p == p[..i] + p[i..j] + p[j..] && q == q[..i] + q[i..j] + q[j..];
    assert p[..covered] == before + p[i..j] + after;
    assert q[j..covered] == q[j..][..covered - j] == after;
    assert q[..covered] == before + q[i..j] + after;
    Crc.BurstDetected(0, before, p[i..j], q[i..j], after);
  }

  lemma SameTail(p: seq<Byte>, q: seq<Byte>, j: nat, covered: nat)
    requires |p| == |q| && j <= covered && covered + TRAILER_SIZE == |p| && p[j..] == q[j..]
    ensures p[covered..covered + TRAILER_SIZE] == q[covered..covered + TRAILER_SIZE]
  {
    assert p[covered..] == p[j..][covered - j..] && q[covered..] == q[j..][covered - j..];
  }

  /** A frame with a trailer, altered within four consecutive bytes before the trailer, is
      rejected as long as the alteration leaves the length and the checksum flag standing. */
  lemma AlterationRejected(p: seq<Byte>, q: seq<Byte>, i: nat, j: nat)
    requires DecodeFrame(p).Ok? && HasChecksum(p[2]) && FrameLength(p) == |p| == |q|
    requires i <= j <= |p| - TRAILER_SIZE && j - i <= 4
    requires p[..i] == q[..i] && p[j..] == q[j..] && p != q
    requires HasChecksum(q[2]) && PayloadLength(q) == PayloadLength(p)
    ensures DecodeFrame(q).Err?
  {
    var covered := |p| - TRAILER_SIZE;
    AlteredSum(p, q, i, j, covered);
    SameTail(p, q, j, covered);
    assert SumMatches(p, covered) && !SumMatches(q, covered);
  }

  /** So is a frame with nothing altered but the trailer. */
  lemma TrailerAlterationRejected(p: seq<Byte>, q: seq<Byte>)
    requires DecodeFrame(p).Ok? && HasChecksum(p[2]) && FrameLength(p) == |p| == |q|
    requires p[..|p| - TRAILER_SIZE] == q[..|p| - TRAILER_SIZE] && p != q
    ensures DecodeFrame(q) == Err(ChecksumMismatch)
  {
    var covered := |p| - TRAILER_SIZE;
    assert p == p[..covered] + p[covered..] && q == q[..covered] + q[covered..];
    if Number(p[covered..]) == Number(q[covered..]) {
      NumberInjective(p[covered..], q[covered..]);
    }
    assert p[covered..covered + TRAILER_SIZE] == p[covered..] && q[covered..covered + TRAILER_SIZE] == q[covered..];
    SameHead(p, q, covered);
    assert SumMatches(p, covered) && !SumMatches(q, covered);
  }

  lemma SameHead(p: seq<Byte>, q: seq<Byte>, covered: nat)
    requires HEADER_SIZE <= covered <= |p| && covered <= |q| && p[..covered] == q[..covered]
    ensures PayloadLength(q) == PayloadLength(p) && q[0] == p[0] && q[2] == p[2]
  {
    assert p[20..24] == p[..covered][20..24] && q[20..24] == q[..covered][20..24];
    assert p[0] == p[..covered][0] && q[0] == q[..covered][0];
    assert p[2] == p[..covered][2] && q[2] == q[..covered][2];
  }

  /** The flags without FlagChecksumPresent. */
  function Cleared(flags: Byte): (r: Byte)
    ensures !HasChecksum(r)
  {
    if HasChecksum(flags) then flags - 2 else flags
  }

  lemma ClearedFrame(f: Frame, f': Frame)
    requires WellFormed(f) && f' == f.(flags := Cleared(f.flags))
    ensures WellFormed(f') && PayloadBytes(Versioned(f')) == PayloadBytes(Versioned(f))
  {
  }

  lemma ClearedBytes(v: Frame, payload: seq<Byte>, trailer: seq<Byte>)
    ensures var h := HeaderBytes(v, |payload|);
            (h + payload + trailer)[2 := Cleared(v.flags)]
            == HeaderBytes(v.(flags := Cleared(v.flags)), |payload|) + payload + trailer
  {
    var h := HeaderBytes(v, |payload|);
    var h' := HeaderBytes(v.(flags := Cleared(v.flags)), |payload|);
    assert h[2 := Cleared(v.flags)] == h';
    assert h + payload + trailer == h + (payload + trailer);
    assert (h + (payload + trailer))[2 := Cleared(v.flags)] == h' + (payload + trailer);
    assert h' + (payload + trailer) == h' + payload + trailer;
  }

  lemma EncodeIs(f: Frame, v: Frame, payload: seq<Byte>)
    requires v == Versioned(f) && PayloadBytes(v) == Ok(payload) && |payload| <= MAX_PAYLOAD_SIZE
    ensures var covered := HeaderBytes(v, |payload|) + payload;
            Encode(f).1 == Ok(covered + Trailer(v.flags, covered))
  {
  }

  lemma ClearedEncoding(f: Frame, f': Frame, v: Frame, v': Frame, payload: seq<Byte>, p: seq<Byte>, trailer: seq<Byte>)
    requires v == Versioned(f) && v' == Versioned(f') && v' == v.(flags := Cleared(v.flags))
    requires PayloadBytes(v) == PayloadBytes(v') == Ok(payload) && |payload| <= MAX_PAYLOAD_SIZE
    requires HasChecksum(v.flags) && Encode(f).1 == Ok(p)
    requires |p| > TRAILER_SIZE && trailer == p[|p| - TRAILER_SIZE..]
    ensures Encode(f').1.Ok? && p[2 := Cleared(f.flags)] == Encode(f').1.value + trailer
  {
    EncodeIs(f, v, payload);
    EncodeIs(f', v', payload);
    ClearedBytes(v, payload, trailer);
    assert Encode(f').1.value == HeaderBytes(v', |payload|) + payload;
  }

  /** The flag itself is not protected: a frame that has only its checksum flag cleared is still
      accepted, and its trailer is left to be taken for the next frame. */
  lemma ClearedFlagAccepted(f: Frame, f': Frame, p: seq<Byte>)
    requires WellFormed(f) && HasChecksum(f.flags) && f' == f.(flags := Cleared(f.flags))
    requires Encode(f).1 == Ok(p)
    ensures |p| > TRAILER_SIZE
    ensures Decode(p[2 := Cleared(f.flags)]) == Ok((Arrived(f'), p[|p| - TRAILER_SIZE..]))
  {
    EncodeParts(f, Versioned(f));
    ClearedFrame(f, f');
    ClearedEncoding(f, f', Versioned(f), Versioned(f'), PayloadBytes(Versioned(f)).value, p, p[|p| - TRAILER_SIZE..]);
    FrameRoundTrip(f', p[|p| - TRAILER_SIZE..]);
  }
}
