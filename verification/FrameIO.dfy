/** Encode and Decode as they run (internal/overlay/protocol/frame.go): buffers filled at moving
    offsets, a counting writer, and a reader consumed step by step. */
module FrameIO {
  import opened Basics
  import opened Words
  import opened Frames
  import Crc
  import S = Sack

  // ----- Writing -----

  /** Store the low `width` bytes of n at an offset, most significant first. */
  method PutNumber(buf: array<Byte>, at: nat, width: nat, n: nat)
    requires at + width <= buf.Length
    modifies buf
    ensures buf[..] == old(buf[..at]) + BigEndian(n, width) + old(buf[at + width..])
  {
    var rest := n;
    for i := width downto 0
      invariant buf[..at + i] == old(buf[..at + i])
      invariant buf[at + width..] == old(buf[at + width..])
      invariant BigEndian(n, width) == BigEndian(rest, i) + buf[at + i..at + width]
    {
      label Before:
      buf[at + i] := rest % 256;
      assert buf[at + i..at + width] == [rest % 256] + old@Before(buf[at + i + 1..at + width]);
      rest := rest / 256;
    }
  }

  lemma RangeBytesNext(ranges: seq<S.Range>, i: nat)
    requires i < |ranges|
    ensures RangeBytes(ranges[..i + 1])
         == RangeBytes(ranges[..i]) + (BigEndian(ranges[i].start, 8) + BigEndian(ranges[i].end, 8))
  {
    assert ranges[..i + 1][..i] == ranges[..i];
  }

  /** Store one range after another, from offset 16 on. */
  method PutRanges(buf: array<Byte>, ranges: seq<S.Range>)
    requires buf.Length == 16 + 16 * |ranges|
    modifies buf
    ensures buf[..] == old(buf[..16]) + RangeBytes(ranges)
  {
    var offset := 16;
    for i := 0 to |ranges|
      invariant offset == 16 + 16 * i
      invariant buf[..offset] == old(buf[..16]) + RangeBytes(ranges[..i])
    {
      ghost var done := buf[..offset];
      ghost var r := BigEndian(ranges[i].start, 8) + BigEndian(ranges[i].end, 8);
      PutNumber(buf, offset, 8, ranges[i].start);
      PutNumber(buf, offset + 8, 8, ranges[i].end);
      RangeBytesNext(ranges, i);
      assert buf[..offset + 16] == done + r;
      offset := offset + 16;
    }
    assert ranges[..|ranges|] == ranges;
    assert buf[..] == buf[..offset];
  }

  lemma ThreeStores(zero: seq<Byte>, one: seq<Byte>, two: seq<Byte>, a: seq<Byte>, b: seq<Byte>, n: Byte)
    requires |zero| >= 16 && |a| == 8 && |b| == 4
    requires one == zero[..0] + a + zero[8..] && two == one[..8] + b + one[12..]
    requires zero[13] == zero[14] == zero[15] == 0
    ensures two[12 := n][..16] == a + b + [n, 0, 0, 0]
  {
    assert two[..12] == a + b && two[13] == 0 && two[14] == 0 && two[15] == 0;
    var three := two[12 := n];
    assert three[..16] == three[..12] + [three[12], three[13], three[14], three[15]];
    assert three[..12] == two[..12];
  }

  method MakeAckPayload(ack: Ack) returns (payload: seq<Byte>)
    ensures payload == AckBytes(ack)
  {
    var ranges := ack.ranges;
    if |ranges| > S.MAX_SACK_RANGES {
      ranges := ranges[..S.MAX_SACK_RANGES];
    }
    assert ranges == S.FirstRanges(ack.ranges);
    var n: Byte := |ranges|;
    var buf := new Byte[16 + 16 * n](_ => 0);
    ghost var zero := buf[..];
    ghost var head := BigEndian(ack.ackSeq, 8) + BigEndian(ack.credit, 4) + [n, 0, 0, 0];
    PutNumber(buf, 0, 8, ack.ackSeq);
    ghost var one := buf[..];
    PutNumber(buf, 8, 4, ack.credit);
    ghost var two := buf[..];
    buf[12] := n;
    assert buf[..] == two[12 := n];
    ThreeStores(zero, one, two, BigEndian(ack.ackSeq, 8), BigEndian(ack.credit, 4), n);
    assert buf[..16] == buf[..][..16] == head;
    PutRanges(buf, ranges);
    return buf[..];
  }

  method MakePayload(f: Frame) returns (r: Result<seq<Byte>, Error>)
    ensures r == PayloadBytes(f)
  {
    if |f.payload| > 0 {
      return Ok(f.payload);
    }
    if f.kind == DATA {
      return Ok(f.payload);
    } else if f.kind == ACK {
      if f.ack.None? {
        return Err(PayloadMissing);
      }
      var payload := MakeAckPayload(f.ack.value);
      return Ok(payload);
    } else if f.kind == CONTROL {
      if f.control.None? {
        return Err(PayloadMissing);
      }
      return Ok(f.control.value);
    } else if f.kind == HEARTBEAT {
      if f.heartbeat.None? {
        return Err(PayloadMissing);
      }
      var buf := new Byte[8](_ => 0);
      PutNumber(buf, 0, 8, Unsigned(f.heartbeat.value));
      assert buf[..] == BigEndian(Unsigned(f.heartbeat.value), 8);
      return Ok(buf[..]);
    }
    return Err(InvalidType);
  }

  method MakeHeader(f: Frame, length: nat) returns (header: seq<Byte>)
    ensures header == HeaderBytes(f, length)
  {
    var buf := new Byte[HEADER_SIZE](_ => 0);
    buf[0], buf[1], buf[2] := f.version, f.kind, f.flags;
    assert buf[..4] == [f.version, f.kind, f.flags, 0];
    PutNumber(buf, 4, 4, f.sessionId);
    PutNumber(buf, 8, 4, f.streamId);
    PutNumber(buf, 12, 8, f.seqno);
    PutNumber(buf, 20, 4, length);
    header := buf[..];
  }

  method MakeTrailer(header: seq<Byte>, payload: seq<Byte>) returns (sum: Uint32, trailer: seq<Byte>)
    ensures sum == Crc.Update(0, header + payload) && trailer == BigEndian(sum, 4)
  {
    sum := Crc.Sum(0, header);
    sum := Crc.Sum(sum, payload);
    Crc.UpdateJoins(0, header, payload);
    var buf := new Byte[TRAILER_SIZE](_ => 0);
    PutNumber(buf, 0, 4, sum);
    assert buf[..] == BigEndian(sum, 4);
    trailer := buf[..];
  }

  /** A write took what there was room for, and is a success exactly when that was everything. */
  ghost predicate Wrote(before: seq<Byte>, room: nat, bytes: seq<Byte>, after: seq<Byte>, room': nat, ok: bool) {
    var taken := Min(|bytes|, room);
    after == before + bytes[..taken] && room' == room - taken && ok == (taken == |bytes|)
  }

  lemma WroteBoth(
      o0: seq<Byte>, r0: nat, a: seq<Byte>, o1: seq<Byte>, r1: nat, b: seq<Byte>, o2: seq<Byte>, r2: nat,
      ok: bool)
    requires Wrote(o0, r0, a, o1, r1, true) && Wrote(o1, r1, b, o2, r2, ok)
    ensures Wrote(o0, r0, a + b, o2, r2, ok)
  {
    var taken := Min(|b|, r1);
    assert (a + b)[..|a| + taken] == a + b[..taken];
    assert a[..|a|] == a;
    assert o0 + a + b[..taken] == o0 + (a + b[..taken]);
  }

  lemma WroteShort(o0: seq<Byte>, r0: nat, a: seq<Byte>, o1: seq<Byte>, r1: nat, b: seq<Byte>)
    requires Wrote(o0, r0, a, o1, r1, false)
    ensures Wrote(o0, r0, a + b, o1, r1, false)
  {
    assert (a + b)[..r0] == a[..r0];
  }

  /** A connection that takes `room` more bytes before it fails. */
  class Sink {
    var output: seq<Byte>
    var room: nat

    constructor (room: nat)
      ensures output == [] && this.room == room
    {
      output, this.room := [], room;
    }

    method Write(p: seq<Byte>) returns (n: nat, ok: bool)
      modifies this
      ensures n == Min(|p|, old(room)) && Wrote(old(output), old(room), p, output, room, ok)
    {
      n := Min(|p|, room);
      ok := n == |p|;
      output := output + p[..n];
      room := room - n;
    }
  }

  class CountingWriter {
    const w: Sink
    var written: nat

    constructor (w: Sink)
      ensures this.w == w && written == 0
    {
      this.w, written := w, 0;
    }

    method Write(p: seq<Byte>) returns (ok: bool)
      modifies this, w
      ensures Wrote(old(w.output), old(w.room), p, w.output, w.room, ok)
      ensures written == old(written) + Min(|p|, old(w.room))
    {
      var n;
      n, ok := w.Write(p);
      written := written + n;
    }
  }

  lemma EncodeWith(f: Frame, v: Frame, payload: seq<Byte>, covered: seq<Byte>, trailer: seq<Byte>)
    requires v == Versioned(f) && PayloadBytes(v) == Ok(payload) && |payload| <= MAX_PAYLOAD_SIZE
    requires covered == HeaderBytes(v, |payload|) + payload && trailer == Trailer(v.flags, covered)
    ensures Frames.Encode(f)
         == (v.(checksum := if HasChecksum(v.flags) then Crc.Update(0, covered) else v.checksum,
                wireLength := |covered| + |trailer|),
             Ok(covered + trailer))
  {
  }

  /** A frame on its way out: Encode fills in its version, sum and length. */
  class Outgoing {
    var frame: Frame

    constructor (frame: Frame)
      ensures this.frame == frame
    {
      this.frame := frame;
    }

    /** The trailer, when the flags ask for one. */
    method WriteTrailer(cw: CountingWriter, header: seq<Byte>, payload: seq<Byte>) returns (ok: bool)
      modifies this, cw, cw.w
      ensures var trailer := Trailer(old(frame).flags, header + payload);
              && Wrote(old(cw.w.output), old(cw.w.room), trailer, cw.w.output, cw.w.room, ok)
              && (ok ==> cw.written == old(cw.written) + |trailer|)
      ensures frame == if HasChecksum(old(frame).flags)
                       then old(frame).(checksum := Crc.Update(0, header + payload)) else old(frame)
    {
      if HasChecksum(frame.flags) {
        var sum, trailer := MakeTrailer(header, payload);
        frame := frame.(checksum := sum);
        ok := cw.Write(trailer);
      } else {
        ok := true;
      }
    }

    /** Header, payload and trailer, in this order, until a write fails. */
    method WriteParts(cw: CountingWriter, header: seq<Byte>, payload: seq<Byte>) returns (ok: bool)
      modifies this, cw, cw.w
      ensures var bytes := header + payload + Trailer(old(frame).flags, header + payload);
              && Wrote(old(cw.w.output), old(cw.w.room), bytes, cw.w.output, cw.w.room, ok)
              && (ok ==> cw.written == old(cw.written) + |bytes|)
      ensures ok ==> frame == if HasChecksum(old(frame).flags)
                              then old(frame).(checksum := Crc.Update(0, header + payload)) else old(frame)
      ensures frame.(checksum := old(frame).checksum) == old(frame)
    {
      ghost var trailer := Trailer(frame.flags, header + payload);
      ghost var o0, r0 := cw.w.output, cw.w.room;
      ok := cw.Write(header);
      ghost var o1, r1 := cw.w.output, cw.w.room;
      if !ok {
        WroteShort(o0, r0, header, o1, r1, payload);
        WroteShort(o0, r0, header + payload, o1, r1, trailer);
        return;
      }
      if |payload| > 0 {
        ok := cw.Write(payload);
      }
      ghost var o2, r2 := cw.w.output, cw.w.room;
      WroteBoth(o0, r0, header, o1, r1, payload, o2, r2, ok);
      if !ok {
        WroteShort(o0, r0, header + payload, o2, r2, trailer);
        return;
      }
      ok := WriteTrailer(cw, header, payload);
      WroteBoth(o0, r0, header + payload, o2, r2, trailer, cw.w.output, cw.w.room, ok);
    }

    method Encode(w: Sink) returns (err: Option<Error>)
      modifies this, w
      ensures var (f, r) := Frames.Encode(old(frame));
              && (r.Err? ==>
                    err == Some(r.error) && frame == f && w.output == old(w.output) && w.room == old(w.room))
              && (r.Ok? ==>
                    && Wrote(old(w.output), old(w.room), r.value, w.output, w.room, err == None)
                    && (if err == None then frame == f
                        else err == Some(WriteFailed)
                             && frame.(checksum := f.checksum, wireLength := f.wireLength) == f))
    {
      if frame.version == 0 {
        frame := frame.(version := VERSION);
      }
      var r := MakePayload(frame);
      if r.Err? {
        return Some(r.error);
      }
      var payload := r.value;
      if |payload| > MAX_PAYLOAD_SIZE {
        return Some(PayloadTooLarge);
      }
      var header := MakeHeader(frame, |payload|);
      EncodeWith(old(frame), frame, payload, header + payload, Trailer(frame.flags, header + payload));
      var cw := new CountingWriter(w);
      var ok := WriteParts(cw, header, payload);
      if !ok {
        return Some(WriteFailed);
      }
      frame := frame.(wireLength := cw.written);
      return None;
    }
  }

  // ----- Reading -----

  class Source {
    const data: seq<Byte>
    var at: nat

    ghost predicate Valid()
      reads this
    {
      at <= |data|
    }

    ghost function Rest(): seq<Byte>
      requires Valid()
      reads this
    {
      data[at..]
    }

    constructor (data: seq<Byte>)
      ensures Valid() && Rest() == data
    {
      this.data, at := data, 0;
    }

    /** All n bytes, or whatever is left and an error. */
    method ReadFull(n: nat) returns (r: Result<seq<Byte>, Error>)
      requires Valid() && n > 0
      modifies this
      ensures Valid()
      ensures |old(Rest())| >= n ==> r == Ok(old(Rest())[..n]) && Rest() == old(Rest())[n..]
      ensures |old(Rest())| < n ==> r == Err(Short(|old(Rest())|)) && Rest() == []
    {
      assert forall k :: 0 <= k <= |data| - at ==>
          data[at..][..k] == data[at..at + k] && data[at..][k..] == data[at + k..];
      if at + n <= |data| {
        r := Ok(data[at..at + n]);
        at := at + n;
      } else {
        r := Err(if at == |data| then EndOfInput else UnexpectedEnd);
        at := |data|;
      }
    }
  }

  /** The big-endian number in a slice, read byte by byte. */
  method GetNumber(bytes: seq<Byte>) returns (n: nat)
    ensures n == Number(bytes)
  {
    n := 0;
    for i := 0 to |bytes|
      invariant n == Number(bytes[..i])
    {
      assert bytes[..i + 1][..i] == bytes[..i];
      n := n * 256 + bytes[i];
    }
    assert bytes[..|bytes|] == bytes;
  }

  method ReadAck(buf: seq<Byte>) returns (r: Result<Ack, Error>)
    ensures r == ParseAck(buf)
  {
    if |buf| < 16 || (|buf| - 16) % 16 != 0 {
      return Err(BadAckLength);
    }
    var rangeCount: nat := buf[12];
    if |buf| != 16 + 16 * rangeCount {
      return Err(BadAckCount);
    }
    var n := Min(rangeCount, S.MAX_SACK_RANGES);
    var ranges := [];
    var offset := 16;
    for i := 0 to n
      invariant offset == 16 + 16 * i
      invariant ranges == RangesOf(buf, n)[..i] && !AnyBackward(ranges)
    {
      var start := GetNumber(buf[offset..offset + 8]);
      var end := GetNumber(buf[offset + 8..offset + 16]);
      assert S.Range(start, end) == RangesOf(buf, n)[i];
      if end < start {
        return Err(BadRange);
      }
      ranges := ranges + [S.Range(start, end)];
      offset := offset + 16;
    }
    var ackSeq := GetNumber(buf[..8]);
    var credit := GetNumber(buf[8..12]);
    assert ranges == AckOf(buf).ranges;
    assert AckOf(buf) == S.Ack(ackSeq, credit, ranges);
    return Ok(S.Ack(ackSeq, credit, ranges));
  }

  /** The switch on the frame kind. */
  method ReadBody(frame: Frame, buf: seq<Byte>) returns (r: Result<Frame, Error>)
    ensures r == ParseBody(frame, buf)
  {
    if frame.kind == DATA {
      return Ok(frame.(payload := buf));
    } else if frame.kind == ACK {
      var ack := ReadAck(buf);
      if ack.Err? {
        return Err(ack.error);
      }
      return Ok(frame.(ack := Some(ack.value)));
    } else if frame.kind == CONTROL {
      if |buf| == 0 {
        return Err(BadControl);
      }
      return Ok(frame.(control := Some(buf)));
    } else if frame.kind == HEARTBEAT {
      if |buf| != 8 {
        return Err(BadHeartbeat);
      }
      var n := GetNumber(buf);
      Widths();
      NumberBound(buf);
      return Ok(frame.(heartbeat := Some(Signed(n))));
    }
    return Err(InvalidType);
  }

  method ReadHeader(header: seq<Byte>) returns (frame: Frame)
    requires |header| == HEADER_SIZE
    ensures frame == ParseHeader(header)
  {
    var sessionId := GetNumber(header[4..8]);
    var streamId := GetNumber(header[8..12]);
    var seqno := GetNumber(header[12..20]);
    Widths();
    NumberBound(header[4..8]);
    NumberBound(header[8..12]);
    NumberBound(header[12..20]);
    return Frame(header[0], header[1], header[2], sessionId, streamId, seqno, [], 0, false, 0, None, None, None);
  }

  method ReadPayload(r: Source, length: nat) returns (body: Result<seq<Byte>, Error>)
    requires r.Valid()
    modifies r
    ensures r.Valid()
    ensures |old(r.Rest())| >= length ==> body == Ok(old(r.Rest())[..length]) && r.Rest() == old(r.Rest())[length..]
    ensures |old(r.Rest())| < length ==> body == Err(Short(|old(r.Rest())|))
  {
    if length == 0 {
      return Ok([]);
    }
    body := r.ReadFull(length);
  }

  /** The sum of a header and a payload, if the trailer that follows agrees with it; nothing is read
      for a frame without a trailer. */
  method ReadTrailer(r: Source, flags: Byte, header: seq<Byte>, payload: seq<Byte>)
    returns (checked: Result<Uint32, Error>, checksumLen: nat)
    requires r.Valid()
    modifies r
    ensures r.Valid()
    ensures !HasChecksum(flags) ==> checked == Ok(0) && checksumLen == 0 && r.Rest() == old(r.Rest())
    ensures HasChecksum(flags) ==>
              var rest, sum := old(r.Rest()), Crc.Update(0, header + payload);
              if |rest| < TRAILER_SIZE then checked == Err(Short(|rest|))
              else if Number(rest[..TRAILER_SIZE]) != sum then checked == Err(ChecksumMismatch)
              else checked == Ok(sum) && checksumLen == TRAILER_SIZE && r.Rest() == rest[TRAILER_SIZE..]
  {
    if !HasChecksum(flags) {
      return Ok(0), 0;
    }
    checksumLen := TRAILER_SIZE;
    var trailer := r.ReadFull(TRAILER_SIZE);
    if trailer.Err? {
      return Err(trailer.error), 0;
    }
    var expected := GetNumber(trailer.value);
    var sum := Crc.Sum(0, header);
    sum := Crc.Sum(sum, payload);
    Crc.UpdateJoins(0, header, payload);
    if sum != expected {
      return Err(ChecksumMismatch), 0;
    }
    checked := Ok(sum);
  }

  lemma HeaderRead(input: seq<Byte>, header: seq<Byte>)
    requires |input| >= HEADER_SIZE && header == input[..HEADER_SIZE]
    ensures Number(header[20..24]) == PayloadLength(input)
    ensures header[0] == input[0] && header[2] == input[2]
  {
    assert header[20..24] == input[20..24];
  }

  lemma PayloadRead(input: seq<Byte>, header: seq<Byte>, payload: seq<Byte>)
    requires |input| >= HEADER_SIZE && header == input[..HEADER_SIZE]
    requires |input| >= HEADER_SIZE + PayloadLength(input)
    requires payload == input[HEADER_SIZE..][..PayloadLength(input)]
    ensures var covered := HEADER_SIZE + PayloadLength(input);
            && payload == input[HEADER_SIZE..covered] && header + payload == input[..covered]
            && input[HEADER_SIZE..][PayloadLength(input)..] == input[covered..]
  {
  }

  lemma TrailerRead(input: seq<Byte>, covered: nat, rest: seq<Byte>)
    requires HEADER_SIZE <= |input| && covered == HEADER_SIZE + PayloadLength(input) <= |input|
    requires rest == input[covered..]
    requires HasChecksum(input[2])
    ensures |rest| >= TRAILER_SIZE ==>
              && SumDiffers(input) == (Number(rest[..TRAILER_SIZE]) != Crc.Update(0, input[..covered]))
              && rest[TRAILER_SIZE..] == input[covered + TRAILER_SIZE..]
  {
    if |rest| >= TRAILER_SIZE {
      assert rest[..TRAILER_SIZE] == input[covered..covered + TRAILER_SIZE];
    }
  }

  /** What Decode has in hand when it comes to the switch on the frame kind. */
  ghost function PartsOf(input: seq<Byte>): (Frame, seq<Byte>)
    requires |input| >= HEADER_SIZE && FrameLength(input) <= |input|
  {
    var covered := HEADER_SIZE + PayloadLength(input);
    (Opened(input[..HEADER_SIZE], Crc.Update(0, input[..covered]), FrameLength(input)),
     input[HEADER_SIZE..covered])
  }

  lemma PartsRead(input: seq<Byte>, header: seq<Byte>, payload: seq<Byte>, sum: Uint32, length: nat)
    requires |input| >= HEADER_SIZE && FrameLength(input) <= |input| && header == input[..HEADER_SIZE]
    requires var covered := HEADER_SIZE + PayloadLength(input);
             payload == input[HEADER_SIZE..covered] && header + payload == input[..covered]
    requires sum == if HasChecksum(input[2]) then Crc.Update(0, header + payload) else 0
    requires length == FrameLength(input)
    ensures PartsOf(input) == (ParseHeader(header).(checksum := sum, wireLength := length), payload)
  {
  }

  /** The header and the payload, unless they are refused or cut short. */
  method ReadCovered(r: Source) returns (parts: Result<(seq<Byte>, seq<Byte>), Error>)
    requires r.Valid()
    modifies r
    ensures r.Valid()
    ensures var input := old(r.Rest());
            if |input| < HEADER_SIZE then parts == Err(Short(|input|))
            else
              var covered := HEADER_SIZE + PayloadLength(input);
              match Verdict(|input|, input[0], 0, PayloadLength(input), false)
              case Some(e) => parts == Err(e)
              case None =>
                parts == Ok((input[..HEADER_SIZE], input[HEADER_SIZE..covered])) && r.Rest() == input[covered..]
  {
    ghost var input := r.Rest();
    var head := r.ReadFull(HEADER_SIZE);
    if head.Err? {
      return Err(head.error);
    }
    var header := head.value;
    HeaderRead(input, header);
    if header[0] != VERSION {
      return Err(UnsupportedVersion);
    }
    var length := GetNumber(header[20..24]);
    if length > MAX_PAYLOAD_SIZE {
      return Err(PayloadTooLarge);
    }
    var body := ReadPayload(r, length);
    if body.Err? {
      return Err(body.error);
    }
    PayloadRead(input, header, body.value);
    return Ok((header, body.value));
  }

  /** What decides once header and payload are read: the trailer, if the flags ask for one. */
  lemma RefusalAfterCovered(input: seq<Byte>, covered: nat, rest: seq<Byte>)
    requires |input| >= HEADER_SIZE && covered == HEADER_SIZE + PayloadLength(input) <= |input|
    requires Verdict(|input|, input[0], 0, PayloadLength(input), false) == None && rest == input[covered..]
    ensures Refusal(input)
         == if !HasChecksum(input[2]) then None
            else if |rest| < TRAILER_SIZE then Some(Short(|rest|))
            else if Number(rest[..TRAILER_SIZE]) != Crc.Update(0, input[..covered]) then Some(ChecksumMismatch)
            else None
    ensures FrameLength(input) == covered + if HasChecksum(input[2]) then TRAILER_SIZE else 0
    ensures |rest| >= TRAILER_SIZE ==> rest[TRAILER_SIZE..] == input[covered + TRAILER_SIZE..]
  {
    if HasChecksum(input[2]) {
      TrailerRead(input, covered, rest);
    }
  }

  lemma RefusalBefore(input: seq<Byte>)
    requires |input| >= HEADER_SIZE
    requires Verdict(|input|, input[0], 0, PayloadLength(input), false).Some?
    ensures Refusal(input) == Verdict(|input|, input[0], 0, PayloadLength(input), false)
  {
  }

  /** Everything up to the switch on the frame kind. */
  method ReadParts(r: Source) returns (parts: Result<(Frame, seq<Byte>), Error>)
    requires r.Valid()
    modifies r
    ensures r.Valid()
    ensures Refusal(old(r.Rest())).Some? ==> parts == Err(Refusal(old(r.Rest())).value)
    ensures Refusal(old(r.Rest())).None? ==>
              parts == Ok(PartsOf(old(r.Rest()))) && r.Rest() == old(r.Rest())[FrameLength(old(r.Rest()))..]
  {
    ghost var input := r.Rest();
    var both := ReadCovered(r);
    if both.Err? {
      if |input| >= HEADER_SIZE {
        RefusalBefore(input);
      }
      return Err(both.error);
    }
    var (header, payload) := both.value;
    HeaderRead(input, header);
    var covered := HEADER_SIZE + |payload|;
    RefusalAfterCovered(input, covered, r.Rest());
    assert header + payload == input[..covered];
    var frame := ReadHeader(header);
    var checked, checksumLen := ReadTrailer(r, header[2], header, payload);
    if checked.Err? {
      return Err(checked.error);
    }
    frame := frame.(checksum := checked.value, wireLength := covered + checksumLen);
    PartsRead(input, header, payload, checked.value, covered + checksumLen);
    return Ok((frame, payload));
  }

  /** One frame from a connection; after an error the connection is not used again. */
  method Decode(r: Source) returns (result: Result<Frame, Error>)
    requires r.Valid()
    modifies r
    ensures r.Valid() && result == DecodeFrame(old(r.Rest()))
    ensures result.Ok? ==> r.Rest() == old(r.Rest())[FrameLength(old(r.Rest()))..]
  {
    var parts := ReadParts(r);
    if parts.Err? {
      return Err(parts.error);
    }
    var (frame, payload) := parts.value;
    result := ReadBody(frame, payload);
  }
}
