/** The wire format byte by byte: which byte strings are accepted, and what every field of an accepted
    frame is. */
module FrameLayout {
  import opened Basics
  import opened Words
  import opened Frames
  import Crc
  import S = Sack

  /** The four bytes from `at` on as a number, most significant first. */
  function Word32(b: seq<Byte>, at: nat): nat
    requires at + 4 <= |b|
  {
    b[at] as nat * 0x100_0000 + b[at + 1] as nat * 0x1_0000 + b[at + 2] as nat * 0x100 + b[at + 3]
  }

  /** The eight bytes from `at` on. */
  function Word64(b: seq<Byte>, at: nat): nat
    requires at + 8 <= |b|
  {
    Word32(b, at) * 0x1_0000_0000 + Word32(b, at + 4)
  }

  lemma NumberNext(bytes: seq<Byte>, front: seq<Byte>, last: Byte)
    requires bytes == front + [last]
    ensures Number(bytes) == Number(front) * 256 + last
  {
    assert bytes[..|bytes| - 1] == front;
  }

  lemma NumberFour(bytes: seq<Byte>)
    requires |bytes| == 4
    ensures Number(bytes) == Word32(bytes, 0)
  {
    NumberNext(bytes[..1], [], bytes[0]);
    NumberNext(bytes[..2], bytes[..1], bytes[1]);
    NumberNext(bytes[..3], bytes[..2], bytes[2]);
    NumberNext(bytes, bytes[..3], bytes[3]);
  }

  lemma Number32(b: seq<Byte>, at: nat)
    requires at + 4 <= |b|
    ensures Number(b[at..at + 4]) == Word32(b, at)
  {
    NumberFour(b[at..at + 4]);
  }

  lemma Number64(b: seq<Byte>, at: nat)
    requires at + 8 <= |b|
    ensures Number(b[at..at + 8]) == Word64(b, at)
  {
    Number32(b, at);
    NumberNext(b[at..at + 5], b[at..at + 4], b[at + 4]);
    NumberNext(b[at..at + 6], b[at..at + 5], b[at + 5]);
    NumberNext(b[at..at + 7], b[at..at + 6], b[at + 6]);
    NumberNext(b[at..at + 8], b[at..at + 7], b[at + 7]);
  }

  // ----- What is accepted -----

  /** The bit of value 2 of the flags announces a trailer. */
  predicate Flagged(input: seq<Byte>)
    requires |input| >= 24
  {
    input[2] % 4 >= 2
  }

  function Total(input: seq<Byte>): nat
    requires |input| >= 24
  {
    24 + Word32(input, 20) + if Flagged(input) then 4 else 0
  }

  /** The header is of version 1 and announces at most 1 MiB, all announced bytes are there, and the
      trailer, if there is one, is the sum of everything before it. */
  predicate Whole(input: seq<Byte>) {
    && |input| >= 24
    && input[0] == 1
    && Word32(input, 20) <= 1_048_576
    && Total(input) <= |input|
    && (Flagged(input) ==>
          Word32(input, 24 + Word32(input, 20)) == Crc.Update(0, input[..24 + Word32(input, 20)]))
  }

  /** The i-th range of an ACK payload that starts at byte 24. */
  function RangeIn(input: seq<Byte>, i: nat): S.Range
    requires 56 + 16 * i <= |input|
  {
    S.Range(Word64(input, 40 + 16 * i), Word64(input, 48 + 16 * i))
  }

  /** The body fits the type: 1 DATA, 2 ACK, 3 CONTROL, 4 HEARTBEAT. */
  predicate BodyFits(input: seq<Byte>)
    requires Whole(input)
  {
    var n := Word32(input, 20);
    || input[1] == 1
    || (input[1] == 2 && n >= 16 && n == 16 + 16 * input[36] as nat
        && forall i :: 0 <= i < input[36] && i < 4 ==> RangeIn(input, i).start <= RangeIn(input, i).end)
    || (input[1] == 3 && n > 0)
    || (input[1] == 4 && n == 8)
  }

  lemma LayoutOfHeader(input: seq<Byte>)
    requires |input| >= 24
    ensures HasChecksum(input[2]) <==> Flagged(input)
    ensures PayloadLength(input) == Word32(input, 20) && FrameLength(input) == Total(input)
  {
    Number32(input, 20);
  }

  lemma WholeExact(input: seq<Byte>)
    ensures Refusal(input) == None <==> Whole(input)
  {
    if |input| >= 24 {
      LayoutOfHeader(input);
      var covered := 24 + Word32(input, 20);
      if Flagged(input) && covered + 4 <= |input| {
        Number32(input, covered);
      }
    }
  }

  lemma BodyNumber(input: seq<Byte>, buf: seq<Byte>, lo: nat, hi: nat)
    requires 24 + |buf| <= |input| && buf == input[24..24 + |buf|] && hi == lo + 8 <= |buf|
    ensures Number(buf[lo..hi]) == Word64(input, 24 + lo)
  {
    var a, b := buf[lo..hi], input[24 + lo..24 + hi];
    forall j | 0 <= j < 8
      ensures a[j] == b[j]
    {
      assert a[j] == buf[lo + j] == input[24 + (lo + j)];
    }
    assert a == b;
    Number64(input, 24 + lo);
  }

  lemma RangeRead(input: seq<Byte>, buf: seq<Byte>, i: nat)
    requires 24 + |buf| <= |input| && buf == input[24..24 + |buf|] && 32 + 16 * i <= |buf|
    ensures RangeAt(buf, i) == RangeIn(input, i)
  {
    var at := 16 * i;
    BodyNumber(input, buf, at + 16, at + 24);
    BodyNumber(input, buf, at + 24, at + 32);
  }

  lemma AckFits(input: seq<Byte>, buf: seq<Byte>)
    requires Whole(input) && buf == input[24..24 + Word32(input, 20)] && input[1] == 2
    ensures ParseAck(buf).Ok? <==> BodyFits(input)
  {
    if |buf| >= 16 {
      assert buf[12] == input[36];
      if |buf| == 16 + 16 * input[36] as nat {
        forall i | 0 <= i < input[36] && i < 4
          ensures AckOf(buf).ranges[i] == RangeIn(input, i)
        {
          RangeRead(input, buf, i);
        }
        assert |AckOf(buf).ranges| == Min(input[36], 4);
      }
    }
  }

  /** Decode accepts exactly the byte strings that start with a whole frame whose body fits its type. */
  lemma AcceptedExactly(input: seq<Byte>)
    ensures Decode(input).Ok? <==> Whole(input) && BodyFits(input)
  {
    WholeExact(input);
    if Whole(input) {
      LayoutOfHeader(input);
      var buf := input[24..24 + Word32(input, 20)];
      if input[1] == 2 {
        AckFits(input, buf);
      }
    }
  }

  /** Encode accepts a frame that carries a payload, or the body of its type, of at most 1 MiB. */
  lemma EncodedExactly(f: Frame)
    ensures Encode(f).1.Ok? <==>
              if f.payload != [] then |f.payload| <= 1_048_576
              else
                || f.kind == 1
                || (f.kind == 2 && f.ack.Some?)
                || (f.kind == 3 && f.control.Some? && |f.control.value| <= 1_048_576)
                || (f.kind == 4 && f.heartbeat.Some?)
    ensures Encode(f).1.Err? ==>
              Encode(f).1.error ==
                if f.payload != [] || (f.kind == 3 && f.control.Some?) then PayloadTooLarge
                else if 2 <= f.kind <= 4 then PayloadMissing
                else InvalidType
  {
  }

  lemma LastWord(covered: seq<Byte>, sum: Uint32, bytes: seq<Byte>)
    requires bytes == covered + BigEndian(sum, 4)
    ensures Word32(bytes, |bytes| - 4) == sum
  {
    var at := |covered|;
    assert bytes[at..at + 4] == BigEndian(sum, 4);
    Uint32RoundTrip(sum);
    Number32(bytes, at);
  }

  /** Encode fills in the version, the length and, with a trailer, the sum it has written last; a refused
      frame only gets its version. */
  lemma EncodeFills(f: Frame, g: Frame, bytes: seq<Byte>)
    requires Encode(f).0 == g
    ensures Encode(f).1.Err? ==> g == f.(version := if f.version == 0 then 1 else f.version)
    ensures Encode(f).1 == Ok(bytes) ==>
              && |bytes| >= 24
              && g == f.(version := if f.version == 0 then 1 else f.version, wireLength := |bytes|,
                         checksum := if f.flags % 4 >= 2 then Word32(bytes, |bytes| - 4) else f.checksum)
  {
    if Encode(f).1 == Ok(bytes) && f.flags % 4 >= 2 {
      var v := Versioned(f);
      var payload := PayloadBytes(v).value;
      LastWord(HeaderBytes(v, |payload|) + payload, g.checksum, bytes);
    }
  }

  /** Input that ends where more is needed: right there, or in the middle. */
  function EndsAt(available: nat): Error {
    if available == 0 then EndOfInput else UnexpectedEnd
  }

  /** What is wrong with an input that is not accepted: the first fault in the order of reading. */
  function Fault(input: seq<Byte>): Error
    requires !(Whole(input) && BodyFits(input))
  {
    if |input| < 24 then EndsAt(|input|)
    else if input[0] != 1 then UnsupportedVersion
    else
      var n := Word32(input, 20);
      if n > 1_048_576 then PayloadTooLarge
      else if |input| < 24 + n then EndsAt(|input| - 24)
      else if |input| < Total(input) then EndsAt(|input| - 24 - n)
      else if !Whole(input) then ChecksumMismatch
      else if input[1] == 2 then
        if n < 16 || n % 16 != 0 then BadAckLength
        else if n != 16 + 16 * input[36] as nat then BadAckCount
        else BadRange
      else if input[1] == 3 then BadControl
      else if input[1] == 4 then BadHeartbeat
      else InvalidType
  }

  lemma AckFault(input: seq<Byte>, buf: seq<Byte>)
    requires Whole(input) && buf == input[24..24 + Word32(input, 20)] && input[1] == 2 && !BodyFits(input)
    ensures ParseAck(buf) == Err(Fault(input))
  {
    AckFits(input, buf);
    assert |buf| >= 16 ==> buf[12] == input[36];
  }

  /** An input that is not accepted is rejected with that fault. */
  lemma RejectedWith(input: seq<Byte>)
    requires !(Whole(input) && BodyFits(input))
    ensures Decode(input) == Err(Fault(input))
  {
    WholeExact(input);
    if |input| >= 24 {
      LayoutOfHeader(input);
    }
    if Whole(input) && input[1] == 2 {
      AckFault(input, input[24..24 + Word32(input, 20)]);
    }
  }

  // ----- What the fields are -----

  /** The two's complement reading of eight bytes. */
  predicate IsSigned(n: int, word: nat) {
    -0x8000_0000_0000_0000 <= n < 0x8000_0000_0000_0000 && (n - word) % 0x1_0000_0000_0000_0000 == 0
  }

  ghost predicate HeaderRead(input: seq<Byte>, f: Frame)
    requires Whole(input)
  {
    && f.version == 1 && f.kind == input[1] && f.flags == input[2]
    && f.sessionId == Word32(input, 4) && f.streamId == Word32(input, 8) && f.seqno == Word64(input, 12)
    && f.wireLength == Total(input)
    && f.checksum == if Flagged(input) then Crc.Update(0, input[..24 + Word32(input, 20)]) else 0
  }

  ghost predicate AckRead(input: seq<Byte>, ack: Ack)
    requires Whole(input) && BodyFits(input) && input[1] == 2
  {
    && ack.ackSeq == Word64(input, 24) && ack.credit == Word32(input, 32)
    && |ack.ranges| == Min(input[36], 4)
    && forall i :: 0 <= i < |ack.ranges| ==> ack.ranges[i] == RangeIn(input, i)
  }

  ghost predicate BodyRead(input: seq<Byte>, f: Frame)
    requires Whole(input) && BodyFits(input)
  {
    var body := input[24..24 + Word32(input, 20)];
    && f.payload == (if input[1] == 1 then body else [])
    && (if input[1] == 2 then f.ack.Some? && AckRead(input, f.ack.value) else f.ack == None)
    && f.control == (if input[1] == 3 then Some(body) else None)
    && (if input[1] == 4 then f.heartbeat.Some? && IsSigned(f.heartbeat.value, Word64(input, 24))
        else f.heartbeat == None)
  }

  lemma HeaderFields(input: seq<Byte>, header: seq<Byte>)
    requires |input| >= 24 && header == input[..24]
    ensures var f := ParseHeader(header);
            && f.version == input[0] && f.kind == input[1] && f.flags == input[2]
            && f.sessionId == Word32(input, 4) && f.streamId == Word32(input, 8) && f.seqno == Word64(input, 12)
  {
    Number32(header, 4);
    Number32(header, 8);
    Number64(header, 12);
  }

  lemma AckFields(input: seq<Byte>, buf: seq<Byte>)
    requires Whole(input) && BodyFits(input) && input[1] == 2 && buf == input[24..24 + Word32(input, 20)]
    ensures ParseAck(buf).Ok? && AckRead(input, ParseAck(buf).value)
  {
    AckFits(input, buf);
    Number64(buf, 0);
    Number32(buf, 8);
    assert buf[12] == input[36] && buf[..8] == buf[0..8];
    forall i | 0 <= i < input[36] && i < 4
      ensures AckOf(buf).ranges[i] == RangeIn(input, i)
    {
      RangeRead(input, buf, i);
    }
  }

  lemma HeartbeatField(input: seq<Byte>, buf: seq<Byte>)
    requires |input| >= 32 && buf == input[24..32]
    ensures Number(buf) < TWO_TO_64 && IsSigned(Signed(Number(buf)), Word64(input, 24))
  {
    Widths();
    NumberBound(buf);
    Number64(input, 24);
  }

  lemma BodyFields(input: seq<Byte>, buf: seq<Byte>, base: Frame)
    requires Whole(input) && BodyFits(input) && buf == input[24..24 + Word32(input, 20)]
    requires base.kind == input[1] && base.payload == []
    requires base.ack == None && base.control == None && base.heartbeat == None
    ensures ParseBody(base, buf).Ok? && BodyRead(input, ParseBody(base, buf).value)
  {
    if input[1] == 2 {
      AckFields(input, buf);
    } else if input[1] == 4 {
      HeartbeatField(input, buf);
    }
  }

  /** Every field of an accepted frame, by the bytes it is read from. */
  lemma FieldsRead(input: seq<Byte>, f: Frame)
    requires Decode(input).Ok? && f == Decode(input).value.0
    ensures Whole(input) && BodyFits(input)
    ensures HeaderRead(input, f) && BodyRead(input, f)
    ensures !f.isDuplicate && Decode(input).value.1 == input[Total(input)..]
  {
    AcceptedExactly(input);
    LayoutOfHeader(input);
    HeaderFields(input, input[..24]);
    var buf := input[24..24 + Word32(input, 20)];
    var base := Opened(input[..24], Crc.Update(0, input[..24 + Word32(input, 20)]), FrameLength(input));
    BodyFields(input, buf, base);
    BodyKeepsHeader(base, buf);
  }

  lemma BodyKeepsHeader(base: Frame, buf: seq<Byte>)
    requires ParseBody(base, buf).Ok?
    ensures var f := ParseBody(base, buf).value;
            f.(payload := base.payload, ack := base.ack, control := base.control, heartbeat := base.heartbeat) == base
  {
  }
}
