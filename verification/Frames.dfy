/** The wire format (internal/overlay/protocol/frame.go) as functions on byte strings. A control
    payload is kept as the text the JSON library would produce. */
module Frames {
  import opened Basics
  import opened Words
  import Crc
  import S = Sack

  const VERSION: Byte := 1
  const HEADER_SIZE := 24
  const MAX_PAYLOAD_SIZE := 0x10_0000
  const TRAILER_SIZE := 4

  const DATA: Byte := 1
  const ACK: Byte := 2
  const CONTROL: Byte := 3
  const HEARTBEAT: Byte := 4

  /** FlagChecksumPresent, bit 1 of the flags. */
  predicate HasChecksum(flags: Byte) {
    flags / 2 % 2 == 1
  }

  predicate FitsWire(a: S.Ack) {
    a.ackSeq < TWO_TO_64
    && forall i :: 0 <= i < |a.ranges| ==> a.ranges[i].start < TWO_TO_64 && a.ranges[i].end < TWO_TO_64
  }

  type Ack = a: S.Ack | FitsWire(a) witness S.Ack(0, 0, [])

  datatype Frame = Frame(
    version: Byte, kind: Byte, flags: Byte, sessionId: Uint32, streamId: Uint32, seqno: Uint64,
    payload: seq<Byte>, checksum: Uint32, isDuplicate: bool, wireLength: nat,
    ack: Option<Ack>, control: Option<seq<Byte>>, heartbeat: Option<Int64>)

  datatype Error =
    | EndOfInput | UnexpectedEnd | UnsupportedVersion | PayloadTooLarge | ChecksumMismatch
    | InvalidType | PayloadMissing | BadAckLength | BadAckCount | BadRange | BadControl | BadHeartbeat
    | WriteFailed

  // ----- Encoding -----

  /** An int64 as the uint64 with the same bits. */
  function Unsigned(n: Int64): Uint64 {
    if n < 0 then n + TWO_TO_64 else n
  }

  function Signed(n: Uint64): Int64 {
    if n >= TWO_TO_63 then n - TWO_TO_64 else n
  }

  function RangeBytes(ranges: seq<S.Range>): (r: seq<Byte>)
    ensures |r| == 16 * |ranges|
  {
    if ranges == [] then []
    else
      var last := ranges[|ranges| - 1];
      RangeBytes(ranges[..|ranges| - 1]) + (BigEndian(last.start, 8) + BigEndian(last.end, 8))
  }

  function AckBytes(ack: Ack): (r: seq<Byte>)
    ensures |r| == 16 + 16 * |S.FirstRanges(ack.ranges)|
  {
    var ranges := S.FirstRanges(ack.ranges);
    BigEndian(ack.ackSeq, 8) + BigEndian(ack.credit, 4) + [|ranges|, 0, 0, 0] + RangeBytes(ranges)
  }

  function PayloadBytes(f: Frame): Result<seq<Byte>, Error> {
    if |f.payload| > 0 then Ok(f.payload)
    else if f.kind == DATA then Ok([])
    else if f.kind == ACK then
      if f.ack.None? then Err(PayloadMissing) else Ok(AckBytes(f.ack.value))
    else if f.kind == CONTROL then
      if f.control.None? then Err(PayloadMissing) else Ok(f.control.value)
    else if f.kind == HEARTBEAT then
      if f.heartbeat.None? then Err(PayloadMissing) else Ok(BigEndian(Unsigned(f.heartbeat.value), 8))
    else Err(InvalidType)
  }

  function HeaderBytes(f: Frame, length: nat): (r: seq<Byte>)
    ensures |r| == HEADER_SIZE
  {
    [f.version, f.kind, f.flags, 0] + BigEndian(f.sessionId, 4) + BigEndian(f.streamId, 4)
    + BigEndian(f.seqno, 8) + BigEndian(length, 4)
  }

  function Trailer(flags: Byte, covered: seq<Byte>): (r: seq<Byte>)
    ensures |r| == if HasChecksum(flags) then TRAILER_SIZE else 0
  {
    if HasChecksum(flags) then BigEndian(Crc.Update(0, covered), 4) else []
  }

  function Versioned(f: Frame): Frame {
    if f.version == 0 then f.(version := VERSION) else f
  }

  /** The bytes written, and the frame with the fields that Encode fills in. */
  function Encode(f: Frame): (Frame, Result<seq<Byte>, Error>) {
    var g := Versioned(f);
    match PayloadBytes(g)
    case Err(e) => (g, Err(e))
    case Ok(payload) =>
      if |payload| > MAX_PAYLOAD_SIZE then (g, Err(PayloadTooLarge))
      else
        var covered := HeaderBytes(g, |payload|) + payload;
        var bytes := covered + Trailer(g.flags, covered);
        var sum := if HasChecksum(g.flags) then Crc.Update(0, covered) else g.checksum;
        (g.(checksum := sum, wireLength := |bytes|), Ok(bytes))
  }

  // ----- Decoding -----

  function RangeAt(buf: seq<Byte>, i: nat): S.Range
    requires 16 * i + 32 <= |buf|
  {
    S.Range(Number(buf[16 * i + 16..16 * i + 24]), Number(buf[16 * i + 24..16 * i + 32]))
  }

  function RangesOf(buf: seq<Byte>, n: nat): (r: seq<S.Range>)
    requires 16 * n + 16 <= |buf|
    ensures |r| == n && forall i :: 0 <= i < n ==> r[i] == RangeAt(buf, i)
  {
    seq(n, i requires 0 <= i < n => RangeAt(buf, i))
  }

  /** The number of ranges that the payload claims to hold. */
  function RangeCount(buf: seq<Byte>): nat
    requires |buf| >= 16
  {
    buf[12]
  }

  predicate AnyBackward(ranges: seq<S.Range>) {
    exists i :: 0 <= i < |ranges| && ranges[i].end < ranges[i].start
  }

  function AckOf(buf: seq<Byte>): Ack
    requires |buf| >= 16 && |buf| == 16 + 16 * RangeCount(buf)
  {
    Widths();
    NumberBound(buf[..8]);
    NumberBound(buf[8..12]);
    var n := Min(RangeCount(buf), S.MAX_SACK_RANGES);
    RangesFit(buf, n);
    S.Ack(Number(buf[..8]), Number(buf[8..12]), RangesOf(buf, n))
  }

  function ParseAck(buf: seq<Byte>): Result<Ack, Error> {
    if |buf| < 16 || (|buf| - 16) % 16 != 0 then Err(BadAckLength)
    else if |buf| != 16 + 16 * RangeCount(buf) then Err(BadAckCount)
    else if AnyBackward(AckOf(buf).ranges) then Err(BadRange)
    else Ok(AckOf(buf))
  }

  lemma RangesFit(buf: seq<Byte>, n: nat)
    requires 16 * n + 16 <= |buf|
    ensures forall i :: 0 <= i < n ==>
              RangesOf(buf, n)[i].start < TWO_TO_64 && RangesOf(buf, n)[i].end < TWO_TO_64
  {
    Widths();
    forall i | 0 <= i < n
      ensures RangesOf(buf, n)[i].start < TWO_TO_64 && RangesOf(buf, n)[i].end < TWO_TO_64
    {
      NumberBound(buf[16 * i + 16..16 * i + 24]);
      NumberBound(buf[16 * i + 24..16 * i + 32]);
    }
  }

  /** The frame with the body that its kind says is in `buf`. */
  function ParseBody(f: Frame, buf: seq<Byte>): Result<Frame, Error> {
    if f.kind == DATA then Ok(f.(payload := buf))
    else if f.kind == ACK then
      match ParseAck(buf)
      case Ok(ack) => Ok(f.(ack := Some(ack)))
      case Err(e) => Err(e)
    else if f.kind == CONTROL then
      if buf == [] then Err(BadControl) else Ok(f.(control := Some(buf)))
    else if f.kind == HEARTBEAT then
      if |buf| != 8 then Err(BadHeartbeat)
      else
        Widths();
        NumberBound(buf);
        Ok(f.(heartbeat := Some(Signed(Number(buf)))))
    else Err(InvalidType)
  }

  function ParseHeader(header: seq<Byte>): Frame
    requires |header| == HEADER_SIZE
  {
    Widths();
    NumberBound(header[4..8]);
    NumberBound(header[8..12]);
    NumberBound(header[12..20]);
    Frame(header[0], header[1], header[2], Number(header[4..8]), Number(header[8..12]),
          Number(header[12..20]), [], 0, false, 0, None, None, None)
  }

  /** A read that finds fewer bytes than it needs. */
  function Short(available: nat): Error {
    if available == 0 then EndOfInput else UnexpectedEnd
  }

  function PayloadLength(input: seq<Byte>): nat
    requires |input| >= HEADER_SIZE
  {
    Number(input[20..24])
  }

  /** Bytes that a frame starting like `input` takes on the wire. */
  function FrameLength(input: seq<Byte>): nat
    requires |input| >= HEADER_SIZE
  {
    HEADER_SIZE + PayloadLength(input) + if HasChecksum(input[2]) then TRAILER_SIZE else 0
  }

  /** Whether the trailer is the sum of the bytes before it. */
  predicate SumMatches(input: seq<Byte>, covered: nat)
    requires covered + TRAILER_SIZE <= |input|
  {
    Number(input[covered..covered + TRAILER_SIZE]) == Crc.Update(0, input[..covered])
  }

  /** A header as it reads before its body is known. */
  function Opened(header: seq<Byte>, sum: Uint32, length: nat): Frame
    requires |header| == HEADER_SIZE
  {
    ParseHeader(header).(checksum := if HasChecksum(header[2]) then sum else 0, wireLength := length)
  }

  /** The input holds a whole frame, with a trailer that does not match. */
  predicate SumDiffers(input: seq<Byte>)
    requires |input| >= HEADER_SIZE
  {
    && HasChecksum(input[2])
    && FrameLength(input) <= |input|
    && !SumMatches(input, FrameLength(input) - TRAILER_SIZE)
  }

  /** Why an input of the given size is refused before its body is looked at. */
  function Verdict(size: nat, version: Byte, flags: Byte, length: nat, sumDiffers: bool): Option<Error>
    requires size >= HEADER_SIZE
  {
    var covered := HEADER_SIZE + length;
    if version != VERSION then Some(UnsupportedVersion)
    else if length > MAX_PAYLOAD_SIZE then Some(PayloadTooLarge)
    else if size < covered then Some(Short(size - HEADER_SIZE))
    else if !HasChecksum(flags) then None
    else if size < covered + TRAILER_SIZE then Some(Short(size - covered))
    else if sumDiffers then Some(ChecksumMismatch)
    else None
  }

  function Refusal(input: seq<Byte>): Option<Error> {
    if |input| < HEADER_SIZE then Some(Short(|input|))
    else Verdict(|input|, input[0], input[2], PayloadLength(input), SumDiffers(input))
  }

  /** One frame from the front of the input. */
  function DecodeFrame(input: seq<Byte>): Result<Frame, Error> {
    match Refusal(input)
    case Some(e) => Err(e)
    case None =>
      var covered := HEADER_SIZE + PayloadLength(input);
      ParseBody(Opened(input[..HEADER_SIZE], Crc.Update(0, input[..covered]), FrameLength(input)),
                input[HEADER_SIZE..covered])
  }

  /** The frame and what is left of the input. */
  function Decode(input: seq<Byte>): (r: Result<(Frame, seq<Byte>), Error>)
    ensures r.Ok? ==> |input| >= HEADER_SIZE && |r.value.1| + FrameLength(input) == |input|
  {
    match DecodeFrame(input)
    case Err(e) => Err(e)
    case Ok(f) => Ok((f, input[FrameLength(input)..]))
  }
}
