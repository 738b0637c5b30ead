/** The two halves of a stream as values: what one call of the sender or of the receiver does to
    its fields (internal/overlay/stream.go, session.go, window.go). The class in Stream.dfy is
    proved against these functions and the protocol in Protocol.dfy takes them as its steps. */
module Transfer {
  import opened Basics
  import opened Segments
  import opened Sack
  import Reorder

  datatype DataFrame = DataFrame(seq_: nat, payload: seq<Byte>, end: bool)

  /** A sent frame kept until it is acknowledged; lastSend is None before the first send. */
  datatype Entry = Entry(frame: DataFrame, lastSend: Option<int>)

  /** Nanoseconds between two transmissions of one frame. */
  const RETRANSMIT_INTERVAL: int := 50_000_000

  // ----- The credit window -----

  datatype Acquired = Granted | WindowClosed | MustWait

  /** The outcome of Acquire at one look at the fields; MustWait is a wait on the condition. */
  function Acquire(available: Uint32, closed: bool, n: Uint32): Acquired {
    if n == 0 then Granted
    else if closed then WindowClosed
    else if available >= n then Granted
    else MustWait
  }

  function Release(available: Uint32, n: Uint32): Uint32 {
    U32(available + n)
  }

  /** Adding the complement of n - 1 subtracts n in 32-bit arithmetic. */
  function Deduct(inflight: Uint32, n: Uint32): Uint32
    requires n > 0
  {
    U32(inflight + (TWO_TO_32 - 1 - (n - 1)))
  }

  lemma DeductExact(inflight: Uint32, n: Uint32)
    requires n > 0
    ensures Deduct(inflight, n) == inflight - n <==> n <= inflight
  {
    if n <= inflight {
      assert inflight + (TWO_TO_32 - 1 - (n - 1)) == (inflight - n) + TWO_TO_32;
    }
  }

  // ----- The sender -----

  datatype Sender = Sender(
    sendSeq: nat,
    sendClosed: bool,
    available: Uint32,
    closed: bool,
    pending: seq<Entry>,
    inflight: Uint32)

  datatype QueueResult =
    | Blocked
    | Refused(tx: Sender)
    | Queued(tx: Sender, entry: Entry)

  function Start(window: Uint32): Sender {
    Sender(0, false, window, false, [], 0)
  }

  function Length(f: DataFrame): Uint32 {
    U32(|f.payload|)
  }

  function EndOf(f: DataFrame): nat {
    f.seq_ + Length(f)
  }

  /** queueFrame: number the payload, charge the window, remember the frame. */
  function QueueFrame(tx: Sender, payload: seq<Byte>, end: bool): QueueResult {
    var length := U32(|payload|);
    if tx.sendClosed then Refused(tx)
    else
      match Acquire(tx.available, tx.closed, length)
      case MustWait => Blocked
      case WindowClosed => Refused(tx.(sendClosed := end))
      case Granted =>
        var entry := Entry(DataFrame(tx.sendSeq, payload, end), None);
        Queued(
          tx.(sendSeq := tx.sendSeq + length,
              sendClosed := end,
              available := tx.available - length,
              pending := tx.pending + [entry],
              inflight := if length > 0 then U32(tx.inflight + length) else tx.inflight),
          entry)
  }

  /** Credit coming back to the sender, from an acknowledgement or a failed send. */
  function Refund(tx: Sender, n: Uint32): Sender {
    if n == 0 then tx
    else tx.(available := Release(tx.available, n), inflight := Deduct(tx.inflight, n))
  }

  function Without<T>(s: seq<T>, i: nat): seq<T>
    requires i < |s|
  {
    s[..i] + s[i + 1..]
  }

  ghost predicate FirstAt(pending: seq<Entry>, entry: Entry, i: nat) {
    i < |pending| && pending[i] == entry && forall j :: 0 <= j < i ==> pending[j] != entry
  }

  ghost function RemoveFirst(pending: seq<Entry>, entry: Entry): seq<Entry> {
    if exists i: nat :: FirstAt(pending, entry, i) then
      var i: nat :| FirstAt(pending, entry, i);
      Without(pending, i)
    else pending
  }

  /** A send that the transport refused: forget the frame and give its credit back. */
  ghost function OnSendFailure(tx: Sender, entry: Entry): Sender {
    Refund(tx.(pending := RemoveFirst(tx.pending, entry)), Length(entry.frame))
  }

  /** The frame queued last has been written to a subflow. */
  function Sent(tx: Sender, now: int): Sender
    requires tx.pending != []
  {
    var last := |tx.pending| - 1;
    tx.(pending := tx.pending[last := tx.pending[last].(lastSend := Some(now))])
  }

  function Fail(tx: Sender): Sender {
    tx.(closed := true)
  }

  predicate Recent(e: Entry, now: int) {
    e.lastSend.Some? && now - e.lastSend.value < RETRANSMIT_INTERVAL
  }

  /** shouldRetransmitEntry. */
  predicate Due(e: Entry, holes: seq<Range>, now: int) {
    && Length(e.frame) != 0
    && holes != []
    && !Recent(e, now)
    && MeetsHole(holes, e.frame.seq_, EndOf(e.frame))
  }

  /** The entries an acknowledgement does not cover, in order. */
  function Kept(pending: seq<Entry>, ack: Ack): seq<Entry> {
    if pending == [] then []
    else
      var e := pending[|pending| - 1];
      Kept(pending[..|pending| - 1], ack)
      + if Covers(ack, e.frame.seq_, EndOf(e.frame)) then [] else [e]
  }

  /** The entries that are sent again, in order. */
  function DueOf(entries: seq<Entry>, holes: seq<Range>, now: int): seq<Entry> {
    if entries == [] then []
    else
      var e := entries[|entries| - 1];
      DueOf(entries[..|entries| - 1], holes, now) + if Due(e, holes, now) then [e] else []
  }

  /** An entry after the retransmission round; `refused` names the frames whose send failed. */
  function Restamped(e: Entry, holes: seq<Range>, now: int, refused: set<nat>): Entry {
    if Due(e, holes, now) && e.frame.seq_ !in refused then e.(lastSend := Some(now)) else e
  }

  function RestampAll(entries: seq<Entry>, holes: seq<Range>, now: int, refused: set<nat>): (r: seq<Entry>)
    ensures |r| == |entries|
    ensures forall i :: 0 <= i < |r| ==> r[i] == Restamped(entries[i], holes, now, refused)
  {
    if entries == [] then []
    else
      RestampAll(entries[..|entries| - 1], holes, now, refused)
      + [Restamped(entries[|entries| - 1], holes, now, refused)]
  }

  /** The frames that reach a subflow. */
  function FramesSent(resend: seq<Entry>, refused: set<nat>): seq<DataFrame> {
    if resend == [] then []
    else
      var e := resend[|resend| - 1];
      FramesSent(resend[..|resend| - 1], refused) + if e.frame.seq_ in refused then [] else [e.frame]
  }

  predicate AnyRefused(resend: seq<Entry>, refused: set<nat>) {
    exists i :: 0 <= i < |resend| && resend[i].frame.seq_ in refused
  }

  /** onAck: drop what is covered, take the credit, send the due entries again. */
  function OnAck(tx: Sender, ack: Ack, now: int, refused: set<nat>): (Sender, seq<DataFrame>) {
    var kept := Kept(tx.pending, ack);
    var holes := Holes(ack);
    var resend := DueOf(kept, holes, now);
    var tx' := Refund(tx.(pending := RestampAll(kept, holes, now, refused)), ack.credit);
    (if AnyRefused(resend, refused) then Fail(tx') else tx', FramesSent(resend, refused))
  }

  // ----- The receiver -----

  datatype Receiver = Receiver(
    buffer: Reorder.Buffer,
    inbound: seq<Chunk>,
    recvSeq: nat,
    done: bool,
    remoteDone: bool)

  /** The capacity that newStream gives the reorder buffer. */
  function ReorderCapacity(window: Uint32): Uint32 {
    var base := if window == 0 then 0x4_0000 else window;
    if base > 0x7FFF_FFFF then 0xFFFF_FFFF else base * 2
  }

  function Listen(capacity: Uint32): Receiver {
    Receiver(Reorder.Empty(capacity), [], 0, false, false)
  }

  /** The acknowledgement sendAck builds, or None when it has nothing to say. */
  ghost function AckFor(rx: Receiver, credit: Uint32): Option<Ack> {
    var ranges := SackRanges(rx.buffer.entries);
    if credit == 0 && ranges == [] && !rx.buffer.terminal then None
    else Some(Ack(rx.recvSeq, credit, ranges))
  }

  /** sendAck: the receiver and the acknowledgements that reach a subflow. */
  ghost function SendAck(rx: Receiver, credit: Uint32, sent: bool): (Receiver, seq<Ack>) {
    var ack := AckFor(rx, credit);
    if ack.None? then (rx, [])
    else if sent then (rx, [ack.value])
    else (rx.(done := true), [])
  }

  datatype DataResult =
    | Retry(rx: Receiver, acks: seq<Ack>)
    | Handled(rx: Receiver, acks: seq<Ack>)

  /** One turn of the loop in onData. Retry means that the buffer refused the frame and is as it
      was, so every later turn refuses it too: only another Push could drain the buffer, and the
      loop itself keeps the dispatcher from making one. A stream that is done may drop chunks from
      any point on; `keep` says how many still enter the queue. */
  ghost function OnData(rx: Receiver, f: DataFrame, sent: bool, keep: nat): DataResult {
    match Reorder.Push(rx.buffer, f.seq_, f.payload, f.end)
    case Overflow =>
      var r := SendAck(rx, 0, sent);
      Retry(r.0, r.1)
    case Accepted(buffer, chunks) =>
      var rx' := rx.(buffer := buffer);
      if chunks == [] then
        var r := SendAck(rx', 0, sent);
        Handled(r.0, r.1)
      else
        Handled(rx'.(inbound := rx.inbound + if rx.done then chunks[..Min(keep, |chunks|)] else chunks), [])
  }

  predicate CanWrite(rx: Receiver) {
    !rx.done && !rx.remoteDone && rx.inbound != []
  }

  datatype WriteResult = WriteResult(rx: Receiver, written: seq<Byte>, acks: seq<Ack>)

  /** One turn of the outgoing pump: `wrote` bytes of the next chunk reach the connection, and a
      short write is an error; then the credit is returned and an end mark half-closes. */
  ghost function WriteChunk(rx: Receiver, wrote: nat, sent: bool): WriteResult
    requires CanWrite(rx) && wrote <= |rx.inbound[0].data|
  {
    var chunk := rx.inbound[0];
    var rx1 := rx.(inbound := rx.inbound[1..]);
    if wrote < |chunk.data| then WriteResult(rx1.(done := true), chunk.data[..wrote], [])
    else
      var r := SendAck(rx1.(recvSeq := rx1.recvSeq + |chunk.data|), U32(|chunk.data|), sent);
      WriteResult(
        if chunk.end && !r.0.done then r.0.(remoteDone := true) else r.0,
        chunk.data,
        r.1)
  }
}
