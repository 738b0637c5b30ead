/** One direction of a stream as a transition system: the sender's half at one endpoint, the
    receiver's half at the other, and between them a network that delivers frames in any order
    and loses them when a subflow dies. */
module Protocol {
  import opened Basics
  import opened Segments
  import opened Sack
  import opened Transfer
  import AckFacts
  import Reorder

  /** plan is what the sending pump reads: its successive reads, the last one with the end mark
      once the connection reports end of file. */
  datatype Config = Config(plan: seq<Chunk>, window: Uint32, capacity: Uint32)

  ghost predicate ValidConfig(c: Config) {
    && WellFormed(c.plan)
    && (forall i :: 0 <= i < |c.plan| ==> |c.plan[i].data| < TWO_TO_32)
    && c.window <= c.capacity
  }

  /** What happened so far; no step depends on it. */
  datatype History = History(
    queued: nat,       // segments numbered by queueFrame
    unsent: set<nat>,  // those whose first transmission failed
    got: set<nat>,     // segments pushed into the reorder buffer
    ready: nat,        // segments handed out by it
    written: nat,      // segments written to the far connection
    released: nat,     // credit returned to the window by acknowledgements
    lost: nat)         // credit in acknowledgements that will not arrive

  datatype State = State(
    tx: Sender,
    rx: Receiver,
    data: seq<DataFrame>,  // frames in flight, in no meaningful order
    acks: seq<Ack>,        // acknowledgements in flight, in no meaningful order
    output: seq<Byte>,     // bytes written to the far connection
    stuck: bool,           // the receiver's dispatcher retries a refused frame for ever
    h: History)

  ghost function Init(c: Config): State {
    State(Start(c.window), Listen(c.capacity), [], [], [], false, History(0, {}, {}, 0, 0, 0, 0))
  }

  datatype Step =
    | Send(now: int)
    | SendFails
    | SendRefused
    | LoseData(i: nat)
    | DeliverData(i: nat, sent: bool, keep: nat)
    | Write(wrote: nat, sent: bool)
    | LoseAck(i: nat)
    | DeliverAck(i: nat, now: int, refused: set<nat>)
    | SenderFails
    | ReceiverFails

  ghost function FrameOf(plan: seq<Chunk>, x: nat): DataFrame
    requires x < |plan|
  {
    DataFrame(Off(plan, x), plan[x].data, plan[x].end)
  }

  /** What queueFrame makes of the sender's next read. */
  ghost function NextQueue(c: Config, s: State): QueueResult
    requires s.h.queued < |c.plan|
  {
    QueueFrame(s.tx, c.plan[s.h.queued].data, c.plan[s.h.queued].end)
  }

  ghost predicate Enabled(c: Config, s: State, step: Step) {
    match step
    case Send(_) => s.h.queued < |c.plan| && NextQueue(c, s).Queued?
    case SendFails => s.h.queued < |c.plan| && NextQueue(c, s).Queued?
    case SendRefused => s.h.queued < |c.plan| && NextQueue(c, s).Refused?
    case LoseData(i) => i < |s.data|
    case DeliverData(i, _, _) => i < |s.data| && !s.stuck
    case Write(wrote, _) => CanWrite(s.rx) && wrote <= |s.rx.inbound[0].data|
    case LoseAck(i) => i < |s.acks|
    case DeliverAck(i, _, _) => i < |s.acks|
    case SenderFails => true
    case ReceiverFails => true
  }

  ghost function AfterSend(c: Config, s: State, now: int): State
    requires s.h.queued < |c.plan| && NextQueue(c, s).Queued?
  {
    var q := NextQueue(c, s);
    s.(tx := Sent(q.tx, now), data := s.data + [q.entry.frame], h := s.h.(queued := s.h.queued + 1))
  }

  ghost function AfterSendFails(c: Config, s: State): State
    requires s.h.queued < |c.plan| && NextQueue(c, s).Queued?
  {
    var q := NextQueue(c, s);
    s.(tx := Fail(OnSendFailure(q.tx, q.entry)),
       h := s.h.(queued := s.h.queued + 1, unsent := s.h.unsent + {s.h.queued}))
  }

  ghost function AfterDeliverData(c: Config, s: State, i: nat, sent: bool, keep: nat): State
    requires i < |s.data|
  {
    match OnData(s.rx, s.data[i], sent, keep)
    case Retry(rx, acks) => s.(rx := rx, data := Without(s.data, i), acks := s.acks + acks, stuck := true)
    case Handled(rx, acks) =>
      var x := IndexAt(c.plan, s.data[i].seq_);
      s.(rx := rx,
         data := Without(s.data, i),
         acks := s.acks + acks,
         h := s.h.(got := s.h.got + {x},
                   ready := s.h.ready + |HandedOut(s.rx, s.data[i])|))
  }

  /** The chunks a push of this frame hands out. */
  ghost function HandedOut(rx: Receiver, f: DataFrame): seq<Chunk> {
    match Reorder.Push(rx.buffer, f.seq_, f.payload, f.end)
    case Overflow => []
    case Accepted(_, chunks) => chunks
  }

  ghost function AfterWrite(s: State, wrote: nat, sent: bool): State
    requires CanWrite(s.rx) && wrote <= |s.rx.inbound[0].data|
  {
    var r := WriteChunk(s.rx, wrote, sent);
    var length := |s.rx.inbound[0].data|;
    var whole := wrote == length;
    s.(rx := r.rx,
       output := s.output + r.written,
       acks := s.acks + r.acks,
       h := s.h.(written := if whole then s.h.written + 1 else s.h.written,
                 lost := if whole && r.acks == [] then s.h.lost + length else s.h.lost))
  }

  ghost function AfterDeliverAck(s: State, i: nat, now: int, refused: set<nat>): State
    requires i < |s.acks|
  {
    var r := OnAck(s.tx, s.acks[i], now, refused);
    s.(tx := r.0,
       data := s.data + r.1,
       acks := Without(s.acks, i),
       h := s.h.(released := s.h.released + s.acks[i].credit))
  }

  ghost function After(c: Config, s: State, step: Step): State
    requires Enabled(c, s, step)
  {
    match step
    case Send(now) => AfterSend(c, s, now)
    case SendFails => AfterSendFails(c, s)
    case SendRefused => s.(tx := NextQueue(c, s).tx)
    case LoseData(i) => s.(data := Without(s.data, i))
    case DeliverData(i, sent, keep) => AfterDeliverData(c, s, i, sent, keep)
    case Write(wrote, sent) => AfterWrite(s, wrote, sent)
    case LoseAck(i) =>
      s.(acks := Without(s.acks, i), h := s.h.(lost := s.h.lost + s.acks[i].credit))
    case DeliverAck(i, now, refused) => AfterDeliverAck(s, i, now, refused)
    case SenderFails => s.(tx := Fail(s.tx))
    case ReceiverFails => s.(rx := s.rx.(done := true))
  }

  ghost predicate Takes(c: Config, s: State, step: Step, s': State) {
    Enabled(c, s, step) && s' == After(c, s, step)
  }

  /** `states` are the states that a run of these steps goes through. */
  ghost predicate IsRun(c: Config, steps: seq<Step>, states: seq<State>) {
    && |states| == |steps| + 1
    && states[0] == Init(c)
    && forall k :: 0 <= k < |steps| ==> Takes(c, states[k], steps[k], states[k + 1])
  }

  /** Some run ends in s. */
  ghost predicate Reachable(c: Config, s: State) {
    exists steps, states :: IsRun(c, steps, states) && s == states[|steps|]
  }

  // ----- The invariant, one concern at a time -----

  /** The frame is a queued segment whose first transmission succeeded. */
  ghost predicate KnownFrame(plan: seq<Chunk>, queued: nat, unsent: set<nat>, f: DataFrame) {
    var x := IndexAt(plan, f.seq_);
    x < |plan| && x < queued && x !in unsent && f == FrameOf(plan, x)
  }

  ghost predicate PendingOk(plan: seq<Chunk>, queued: nat, unsent: set<nat>, pending: seq<Entry>) {
    && (forall i :: 0 <= i < |pending| ==> KnownFrame(plan, queued, unsent, pending[i].frame))
    && (forall i, j :: 0 <= i < j < |pending| ==> pending[i].frame.seq_ < pending[j].frame.seq_)
  }

  ghost predicate SenderOk(c: Config, tx: Sender, queued: nat, unsent: set<nat>) {
    && queued <= |c.plan|
    && tx.sendSeq == Off(c.plan, queued)
    && (tx.sendClosed ==> tx.closed || queued == |c.plan|)
    && (!tx.closed ==> unsent == {})
    && (forall x :: x in unsent ==> x < queued)
    && PendingOk(c.plan, queued, unsent, tx.pending)
  }

  ghost predicate Pends(pending: seq<Entry>, o: nat) {
    exists i :: 0 <= i < |pending| && pending[i].frame.seq_ == o
  }

  /** No byte is forgotten: every sent segment is received or still pending. */
  ghost predicate Remembered(plan: seq<Chunk>, queued: nat, unsent: set<nat>, got: set<nat>, pending: seq<Entry>) {
    forall x :: 0 <= x < queued && x < |plan| && plan[x].data != [] && x !in unsent ==>
      x in got || Pends(pending, Off(plan, x))
  }

  /** In-flight frames are known segments, and an empty end mark is there at most once, before
      it is received. */
  ghost predicate FlightOk(plan: seq<Chunk>, queued: nat, unsent: set<nat>, got: set<nat>, data: seq<DataFrame>) {
    && (forall i :: 0 <= i < |data| ==> KnownFrame(plan, queued, unsent, data[i]))
    && (forall i, j :: 0 <= i < j < |data| ==> data[i].payload != [] || data[j].payload != [])
    && (forall i :: 0 <= i < |data| && data[i].payload == [] ==> IndexAt(plan, data[i].seq_) !in got)
  }

  ghost function Credits(acks: seq<Ack>): nat {
    if acks == [] then 0 else Credits(acks[..|acks| - 1]) + acks[|acks| - 1].credit
  }

  /** The window: credit is available or in flight, and the charged bytes are in flight or
      have been released. Segments whose send failed are not charged. */
  ghost predicate WindowOk(
      c: Config, available: nat, inflight: nat, queued: nat, unsent: set<nat>, released: nat)
    requires queued <= |c.plan|
  {
    && available + inflight == c.window
    && inflight + released + Held(c.plan, unsent, 0, queued) == Off(c.plan, queued)
  }

  /** Credit conservation: written bytes have returned their credit, are returning it in an
      acknowledgement, or have lost it. */
  ghost predicate CreditOk(plan: seq<Chunk>, written: nat, released: nat, acks: seq<Ack>, lost: nat)
    requires written <= |plan|
  {
    Off(plan, written) == released + Credits(acks) + lost
  }

  ghost predicate BufferOk(c: Config, buffer: Reorder.Buffer, got: set<nat>, ready: nat) {
    && Reorder.Settled(buffer, c.plan, got, ready)
    && buffer.capacity == c.capacity
  }

  ghost predicate CountsOk(h: History) {
    && h.written <= h.ready
    && (forall x :: x in h.got ==> x < h.queued && x !in h.unsent)
  }

  /** In-order, exactly-once delivery. */
  ghost predicate OutputOk(plan: seq<Chunk>, rx: Receiver, output: seq<Byte>, written: nat, ready: nat)
    requires written <= ready <= |plan|
  {
    && rx.recvSeq == Off(plan, written)
    && (if rx.done then output <= Content(plan, ready)
        else output == Content(plan, written) && rx.inbound == plan[written..ready])
    && EndOk(plan, rx.done, rx.remoteDone, output, written)
  }

  /** The whole stream, with its end mark, is among the first `written` segments. */
  ghost predicate Complete(plan: seq<Chunk>, written: nat) {
    written == |plan| > 0 && plan[|plan| - 1].end
  }

  ghost predicate EndOk(plan: seq<Chunk>, done: bool, remoteDone: bool, output: seq<Byte>, written: nat) {
    && (remoteDone ==> Complete(plan, written) && output == Content(plan, |plan|))
    && (!done && Complete(plan, written) ==> remoteDone)
  }

  ghost predicate AcksOk(plan: seq<Chunk>, got: set<nat>, written: nat, acks: seq<Ack>) {
    forall i :: 0 <= i < |acks| ==> AckFacts.Truthful(plan, got, written, acks[i])
  }

  ghost predicate Inv(c: Config, s: State) {
    var h := s.h;
    && !s.stuck
    && SenderOk(c, s.tx, h.queued, h.unsent)
    && BufferOk(c, s.rx.buffer, h.got, h.ready)
    && CountsOk(h)
    && OutputOk(c.plan, s.rx, s.output, h.written, h.ready)
    && WindowOk(c, s.tx.available, s.tx.inflight, h.queued, h.unsent, h.released)
    && CreditOk(c.plan, h.written, h.released, s.acks, h.lost)
    && FlightOk(c.plan, h.queued, h.unsent, h.got, s.data)
    && AcksOk(c.plan, h.got, h.written, s.acks)
    && Remembered(c.plan, h.queued, h.unsent, h.got, s.tx.pending)
  }
}
