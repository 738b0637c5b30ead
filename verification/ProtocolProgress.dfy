/** Runs in which nothing is lost and nothing fails: they never deadlock and they end with the
    whole input delivered and the window full again. */
module ProtocolProgress {
  import opened Basics
  import opened Segments
  import opened Sack
  import opened Transfer
  import opened Protocol
  import ProtocolSteps

  /** A step without a loss or a failure. */
  ghost predicate LossFree(s: State, step: Step) {
    match step
    case Send(_) => true
    case DeliverData(_, sent, _) => sent
    case Write(wrote, sent) => s.rx.inbound != [] && wrote == |s.rx.inbound[0].data| && sent
    case DeliverAck(_, _, refused) => refused == {}
    case _ => false
  }

  ghost predicate LossFreeRun(c: Config, steps: seq<Step>, states: seq<State>) {
    IsRun(c, steps, states) && forall k :: 0 <= k < |steps| ==> LossFree(states[k], steps[k])
  }

  /** FrameSize is at most the window, so that every read can be charged to a full window. */
  ghost predicate FramesFit(c: Config) {
    forall i :: 0 <= i < |c.plan| ==> |c.plan[i].data| <= c.window
  }

  ghost predicate InFlight(plan: seq<Chunk>, data: seq<DataFrame>, x: nat) {
    exists i :: 0 <= i < |data| && IndexAt(plan, data[i].seq_) == x
  }

  /** Every numbered segment has arrived or is in flight. */
  ghost predicate Tracked(plan: seq<Chunk>, queued: nat, got: set<nat>, data: seq<DataFrame>) {
    forall x :: 0 <= x < queued ==> x in got || InFlight(plan, data, x)
  }

  /** No credit, frame or segment has gone missing. */
  ghost predicate Flowing(c: Config, s: State) {
    s.h.lost == 0 && s.h.unsent == {} && Tracked(c.plan, s.h.queued, s.h.got, s.data)
  }

  ghost predicate Healthy(c: Config, s: State) {
    !s.tx.closed && !s.rx.done && Flowing(c, s)
  }

  lemma TrackedSent(plan: seq<Chunk>, q: nat, got: set<nat>, data: seq<DataFrame>)
    requires WellFormed(plan) && q < |plan|
    requires Tracked(plan, q, got, data)
    ensures Tracked(plan, q + 1, got, data + [FrameOf(plan, q)])
  {
    IndexAtOff(plan, q);
    TrackedMore(plan, q, got, data, [FrameOf(plan, q)]);
    var all := data + [FrameOf(plan, q)];
    assert IndexAt(plan, all[|data|].seq_) == q;
  }

  lemma TrackedMore(plan: seq<Chunk>, q: nat, got: set<nat>, data: seq<DataFrame>, more: seq<DataFrame>)
    requires Tracked(plan, q, got, data)
    ensures Tracked(plan, q, got, data + more)
  {
    forall x | 0 <= x < q && x !in got
      ensures InFlight(plan, data + more, x)
    {
      var i :| 0 <= i < |data| && IndexAt(plan, data[i].seq_) == x;
      assert (data + more)[i] == data[i];
    }
  }

  lemma TrackedDelivered(plan: seq<Chunk>, q: nat, got: set<nat>, data: seq<DataFrame>, i: nat)
    requires Tracked(plan, q, got, data) && i < |data|
    ensures Tracked(plan, q, got + {IndexAt(plan, data[i].seq_)}, Without(data, i))
  {
    var rest := Without(data, i);
    forall x | 0 <= x < q && x !in got + {IndexAt(plan, data[i].seq_)}
      ensures InFlight(plan, rest, x)
    {
      var j :| 0 <= j < |data| && IndexAt(plan, data[j].seq_) == x;
      assert j != i;
      assert rest[if j < i then j else j - 1] == data[j];
    }
  }

  lemma NothingRefused(resend: seq<Entry>)
    ensures !AnyRefused(resend, {})
  {
  }

  /** Neither half is stopped between the two states. */
  ghost predicate SameEnds(s: State, s': State) {
    s'.tx.closed == s.tx.closed && s'.rx.done == s.rx.done
  }

  lemma FlowingSend(c: Config, s: State, now: int)
    requires ValidConfig(c) && Inv(c, s) && Flowing(c, s) && Enabled(c, s, Send(now))
    ensures Flowing(c, AfterSend(c, s, now)) && SameEnds(s, AfterSend(c, s, now))
  {
    ProtocolSteps.SendFields(c, s, now);
    TrackedSent(c.plan, s.h.queued, s.h.got, s.data);
  }

  lemma FlowingDeliver(c: Config, s: State, i: nat, keep: nat)
    requires ValidConfig(c) && Inv(c, s) && Flowing(c, s) && i < |s.data|
    ensures Flowing(c, AfterDeliverData(c, s, i, true, keep)) && SameEnds(s, AfterDeliverData(c, s, i, true, keep))
  {
    var x, r, ready' := ProtocolSteps.Delivered(c, s, s.data[i], true, keep);
    ProtocolSteps.DeliveredState(c, s, i, true, keep, x, r, ready');
    TrackedDelivered(c.plan, s.h.queued, s.h.got, s.data, i);
  }

  lemma FlowingWrite(c: Config, s: State)
    requires ValidConfig(c) && Inv(c, s) && Flowing(c, s) && CanWrite(s.rx)
    ensures var s' := AfterWrite(s, |s.rx.inbound[0].data|, true);
            Flowing(c, s') && SameEnds(s, s')
  {
    ProtocolSteps.WholeWriteAck(c, s.rx, s.output, s.h.got, s.h.written, s.h.ready, true);
  }

  lemma FlowingAck(c: Config, s: State, i: nat, now: int)
    requires ValidConfig(c) && Inv(c, s) && Flowing(c, s) && i < |s.acks|
    ensures Flowing(c, AfterDeliverAck(s, i, now, {})) && SameEnds(s, AfterDeliverAck(s, i, now, {}))
  {
    var resend := DueOf(Kept(s.tx.pending, s.acks[i]), Holes(s.acks[i]), now);
    NothingRefused(resend);
    TrackedMore(c.plan, s.h.queued, s.h.got, s.data, FramesSent(resend, {}));
  }

  lemma FlowingStep(c: Config, s: State, step: Step)
    requires ValidConfig(c) && Inv(c, s) && Flowing(c, s)
    requires Enabled(c, s, step) && LossFree(s, step)
    ensures Flowing(c, After(c, s, step)) && SameEnds(s, After(c, s, step))
  {
    match step
    case Send(now) => FlowingSend(c, s, now);
    case DeliverData(i, sent, keep) => FlowingDeliver(c, s, i, keep);
    case Write(wrote, sent) => FlowingWrite(c, s);
    case DeliverAck(i, now, refused) => FlowingAck(c, s, i, now);
  }

  lemma {:induction false} LossFreeHealthy(c: Config, steps: seq<Step>, states: seq<State>, k: nat)
    requires ValidConfig(c) && LossFreeRun(c, steps, states) && k <= |steps|
    ensures Inv(c, states[k]) && Healthy(c, states[k])
    decreases k
  {
    ProtocolSteps.RunKeepsInv(c, steps, states, k);
    if k > 0 {
      var before := k - 1;
      LossFreeHealthy(c, steps, states, before);
      assert Takes(c, states[before], steps[before], states[before + 1]);
      FlowingStep(c, states[before], steps[before]);
    }
  }

  // ----- No deadlock -----

  /** Nothing is outstanding. */
  ghost predicate Idle(s: State) {
    s.data == [] && s.acks == [] && s.rx.inbound == []
  }

  /** With nothing outstanding, everything numbered has been written and the window is full. */
  lemma IdleIsFull(c: Config, s: State)
    requires ValidConfig(c) && Inv(c, s) && Flowing(c, s) && !s.rx.done && Idle(s)
    ensures s.h.written == s.h.ready == s.h.queued
    ensures s.rx.recvSeq == s.tx.sendSeq
    ensures s.tx.available == c.window && s.tx.inflight == 0
    ensures s.output == Content(c.plan, s.h.queued)
  {
    ProtocolSteps.SentBytes(c, s);
    assert forall x: nat :: x < s.h.queued ==> x in s.h.got || InFlight(c.plan, s.data, x);
    assert s.h.ready !in s.h.got;
    HeldNone(c.plan, s.h.unsent, 0, s.h.queued);
    assert c.plan[s.h.written..s.h.ready] == [];
    assert |c.plan[s.h.written..s.h.ready]| == s.h.ready - s.h.written;
  }

  /** A step that moves something already outstanding. */
  ghost predicate Moves(c: Config, s: State, step: Step) {
    Enabled(c, s, step) && LossFree(s, step) && !step.Send?
  }

  lemma BusyMoves(c: Config, s: State)
    requires Inv(c, s) && Healthy(c, s) && !Idle(s)
    ensures exists step :: Moves(c, s, step)
  {
    if s.data != [] {
      assert Moves(c, s, DeliverData(0, true, 0));
    } else if s.acks != [] {
      assert Moves(c, s, DeliverAck(0, 0, {}));
    } else {
      assert |s.rx.inbound| == s.h.ready - s.h.written;
      assert Moves(c, s, Write(|s.rx.inbound[0].data|, true));
    }
  }

  /** After any loss-free run: a sender that waits for credit waits for something outstanding
      that can move; while input is undelivered some step can be taken; and when nothing is
      outstanding the window is full. */
  lemma NeverDeadlocks(c: Config, steps: seq<Step>, states: seq<State>, s: State)
    requires ValidConfig(c) && FramesFit(c)
    requires LossFreeRun(c, steps, states) && s == states[|steps|]
    ensures s.h.queued <= |c.plan|
    ensures s.h.queued < |c.plan| && NextQueue(c, s).Blocked? ==> exists step :: Moves(c, s, step)
    ensures s.h.written < |c.plan| ==> exists step :: Enabled(c, s, step) && LossFree(s, step)
    ensures Idle(s) ==> s.tx.available == c.window && s.rx.recvSeq == s.tx.sendSeq
  {
    LossFreeHealthy(c, steps, states, |steps|);
    SomethingMoves(c, s);
  }

  lemma SomethingMoves(c: Config, s: State)
    requires ValidConfig(c) && FramesFit(c) && Inv(c, s) && Healthy(c, s)
    ensures s.h.queued < |c.plan| && NextQueue(c, s).Blocked? ==> exists step :: Moves(c, s, step)
    ensures s.h.written < |c.plan| ==> exists step :: Enabled(c, s, step) && LossFree(s, step)
    ensures Idle(s) ==> s.tx.available == c.window && s.rx.recvSeq == s.tx.sendSeq
  {
    if Idle(s) {
      IdleIsFull(c, s);
      if s.h.queued < |c.plan| {
        assert NextQueue(c, s).Queued?;
        assert Enabled(c, s, Send(0)) && LossFree(s, Send(0));
      }
    } else {
      BusyMoves(c, s);
      var step :| Moves(c, s, step);
      assert Enabled(c, s, step) && LossFree(s, step);
    }
  }

  // ----- Termination -----

  /** Frames that a step sends again. */
  ghost function Resends(s: State, step: Step): nat {
    if step.DeliverAck? && step.i < |s.acks| then |OnAck(s.tx, s.acks[step.i], step.now, {}).1| else 0
  }

  /** Work still to do: a segment costs five steps from its numbering to its acknowledgements. */
  ghost function Work(c: Config, s: State): int {
    3 * (|c.plan| - s.h.queued) + 2 * |s.data| + 2 * (|c.plan| - s.h.written) + |s.acks|
  }

  lemma AtMostOneAck(rx: Receiver, credit: Uint32, sent: bool)
    ensures |SendAck(rx, credit, sent).1| <= 1
  {
  }

  lemma DeliverWorks(c: Config, s: State, i: nat, keep: nat)
    requires ValidConfig(c) && Inv(c, s) && i < |s.data|
    ensures Work(c, AfterDeliverData(c, s, i, true, keep)) < Work(c, s)
  {
    var x, r, ready' := ProtocolSteps.Delivered(c, s, s.data[i], true, keep);
    ProtocolSteps.DeliveredState(c, s, i, true, keep, x, r, ready');
    assert |r.acks| <= 1;
  }

  lemma WriteWorks(c: Config, s: State)
    requires CanWrite(s.rx)
    ensures Work(c, AfterWrite(s, |s.rx.inbound[0].data|, true)) < Work(c, s)
  {
    var chunk := s.rx.inbound[0];
    AtMostOneAck(s.rx.(inbound := s.rx.inbound[1..], recvSeq := s.rx.recvSeq + |chunk.data|),
                 U32(|chunk.data|), true);
  }

  lemma WorkLeft(c: Config, s: State)
    requires Inv(c, s)
    ensures 0 <= Work(c, s)
  {
  }

  lemma StepWorks(c: Config, s: State, step: Step)
    requires ValidConfig(c) && Inv(c, s)
    requires Enabled(c, s, step) && LossFree(s, step)
    ensures Work(c, After(c, s, step)) < Work(c, s) + 2 * Resends(s, step)
  {
    match step
    case Send(now) =>
    case DeliverData(i, sent, keep) => DeliverWorks(c, s, i, keep);
    case Write(wrote, sent) => WriteWorks(c, s);
    case DeliverAck(i, now, refused) =>
  }

  /** Frames sent again in the first k steps of a run. */
  ghost function Resent(steps: seq<Step>, states: seq<State>, k: nat): nat
    requires k <= |steps| <= |states|
  {
    if k == 0 then 0 else Resent(steps, states, k - 1) + Resends(states[k - 1], steps[k - 1])
  }

  /** Every loss-free run is bounded by the input and the frames it sends again. */
  lemma {:induction false} StepsBounded(c: Config, steps: seq<Step>, states: seq<State>, k: nat)
    requires ValidConfig(c) && LossFreeRun(c, steps, states) && k <= |steps|
    ensures k + Work(c, states[k]) <= 5 * |c.plan| + 2 * Resent(steps, states, k)
    ensures 0 <= Work(c, states[k])
    decreases k
  {
    ProtocolSteps.RunKeepsInv(c, steps, states, k);
    WorkLeft(c, states[k]);
    if k > 0 {
      var before := k - 1;
      StepsBounded(c, steps, states, before);
      ProtocolSteps.RunKeepsInv(c, steps, states, before);
      assert Takes(c, states[before], steps[before], states[before + 1]);
      StepWorks(c, states[before], steps[before]);
    }
  }

  /** A loss-free run takes at most five steps a segment and two for each frame sent again, and
      where it cannot go on the whole input has been written. */
  lemma LossFreeDelivers(c: Config, steps: seq<Step>, states: seq<State>, s: State)
    requires ValidConfig(c) && FramesFit(c)
    requires LossFreeRun(c, steps, states) && s == states[|steps|]
    ensures |steps| <= 5 * |c.plan| + 2 * Resent(steps, states, |steps|)
    ensures Finished(c, s) ==> s.output == Content(c.plan, |c.plan|) && s.tx.available == c.window
  {
    StepsBounded(c, steps, states, |steps|);
    LossFreeHealthy(c, steps, states, |steps|);
    if Finished(c, s) {
      SomethingMoves(c, s);
      FinishedIsIdle(c, s);
      IdleIsFull(c, s);
    }
  }

  ghost function SendsAndWrites(steps: seq<Step>, k: nat): nat
    requires k <= |steps|
  {
    if k == 0 then 0
    else SendsAndWrites(steps, k - 1) + if steps[k - 1].Send? || steps[k - 1].Write? then 1 else 0
  }

  lemma StepCounts(c: Config, s: State, step: Step)
    requires ValidConfig(c) && Inv(c, s) && Enabled(c, s, step) && LossFree(s, step)
    ensures var s' := After(c, s, step);
            s'.h.queued + s'.h.written
            == s.h.queued + s.h.written + if step.Send? || step.Write? then 1 else 0
  {
    if step.DeliverData? {
      var x, r, ready' := ProtocolSteps.Delivered(c, s, s.data[step.i], true, step.keep);
      ProtocolSteps.DeliveredState(c, s, step.i, true, step.keep, x, r, ready');
    }
  }

  /** Whatever is sent again, a loss-free run numbers and writes each segment at most once. */
  lemma {:induction false} SendsAndWritesBounded(c: Config, steps: seq<Step>, states: seq<State>, k: nat)
    requires ValidConfig(c) && LossFreeRun(c, steps, states) && k <= |steps|
    ensures SendsAndWrites(steps, k) == states[k].h.queued + states[k].h.written <= 2 * |c.plan|
    decreases k
  {
    ProtocolSteps.RunKeepsInv(c, steps, states, k);
    if k > 0 {
      var before := k - 1;
      SendsAndWritesBounded(c, steps, states, before);
      ProtocolSteps.RunKeepsInv(c, steps, states, before);
      assert Takes(c, states[before], steps[before], states[before + 1]);
      StepCounts(c, states[before], steps[before]);
    }
  }

  /** No loss-free step can be taken. */
  ghost predicate Finished(c: Config, s: State) {
    forall step :: !(Enabled(c, s, step) && LossFree(s, step))
  }

  lemma FinishedIsIdle(c: Config, s: State)
    requires Inv(c, s) && Healthy(c, s) && Finished(c, s)
    ensures Idle(s)
  {
    if !Idle(s) {
      BusyMoves(c, s);
    }
  }
}
