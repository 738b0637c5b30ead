/** What every run of the protocol guarantees. */
module ProtocolTheorems {
  import opened Basics
  import opened Segments
  import opened Sack
  import opened Transfer
  import opened Protocol
  import ProtocolSteps
  import AckFacts
  import Reorder

  // ----- No overflow -----

  /** In every reachable state the receiver's dispatcher is not stuck, and every frame that may
      arrive next is accepted at the first attempt. */
  lemma NeverOverflows(c: Config, s: State)
    requires ValidConfig(c) && Reachable(c, s)
    ensures !s.stuck
    ensures forall i :: 0 <= i < |s.data| ==>
              Reorder.Push(s.rx.buffer, s.data[i].seq_, s.data[i].payload, s.data[i].end).Accepted?
  {
    ProtocolSteps.ReachableInv(c, s);
    forall i | 0 <= i < |s.data|
      ensures Reorder.Push(s.rx.buffer, s.data[i].seq_, s.data[i].payload, s.data[i].end).Accepted?
    {
      var x, result := ProtocolSteps.PushKnown(c, s, s.data[i]);
    }
  }

  /** Endpoints with equal windows meet the condition, and so does any sender whose window is at
      most twice the receiver's. */
  lemma CapacitySuffices(senderWindow: Uint32, receiverWindow: Uint32)
    requires senderWindow <= 2 * receiverWindow
    ensures senderWindow <= ReorderCapacity(receiverWindow)
  {
  }

  /** The capacity is twice the window, as far as 32 bits allow; a stream without a window gets 512 KiB. */
  lemma CapacityDoubles(window: Uint32)
    ensures ReorderCapacity(window)
         == if window == 0 then 524_288 else if 2 * window <= 4_294_967_295 then 2 * window else 4_294_967_295
  {
  }

  // ----- No byte is forgotten -----

  /** The receiver has the segment: handed out, or in its reorder buffer. */
  ghost predicate ReceiverHas(c: Config, s: State, x: nat)
    requires x < |c.plan|
  {
    Off(c.plan, x + 1) <= s.rx.buffer.next || Off(c.plan, x) in s.rx.buffer.entries
  }

  lemma GotIsHeld(c: Config, s: State, x: nat)
    requires ValidConfig(c) && Inv(c, s)
    requires x < |c.plan| && x in s.h.got
    ensures ReceiverHas(c, s, x)
  {
    if x < s.h.ready {
      OffMonotone(c.plan, x + 1, s.h.ready);
    } else {
      Reorder.TableHas(c.plan, s.h.got, s.h.ready, x);
    }
  }

  /** While the stream lives, every non-empty segment it has numbered is below the receiver's
      next offset, in its reorder buffer, or pending. */
  lemma NoByteForgotten(c: Config, s: State, x: nat)
    requires ValidConfig(c) && Reachable(c, s)
    requires !s.tx.closed
    requires x < s.h.queued && x < |c.plan| && c.plan[x].data != []
    ensures ReceiverHas(c, s, x) || Pends(s.tx.pending, Off(c.plan, x))
  {
    ProtocolSteps.ReachableInv(c, s);
    assert x !in s.h.unsent;
    if x in s.h.got {
      GotIsHeld(c, s, x);
    }
  }

  /** An acknowledgement in flight, however old, drops a non-empty entry only if the receiver
      already has all of it. */
  lemma DropsOnlyReceived(c: Config, s: State, i: nat, e: Entry)
    requires ValidConfig(c) && Reachable(c, s)
    requires i < |s.acks|
    requires e in s.tx.pending && e.frame.payload != []
    requires e !in Kept(s.tx.pending, s.acks[i])
    ensures var x := IndexAt(c.plan, e.frame.seq_);
            x < |c.plan| && e.frame == FrameOf(c.plan, x) && ReceiverHas(c, s, x)
  {
    ProtocolSteps.ReachableInv(c, s);
    var x := ProtocolSteps.KnownSpan(c, s.h.queued, s.h.unsent, e.frame);
    ProtocolSteps.DroppedReceived(c, s, i, e);
    GotIsHeld(c, s, x);
  }

  // ----- In order, exactly once -----

  ghost function Flat(chunks: seq<Chunk>): seq<Byte> {
    if chunks == [] then [] else Flat(chunks[..|chunks| - 1]) + chunks[|chunks| - 1].data
  }

  lemma {:induction false} ContentFlat(plan: seq<Chunk>, i: nat, j: nat)
    requires i <= j <= |plan|
    ensures Content(plan, i) + Flat(plan[i..j]) == Content(plan, j)
    decreases j
  {
    if i < j {
      ContentFlat(plan, i, j - 1);
      assert plan[i..j][..j - i - 1] == plan[i..j - 1];
    }
  }

  /** In every run the bytes written are a prefix of the bytes given to the sender. While the
      receiver lives, recvSeq counts them, and together with the queued chunks they are exactly
      the input below the buffer's next offset. */
  lemma InOrderExactlyOnce(c: Config, s: State)
    requires ValidConfig(c) && Reachable(c, s)
    ensures s.h.queued <= |c.plan| && s.output <= Content(c.plan, s.h.queued)
    ensures !s.rx.done ==>
              && s.rx.recvSeq == |s.output|
              && s.rx.buffer.next <= Off(c.plan, s.h.queued)
              && s.output + Flat(s.rx.inbound) == Content(c.plan, s.h.queued)[..s.rx.buffer.next]
  {
    ProtocolSteps.ReachableInv(c, s);
    ProtocolSteps.SentBytes(c, s);
    ContentPrefix(c.plan, s.h.ready, s.h.queued);
    ContentPrefix(c.plan, s.h.written, s.h.ready);
    if !s.rx.done {
      ContentFlat(c.plan, s.h.written, s.h.ready);
    }
  }

  /** Half-closing the far connection means that its output is the sender's whole input, and a
      receiver that lives has half-closed as soon as that is written. */
  lemma EndOfStreamComplete(c: Config, s: State)
    requires ValidConfig(c) && Reachable(c, s)
    ensures s.rx.remoteDone ==>
              && |c.plan| > 0 && c.plan[|c.plan| - 1].end
              && s.h.queued == |c.plan|
              && s.output == Content(c.plan, |c.plan|)
    ensures !s.rx.done && |c.plan| > 0 && c.plan[|c.plan| - 1].end && s.h.written == |c.plan| ==>
              s.rx.remoteDone
  {
    EndKept(c, s);
  }

  lemma EndKept(c: Config, s: State)
    requires ValidConfig(c) && Reachable(c, s)
    ensures s.h.written <= s.h.queued <= |c.plan|
    ensures EndOk(c.plan, s.rx.done, s.rx.remoteDone, s.output, s.h.written)
  {
    ProtocolSteps.ReachableInv(c, s);
    ProtocolSteps.SentBytes(c, s);
  }

  /** The chunks that the reorder buffer hands out in one step. */
  ghost function HandedOutBy(s: State, step: Step): seq<Chunk> {
    if step.DeliverData? && step.i < |s.data| then HandedOut(s.rx, s.data[step.i]) else []
  }

  /** Every chunk handed out in the first k steps of a run, in order. */
  ghost function Emitted(steps: seq<Step>, states: seq<State>, k: nat): seq<Chunk>
    requires k <= |steps| <= |states|
  {
    if k == 0 then [] else Emitted(steps, states, k - 1) + HandedOutBy(states[k - 1], steps[k - 1])
  }

  lemma StepEmits(c: Config, s: State, step: Step)
    requires ValidConfig(c) && Inv(c, s) && Enabled(c, s, step)
    ensures var more := |HandedOutBy(s, step)|;
            && s.h.ready + more <= |c.plan|
            && HandedOutBy(s, step) == c.plan[s.h.ready..s.h.ready + more]
            && After(c, s, step).h.ready == s.h.ready + more
  {
    if step.DeliverData? {
      var x, result := ProtocolSteps.PushKnown(c, s, s.data[step.i]);
      assert result.chunks == HandedOut(s.rx, s.data[step.i]);
    }
  }

  lemma EmittedStep(c: Config, s: State, step: Step, s': State, before: seq<Chunk>)
    requires ValidConfig(c) && Inv(c, s) && Takes(c, s, step, s')
    requires s.h.ready <= |c.plan| && before == c.plan[..s.h.ready]
    ensures s'.h.ready <= |c.plan| && before + HandedOutBy(s, step) == c.plan[..s'.h.ready]
  {
    StepEmits(c, s, step);
    PlanJoins(c.plan, s.h.ready, |HandedOutBy(s, step)|, before, HandedOutBy(s, step));
  }

  lemma PlanJoins(plan: seq<Chunk>, ready: nat, more: nat, before: seq<Chunk>, chunks: seq<Chunk>)
    requires ready + more <= |plan| && before == plan[..ready] && chunks == plan[ready..ready + more]
    ensures before + chunks == plan[..ready + more]
  {
  }

  /** All along a run, the chunks handed out are the first segments of the input, each once. */
  lemma {:induction false} EmittedExact(c: Config, steps: seq<Step>, states: seq<State>, k: nat)
    requires ValidConfig(c) && IsRun(c, steps, states) && k <= |steps|
    ensures states[k].h.ready <= |c.plan|
    ensures Emitted(steps, states, k) == c.plan[..states[k].h.ready]
    decreases k
  {
    if k > 0 {
      var before := k - 1;
      EmittedExact(c, steps, states, before);
      ProtocolSteps.RunKeepsInv(c, steps, states, before);
      assert Takes(c, states[before], steps[before], states[before + 1]);
      EmittedStep(c, states[before], steps[before], states[k], Emitted(steps, states, before));
    }
  }

  /** In every run at most one end mark is handed out, and after every other chunk: one that is
      handed out is the last chunk so far and completes the input. */
  lemma EndHandedOutOnce(c: Config, steps: seq<Step>, states: seq<State>, i: nat)
    requires ValidConfig(c) && IsRun(c, steps, states)
    requires i < |Emitted(steps, states, |steps|)| && Emitted(steps, states, |steps|)[i].end
    ensures i == |Emitted(steps, states, |steps|)| - 1
    ensures Emitted(steps, states, |steps|) == c.plan
  {
    EmittedExact(c, steps, states, |steps|);
    EndIsLast(c.plan, i);
  }

  // ----- Credit -----

  /** Over whole runs: the window is conserved; bytes numbered, less those whose send failed,
      are in flight or released; bytes written are released, in transit or lost. */
  lemma CreditConserved(c: Config, s: State)
    requires ValidConfig(c) && Reachable(c, s)
    ensures s.tx.available + s.tx.inflight == c.window
    ensures s.h.queued <= |c.plan|
    ensures s.tx.sendSeq == s.tx.inflight + s.h.released + Held(c.plan, s.h.unsent, 0, s.h.queued)
    ensures s.rx.recvSeq == s.h.released + Credits(s.acks) + s.h.lost
  {
    ProtocolSteps.ReachableInv(c, s);
  }

  /** At every step of every run the additions and subtractions on the sender's uint32 counters
      are exact, and a send that fails leaves window, counter and pending list as they were. */
  lemma SenderArithmeticExact(c: Config, s: State, step: Step)
    requires ValidConfig(c) && Reachable(c, s)
    requires Enabled(c, s, step)
    ensures var tx' := After(c, s, step).tx;
            && (step.Send? ==>
                  var length := |c.plan[s.h.queued].data|;
                  tx'.available == s.tx.available - length && tx'.inflight == s.tx.inflight + length)
            && (step.DeliverAck? ==>
                  var credit := s.acks[step.i].credit;
                  tx'.available == s.tx.available + credit && tx'.inflight == s.tx.inflight - credit)
            && (step.SendFails? ==>
                  && tx'.available == s.tx.available && tx'.inflight == s.tx.inflight
                  && tx'.pending == s.tx.pending)
  {
    ProtocolSteps.ReachableInv(c, s);
    match step
    case Send(now) => ProtocolSteps.SendKeepsWindow(c, s, now);
    case DeliverAck(i, now, refused) => ProtocolSteps.AckKeepsSender(c, s, i, now, refused);
    case SendFails => ProtocolSteps.SendFailsKeepsSender(c, s);
    case _ =>
  }

  /** The buffered count is the exact number of bytes held, never above the sender's window. */
  lemma BufferedExact(c: Config, s: State)
    requires ValidConfig(c) && Reachable(c, s)
    ensures s.h.ready <= |c.plan|
    ensures s.rx.buffer.buffered == Held(c.plan, s.h.got, s.h.ready, |c.plan|)
    ensures s.rx.recvSeq + s.rx.buffer.buffered + s.tx.available <= s.h.released + c.window
  {
    ProtocolSteps.ReachableInv(c, s);
    ProtocolSteps.SentBytes(c, s);
    HeldSplit(c.plan, s.h.got, s.h.ready, s.h.queued, |c.plan|);
    HeldNone(c.plan, s.h.got, s.h.queued, |c.plan|);
    HeldSplit(c.plan, s.h.unsent, 0, s.h.ready, s.h.queued);
    HeldDisjoint(c.plan, s.h.got, s.h.unsent, s.h.ready, s.h.queued);
  }

  // ----- Holes -----

  /** In every run, for every acknowledgement in flight, each non-empty pending entry is covered,
      inside one hole, or beyond, and only one of these; it is sent again exactly when it is
      inside a hole and was not sent within the interval. */
  lemma HoleEntriesResent(c: Config, s: State, i: nat, e: Entry, now: int)
    requires ValidConfig(c) && Reachable(c, s)
    requires i < |s.acks|
    requires e in s.tx.pending && e.frame.payload != []
    ensures var x := IndexAt(c.plan, e.frame.seq_);
            var ack := s.acks[i];
            && x < |c.plan| && e.frame == FrameOf(c.plan, x)
            && var covered := Covers(ack, Off(c.plan, x), Off(c.plan, x + 1));
               var inside := AckFacts.InsideHole(c.plan, ack, x);
               var beyond := AckFacts.Beyond(c.plan, ack, x);
               && (covered || inside || beyond)
               && !(covered && inside) && !(inside && beyond) && !(covered && beyond)
               && (e in DueOf(Kept(s.tx.pending, ack), Holes(ack), now) <==> inside && !Recent(e, now))
  {
    ProtocolSteps.ReachableInv(c, s);
    var ack := s.acks[i];
    var x := ProtocolSteps.KnownSpan(c, s.h.queued, s.h.unsent, e.frame);
    ResentExactly(c, s, ack, e, x, now);
  }

  lemma ResentExactly(c: Config, s: State, ack: Ack, e: Entry, x: nat, now: int)
    requires ValidConfig(c)
    requires AckFacts.Truthful(c.plan, s.h.got, s.h.written, ack)
    requires x < |c.plan| && c.plan[x].data != [] && e.frame == FrameOf(c.plan, x)
    requires e in s.tx.pending
    ensures var covered := Covers(ack, Off(c.plan, x), Off(c.plan, x + 1));
            var inside := AckFacts.InsideHole(c.plan, ack, x);
            var beyond := AckFacts.Beyond(c.plan, ack, x);
            && (covered || inside || beyond)
            && !(covered && inside) && !(inside && beyond) && !(covered && beyond)
            && (e in DueOf(Kept(s.tx.pending, ack), Holes(ack), now) <==> inside && !Recent(e, now))
  {
    AckFacts.Trichotomy(c.plan, s.h.got, s.h.written, ack, x);
    AckFacts.MeetsIsInside(c.plan, s.h.got, s.h.written, ack, x);
    ProtocolSteps.DueHas(Kept(s.tx.pending, ack), Holes(ack), now, e);
    ProtocolSteps.KeptHas(s.tx.pending, ack, e);
  }

  /** The segment that contains byte position p. */
  lemma {:induction false} SegmentOf(plan: seq<Chunk>, hi: nat, p: nat) returns (x: nat)
    requires hi <= |plan| && p < Off(plan, hi)
    ensures x < hi && Off(plan, x) <= p < Off(plan, x + 1)
    decreases hi
  {
    if p < Off(plan, hi - 1) {
      x := SegmentOf(plan, hi - 1, p);
    } else {
      x := hi - 1;
    }
  }

  lemma {:induction false} MaxEndReached(ranges: seq<Range>, p: nat) returns (i: nat)
    requires p < MaxEnd(ranges)
    ensures i < |ranges| && p < ranges[i].end
    decreases |ranges|
  {
    if p < ranges[0].end {
      i := 0;
    } else {
      var j := MaxEndReached(ranges[1..], p);
      i := j + 1;
    }
  }

  lemma HoleSegment(plan: seq<Chunk>, got: set<nat>, written: nat, queued: nat, ack: Ack, p: nat) returns (x: nat)
    requires AckFacts.Truthful(plan, got, written, ack)
    requires forall y :: y in got ==> y < queued
    requires InRanges(Holes(ack), p)
    ensures x < queued && x < |plan| && Off(plan, x) <= p < Off(plan, x + 1)
  {
    AckFacts.TruthfulEdges(plan, got, written, ack);
    HolesExact(ack);
    var j := MaxEndReached(ack.ranges, p);
    var a: nat, b: nat :| AckFacts.RunOf(plan, got, ack.ranges[j], a, b);
    assert b - 1 in got;
    x := SegmentOf(plan, b, p);
  }

  /** Holes can always be repaired: while the stream lives, every byte of a hole belongs to a
      segment that the receiver has or that is pending. */
  lemma HoleBytesPending(c: Config, s: State, i: nat, p: nat) returns (x: nat)
    requires ValidConfig(c) && Reachable(c, s)
    requires !s.tx.closed
    requires i < |s.acks|
    requires InRanges(Holes(s.acks[i]), p)
    ensures x < s.h.queued && x < |c.plan| && Off(c.plan, x) <= p < Off(c.plan, x + 1)
    ensures ReceiverHas(c, s, x) || Pends(s.tx.pending, Off(c.plan, x))
  {
    ProtocolSteps.ReachableInv(c, s);
    x := HoleSegment(c.plan, s.h.got, s.h.written, s.h.queued, s.acks[i], p);
    NoByteForgotten(c, s, x);
  }
}
