/** What the receiver says, and when: every acknowledgement a run puts into the network, in terms of
    the bytes received and written. */
module ProtocolAcks {
  import opened Basics
  import opened Segments
  import opened Sack
  import opened Transfer
  import opened Protocol
  import ProtocolSteps
  import ProtocolLimits
  import Reorder

  // ----- What is said -----

  /** Byte p has been received and lies above the contiguous prefix. */
  ghost predicate HeldByte(c: Config, s: State, p: nat) {
    && s.rx.buffer.next <= p
    && exists x :: x in s.h.got && x < |c.plan| && Off(c.plan, x) <= p < Off(c.plan, x + 1)
  }

  /** The bytes of the range are held, and its neighbours are not. */
  ghost predicate MaximalRun(c: Config, s: State, r: Range) {
    && r.start < r.end
    && (forall p: nat :: r.start <= p < r.end ==> HeldByte(c, s, p))
    && !HeldByte(c, s, r.end)
    && (r.start > 0 ==> !HeldByte(c, s, r.start - 1))
  }

  /** The first four maximal runs of held bytes, or all of them when there are no more. */
  ghost predicate Reports(c: Config, s: State, ranges: seq<Range>) {
    && |ranges| <= 4
    && (forall i, j :: 0 <= i < j < |ranges| ==> ranges[i].end < ranges[j].start)
    && (forall i :: 0 <= i < |ranges| ==> MaximalRun(c, s, ranges[i]))
    && (forall p: nat :: HeldByte(c, s, p) ==> InRanges(ranges, p) || (|ranges| == 4 && p >= ranges[3].end))
  }

  lemma StoredIsHeld(c: Config, s: State, p: nat)
    requires WellFormed(c.plan) && BufferOk(c, s.rx.buffer, s.h.got, s.h.ready)
    ensures Stored(s.rx.buffer.entries, p) <==> HeldByte(c, s, p)
  {
    var table := s.rx.buffer.entries;
    if o :| o in table && o <= p < o + |table[o].data| {
      var x := Reorder.TableOnly(c.plan, s.h.got, s.h.ready, o);
      Reorder.TableHas(c.plan, s.h.got, s.h.ready, x);
      OffMonotone(c.plan, s.h.ready, x);
      assert Off(c.plan, x + 1) == o + |table[o].data|;
    }
    if HeldByte(c, s, p) {
      var x :| x in s.h.got && x < |c.plan| && Off(c.plan, x) <= p < Off(c.plan, x + 1);
      if x < s.h.ready {
        OffMonotone(c.plan, x + 1, s.h.ready);
      }
      Reorder.TableHas(c.plan, s.h.got, s.h.ready, x);
      var o := Off(c.plan, x);
      assert o in table && o <= p < o + |table[o].data|;
    }
  }

  lemma RunIsMaximal(c: Config, s: State, ranges: seq<Range>, i: nat)
    requires Separated(ranges) && i < |ranges|
    requires forall p: nat :: InRanges(ranges, p) <==> HeldByte(c, s, p)
    ensures MaximalRun(c, s, ranges[i])
  {
    var r := ranges[i];
    forall p: nat | r.start <= p < r.end
      ensures HeldByte(c, s, p)
    {
      assert InRanges(ranges, p);
    }
    forall j | 0 <= j < |ranges|
      ensures !(ranges[j].start <= r.end < ranges[j].end)
      ensures !(ranges[j].start <= r.start - 1 < ranges[j].end)
    {
      if j < i {
        assert ranges[j].end < r.start;
      } else if i < j {
        assert r.end < ranges[j].start;
      }
    }
  }

  lemma FirstOnesReport(c: Config, s: State, all: seq<Range>, ranges: seq<Range>)
    requires Separated(all) && ranges == all[..Min(|all|, 4)]
    requires forall p: nat :: InRanges(all, p) <==> HeldByte(c, s, p)
    ensures Reports(c, s, ranges)
  {
    forall i | 0 <= i < |ranges|
      ensures MaximalRun(c, s, ranges[i])
    {
      RunIsMaximal(c, s, all, i);
    }
    forall p: nat | HeldByte(c, s, p)
      ensures InRanges(ranges, p) || (|ranges| == 4 && p >= ranges[3].end)
    {
      var j :| 0 <= j < |all| && all[j].start <= p < all[j].end;
      if j < |ranges| {
        assert ranges[j].start <= p < ranges[j].end;
      }
    }
  }

  lemma SackReports(c: Config, s: State)
    requires WellFormed(c.plan) && BufferOk(c, s.rx.buffer, s.h.got, s.h.ready)
    ensures Reports(c, s, SackRanges(s.rx.buffer.entries))
  {
    var all := AllRanges(s.rx.buffer.entries);
    SackExact(s.rx.buffer.entries);
    forall p: nat
      ensures InRanges(all, p) <==> HeldByte(c, s, p)
    {
      StoredIsHeld(c, s, p);
    }
    FirstOnesReport(c, s, all, SackRanges(s.rx.buffer.entries));
  }

  // ----- Bytes written -----

  /** Bytes of a chunk that a failing write has cut short. */
  ghost function CutBy(s: State, step: Step): nat {
    if step.Write? && CanWrite(s.rx) && step.wrote < |s.rx.inbound[0].data| then step.wrote else 0
  }

  ghost function Cut(steps: seq<Step>, states: seq<State>, k: nat): nat
    requires k <= |steps| <= |states|
  {
    if k == 0 then 0 else Cut(steps, states, k - 1) + CutBy(states[k - 1], steps[k - 1])
  }

  lemma StepCounts(c: Config, s: State, step: Step, s': State)
    requires Takes(c, s, step, s')
    ensures |s'.output| - s'.rx.recvSeq == |s.output| - s.rx.recvSeq + CutBy(s, step)
    ensures s.rx.done ==> s'.rx.done && CutBy(s, step) == 0
    ensures CutBy(s, step) > 0 ==> s'.rx.done
  {
  }

  ghost predicate Counted(s: State, cut: nat) {
    |s.output| == s.rx.recvSeq + cut && (!s.rx.done ==> cut == 0)
  }

  lemma InitCounted(c: Config)
    ensures Counted(Init(c), 0)
  {
  }

  lemma StepCounted(c: Config, s: State, step: Step, s': State, cut: nat)
    requires Takes(c, s, step, s') && Counted(s, cut)
    ensures Counted(s', cut + CutBy(s, step))
  {
    StepCounts(c, s, step, s');
  }

  /** recvSeq counts the bytes written, apart from those of a chunk that was cut short; after that
      nothing more is written. */
  lemma {:induction false} WrittenCounted(c: Config, steps: seq<Step>, states: seq<State>, k: nat)
    requires IsRun(c, steps, states) && k <= |steps|
    ensures Counted(states[k], Cut(steps, states, k))
    decreases k
  {
    if k == 0 {
      InitCounted(c);
    } else {
      WrittenCounted(c, steps, states, k - 1);
      ProtocolSteps.RunTakes(c, steps, states, k - 1, states[k - 1], steps[k - 1], states[k]);
      StepCounted(c, states[k - 1], steps[k - 1], states[k], Cut(steps, states, k - 1));
    }
  }

  // ----- When it is said -----

  ghost predicate EndSeen(c: Config, s: State) {
    exists x :: x in s.h.got && x < |c.plan| && c.plan[x].end
  }

  /** The receiver has something to say. */
  ghost predicate Speaks(c: Config, s: State, credit: nat) {
    credit > 0 || (exists p: nat :: HeldByte(c, s, p)) || EndSeen(c, s)
  }

  /** The acknowledgement names the bytes written, returns this credit, and reports what is held. */
  ghost predicate Says(c: Config, s: State, written: int, credit: nat, ack: Ack) {
    ack.ackSeq == written && ack.credit == credit && Reports(c, s, ack.ranges)
  }

  /** One acknowledgement is added when there is something to say; if the transport refuses it, the
      receiver stops. */
  ghost predicate Answers(c: Config, s: State, s': State, written: int, credit: nat, sent: bool) {
    if Speaks(c, s', credit) && sent then
      exists ack :: Says(c, s', written, credit, ack) && s'.acks == s.acks + [ack]
    else
      s'.acks == s.acks && (Speaks(c, s', credit) ==> s'.rx.done)
  }

  lemma EndKnown(c: Config, s: State)
    requires WellFormed(c.plan) && BufferOk(c, s.rx.buffer, s.h.got, s.h.ready)
    ensures s.rx.buffer.terminal <==> EndSeen(c, s)
  {
    if x :| x in s.h.got && x < |c.plan| && c.plan[x].end {
      EndIsLast(c.plan, x);
    }
    if s.rx.buffer.terminal {
      assert |c.plan| - 1 in s.h.got;
    }
  }

  /** sendAck has something to say exactly when the receiver does. */
  lemma AckBuilt(c: Config, s: State, rx: Receiver, credit: Uint32)
    requires WellFormed(c.plan) && BufferOk(c, s.rx.buffer, s.h.got, s.h.ready)
    requires rx.buffer == s.rx.buffer && rx.recvSeq == s.rx.recvSeq
    ensures AckFor(rx, credit).Some? <==> Speaks(c, s, credit)
    ensures AckFor(rx, credit).Some? ==> Says(c, s, s.rx.recvSeq, credit, AckFor(rx, credit).value)
  {
    SackReports(c, s);
    EndKnown(c, s);
    var ranges := SackRanges(rx.buffer.entries);
    if ranges != [] {
      assert MaximalRun(c, s, ranges[0]) && HeldByte(c, s, ranges[0].start);
    }
  }

  lemma Answered(c: Config, s: State, s': State, rx: Receiver, credit: Uint32, sent: bool)
    requires WellFormed(c.plan) && BufferOk(c, s'.rx.buffer, s'.h.got, s'.h.ready)
    requires rx.buffer == s'.rx.buffer && rx.recvSeq == s'.rx.recvSeq
    requires s'.acks == s.acks + SendAck(rx, credit, sent).1
    requires SendAck(rx, credit, sent).0.done ==> s'.rx.done
    ensures Answers(c, s, s', s'.rx.recvSeq, credit, sent)
  {
    AckBuilt(c, s', rx, credit);
    assert s.acks + [] == s.acks;
  }

  lemma DataAnswered(c: Config, s: State, i: nat, sent: bool, keep: nat, s': State)
    requires ValidConfig(c) && Inv(c, s) && i < |s.data| && s' == AfterDeliverData(c, s, i, sent, keep)
    requires BufferOk(c, s'.rx.buffer, s'.h.got, s'.h.ready)
    ensures if s'.h.ready == s.h.ready then Answers(c, s, s', s'.rx.recvSeq, 0, sent) else s'.acks == s.acks
  {
    var x, r, ready' := ProtocolSteps.Delivered(c, s, s.data[i], sent, keep);
    ProtocolSteps.DeliveredState(c, s, i, sent, keep, x, r, ready');
    if HandedOut(s.rx, s.data[i]) == [] {
      var buffer := Reorder.Push(s.rx.buffer, s.data[i].seq_, s.data[i].payload, s.data[i].end).buffer;
      Answered(c, s, s', s.rx.(buffer := buffer), 0, sent);
    } else {
      assert s.acks + [] == s.acks;
    }
  }

  lemma WriteAnswered(c: Config, s: State, wrote: nat, sent: bool, s': State)
    requires ValidConfig(c) && Inv(c, s) && CanWrite(s.rx) && wrote <= |s.rx.inbound[0].data|
    requires s' == AfterWrite(s, wrote, sent)
    requires BufferOk(c, s'.rx.buffer, s'.h.got, s'.h.ready)
    ensures var n := |s.rx.inbound[0].data|;
            if wrote == n then Answers(c, s, s', s'.rx.recvSeq, n, sent) else s'.acks == s.acks && s'.rx.done
  {
    var n := |s.rx.inbound[0].data|;
    ProtocolSteps.HeadChunk(c.plan, s.rx, s.output, s.h.written, s.h.ready);
    if wrote == n {
      Answered(c, s, s', s.rx.(inbound := s.rx.inbound[1..], recvSeq := s.rx.recvSeq + n), n, sent);
    } else {
      assert s.acks + [] == s.acks;
    }
  }

  /** What a step says, when `written` bytes have been written whole after it. */
  ghost predicate StepAnswers(c: Config, s: State, step: Step, s': State, written: int) {
    match step
    case DeliverData(_, sent, _) =>
      if s'.h.ready == s.h.ready then Answers(c, s, s', written, 0, sent) else s'.acks == s.acks
    case Write(wrote, sent) =>
      && s.rx.inbound != []
      && var n := |s.rx.inbound[0].data|;
         if wrote == n then Answers(c, s, s', written, n, sent) else s'.acks == s.acks && s'.rx.done
    case LoseAck(i) => i < |s.acks| && s'.acks == Without(s.acks, i)
    case DeliverAck(i, _, _) => i < |s.acks| && s'.acks == Without(s.acks, i)
    case _ => s'.acks == s.acks
  }

  lemma StepSays(c: Config, s: State, step: Step, s': State, written: int)
    requires ValidConfig(c) && Inv(c, s) && Takes(c, s, step, s') && written == s'.rx.recvSeq
    requires BufferOk(c, s'.rx.buffer, s'.h.got, s'.h.ready)
    ensures StepAnswers(c, s, step, s', written)
  {
    match step
    case DeliverData(i, sent, keep) => DataAnswered(c, s, i, sent, keep, s');
    case Write(wrote, sent) => WriteAnswered(c, s, wrote, sent, s');
    case _ =>
  }

  /** In every run, an arrival that hands out nothing is answered if any data is held or the end has
      been seen, and a chunk written whole is answered if it carried data or one of these holds; no
      other step adds an acknowledgement. Each one says how many bytes have been written, returns the
      length of the chunk just written, and reports the first four maximal runs of held bytes. */
  lemma AnswersExact(
      c: Config, steps: seq<Step>, states: seq<State>, k: nat, s: State, step: Step, s': State, written: int)
    requires ValidConfig(c) && IsRun(c, steps, states) && k < |steps|
    requires s == states[k] && step == steps[k] && s' == states[k + 1]
    requires written == |s'.output| - Cut(steps, states, k + 1)
    ensures StepAnswers(c, s, step, s', written)
    ensures !s'.rx.done ==> written == |s'.output|
  {
    WrittenIs(c, steps, states, k + 1, s', written);
    RunSays(c, steps, states, k, s, step, s', written);
  }

  lemma WrittenIs(c: Config, steps: seq<Step>, states: seq<State>, k: nat, s: State, written: int)
    requires IsRun(c, steps, states) && k <= |steps| && s == states[k]
    requires written == |s.output| - Cut(steps, states, k)
    ensures written == s.rx.recvSeq && (!s.rx.done ==> written == |s.output|)
  {
    WrittenCounted(c, steps, states, k);
  }

  lemma RunSays(
      c: Config, steps: seq<Step>, states: seq<State>, k: nat, s: State, step: Step, s': State, written: int)
    requires ValidConfig(c) && IsRun(c, steps, states) && k < |steps|
    requires s == states[k] && step == steps[k] && s' == states[k + 1] && written == s'.rx.recvSeq
    ensures StepAnswers(c, s, step, s', written)
  {
    RunReady(c, steps, states, k, s, step, s');
    StepSays(c, s, step, s', written);
  }

  lemma RunReady(c: Config, steps: seq<Step>, states: seq<State>, k: nat, s: State, step: Step, s': State)
    requires ValidConfig(c) && IsRun(c, steps, states) && k < |steps|
    requires s == states[k] && step == steps[k] && s' == states[k + 1]
    ensures Inv(c, s) && Takes(c, s, step, s') && BufferOk(c, s'.rx.buffer, s'.h.got, s'.h.ready)
  {
    ProtocolSteps.RunTakes(c, steps, states, k, s, step, s');
    ProtocolSteps.RunKeepsInv(c, steps, states, k);
    ProtocolSteps.RunKeepsInv(c, steps, states, k + 1);
  }

  /** A frame that the buffer refuses, which takes a window larger than the capacity, changes nothing in
      the receiver and is answered like one that hands out nothing. */
  lemma RefusedAnswered(c: Config, s: State, i: nat, sent: bool, keep: nat, s': State)
    requires WellFormed(c.plan) && BufferOk(c, s.rx.buffer, s.h.got, s.h.ready) && i < |s.data|
    requires Reorder.Push(s.rx.buffer, s.data[i].seq_, s.data[i].payload, s.data[i].end).Overflow?
    requires s' == AfterDeliverData(c, s, i, sent, keep)
    ensures s'.stuck && s'.output == s.output && s'.rx.(done := s.rx.done) == s.rx
    ensures Answers(c, s, s', s'.rx.recvSeq, 0, sent)
  {
    Answered(c, s, s', s.rx, 0, sent);
  }

  /** What a write leaves: the bytes that reached the connection, one chunk less in the queue, and a
      receiver that has stopped if the chunk was cut short or its answer refused, and has half-closed if
      it was the last chunk and neither happened. */
  lemma WriteEffect(c: Config, s: State, wrote: nat, sent: bool, s': State)
    requires ValidConfig(c) && Reachable(c, s) && Takes(c, s, Write(wrote, sent), s')
    ensures !s.rx.done && !s.rx.remoteDone && s.rx.inbound != [] && wrote <= |s.rx.inbound[0].data|
    ensures var chunk := s.rx.inbound[0];
            && s'.output == s.output + chunk.data[..wrote] && s'.rx.inbound == s.rx.inbound[1..]
            && (s'.rx.done <==> wrote < |chunk.data| || (!sent && Speaks(c, s', |chunk.data|)))
            && (s'.rx.remoteDone <==> chunk.end && !s'.rx.done)
  {
    ProtocolSteps.ReachableInv(c, s);
    ProtocolSteps.StepKeepsInv(c, s, Write(wrote, sent));
    ProtocolSteps.HeadChunk(c.plan, s.rx, s.output, s.h.written, s.h.ready);
    WriteLeaves(c, s, wrote, sent, s.rx.inbound[0], s');
  }

  lemma WriteLeaves(c: Config, s: State, wrote: nat, sent: bool, chunk: Chunk, s': State)
    requires WellFormed(c.plan) && BufferOk(c, s'.rx.buffer, s'.h.got, s'.h.ready)
    requires CanWrite(s.rx) && chunk == s.rx.inbound[0] && wrote <= |chunk.data| < TWO_TO_32
    requires s' == AfterWrite(s, wrote, sent)
    ensures s'.output == s.output + chunk.data[..wrote] && s'.rx.inbound == s.rx.inbound[1..]
    ensures s'.rx.done <==> wrote < |chunk.data| || (!sent && Speaks(c, s', |chunk.data|))
    ensures s'.rx.remoteDone <==> chunk.end && !s'.rx.done
  {
    assert chunk.data[..|chunk.data|] == chunk.data;
    if wrote == |chunk.data| {
      AckBuilt(c, s', s.rx.(inbound := s.rx.inbound[1..], recvSeq := s.rx.recvSeq + |chunk.data|), |chunk.data|);
    }
  }

  // ----- Bytes of a write that was cut short are not counted -----

  ghost function ThreeReads(): (c: Config)
    ensures ValidConfig(c) && ProtocolLimits.Small(c) && |c.plan| == 3
    ensures Off(c.plan, 1) == 2 && Off(c.plan, 2) == 3 && Off(c.plan, 3) == 4
  {
    var c := Config([Chunk([7, 7], false), Chunk([8], false), Chunk([9], false)], 10, 10);
    assert Off(c.plan, 1) == Off(c.plan, 0) + 2;
    assert Off(c.plan, 2) == Off(c.plan, 1) + 1;
    assert Off(c.plan, 3) == Off(c.plan, 2) + 1;
    c
  }

  /** Nothing has been written yet; these segments have arrived. */
  ghost predicate Arrived(c: Config, s: State, got: set<nat>, data: seq<DataFrame>) {
    && Reachable(c, s) && s.h.got == got && s.data == data
    && s.h.written == 0 && s.rx.recvSeq == 0 && !s.rx.remoteDone
  }

  lemma NoneArrived(c: Config) returns (s: State)
    requires c == ThreeReads()
    ensures Arrived(c, s, {}, ProtocolLimits.Frames(c.plan, 0, 3)) && s.h.ready == 0
    ensures !s.rx.done && s.output == []
  {
    s := ProtocolLimits.SendAll(c, 3);
    ProtocolSteps.ReachableInv(c, s);
    if s.h.ready > 0 {
      OffStrict(c.plan, 0, s.h.ready);
    }
    forall x | x in s.h.got
      ensures false
    {
      Reorder.TableHas(c.plan, s.h.got, 0, x);
    }
  }

  lemma OneMore(c: Config, s: State, got: set<nat>, data: seq<DataFrame>, i: nat, x: nat) returns (s': State)
    requires c == ThreeReads() && Arrived(c, s, got, data) && i < |data|
    requires x < 3 && data[i] == FrameOf(c.plan, x)
    ensures Takes(c, s, DeliverData(i, true, 0), s') && Arrived(c, s', got + {x}, Without(data, i))
    ensures s'.rx.done == s.rx.done && s'.output == s.output
  {
    ProtocolSteps.ReachableInv(c, s);
    s' := AfterDeliverData(c, s, i, true, 0);
    ProtocolLimits.ReachableNext(c, s, DeliverData(i, true, 0), s');
    MoreLeaves(c, s, i, x, s');
  }

  lemma MoreLeaves(c: Config, s: State, i: nat, x: nat, s': State)
    requires ValidConfig(c) && Inv(c, s) && i < |s.data| && s' == AfterDeliverData(c, s, i, true, 0)
    requires x < |c.plan| && s.data[i] == FrameOf(c.plan, x)
    ensures s'.h.got == s.h.got + {x} && s'.data == Without(s.data, i) && s'.h.written == s.h.written
    ensures s'.rx.recvSeq == s.rx.recvSeq && s'.rx.remoteDone == s.rx.remoteDone
    ensures s'.rx.done == s.rx.done && s'.output == s.output
  {
    IndexAtOff(c.plan, x);
    var y, r, ready' := ProtocolSteps.Delivered(c, s, s.data[i], true, 0);
    ProtocolSteps.DeliveredState(c, s, i, true, 0, y, r, ready');
  }

  lemma CutWrite(c: Config, s: State, data: seq<DataFrame>) returns (s': State)
    requires c == ThreeReads() && Arrived(c, s, {0}, data) && !s.rx.done && s.output == []
    ensures Arrived(c, s', {0}, data) && |s'.output| == 1
  {
    ProtocolSteps.ReachableInv(c, s);
    assert s.h.ready == 1 && s.rx.inbound == c.plan[0..1];
    s' := AfterWrite(s, 1, true);
    ProtocolLimits.ReachableNext(c, s, Write(1, true), s');
  }

  /** The first of three segments has arrived, and only one of its two bytes was written. */
  lemma CutReached(c: Config, rest: seq<DataFrame>) returns (s: State)
    requires c == ThreeReads() && rest == [FrameOf(c.plan, 1), FrameOf(c.plan, 2)]
    ensures Arrived(c, s, {0}, rest) && |s.output| == 1
  {
    var all := ProtocolLimits.Frames(c.plan, 0, 3);
    var s0 := NoneArrived(c);
    var s1 := OneMore(c, s0, {}, all, 0, 0);
    assert Without(all, 0) == rest && {} + {0} == {0};
    s := CutWrite(c, s1, rest);
  }

  /** Two bytes are to be written, one is, and the write fails. A frame that arrives later is still
      answered, and the answer says that no byte has been written. */
  lemma CutNotCounted() returns (c: Config, s: State, s': State, ack: Ack)
    ensures ValidConfig(c) && Reachable(c, s) && Takes(c, s, DeliverData(1, true, 0), s')
    ensures s'.acks == s.acks + [ack] && ack.ackSeq == 0 && |s'.output| == 1
  {
    c := ThreeReads();
    var rest := [FrameOf(c.plan, 1), FrameOf(c.plan, 2)];
    s := CutReached(c, rest);
    s' := OneMore(c, s, {0}, rest, 1, 2);
    ack := LateAnswer(c, s, s', {0, 2});
  }

  lemma LateAnswer(c: Config, s: State, s': State, got: set<nat>) returns (ack: Ack)
    requires c == ThreeReads() && Reachable(c, s) && Reachable(c, s') && Takes(c, s, DeliverData(1, true, 0), s')
    requires s.h.got == {0} && s'.h.got == got == {0, 2} && s'.rx.recvSeq == 0
    ensures s'.acks == s.acks + [ack] && ack.ackSeq == 0
  {
    ProtocolSteps.ReachableInv(c, s);
    ProtocolSteps.ReachableInv(c, s');
    LateSpeaks(c, s, s', got);
    StepSays(c, s, DeliverData(1, true, 0), s', 0);
    ack :| Says(c, s', 0, 0, ack) && s'.acks == s.acks + [ack];
  }

  lemma LateSpeaks(c: Config, s: State, s': State, got: set<nat>)
    requires c == ThreeReads() && s.h.got == {0} && s'.h.got == got == {0, 2}
    requires BufferOk(c, s.rx.buffer, s.h.got, s.h.ready) && BufferOk(c, s'.rx.buffer, s'.h.got, s'.h.ready)
    ensures s'.h.ready == s.h.ready && Speaks(c, s', 0)
  {
    OneReady(c, s);
    OneReady(c, s');
    assert HeldByte(c, s', 3) by {
      assert 2 in s'.h.got && Off(c.plan, 2) <= 3 < Off(c.plan, 2 + 1);
    }
  }

  lemma OneReady(c: Config, s: State)
    requires c == ThreeReads() && BufferOk(c, s.rx.buffer, s.h.got, s.h.ready)
    requires 0 in s.h.got && 1 !in s.h.got
    ensures s.h.ready == 1 && s.rx.buffer.next == 2
  {
  }
}
