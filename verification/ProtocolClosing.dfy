/** When the sender takes a read, and what a half that has stopped no longer does. */
module ProtocolClosing {
  import opened Basics
  import opened Segments
  import opened Transfer
  import opened Protocol
  import ProtocolSteps

  // ----- When a read is taken -----

  /** A read is numbered if and only if no end was offered before and, when it carries data, the window
      is open and has credit for it; it is refused if and only if an end was offered before or it
      carries data and the window is closed; otherwise it waits. */
  lemma SendRule(c: Config, s: State, now: int)
    requires ValidConfig(c) && s.h.queued < |c.plan|
    ensures var data := c.plan[s.h.queued].data;
            && (Enabled(c, s, Send(now)) <==>
                  !s.tx.sendClosed && (data == [] || (!s.tx.closed && |data| <= s.tx.available)))
            && (Enabled(c, s, SendFails) <==> Enabled(c, s, Send(now)))
            && (Enabled(c, s, SendRefused) <==> s.tx.sendClosed || (data != [] && s.tx.closed))
            && (NextQueue(c, s).Blocked? <==>
                  !s.tx.sendClosed && !s.tx.closed && |data| > s.tx.available)
  {
  }

  /** A read that is taken goes out as one frame, at the offset of its first byte, and is remembered with
      the time of sending; its length is charged. */
  lemma SendEffect(c: Config, s: State, now: int, s': State)
    requires ValidConfig(c) && Reachable(c, s) && Takes(c, s, Send(now), s')
    ensures s.h.queued < |c.plan| && s'.h.queued == s.h.queued + 1
    ensures var read := c.plan[s.h.queued];
            var frame := DataFrame(|Content(c.plan, s.h.queued)|, read.data, read.end);
            && s'.data == s.data + [frame]
            && s'.tx.pending == s.tx.pending + [Entry(frame, Some(now))]
            && s'.tx.sendSeq == s.tx.sendSeq + |read.data|
            && s'.tx.available == s.tx.available - |read.data|
            && s'.tx.inflight == s.tx.inflight + |read.data|
  {
    ProtocolSteps.ReachableInv(c, s);
    ProtocolSteps.SendFields(c, s, now);
    ProtocolSteps.SendKeepsWindow(c, s, now);
  }

  // ----- The sender has stopped -----

  lemma ClosedStep(c: Config, s: State, step: Step, s': State)
    requires ValidConfig(c) && Takes(c, s, step, s') && s.tx.closed
    ensures s'.tx.closed && s'.tx.sendSeq == s.tx.sendSeq
    ensures step.Send? || step.SendFails? ==> c.plan[s.h.queued].data == []
  {
    if step.Send? || step.SendFails? {
      SendRule(c, s, 0);
    }
  }

  lemma ClosedNext(c: Config, steps: seq<Step>, states: seq<State>, k: nat, s: State, s': State)
    requires ValidConfig(c) && IsRun(c, steps, states) && k < |steps| && s == states[k] && s' == states[k + 1]
    requires s.tx.closed
    ensures s'.tx.closed && s'.tx.sendSeq == s.tx.sendSeq
  {
    ProtocolSteps.RunTakes(c, steps, states, k, s, steps[k], s');
    ClosedStep(c, s, steps[k], s');
  }

  /** Once the stream has failed it stays so, and no byte is numbered any more. */
  lemma {:induction false} ClosedForEver(c: Config, steps: seq<Step>, states: seq<State>, j: nat, k: nat)
    requires ValidConfig(c) && IsRun(c, steps, states) && j <= k <= |steps| && states[j].tx.closed
    ensures states[k].tx.closed && states[k].tx.sendSeq == states[j].tx.sendSeq
    decreases k
  {
    if j < k {
      var before := k - 1;
      ClosedForEver(c, steps, states, j, before);
      ClosedNext(c, steps, states, before, states[before], states[k]);
    }
  }

  /** Only an empty end mark can then still be sent for the first time. */
  lemma ClosedSends(c: Config, steps: seq<Step>, states: seq<State>, j: nat, k: nat, s: State, step: Step)
    requires ValidConfig(c) && IsRun(c, steps, states) && j <= k < |steps| && states[j].tx.closed
    requires s == states[k] && step == steps[k] && (step.Send? || step.SendFails?)
    ensures s.h.queued < |c.plan| && c.plan[s.h.queued] == Chunk([], true)
  {
    ClosedForEver(c, steps, states, j, k);
    ProtocolSteps.RunTakes(c, steps, states, k, s, step, states[k + 1]);
    ClosedStep(c, s, step, states[k + 1]);
  }

  lemma EndedStep(c: Config, s: State, step: Step, s': State)
    requires ValidConfig(c) && Takes(c, s, step, s')
    ensures s.tx.sendClosed ==> s'.tx.sendClosed && !step.Send? && !step.SendFails?
    ensures (step.Send? || step.SendFails? || step.SendRefused?) && c.plan[s.h.queued].end ==> s'.tx.sendClosed
  {
    if step.Send? || step.SendFails? || step.SendRefused? {
      SendRule(c, s, 0);
    }
  }

  ghost predicate OffersEnd(c: Config, s: State, step: Step) {
    (step.Send? || step.SendFails? || step.SendRefused?) && s.h.queued < |c.plan| && c.plan[s.h.queued].end
  }

  lemma EndNext(c: Config, steps: seq<Step>, states: seq<State>, k: nat, s: State, step: Step, s': State)
    requires ValidConfig(c) && IsRun(c, steps, states) && k < |steps|
    requires s == states[k] && step == steps[k] && s' == states[k + 1]
    requires s.tx.sendClosed || OffersEnd(c, s, step)
    ensures s'.tx.sendClosed
  {
    ProtocolSteps.RunTakes(c, steps, states, k, s, step, s');
    EndedStep(c, s, step, s');
  }

  lemma {:induction false} EndStays(c: Config, steps: seq<Step>, states: seq<State>, j: nat, k: nat)
    requires ValidConfig(c) && IsRun(c, steps, states) && j < k <= |steps| && OffersEnd(c, states[j], steps[j])
    ensures states[k].tx.sendClosed
    decreases k
  {
    var before := k - 1;
    if j < before {
      EndStays(c, steps, states, j, before);
    }
    EndNext(c, steps, states, before, states[before], steps[before], states[k]);
  }

  /** Once an end has been offered, taken or not, nothing is sent for the first time any more. */
  lemma EndedForEver(c: Config, steps: seq<Step>, states: seq<State>, j: nat, k: nat)
    requires ValidConfig(c) && IsRun(c, steps, states) && j < k < |steps| && OffersEnd(c, states[j], steps[j])
    ensures !steps[k].Send? && !steps[k].SendFails?
  {
    EndStays(c, steps, states, j, k);
    ProtocolSteps.RunTakes(c, steps, states, k, states[k], steps[k], states[k + 1]);
    EndedStep(c, states[k], steps[k], states[k + 1]);
  }

  // ----- The receiver has stopped -----

  lemma DoneStep(c: Config, s: State, step: Step, s': State)
    requires Takes(c, s, step, s') && s.rx.done
    ensures s'.rx.done && s'.output == s.output && s'.rx.remoteDone == s.rx.remoteDone
  {
  }

  lemma DoneNext(c: Config, steps: seq<Step>, states: seq<State>, k: nat, s: State, s': State)
    requires IsRun(c, steps, states) && k < |steps| && s == states[k] && s' == states[k + 1] && s.rx.done
    ensures s'.rx.done && s'.output == s.output && s'.rx.remoteDone == s.rx.remoteDone
  {
    ProtocolSteps.RunTakes(c, steps, states, k, s, steps[k], s');
    DoneStep(c, s, steps[k], s');
  }

  /** Once the receiver has stopped it stays so: nothing is written and nothing half-closed any more. */
  lemma {:induction false} DoneForEver(c: Config, steps: seq<Step>, states: seq<State>, j: nat, k: nat)
    requires IsRun(c, steps, states) && j <= k <= |steps| && states[j].rx.done
    ensures states[k].rx.done && states[k].output == states[j].output
    ensures states[k].rx.remoteDone == states[j].rx.remoteDone
    decreases k
  {
    if j < k {
      var before := k - 1;
      DoneForEver(c, steps, states, j, before);
      DoneNext(c, steps, states, before, states[before], states[k]);
    }
  }
}
