/** Both directions of a stream when nothing is lost and nothing fails: the pair ends with both
    inputs delivered and both endpoints closed. */
module DuplexProgress {
  import opened Segments
  import opened Transfer
  import opened Protocol
  import opened ProtocolProgress
  import opened Duplex
  import ProtocolSteps

  ghost predicate LossFreeMove(p: Pair, move: Move) {
    move.Transfer? ==> LossFree(p.out, move.step)
  }

  ghost predicate LossFreePair(p: Pair, step: PairStep) {
    match step
    case Near(move) => LossFreeMove(p, move)
    case Far(move) => LossFreeMove(Flip(p), move)
  }

  ghost predicate LossFreePairRun(c: Plans, steps: seq<PairStep>, pairs: seq<Pair>) {
    IsPairRun(c, steps, pairs) && forall k :: 0 <= k < |steps| ==> LossFreePair(pairs[k], steps[k])
  }

  /** Nothing that can still happen without a loss or a failure changes anything. */
  ghost predicate Stalled(c: Plans, p: Pair) {
    forall step :: PairEnabled(c, p, step) && LossFreePair(p, step) ==> AfterPair(c, p, step) == p
  }

  ghost predicate ValidPlans(c: Plans) {
    ValidConfig(c.out) && ValidConfig(c.back)
  }

  /** Each read can be charged to a full window, and the input ends. */
  ghost predicate Ends(c: Config) {
    FramesFit(c) && c.plan != [] && c.plan[|c.plan| - 1].end
  }

  /** What a run without losses and failures keeps: nothing is missing in either direction, and an
      endpoint is closed only when it is complete. */
  ghost predicate PairOk(c: Plans, p: Pair) {
    && PairInv(c, p) && BothOk(c, p)
    && Flowing(c.out, p.out) && Flowing(c.back, p.back)
  }

  lemma TransferKeeps(c: Plans, p: Pair, step: Step, s': State)
    requires ValidConfig(c.out) && PairOk(c, p)
    requires Enabled(c.out, p.out, step) && LossFree(p.out, step) && s' == After(c.out, p.out, step)
    ensures AfterMove(c, p, Transfer(step)) == p.(out := s')
    ensures BothOk(c, p.(out := s')) && Flowing(c.out, s')
  {
    FaultlessEffect(c.out, p.out, step);
    SteadyKeeps(c, p, s');
    FlowingStep(c.out, p.out, step);
  }

  lemma FinalizeFlows(c: Plans, p: Pair)
    requires Flowing(c.out, p.out) && Flowing(c.back, p.back)
    ensures Flowing(c.out, CloseNear(p).out) && Flowing(c.back, CloseNear(p).back)
  {
  }

  lemma MoveKeepsOk(c: Plans, p: Pair, move: Move)
    requires ValidConfig(c.out) && PairOk(c, p) && CanMove(c, p, move) && LossFreeMove(p, move)
    ensures PairOk(c, AfterMove(c, p, move))
  {
    MoveKeepsInv(c, p, move);
    match move
    case Transfer(step) => TransferKeeps(c, p, step, After(c.out, p.out, step));
    case LocalEof => LocalEofKeeps(c, p);
    case Finalize =>
      FinalizeKeeps(c, p);
      FinalizeFlows(c, p);
  }

  lemma FlipOk(c: Plans, p: Pair)
    requires PairOk(c, p)
    ensures PairOk(FlipPlans(c), Flip(p))
  {
  }

  lemma PairStepKeepsOk(c: Plans, p: Pair, step: PairStep)
    requires ValidPlans(c) && PairOk(c, p) && PairEnabled(c, p, step) && LossFreePair(p, step)
    ensures PairOk(c, AfterPair(c, p, step))
  {
    match step
    case Near(move) => MoveKeepsOk(c, p, move);
    case Far(move) =>
      var p' := AfterMove(FlipPlans(c), Flip(p), move);
      FlipOk(c, p);
      MoveKeepsOk(FlipPlans(c), Flip(p), move);
      FlipOk(FlipPlans(c), p');
  }

  lemma {:induction false} LossFreeRunOk(c: Plans, steps: seq<PairStep>, pairs: seq<Pair>, k: nat)
    requires ValidPlans(c) && LossFreePairRun(c, steps, pairs) && k <= |steps|
    ensures PairOk(c, pairs[k])
    decreases k
  {
    if k == 0 {
      PairRunSafe(c, steps, pairs, 0);
    } else {
      var before := k - 1;
      LossFreeRunOk(c, steps, pairs, before);
      assert PairTakes(c, pairs[before], steps[before], pairs[before + 1]);
      PairStepKeepsOk(c, pairs[before], steps[before]);
    }
  }

  // ----- Where the pair cannot go on -----

  /** Every loss-free step of a direction changes it. */
  lemma StepChanges(c: Config, s: State, step: Step)
    requires ValidConfig(c) && Inv(c, s) && Enabled(c, s, step) && LossFree(s, step)
    ensures After(c, s, step) != s
  {
    if step.DeliverData? {
      var x, r, ready' := ProtocolSteps.Delivered(c, s, s.data[step.i], true, step.keep);
      ProtocolSteps.DeliveredState(c, s, step.i, true, step.keep, x, r, ready');
      assert |Without(s.data, step.i)| < |s.data|;
    } else if step.DeliverAck? {
      assert |Without(s.acks, step.i)| < |s.acks|;
    }
  }

  lemma StalledStep(c: Plans, p: Pair, step: Step)
    requires ValidConfig(c.out) && PairOk(c, p) && Stalled(c, p)
    requires Enabled(c.out, p.out, step) && LossFree(p.out, step)
    ensures After(c.out, p.out, step) == p.out
  {
    TransferKeeps(c, p, step, After(c.out, p.out, step));
    assert PairEnabled(c, p, Near(Transfer(step))) && LossFreePair(p, Near(Transfer(step)));
    assert AfterPair(c, p, Near(Transfer(step))) == p;
  }

  lemma StalledTransfer(c: Plans, p: Pair)
    requires ValidConfig(c.out) && PairOk(c, p) && Stalled(c, p)
    ensures Finished(c.out, p.out)
  {
    forall step
      ensures !(Enabled(c.out, p.out, step) && LossFree(p.out, step))
    {
      if Enabled(c.out, p.out, step) && LossFree(p.out, step) {
        StalledStep(c, p, step);
        StepChanges(c.out, p.out, step);
      }
    }
  }

  lemma FinishedStops(c: Config, s: State)
    requires Inv(c, s) && Finished(c, s)
    ensures s.data == [] && s.acks == [] && !CanWrite(s.rx)
    ensures s.h.queued < |c.plan| ==> !NextQueue(c, s).Queued?
  {
    if s.data != [] {
      assert Enabled(c, s, DeliverData(0, true, 0)) && LossFree(s, DeliverData(0, true, 0));
    }
    if s.acks != [] {
      assert Enabled(c, s, DeliverAck(0, 0, {})) && LossFree(s, DeliverAck(0, 0, {}));
    }
    if CanWrite(s.rx) {
      var step := Write(|s.rx.inbound[0].data|, true);
      assert Enabled(c, s, step) && LossFree(s, step);
    }
    if s.h.queued < |c.plan| && NextQueue(c, s).Queued? {
      assert Enabled(c, s, Send(0)) && LossFree(s, Send(0));
    }
  }

  lemma FullWindowSends(c: Config, s: State)
    requires ValidConfig(c) && FramesFit(c) && Inv(c, s) && s.h.queued < |c.plan|
    requires !s.tx.closed && s.tx.available == c.window
    ensures NextQueue(c, s).Queued?
  {
  }

  /** A direction that cannot go on has half-closed: it stops short neither at the sender, whose
      window is full again, nor at the receiver. */
  lemma FinishedIsDone(c: Config, s: State)
    requires ValidConfig(c) && Ends(c) && Inv(c, s) && Flowing(c, s) && Finished(c, s)
    requires s.tx.closed ==> EndQueued(c, s)
    requires s.rx.done ==> s.rx.remoteDone
    ensures s.rx.remoteDone
  {
    FinishedStops(c, s);
    if !s.rx.remoteDone {
      IdleIsFull(c, s);
      if s.h.queued < |c.plan| {
        FullWindowSends(c, s);
      }
    }
  }

  lemma DoneIsWhole(c: Config, s: State)
    requires Inv(c, s) && s.rx.remoteDone
    ensures s.output == Content(c.plan, |c.plan|) && EndQueued(c, s)
  {
    ProtocolSteps.SentBytes(c, s);
  }

  lemma StalledCloses(c: Plans, p: Pair)
    requires Stalled(c, p) && EndQueued(c.out, p.out) && p.back.rx.remoteDone
    ensures p.nearDone && p.out.tx.closed && p.back.rx.done
  {
    assert PairEnabled(c, p, Near(LocalEof)) && LossFreePair(p, Near(LocalEof));
    assert AfterPair(c, p, Near(LocalEof)).nearDone;
    assert PairEnabled(c, p, Near(Finalize)) && LossFreePair(p, Near(Finalize));
    assert AfterPair(c, p, Near(Finalize)) == CloseNear(p);
  }

  lemma StalledFlips(c: Plans, p: Pair)
    requires Stalled(c, p)
    ensures Stalled(FlipPlans(c), Flip(p))
  {
    forall step | PairEnabled(FlipPlans(c), Flip(p), step) && LossFreePair(Flip(p), step)
      ensures AfterPair(FlipPlans(c), Flip(p), step) == Flip(p)
    {
      var mirrored := match step case Near(move) => Far(move) case Far(move) => Near(move);
      assert PairEnabled(c, p, mirrored) && LossFreePair(p, mirrored);
      assert AfterPair(c, p, mirrored) == p;
    }
  }

  /** Where a run without losses and failures cannot go on, each side's whole input has been written
      at the other and both endpoints have closed. */
  lemma PairDelivers(c: Plans, steps: seq<PairStep>, pairs: seq<Pair>, p: Pair)
    requires ValidPlans(c) && Ends(c.out) && Ends(c.back)
    requires LossFreePairRun(c, steps, pairs) && p == pairs[|steps|] && Stalled(c, p)
    ensures p.out.output == Content(c.out.plan, |c.out.plan|)
    ensures p.back.output == Content(c.back.plan, |c.back.plan|)
    ensures p.nearDone && p.out.tx.closed && p.back.rx.done
    ensures p.farDone && p.back.tx.closed && p.out.rx.done
  {
    LossFreeRunOk(c, steps, pairs, |steps|);
    StalledFlips(c, p);
    StalledTransfer(c, p);
    StalledTransfer(FlipPlans(c), Flip(p));
    FinishedIsDone(c.out, p.out);
    FinishedIsDone(c.back, p.back);
    DoneIsWhole(c.out, p.out);
    DoneIsWhole(c.back, p.back);
    StalledCloses(c, p);
    StalledCloses(FlipPlans(c), Flip(p));
  }

  // ----- How long it takes -----

  function Open(done: bool): nat {
    if done then 0 else 1
  }

  /** Work still to do: in both directions, and for each endpoint reading its end of file and
      closing. */
  ghost function PairWork(c: Plans, p: Pair): int {
    Work(c.out, p.out) + Work(c.back, p.back)
    + Open(p.nearDone) + Open(p.farDone) + Open(p.out.tx.closed) + Open(p.back.tx.closed)
  }

  ghost function MoveResends(p: Pair, move: Move): nat {
    if move.Transfer? then Resends(p.out, move.step) else 0
  }

  /** Frames that a step sends again. */
  ghost function PairResends(p: Pair, step: PairStep): nat {
    match step
    case Near(move) => MoveResends(p, move)
    case Far(move) => MoveResends(Flip(p), move)
  }

  lemma MoveWorks(c: Plans, p: Pair, move: Move, p': Pair)
    requires ValidConfig(c.out) && PairOk(c, p) && CanMove(c, p, move) && LossFreeMove(p, move)
    requires p' == AfterMove(c, p, move)
    ensures PairWork(c, p') <= PairWork(c, p) + 2 * MoveResends(p, move)
    ensures p' != p ==> PairWork(c, p') < PairWork(c, p) + 2 * MoveResends(p, move)
  {
    match move
    case Transfer(step) =>
      TransferKeeps(c, p, step, After(c.out, p.out, step));
      StepWorks(c.out, p.out, step);
      FlowingStep(c.out, p.out, step);
    case LocalEof =>
    case Finalize =>
  }

  lemma PairStepWorks(c: Plans, p: Pair, step: PairStep, p': Pair)
    requires ValidPlans(c) && PairOk(c, p) && PairEnabled(c, p, step) && LossFreePair(p, step)
    requires p' == AfterPair(c, p, step)
    ensures PairWork(c, p') + (if p' == p then 0 else 1) <= PairWork(c, p) + 2 * PairResends(p, step)
  {
    match step
    case Near(move) => MoveWorks(c, p, move, p');
    case Far(move) => MoveWorks(FlipPlans(c), Flip(p), move, Flip(p'));
  }

  /** Steps among the first k that change something, and frames sent again in them. */
  ghost function Changes(pairs: seq<Pair>, k: nat): nat
    requires k < |pairs|
  {
    if k == 0 then 0 else Changes(pairs, k - 1) + if pairs[k] == pairs[k - 1] then 0 else 1
  }

  ghost function PairResent(steps: seq<PairStep>, pairs: seq<Pair>, k: nat): nat
    requires k <= |steps| <= |pairs|
  {
    if k == 0 then 0 else PairResent(steps, pairs, k - 1) + PairResends(pairs[k - 1], steps[k - 1])
  }

  lemma InitWork(c: Plans, p: Pair)
    requires p == PairInit(c)
    ensures PairWork(c, p) == 5 * (|c.out.plan| + |c.back.plan|) + 4
  {
  }

  lemma PairWorkLeft(c: Plans, p: Pair)
    requires PairOk(c, p)
    ensures 0 <= PairWork(c, p)
  {
    WorkLeft(c.out, p.out);
    WorkLeft(c.back, p.back);
  }

  lemma NextOk(c: Plans, steps: seq<PairStep>, pairs: seq<Pair>, k: nat, p: Pair, step: PairStep, p': Pair)
    requires ValidPlans(c) && LossFreePairRun(c, steps, pairs) && k < |steps|
    requires p == pairs[k] && step == steps[k] && p' == pairs[k + 1]
    ensures PairOk(c, p) && PairTakes(c, p, step, p') && LossFreePair(p, step)
  {
    LossFreeRunOk(c, steps, pairs, k);
  }

  lemma NextWork(c: Plans, steps: seq<PairStep>, pairs: seq<Pair>, k: nat, p: Pair, step: PairStep, p': Pair)
    requires ValidPlans(c) && LossFreePairRun(c, steps, pairs) && k < |steps|
    requires p == pairs[k] && step == steps[k] && p' == pairs[k + 1]
    ensures PairWork(c, p') + (if p' == p then 0 else 1) <= PairWork(c, p) + 2 * PairResends(p, step)
  {
    NextOk(c, steps, pairs, k, p, step, p');
    PairStepWorks(c, p, step, p');
  }

  /** Every such run is bounded by the two inputs and the frames sent again: five steps a segment and
      two for each endpoint, apart from repeated looks that change nothing. */
  lemma {:induction false} PairStepsBounded(c: Plans, steps: seq<PairStep>, pairs: seq<Pair>, k: nat)
    requires ValidPlans(c) && LossFreePairRun(c, steps, pairs) && k <= |steps|
    ensures Changes(pairs, k) + PairWork(c, pairs[k])
         <= 5 * (|c.out.plan| + |c.back.plan|) + 4 + 2 * PairResent(steps, pairs, k)
    decreases k
  {
    if k == 0 {
      InitWork(c, pairs[0]);
    } else {
      PairStepsBounded(c, steps, pairs, k - 1);
      NextWork(c, steps, pairs, k - 1, pairs[k - 1], steps[k - 1], pairs[k]);
    }
  }

  /** So the steps that change anything run out, unless frames are sent again for ever. */
  lemma PairRunEnds(c: Plans, steps: seq<PairStep>, pairs: seq<Pair>)
    requires ValidPlans(c) && LossFreePairRun(c, steps, pairs)
    ensures Changes(pairs, |steps|)
         <= 5 * (|c.out.plan| + |c.back.plan|) + 4 + 2 * PairResent(steps, pairs, |steps|)
  {
    PairStepsBounded(c, steps, pairs, |steps|);
    LossFreeRunOk(c, steps, pairs, |steps|);
    PairWorkLeft(c, pairs[|steps|]);
  }
}
