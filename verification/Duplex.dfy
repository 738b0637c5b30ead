/** Both directions of a stream between two endpoints, and the way an endpoint ends it. Each
    endpoint holds the sending half of one direction and the receiving half of the other; a
    failure or a close of the endpoint stops both. */
module Duplex {
  import opened Segments
  import opened Sack
  import opened Transfer
  import opened Protocol
  import ProtocolSteps

  datatype Plans = Plans(out: Config, back: Config)

  /** `out` runs from the near endpoint to the far one, `back` the other way. */
  datatype Pair = Pair(out: State, back: State, nearDone: bool, farDone: bool)

  function FlipPlans(c: Plans): Plans {
    Plans(c.back, c.out)
  }

  function Flip(p: Pair): Pair {
    Pair(p.back, p.out, p.farDone, p.nearDone)
  }

  ghost function PairInit(c: Plans): Pair {
    Pair(Init(c.out), Init(c.back), false, false)
  }

  /** fail and close stop the window of the sending half and the pumps of both halves. */
  function CloseNear(p: Pair): Pair {
    p.(out := p.out.(tx := Fail(p.out.tx)), back := p.back.(rx := p.back.rx.(done := true)))
  }

  predicate NearClosed(p: Pair) {
    p.out.tx.closed || p.back.rx.done
  }

  /** An endpoint whose one half has failed has failed. */
  function Settle(p: Pair): Pair {
    var p1 := if NearClosed(p) then CloseNear(p) else p;
    if NearClosed(Flip(p1)) then Flip(CloseNear(Flip(p1))) else p1
  }

  datatype Move =
    | Transfer(step: Step)  // a step of the direction `out`
    | LocalEof              // the near pump has read end of file and set localDone
    | Finalize              // maybeFinalize at the near endpoint closes the stream

  /** A move of the near endpoint or, mirrored, of the far one. */
  datatype PairStep = Near(move: Move) | Far(move: Move)

  /** The end mark of the outgoing direction has been numbered. */
  ghost predicate EndQueued(c: Config, s: State) {
    s.h.queued == |c.plan| > 0 && c.plan[|c.plan| - 1].end
  }

  ghost predicate CanMove(c: Plans, p: Pair, move: Move) {
    match move
    case Transfer(step) => Enabled(c.out, p.out, step)
    case LocalEof => EndQueued(c.out, p.out) || p.out.tx.closed
    case Finalize => p.nearDone && p.back.rx.remoteDone
  }

  ghost function AfterMove(c: Plans, p: Pair, move: Move): Pair
    requires CanMove(c, p, move)
  {
    match move
    case Transfer(step) => Settle(p.(out := After(c.out, p.out, step)))
    case LocalEof => p.(nearDone := true)
    case Finalize => CloseNear(p)
  }

  ghost predicate PairEnabled(c: Plans, p: Pair, step: PairStep) {
    match step
    case Near(move) => CanMove(c, p, move)
    case Far(move) => CanMove(FlipPlans(c), Flip(p), move)
  }

  ghost function AfterPair(c: Plans, p: Pair, step: PairStep): Pair
    requires PairEnabled(c, p, step)
  {
    match step
    case Near(move) => AfterMove(c, p, move)
    case Far(move) => Flip(AfterMove(FlipPlans(c), Flip(p), move))
  }

  ghost predicate PairTakes(c: Plans, p: Pair, step: PairStep, p': Pair) {
    PairEnabled(c, p, step) && p' == AfterPair(c, p, step)
  }

  ghost predicate IsPairRun(c: Plans, steps: seq<PairStep>, pairs: seq<Pair>) {
    && |pairs| == |steps| + 1
    && pairs[0] == PairInit(c)
    && forall k :: 0 <= k < |steps| ==> PairTakes(c, pairs[k], steps[k], pairs[k + 1])
  }

  ghost predicate PairInv(c: Plans, p: Pair) {
    Inv(c.out, p.out) && Inv(c.back, p.back)
  }

  lemma FailKeeps(c: Config, s: State)
    requires Inv(c, s)
    ensures Inv(c, s.(tx := Fail(s.tx)))
  {
    ProtocolSteps.SenderFailsStep(c, s);
    assert s.(tx := Fail(s.tx)) == After(c, s, SenderFails);
  }

  lemma DoneKeeps(c: Config, s: State)
    requires Inv(c, s)
    ensures Inv(c, s.(rx := s.rx.(done := true)))
  {
    ProtocolSteps.ReceiverFailsStep(c, s);
    assert s.(rx := s.rx.(done := true)) == After(c, s, ReceiverFails);
  }

  lemma CloseKeepsInv(c: Plans, p: Pair)
    requires PairInv(c, p)
    ensures PairInv(c, CloseNear(p))
  {
    FailKeeps(c.out, p.out);
    DoneKeeps(c.back, p.back);
  }

  lemma SettleKeepsInv(c: Plans, p: Pair)
    requires PairInv(c, p)
    ensures PairInv(c, Settle(p))
  {
    CloseKeepsInv(c, p);
    var p1 := if NearClosed(p) then CloseNear(p) else p;
    CloseKeepsInv(FlipPlans(c), Flip(p1));
  }

  lemma MoveKeepsInv(c: Plans, p: Pair, move: Move)
    requires ValidConfig(c.out) && PairInv(c, p) && CanMove(c, p, move)
    ensures PairInv(c, AfterMove(c, p, move))
  {
    match move
    case Transfer(step) =>
      ProtocolSteps.StepKeepsInv(c.out, p.out, step);
      SettleKeepsInv(c, p.(out := After(c.out, p.out, step)));
    case LocalEof =>
    case Finalize =>
      CloseKeepsInv(c, p);
  }

  lemma PairStepSafe(c: Plans, p: Pair, step: PairStep)
    requires ValidConfig(c.out) && ValidConfig(c.back) && PairInv(c, p) && PairEnabled(c, p, step)
    ensures PairInv(c, AfterPair(c, p, step))
  {
    match step
    case Near(move) => MoveKeepsInv(c, p, move);
    case Far(move) => MoveKeepsInv(FlipPlans(c), Flip(p), move);
  }

  /** Failures of either endpoint at any moment leave both directions safe. */
  lemma {:induction false} PairRunSafe(c: Plans, steps: seq<PairStep>, pairs: seq<Pair>, k: nat)
    requires ValidConfig(c.out) && ValidConfig(c.back)
    requires IsPairRun(c, steps, pairs) && k <= |steps|
    ensures PairInv(c, pairs[k])
    decreases k
  {
    if k == 0 {
      ProtocolSteps.InitInv(c.out);
      ProtocolSteps.InitInv(c.back);
    } else {
      var before := k - 1;
      PairRunSafe(c, steps, pairs, before);
      assert PairTakes(c, pairs[before], steps[before], pairs[before + 1]);
      PairStepSafe(c, pairs[before], steps[before]);
    }
  }

  /** The two halves of each endpoint have stopped together or not at all. */
  ghost predicate Coupled(p: Pair) {
    && (p.out.tx.closed <==> p.back.rx.done)
    && (p.back.tx.closed <==> p.out.rx.done)
  }

  lemma SettleCouples(p: Pair)
    ensures Coupled(Settle(p))
  {
  }

  lemma MoveCouples(c: Plans, p: Pair, move: Move)
    requires Coupled(p) && CanMove(c, p, move)
    ensures Coupled(AfterMove(c, p, move))
  {
    if move.Transfer? {
      SettleCouples(p.(out := After(c.out, p.out, move.step)));
    }
  }

  lemma PairStepCouples(c: Plans, p: Pair, step: PairStep)
    requires Coupled(p) && PairEnabled(c, p, step)
    ensures Coupled(AfterPair(c, p, step))
  {
    match step
    case Near(move) => MoveCouples(c, p, move);
    case Far(move) => MoveCouples(FlipPlans(c), Flip(p), move);
  }

  /** Whatever stops one half of an endpoint, a refused send, a failed write or a close, stops the other
      half with it. */
  lemma {:induction false} EndpointsFailWhole(c: Plans, steps: seq<PairStep>, pairs: seq<Pair>, k: nat)
    requires IsPairRun(c, steps, pairs) && k <= |steps|
    ensures Coupled(pairs[k])
    decreases k
  {
    if k > 0 {
      var before := k - 1;
      EndpointsFailWhole(c, steps, pairs, before);
      assert PairTakes(c, pairs[before], steps[before], pairs[before + 1]);
      PairStepCouples(c, pairs[before], steps[before]);
    }
  }

  // ----- Runs in which no endpoint fails -----

  /** Frames and acknowledgements may be lost, but no send and no write fails. */
  ghost predicate Faultless(s: State, step: Step) {
    match step
    case Send(_) => true
    case LoseData(_) => true
    case LoseAck(_) => true
    case DeliverData(_, sent, _) => sent
    case Write(wrote, sent) => s.rx.inbound != [] && wrote == |s.rx.inbound[0].data| && sent
    case DeliverAck(_, _, refused) => refused == {}
    case _ => false
  }

  ghost predicate FaultlessMove(p: Pair, move: Move) {
    move.Transfer? ==> Faultless(p.out, move.step)
  }

  ghost predicate FaultlessPair(p: Pair, step: PairStep) {
    match step
    case Near(move) => FaultlessMove(p, move)
    case Far(move) => FaultlessMove(Flip(p), move)
  }

  ghost predicate FaultlessRun(c: Plans, steps: seq<PairStep>, pairs: seq<Pair>) {
    IsPairRun(c, steps, pairs) && forall k :: 0 <= k < |steps| ==> FaultlessPair(pairs[k], steps[k])
  }

  /** What a closed endpoint has achieved: its own input numbered to the end mark, and the
      other side's input written in full. */
  ghost predicate NearComplete(c: Plans, p: Pair) {
    && EndQueued(c.out, p.out)
    && p.back.rx.remoteDone
  }

  ghost predicate NearOk(c: Plans, p: Pair) {
    && (p.nearDone ==> EndQueued(c.out, p.out))
    && (p.out.tx.closed <==> p.back.rx.done)
    && (p.out.tx.closed ==> NearComplete(c, p))
  }

  ghost predicate BothOk(c: Plans, p: Pair) {
    NearOk(c, p) && NearOk(FlipPlans(c), Flip(p))
  }

  /** Nothing is closed and nothing is undone between the two states. */
  ghost predicate Steady(c: Config, s: State, s': State) {
    && s'.tx.closed == s.tx.closed
    && s'.rx.done == s.rx.done
    && (s.rx.remoteDone ==> s'.rx.remoteDone)
    && (EndQueued(c, s) ==> EndQueued(c, s'))
  }

  lemma SteadyDeliver(c: Config, s: State, i: nat, keep: nat)
    requires ValidConfig(c) && Inv(c, s) && i < |s.data|
    ensures Steady(c, s, AfterDeliverData(c, s, i, true, keep))
  {
    var x, r, ready' := ProtocolSteps.Delivered(c, s, s.data[i], true, keep);
    ProtocolSteps.DeliveredState(c, s, i, true, keep, x, r, ready');
  }

  lemma SteadyAck(c: Config, s: State, i: nat, now: int)
    requires i < |s.acks|
    ensures Steady(c, s, AfterDeliverAck(s, i, now, {}))
  {
    assert !AnyRefused(DueOf(Kept(s.tx.pending, s.acks[i]), Holes(s.acks[i]), now), {});
  }

  lemma SteadyWrite(c: Config, s: State)
    requires CanWrite(s.rx)
    ensures Steady(c, s, AfterWrite(s, |s.rx.inbound[0].data|, true))
  {
  }

  lemma SteadySend(c: Config, s: State, now: int)
    requires s.h.queued < |c.plan| && NextQueue(c, s).Queued?
    ensures Steady(c, s, AfterSend(c, s, now))
  {
  }

  lemma FaultlessEffect(c: Config, s: State, step: Step)
    requires ValidConfig(c) && Inv(c, s) && Enabled(c, s, step) && Faultless(s, step)
    ensures Steady(c, s, After(c, s, step))
  {
    match step
    case Send(now) => SteadySend(c, s, now);
    case DeliverData(i, sent, keep) => SteadyDeliver(c, s, i, keep);
    case Write(wrote, sent) => SteadyWrite(c, s);
    case DeliverAck(i, now, refused) => SteadyAck(c, s, i, now);
    case _ =>
  }

  /** Nothing to settle when both halves of each endpoint agree. */
  lemma SettledAlready(p: Pair)
    requires p.out.tx.closed <==> p.back.rx.done
    requires p.back.tx.closed <==> p.out.rx.done
    ensures Settle(p) == p
  {
  }

  lemma SteadyKeeps(c: Plans, p: Pair, s': State)
    requires BothOk(c, p) && Steady(c.out, p.out, s')
    ensures BothOk(c, p.(out := s')) && Settle(p.(out := s')) == p.(out := s')
  {
    SettledAlready(p.(out := s'));
  }

  lemma FinalizeKeeps(c: Plans, p: Pair)
    requires BothOk(c, p) && p.nearDone && p.back.rx.remoteDone
    ensures BothOk(c, CloseNear(p))
  {
  }

  lemma LocalEofKeeps(c: Plans, p: Pair)
    requires BothOk(c, p) && (EndQueued(c.out, p.out) || p.out.tx.closed)
    ensures BothOk(c, p.(nearDone := true))
  {
  }

  lemma CleanMove(c: Plans, p: Pair, move: Move)
    requires ValidConfig(c.out) && PairInv(c, p) && BothOk(c, p)
    requires CanMove(c, p, move) && FaultlessMove(p, move)
    ensures BothOk(c, AfterMove(c, p, move))
  {
    match move
    case Transfer(step) =>
      FaultlessEffect(c.out, p.out, step);
      SteadyKeeps(c, p, After(c.out, p.out, step));
    case LocalEof => LocalEofKeeps(c, p);
    case Finalize => FinalizeKeeps(c, p);
  }

  lemma CleanPairStep(c: Plans, p: Pair, step: PairStep)
    requires ValidConfig(c.out) && ValidConfig(c.back)
    requires PairInv(c, p) && BothOk(c, p) && PairEnabled(c, p, step) && FaultlessPair(p, step)
    ensures BothOk(c, AfterPair(c, p, step))
  {
    match step
    case Near(move) => CleanMove(c, p, move);
    case Far(move) => CleanMove(FlipPlans(c), Flip(p), move);
  }

  lemma {:induction false} CleanRun(c: Plans, steps: seq<PairStep>, pairs: seq<Pair>, k: nat)
    requires ValidConfig(c.out) && ValidConfig(c.back)
    requires FaultlessRun(c, steps, pairs) && k <= |steps|
    ensures BothOk(c, pairs[k])
    decreases k
  {
    if k > 0 {
      var before := k - 1;
      CleanRun(c, steps, pairs, before);
      PairRunSafe(c, steps, pairs, before);
      assert PairTakes(c, pairs[before], steps[before], pairs[before + 1]);
      CleanPairStep(c, pairs[before], steps[before]);
    }
  }

  /** In a run without failures, an endpoint closes only after its own end mark was numbered and
      the other side's whole input has been written to its connection. */
  lemma FinalizeIsComplete(c: Plans, steps: seq<PairStep>, pairs: seq<Pair>, p: Pair)
    requires ValidConfig(c.out) && ValidConfig(c.back)
    requires FaultlessRun(c, steps, pairs) && p == pairs[|steps|]
    requires NearClosed(p)
    ensures EndQueued(c.out, p.out)
    ensures p.back.output == Content(c.back.plan, |c.back.plan|) && EndQueued(c.back, p.back)
  {
    CleanRun(c, steps, pairs, |steps|);
    PairRunSafe(c, steps, pairs, |steps|);
    ProtocolSteps.SentBytes(c.back, p.back);
  }
}
