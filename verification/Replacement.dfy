/** Keeping the number of subflows at its target (internal/overlay/session.go): the session's
    table of subflows, and every interleaving of errors, dials, failures and retry timers. */
module Replacement {
  import opened Basics
  import Sch = Schedulers

  // ----- The table and the operations under its lock -----

  datatype Table = Table(live: set<nat>, pending: nat, nextId: nat)

  datatype Spawn = Refused | Granted(id: nat, useInit: bool)

  function Prepare(t: Table, target: int): (Table, Spawn) {
    if |t.live| + t.pending >= target then (t, Refused)
    else
      (Table(t.live, t.pending + 1, t.nextId + 1),
       Granted(t.nextId, t.live == {} && t.pending == 0))
  }

  function OneLess(n: nat): nat {
    if n > 0 then n - 1 else 0
  }

  function Register(t: Table, id: nat): Table {
    Table(t.live + {id}, OneLess(t.pending), Max(t.nextId, id + 1))
  }

  function SpawnFailed(t: Table): Table {
    t.(pending := OneLess(t.pending))
  }

  function Remove(t: Table, id: nat): Table {
    t.(live := t.live - {id})
  }

  class Session {
    const isClient: bool
    const hasDialer: bool
    const subflowTarget: int
    var subflows: set<nat>
    var pendingSpawns: nat
    var nextSubflowID: nat
    var closed: bool

    ghost function State(): Table
      reads this
    {
      Table(subflows, pendingSpawns, nextSubflowID)
    }

    constructor (isClient: bool, hasDialer: bool, subflowTarget: int)
      ensures State() == Table({}, 0, 0) && !closed
    {
      this.isClient, this.hasDialer, this.subflowTarget := isClient, hasDialer, subflowTarget;
      subflows, pendingSpawns, nextSubflowID, closed := {}, 0, 0, false;
    }

    method PrepareSubflowSpawn() returns (id: nat, useInit: bool, ok: bool)
      modifies this
      ensures closed == old(closed)
      ensures !isClient || !hasDialer || subflowTarget <= 0 ==> !ok && State() == old(State())
      ensures isClient && hasDialer && subflowTarget > 0 ==>
                (State(), if ok then Granted(id, useInit) else Refused) == Prepare(old(State()), subflowTarget)
    {
      if !isClient || !hasDialer || subflowTarget <= 0 {
        return 0, false, false;
      }
      if |subflows| + pendingSpawns >= subflowTarget {
        return 0, false, false;
      }
      id := nextSubflowID;
      nextSubflowID := nextSubflowID + 1;
      useInit := |subflows| == 0 && pendingSpawns == 0;
      pendingSpawns := pendingSpawns + 1;
      ok := true;
    }

    /** False when the session is closed: the subflow is then closed instead. */
    method RegisterSubflow(id: nat) returns (registered: bool)
      modifies this
      ensures closed == old(closed) && registered == !closed
      ensures State() == if closed then old(State()) else Register(old(State()), id)
    {
      if closed {
        return false;
      }
      if id >= nextSubflowID {
        nextSubflowID := id + 1;
      }
      if pendingSpawns > 0 {
        pendingSpawns := pendingSpawns - 1;
      }
      subflows := subflows + {id};
      return true;
    }

    method SubflowSpawnFailed()
      modifies this
      ensures closed == old(closed) && State() == SpawnFailed(old(State()))
    {
      if pendingSpawns > 0 {
        pendingSpawns := pendingSpawns - 1;
      }
    }

    method RemoveSubflow(id: nat) returns (found: bool)
      modifies this
      ensures closed == old(closed) && State() == Remove(old(State()), id)
      ensures found == (id in old(subflows))
    {
      found := id in subflows;
      subflows := subflows - {id};
    }
  }

  // ----- The session with everything in progress around the table -----

  /** dials: ids being dialled, and whether the dial opens the session (INIT) or joins it;
      attaching: registered, not yet known to the scheduler; detaching: removed by an error
      handler, still known to the scheduler; handlers: error handlers about to spawn; failing:
      dials that have failed and are about to start a timer; retries: timers started. */
  datatype World = World(
    table: Table, sched: Sch.Sched, dials: map<nat, bool>, attaching: set<nat>,
    detaching: set<nat>, handlers: nat, failing: nat, retries: nat)

  datatype Step =
    | SubflowError(id: nat)
    | DetachSubflow(id: nat)
    | HandlerSpawns
    | DialFails(id: nat)
    | StartTimer
    | TimerSpawns
    | DialSucceeds(id: nat)
    | AttachSubflow(id: nat)
    | SendFrame(goodput: Sch.Goodput)

  /** A subflow reports an error once, from the loop that starts after it is attached. */
  predicate Enabled(w: World, step: Step) {
    match step
    case SubflowError(id) => id in w.table.live && id !in w.attaching
    case DetachSubflow(id) => id in w.detaching
    case HandlerSpawns => w.handlers > 0
    case DialFails(id) => id in w.dials
    case StartTimer => w.failing > 0
    case TimerSpawns => w.retries > 0
    case DialSucceeds(id) => id in w.dials
    case AttachSubflow(id) => id in w.attaching
    case SendFrame(_) => w.sched.position < |w.sched.entries|
  }

  function Spawned(w: World, target: int): World {
    match Prepare(w.table, target)
    case (_, Refused) => w
    case (t, Granted(id, useInit)) => w.(table := t, dials := w.dials[id := useInit])
  }

  function Take(w: World, step: Step, target: int): World
    requires Enabled(w, step)
  {
    match step
    case SubflowError(id) => w.(table := Remove(w.table, id), detaching := w.detaching + {id})
    case DetachSubflow(id) =>
      w.(sched := Sch.Detached(w.sched, id), detaching := w.detaching - {id}, handlers := w.handlers + 1)
    case HandlerSpawns => Spawned(w.(handlers := w.handlers - 1), target)
    case DialFails(id) => w.(table := SpawnFailed(w.table), dials := w.dials - {id}, failing := w.failing + 1)
    case StartTimer => w.(failing := w.failing - 1, retries := w.retries + 1)
    case TimerSpawns => Spawned(w.(retries := w.retries - 1), target)
    case DialSucceeds(id) =>
      w.(table := Register(w.table, id), dials := w.dials - {id}, attaching := w.attaching + {id})
    case AttachSubflow(id) => w.(sched := Sch.Attached(w.sched, id), attaching := w.attaching - {id})
    case SendFrame(goodput) => w.(sched := Sch.Choose(w.sched, goodput).0)
  }

  ghost predicate IsRun(w: World, steps: seq<Step>, target: int)
    decreases |steps|
  {
    steps == [] || (Enabled(w, steps[0]) && IsRun(Take(w, steps[0], target), steps[1..], target))
  }

  ghost function AfterRun(w: World, steps: seq<Step>, target: int): World
    requires IsRun(w, steps, target)
    decreases |steps|
  {
    if steps == [] then w else AfterRun(Take(w, steps[0], target), steps[1..], target)
  }

  // ----- What every step keeps -----

  /** The entries list each of the ids exactly once. */
  ghost predicate Lists(entries: seq<Sch.Entry>, ids: set<nat>) {
    if entries == [] then ids == {}
    else
      var n := |entries| - 1;
      entries[n].id in ids && Lists(entries[..n], ids - {entries[n].id})
  }

  ghost predicate CountsOk(w: World, target: int) {
    var t := w.table;
    && t.pending == |w.dials.Keys|
    && |t.live| + t.pending <= target
    && target <= |t.live| + t.pending + w.retries + w.handlers + |w.detaching| + w.failing
  }

  /** Every id in use is below nextId and in use for one purpose only. */
  ghost predicate IdsOk(w: World) {
    var t := w.table;
    && (forall id :: id in t.live || id in w.dials || id in w.detaching ==> id < t.nextId)
    && t.live !! w.dials.Keys && t.live !! w.detaching && w.dials.Keys !! w.detaching
    && w.attaching <= t.live
  }

  /** The subflows the scheduler should know. */
  ghost function Attended(w: World): set<nat> {
    w.table.live - w.attaching + w.detaching
  }

  /** The scheduler knows each attached subflow exactly once, and no other. */
  ghost predicate SchedOk(w: World) {
    Sch.Ok(w.sched) && Lists(w.sched.entries, Attended(w))
  }

  ghost predicate InitsOk(w: World) {
    forall a, b :: a in w.dials && b in w.dials && w.dials[a] && w.dials[b] ==> a == b
  }

  ghost predicate Inv(w: World, target: int) {
    CountsOk(w, target) && IdsOk(w) && SchedOk(w) && InitsOk(w)
  }

  lemma ListsAttach(entries: seq<Sch.Entry>, e: Sch.Entry, ids: set<nat>, ids': set<nat>)
    requires Lists(entries, ids) && e.id !in ids && ids' == ids + {e.id}
    ensures Lists(entries + [e], ids')
  {
    assert (entries + [e])[..|entries|] == entries;
    assert ids' - {e.id} == ids;
  }

  lemma {:induction false} ListsDetach(entries: seq<Sch.Entry>, id: nat, ids: set<nat>, ids': set<nat>)
    requires Lists(entries, ids) && ids' == ids - {id}
    ensures Lists(Sch.Without(entries, id), ids')
    decreases |entries|
  {
    if entries != [] {
      var n, last := |entries| - 1, entries[|entries| - 1];
      var kept := Sch.Without(entries[..n], id);
      ListsDetach(entries[..n], id, ids - {last.id}, ids - {last.id} - {id});
      if last.id == id {
        assert ids - {last.id} - {id} == ids' && kept + [] == kept;
      } else {
        ListsAttach(kept, last, ids - {last.id} - {id}, ids');
      }
    }
  }

  lemma {:induction false} ListsSame(a: seq<Sch.Entry>, b: seq<Sch.Entry>, ids: set<nat>)
    requires Sch.SameIds(a, b) && Lists(a, ids)
    ensures Lists(b, ids)
    decreases |a|
  {
    if a != [] {
      ListsSame(a[..|a| - 1], b[..|b| - 1], ids - {a[|a| - 1].id});
    }
  }

  lemma CountsStep(w: World, step: Step, target: int, w': World)
    requires Enabled(w, step) && w' == Take(w, step, target)
    requires CountsOk(w, target) && IdsOk(w)
    ensures CountsOk(w', target)
  {
    match step
    case SubflowError(id) =>
      assert w'.table.live == w.table.live - {id};
    case DetachSubflow(id) =>
    case HandlerSpawns => SpawnCounts(w.(handlers := w.handlers - 1), w', target);
    case DialFails(id) =>
      assert w'.dials.Keys == w.dials.Keys - {id};
    case StartTimer =>
    case TimerSpawns => SpawnCounts(w.(retries := w.retries - 1), w', target);
    case DialSucceeds(id) =>
      assert w'.dials.Keys == w.dials.Keys - {id};
      assert w'.table.live == w.table.live + {id};
    case AttachSubflow(_) =>
    case SendFrame(_) =>
  }

  lemma SpawnCounts(w: World, w': World, target: int)
    requires w' == Spawned(w, target) && IdsOk(w)
    requires w.table.pending == |w.dials.Keys| && |w.table.live| + w.table.pending <= target
    requires target <= |w.table.live| + w.table.pending + w.retries + w.handlers + |w.detaching| + w.failing + 1
    ensures CountsOk(w', target)
  {
    if |w.table.live| + w.table.pending < target {
      assert w'.dials.Keys == w.dials.Keys + {w.table.nextId};
    }
  }

  lemma IdsStep(w: World, step: Step, target: int, w': World)
    requires Enabled(w, step) && w' == Take(w, step, target) && IdsOk(w)
    ensures IdsOk(w')
  {
  }

  lemma InitsStep(w: World, step: Step, target: int, w': World)
    requires Enabled(w, step) && w' == Take(w, step, target)
    requires CountsOk(w, target) && InitsOk(w)
    ensures InitsOk(w')
  {
  }

  lemma SchedDetach(w: World, id: nat, target: int, w': World)
    requires id in w.detaching && w' == Take(w, DetachSubflow(id), target)
    requires IdsOk(w) && SchedOk(w)
    ensures SchedOk(w')
  {
    Sch.ApplyKeeps(w.sched, Sch.Detach(id));
    assert Attended(w') == Attended(w) - {id};
    ListsDetach(w.sched.entries, id, Attended(w), Attended(w'));
  }

  lemma SchedAttach(w: World, id: nat, target: int, w': World)
    requires id in w.attaching && w' == Take(w, AttachSubflow(id), target)
    requires IdsOk(w) && SchedOk(w)
    ensures SchedOk(w')
  {
    Sch.ApplyKeeps(w.sched, Sch.Attach(id));
    assert Attended(w') == Attended(w) + {id};
    ListsAttach(w.sched.entries, Sch.Entry(id, 1, 1), Attended(w), Attended(w'));
  }

  lemma SchedSend(w: World, goodput: Sch.Goodput, target: int, w': World)
    requires Enabled(w, SendFrame(goodput)) && w' == Take(w, SendFrame(goodput), target)
    requires SchedOk(w)
    ensures SchedOk(w')
  {
    Sch.NextKeeps(w.sched, goodput);
    Sch.ChooseSameIds(w.sched, goodput);
    ListsSame(w.sched.entries, w'.sched.entries, Attended(w));
  }

  lemma SchedStep(w: World, step: Step, target: int, w': World)
    requires Enabled(w, step) && w' == Take(w, step, target)
    requires IdsOk(w) && SchedOk(w)
    ensures SchedOk(w')
  {
    match step
    case SubflowError(id) =>
      assert Attended(w') == Attended(w);
    case DetachSubflow(id) => SchedDetach(w, id, target, w');
    case HandlerSpawns =>
    case DialFails(_) =>
    case StartTimer =>
    case TimerSpawns =>
    case DialSucceeds(id) =>
      assert Attended(w') == Attended(w);
    case AttachSubflow(id) => SchedAttach(w, id, target, w');
    case SendFrame(goodput) => SchedSend(w, goodput, target, w');
  }

  lemma StepKeepsInv(w: World, step: Step, target: int)
    requires Enabled(w, step) && Inv(w, target)
    ensures Inv(Take(w, step, target), target)
  {
    var w' := Take(w, step, target);
    CountsStep(w, step, target, w');
    IdsStep(w, step, target, w');
    SchedStep(w, step, target, w');
    InitsStep(w, step, target, w');
  }

  // ----- Runs from a fully established session -----

  /** n subflows registered and attached one after another, none lost in between. */
  function Established(n: nat): World {
    if n == 0 then World(Table({}, 0, 0), Sch.EMPTY, map[], {}, {}, 0, 0, 0)
    else
      var w := Established(n - 1);
      w.(table := Register(w.table, n - 1), sched := Sch.Attached(w.sched, n - 1))
  }

  ghost predicate Quiet(w: World) {
    w.dials == map[] && w.attaching == {} && w.detaching == {} && w.handlers == w.failing == w.retries == 0
  }

  /** Nothing is in progress, and the n live ids are those handed out. */
  ghost predicate InPlace(w: World, n: nat) {
    Quiet(w) && |w.table.live| == n == w.table.nextId
  }

  lemma ArrivalCounts(w: World, n: nat, w': World)
    requires CountsOk(w, n) && IdsOk(w) && InPlace(w, n)
    requires w' == w.(table := Register(w.table, n), sched := Sch.Attached(w.sched, n))
    ensures CountsOk(w', n + 1) && IdsOk(w') && InitsOk(w') && InPlace(w', n + 1)
  {
    assert n !in w.table.live;
    assert |w.table.live + {n}| == n + 1;
  }

  lemma ArrivalListed(w: World, n: nat, w': World)
    requires IdsOk(w) && SchedOk(w) && InPlace(w, n)
    requires w' == w.(table := Register(w.table, n), sched := Sch.Attached(w.sched, n))
    ensures SchedOk(w')
  {
    Sch.ApplyKeeps(w.sched, Sch.Attach(n));
    assert n !in Attended(w) && Attended(w') == Attended(w) + {n};
    ListsAttach(w.sched.entries, Sch.Entry(n, 1, 1), Attended(w), Attended(w'));
  }

  lemma {:induction false} EstablishedInv(n: nat, w: World)
    requires w == Established(n)
    ensures Inv(w, n) && InPlace(w, n)
    decreases n
  {
    if n > 0 {
      var before := Established(n - 1);
      EstablishedInv(n - 1, before);
      ArrivalCounts(before, n - 1, w);
      ArrivalListed(before, n - 1, w);
    }
  }

  lemma {:induction false} RunKeepsInv(w: World, steps: seq<Step>, target: int)
    requires Inv(w, target) && IsRun(w, steps, target)
    ensures Inv(AfterRun(w, steps, target), target)
    decreases |steps|
  {
    if steps != [] {
      StepKeepsInv(w, steps[0], target);
      RunKeepsInv(Take(w, steps[0], target), steps[1..], target);
    }
  }

  /** Replacement never overshoots and never leaks capacity: over every run from a fully
      established session, what is live or being dialled stays within the target, and whatever is
      missing to the target is still in progress somewhere. */
  lemma TargetKept(target: nat, steps: seq<Step>)
    requires IsRun(Established(target), steps, target)
    ensures var w := AfterRun(Established(target), steps, target);
            && w.table.pending == |w.dials|
            && |w.table.live| + w.table.pending <= target
            && target <= |w.table.live| + w.table.pending
                         + w.retries + w.handlers + |w.detaching| + w.failing
  {
    EstablishedInv(target, Established(target));
    RunKeepsInv(Established(target), steps, target);
  }

  /** The step dials one more subflow. */
  ghost predicate Dials(w: World, w': World, id: nat) {
    id !in w.dials && id in w'.dials
  }

  lemma DialsInit(w: World, step: Step, target: int, w': World, id: nat)
    requires Enabled(w, step) && CountsOk(w, target) && w' == Take(w, step, target) && Dials(w, w', id)
    ensures w'.dials[id] <==> w.table.live == {} && w.dials == map[]
    ensures forall other :: other in w'.dials <==> other in w.dials || other == id
    ensures forall other :: other in w.dials ==> w'.dials[other] == w.dials[other]
    ensures |w.table.live| + |w.dials| < target
    ensures id == w.table.nextId && w'.table.nextId == id + 1
  {
    assert |w.dials| == |w.dials.Keys|;
    assert w.dials.Keys == {} <==> w.dials == map[];
  }

  /** In every run from an established session a step that dials opens the session anew if nothing is
      live and nothing is being dialled, and joins it otherwise; it dials only below the target. */
  lemma InitExact(target: nat, steps: seq<Step>, step: Step, w: World, w': World, id: nat)
    requires IsRun(Established(target), steps, target) && w == AfterRun(Established(target), steps, target)
    requires Enabled(w, step) && w' == Take(w, step, target) && Dials(w, w', id)
    ensures w'.dials[id] <==> w.table.live == {} && w.dials == map[]
    ensures forall other :: other in w'.dials <==> other in w.dials || other == id
    ensures forall other :: other in w.dials ==> w'.dials[other] == w.dials[other]
    ensures |w.table.live| + |w.dials| < target
    ensures id == w.table.nextId && w'.table.nextId == id + 1
  {
    EstablishedInv(target, Established(target));
    RunKeepsInv(Established(target), steps, target);
    DialsInit(w, step, target, w', id);
  }

  /** Live and pending ids stay distinct and below the next id, at most one dial opens the session,
      and the scheduler lists exactly the attached subflows, each once. */
  lemma IdsStayDistinct(target: nat, steps: seq<Step>)
    requires IsRun(Established(target), steps, target)
    ensures var w := AfterRun(Established(target), steps, target);
            && w.table.live !! w.dials.Keys
            && (forall id :: id in w.table.live || id in w.dials ==> id < w.table.nextId)
            && (forall a, b :: a in w.dials && b in w.dials && w.dials[a] && w.dials[b] ==> a == b)
            && Lists(w.sched.entries, w.table.live - w.attaching + w.detaching)
  {
    EstablishedInv(target, Established(target));
    RunKeepsInv(Established(target), steps, target);
  }

  // ----- Recovery -----

  /** The steps that bring a replacement forward without a new error or failure. */
  predicate Recovers(step: Step) {
    step.DetachSubflow? || step.HandlerSpawns? || step.StartTimer? || step.TimerSpawns?
    || step.DialSucceeds? || step.AttachSubflow?
  }

  ghost function Outstanding(w: World): nat {
    5 * |w.detaching| + 4 * w.handlers + 5 * w.failing + 4 * w.retries + 2 * |w.dials.Keys| + |w.attaching|
  }

  lemma SpawnProgress(w: World, w': World, target: int)
    requires IdsOk(w) && w' == Spawned(w, target)
    ensures Outstanding(w') <= Outstanding(w) + 2
  {
    if |w.table.live| + w.table.pending < target {
      assert w'.dials.Keys == w.dials.Keys + {w.table.nextId};
    }
  }

  lemma RecoveryProgress(w: World, step: Step, target: int, w': World)
    requires IdsOk(w) && Enabled(w, step) && Recovers(step) && w' == Take(w, step, target)
    ensures Outstanding(w') < Outstanding(w)
  {
    match step
    case DetachSubflow(id) =>
      assert w'.detaching == w.detaching - {id};
    case HandlerSpawns => SpawnProgress(w.(handlers := w.handlers - 1), w', target);
    case StartTimer =>
    case TimerSpawns => SpawnProgress(w.(retries := w.retries - 1), w', target);
    case DialSucceeds(id) =>
      assert w'.dials.Keys == w.dials.Keys - {id};
      assert w'.attaching == w.attaching + {id};
    case AttachSubflow(id) =>
      assert w'.attaching == w.attaching - {id};
  }

  /** No step that would bring a replacement forward can be taken. */
  ghost predicate Settled(w: World) {
    forall step :: Recovers(step) ==> !Enabled(w, step)
  }

  lemma SettledIsQuiet(w: World)
    requires Settled(w)
    ensures Quiet(w)
  {
    forall id: nat
      ensures id !in w.dials && id !in w.attaching && id !in w.detaching
    {
      assert !Enabled(w, DialSucceeds(id)) && !Enabled(w, AttachSubflow(id)) && !Enabled(w, DetachSubflow(id));
    }
    assert !Enabled(w, HandlerSpawns) && !Enabled(w, StartTimer) && !Enabled(w, TimerSpawns);
    assert w.dials.Keys == {};
  }

  /** Without new errors or failures a session recovers in a bounded number of steps: no run of
      recovery steps is longer than the work outstanding, and one that cannot go on has the target
      number of subflows live, all of them known to the scheduler. */
  lemma {:induction false} RecoveryCompletes(w: World, steps: seq<Step>, target: int)
    requires Inv(w, target) && IsRun(w, steps, target)
    requires forall k :: 0 <= k < |steps| ==> Recovers(steps[k])
    ensures |steps| <= Outstanding(w)
    ensures var w' := AfterRun(w, steps, target);
            Settled(w') ==> |w'.table.live| == target && Lists(w'.sched.entries, w'.table.live)
    decreases |steps|
  {
    if steps == [] {
      if Settled(w) {
        SettledIsQuiet(w);
        QuietIsFull(w, target);
      }
    } else {
      var w1 := Take(w, steps[0], target);
      StepKeepsInv(w, steps[0], target);
      RecoveryProgress(w, steps[0], target, w1);
      RecoveryCompletes(w1, steps[1..], target);
    }
  }

  lemma QuietIsFull(w: World, target: int)
    requires Inv(w, target) && Quiet(w)
    ensures |w.table.live| == target && Lists(w.sched.entries, w.table.live)
  {
    assert Attended(w) == w.table.live;
  }
}
