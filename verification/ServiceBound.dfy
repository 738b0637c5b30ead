/** How long a subflow can be kept waiting while weights change: the exact bound, and the run that
    reaches it. */
module ServiceBounds {
  import opened Schedulers

  /** The call finds that the current entry's weight has changed. */
  ghost predicate ChangesCurrent(s: Sched, goodput: Goodput)
    requires s.position < |s.entries|
  {
    WeightOf(goodput(s.entries[s.position].id)) != s.entries[s.position].weight
  }

  /** How many calls of a run find that. */
  ghost function Changes(s: Sched, gs: seq<Goodput>): nat
    requires s.position < |s.entries|
    decreases |gs|
  {
    if gs == [] then 0
    else (if ChangesCurrent(s, gs[0]) then 1 else 0) + Changes(Choose(s, gs[0]).0, gs[1..])
  }

  /** Calls that the current entry may still take before the next one is current. */
  ghost function QuotaLeft(e: Entry): int {
    if e.quota <= 0 then e.weight else e.quota
  }

  /** What c changes can add for an entry of this weight: the first of them must leave it, and so
      brings at most 7 or 8, of which one is spent at once. */
  ghost function ChangesAdd(weight: int, c: nat): nat {
    if weight == MAX_WEIGHT then 13 * c / 2 else (13 * c + 1) / 2
  }

  /** The longest wait among n entries when c calls find a changed weight. */
  ghost function LongestWait(n: nat, c: nat): nat {
    if n <= 1 then 0 else MAX_WEIGHT * (n - 1) + 13 * c / 2
  }

  /** In every reachable state each of n entries is picked within k calls, c of which find a changed
      weight. */
  ghost predicate AlwaysServes(n: nat, c: nat, k: nat) {
    forall s: Sched, gs: seq<Goodput>, i: nat ::
      Reachable(s) && i < |s.entries| == n && s.position < n && |gs| == k && Changes(s, gs) <= c ==>
        i in Picks(s, gs)
  }

  // ----- No entry waits longer -----

  lemma CallUsesQuota(s: Sched, goodput: Goodput)
    requires Ok(s) && s.entries != []
    ensures var p, (s', picked) := s.position, Choose(s, goodput);
            && Ok(s') && picked == p
            && (s'.position == Following(p, |s.entries|)
                || (s'.position == p
                    && s'.entries[p].weight == WeightOf(goodput(s.entries[p].id))
                    && QuotaLeft(s'.entries[p]) == (if ChangesCurrent(s, goodput) then s'.entries[p].weight
                                                    else QuotaLeft(s.entries[p])) - 1))
            && (!ChangesCurrent(s, goodput) && QuotaLeft(s.entries[p]) == 1
                ==> s'.position == Following(p, |s.entries|))
  {
    NextKeeps(s, goodput);
    NextTakesCurrent(s, goodput, Refreshed(s.entries, goodput));
    RefreshedAt(s.entries, goodput, s.position);
    assert EntryOk(s.entries[s.position]);
  }

  lemma QuotaBounds(s: Sched)
    requires Ok(s) && s.position < |s.entries|
    ensures var e := s.entries[s.position];
            1 <= QuotaLeft(e) <= e.weight <= MAX_WEIGHT
  {
    assert EntryOk(s.entries[s.position]);
  }

  /** A change costs one call and the changes that remain add less. */
  lemma ChangePays(weight: int, weight': int, c: nat)
    requires c > 0 && weight <= MAX_WEIGHT && weight' <= MAX_WEIGHT && weight' != weight
    ensures weight' - 1 + ChangesAdd(weight', c - 1) <= ChangesAdd(weight, c)
  {
  }

  lemma QuotaAndChanges(e: Entry, c: nat)
    requires EntryOk(e)
    ensures QuotaLeft(e) + ChangesAdd(e.weight, c) <= MAX_WEIGHT + 13 * c / 2 <= MAX_WEIGHT + ChangesAdd(e.weight, c)
  {
  }

  /** Calls that entry i may have to wait for in the worst case. */
  ghost function Wait(s: Sched, i: nat, c: nat): int
    requires s.position < |s.entries| && i < |s.entries|
  {
    var e := s.entries[s.position];
    if s.position == i then 0
    else MAX_WEIGHT * (Distance(s.position, i, |s.entries|) - 1) + QuotaLeft(e) + ChangesAdd(e.weight, c)
  }

  lemma WaitShrinks(s: Sched, goodput: Goodput, i: nat, c: nat, s': Sched, c': nat)
    requires Ok(s) && s.position < |s.entries| && i < |s.entries| && s.position != i
    requires s' == Choose(s, goodput).0
    requires c == c' + if ChangesCurrent(s, goodput) then 1 else 0
    ensures Wait(s', i, c') < Wait(s, i, c)
  {
    CallUsesQuota(s, goodput);
    QuotaBounds(s);
    QuotaBounds(s');
    var e, e' := s.entries[s.position], s'.entries[s'.position];
    if s'.position == s.position {
      if ChangesCurrent(s, goodput) {
        ChangePays(e.weight, e'.weight, c);
      }
    } else {
      QuotaAndChanges(e', c');
      QuotaAndChanges(e, c');
      QuotaAndChanges(e, c);
    }
  }

  lemma {:induction false} ServedWithin(s: Sched, gs: seq<Goodput>, i: nat, c: nat)
    requires Ok(s) && i < |s.entries| && s.position < |s.entries| && Changes(s, gs) <= c
    requires |gs| > Wait(s, i, c)
    ensures i in Picks(s, gs)
    decreases |gs|
  {
    QuotaBounds(s);
    CallUsesQuota(s, gs[0]);
    var s' := Choose(s, gs[0]).0;
    if s.position == i {
      assert Picks(s, gs)[0] == i;
    } else {
      var c' := if ChangesCurrent(s, gs[0]) then c - 1 else c;
      WaitShrinks(s, gs[0], i, c, s', c');
      ServedWithin(s', gs[1..], i, c');
      assert Picks(s, gs) == [s.position] + Picks(s', gs[1..]);
    }
  }

  lemma WaitBound(s: Sched, i: nat, c: nat)
    requires Ok(s) && i < |s.entries| && s.position < |s.entries|
    ensures Wait(s, i, c) <= LongestWait(|s.entries|, c)
  {
    var e := s.entries[s.position];
    assert EntryOk(e);
    QuotaAndChanges(e, c);
    if s.position != i {
      assert Distance(s.position, i, |s.entries|) - 1 <= |s.entries| - 2;
    }
  }

  /** From every reachable state each attached subflow is picked within 8*(n-1) + 13*c/2 + 1 calls,
      when at most c of them find that the current entry's weight has changed. */
  lemma ServedDespiteChanges(s: Sched, gs: seq<Goodput>, i: nat, c: nat)
    requires Reachable(s) && i < |s.entries| && s.position < |s.entries|
    requires Changes(s, gs) <= c && |gs| > LongestWait(|s.entries|, c)
    ensures i in Picks(s, gs)
  {
    ReachableOk(s);
    WaitBound(s, i, c);
    ServedWithin(s, gs, i, c);
  }

  // ----- Runs with one measurement -----

  lemma {:induction false} RunsJoin(s: Sched, a: seq<Goodput>, b: seq<Goodput>)
    requires s.position < |s.entries|
    ensures Picks(s, a + b) == Picks(s, a) + Picks(After(s, a), b)
    ensures Changes(s, a + b) == Changes(s, a) + Changes(After(s, a), b)
    ensures After(s, a + b) == After(After(s, a), b)
    decreases |a|
  {
    if a == [] {
      assert a + b == b;
    } else {
      assert (a + b)[1..] == a[1..] + b;
      RunsJoin(Choose(s, a[0]).0, a[1..], b);
    }
  }

  /** Every entry has the weight that the measurement gives it. */
  ghost predicate Measured(s: Sched, goodput: Goodput) {
    forall i :: 0 <= i < |s.entries| ==> s.entries[i].weight == WeightOf(goodput(s.entries[i].id))
  }

  lemma CallMeasures(s: Sched, goodput: Goodput, s': Sched)
    requires Ok(s) && s.entries != [] && s' == Choose(s, goodput).0
    ensures Ok(s') && Measured(s', goodput) && SameIds(s.entries, s'.entries)
  {
    NextKeeps(s, goodput);
    ChooseSameIds(s, goodput);
    NextTakesCurrent(s, goodput, Refreshed(s.entries, goodput));
    forall i | 0 <= i < |s.entries|
      ensures Refreshed(s.entries, goodput)[i] == RefreshedEntry(s.entries[i], goodput)
    {
      RefreshedAt(s.entries, goodput, i);
    }
  }

  /** Only the first of several calls with one measurement can find a changed weight. */
  lemma {:induction false} RepeatMeasures(s: Sched, goodput: Goodput, k: nat)
    requires Ok(s) && s.entries != []
    ensures var s' := After(s, Repeat(goodput, k));
            Ok(s') && SameIds(s.entries, s'.entries) && (k > 0 || Measured(s, goodput) ==> Measured(s', goodput))
    ensures Changes(s, Repeat(goodput, k)) <= if ChangesCurrent(s, goodput) then 1 else 0
    decreases k
  {
    if k > 0 {
      var s' := Choose(s, goodput).0;
      CallMeasures(s, goodput, s');
      RepeatMeasures(s', goodput, k - 1);
      assert Repeat(goodput, k)[1..] == Repeat(goodput, k - 1);
    }
  }

  lemma RepeatSpins(s: Sched, goodput: Goodput, k: nat)
    requires Ok(s) && s.entries != []
    ensures Picks(s, Repeat(goodput, k)) == SpinPicks(View(s, goodput), k)
    ensures Ok(After(s, Repeat(goodput, k)))
    ensures View(After(s, Repeat(goodput, k)), goodput) == SpinAfter(View(s, goodput), k)
  {
    RunSpins(s, Repeat(goodput, k), goodput);
  }

  /** Part of a burst. */
  lemma {:induction false} SpinHolds(w: Wheel, k: nat)
    requires Shaped(w) && k < w.left[w.position]
    ensures SpinPicks(w, k) == Repeat(w.position, k)
    ensures SpinAfter(w, k) == w.(left := w.left[w.position := w.left[w.position] - k])
    decreases k
  {
    if k > 0 {
      SpinHolds(Spin(w), k - 1);
      assert [w.position] + Repeat(w.position, k - 1) == Repeat(w.position, k);
      assert Spin(w).left[w.position := w.left[w.position] - k]
          == w.left[w.position := w.left[w.position] - k];
    } else {
      assert w.left[w.position := w.left[w.position]] == w.left;
    }
  }

  // ----- A run in which an entry waits that long -----

  /** Subflow 1 sends enough for this weight, and every other one for the greatest. */
  function Load(weight: int): Goodput {
    id => if id == 1 then (weight - 1) * 655_360 else 7 * 655_360
  }

  lemma LoadWeighs(weight: int, id: nat)
    requires weight == 7 || weight == 8
    ensures WeightOf(Load(weight)(id)) == if id == 1 then weight else MAX_WEIGHT
  {
  }

  /** Subflow 1 is current, and under this load every entry has its whole weight to spend. */
  ghost predicate Poised(s: Sched, n: nat, weight: int) {
    && n >= 2 && |s.entries| == n && s.position == 1 && Ok(s)
    && (forall i :: 0 <= i < n ==> s.entries[i].id == i)
    && Full(View(s, Load(weight)))
  }

  lemma PoisedWeights(s: Sched, n: nat, weight: int)
    requires (weight == 7 || weight == 8) && Ok(s) && |s.entries| == n
    requires forall i :: 0 <= i < n ==> s.entries[i].id == i
    ensures n > 0 ==>
              forall i :: 0 <= i < n ==> View(s, Load(weight)).weights[i] == if i == 1 then weight else MAX_WEIGHT
  {
    forall i | 0 <= i < n
      ensures View(s, Load(weight)).weights[i] == if i == 1 then weight else MAX_WEIGHT
    {
      LoadWeighs(weight, i);
    }
  }

  lemma {:induction false} TurnTotal(weights: seq<nat>, p: nat, d: nat)
    requires 2 <= p && p + d <= |weights| && (d > 0 ==> p < |weights|)
    requires forall i :: 2 <= i < |weights| ==> weights[i] == MAX_WEIGHT
    ensures d > 0 ==> Turn(weights, p, d) == MAX_WEIGHT * d
    decreases d
  {
    if d > 1 {
      TurnTotal(weights, p + 1, d - 1);
    }
  }

  lemma LastTurn(weights: seq<nat>, n: nat, weight: nat)
    requires n == |weights| >= 2
    requires forall i :: 0 <= i < n ==> weights[i] == if i == 1 then weight else MAX_WEIGHT
    ensures Turn(weights, 1, n - 1) == weight + MAX_WEIGHT * (n - 2)
  {
    if n > 2 {
      TurnTotal(weights, 2, n - 2);
    }
  }

  lemma LastBursts(w: Wheel, k: nat)
    requires Full(w) && |w.weights| >= 2 && w.position == 1 && k == Turn(w.weights, 1, |w.weights| - 1)
    ensures 0 !in SpinPicks(w, k)
  {
    Walk(w, k, |w.weights| - 1);
    BurstsShare(w.weights, 1, |w.weights| - 1);
    assert multiset(SpinPicks(w, k))[0] == 0;
  }

  /** The last phase: subflow 1 and all after it spend their quotas. */
  lemma LastPhase(s: Sched, n: nat, weight: int, gs: seq<Goodput>)
    requires (weight == 7 || weight == 8) && Poised(s, n, weight)
    requires gs == Repeat(Load(weight), weight + MAX_WEIGHT * (n - 2))
    ensures 0 !in Picks(s, gs)
    ensures Changes(s, gs) <= if s.entries[1].weight == weight then 0 else 1
  {
    var w := View(s, Load(weight));
    PoisedWeights(s, n, weight);
    LastTurn(w.weights, n, weight);
    LastBursts(w, |gs|);
    RepeatSpins(s, Load(weight), |gs|);
    RepeatMeasures(s, Load(weight), |gs|);
    LoadWeighs(weight, 1);
  }

  /** The other load leaves all subflows but the first as they were, and gives that one a new quota. */
  lemma Reloads(s: Sched, n: nat, weight: int, other: int)
    requires (weight == 7 || weight == 8) && other == 15 - weight
    requires n >= 2 && |s.entries| == n && Ok(s) && s.entries[1].weight == weight
    requires forall i :: 0 <= i < n ==> s.entries[i].id == i
    requires var v := View(s, Load(weight)); forall i :: 0 <= i < n && i != 1 ==> v.left[i] == v.weights[i]
    ensures Full(View(s, Load(other)))
  {
    var v, w := View(s, Load(weight)), View(s, Load(other));
    forall i | 0 <= i < n
      ensures w.left[i] == w.weights[i]
    {
      LoadWeighs(weight, i);
      LoadWeighs(other, i);
      assert i != 1 ==> ViewEntry(s, Load(other), i) == ViewEntry(s, Load(weight), i);
      assert i != 1 ==> v.left[i] == v.weights[i];
    }
  }

  /** One phase: subflow 1 spends all but one of its quota, and the next load renews it. */
  lemma PhaseHolds(s: Sched, n: nat, weight: int, other: int, gs: seq<Goodput>, s': Sched)
    requires (weight == 7 || weight == 8) && other == 15 - weight && Poised(s, n, weight)
    requires gs == Repeat(Load(weight), weight - 1) && s' == After(s, gs)
    ensures Poised(s', n, other) && s'.entries[1].weight == weight
    ensures Picks(s, gs) == Repeat(1, weight - 1)
    ensures Changes(s, gs) <= if s.entries[1].weight == weight then 0 else 1
  {
    var w := View(s, Load(weight));
    PoisedWeights(s, n, weight);
    RepeatSpins(s, Load(weight), weight - 1);
    SpinHolds(w, weight - 1);
    RepeatMeasures(s, Load(weight), weight - 1);
    LoadWeighs(weight, 1);
    Reloads(s', n, weight, other);
  }

  ghost function PhasesTake(n: nat, weight: int, c: nat): int {
    weight + ChangesAdd(weight, c) + MAX_WEIGHT * (n - 2)
  }

  /** Weights 7 and 8 in turn keep subflow 1 current as long as c changes allow. */
  lemma {:induction false} Phases(s: Sched, n: nat, weight: int, c: nat) returns (gs: seq<Goodput>)
    requires (weight == 7 || weight == 8) && Poised(s, n, weight)
    ensures |gs| == PhasesTake(n, weight, c) && 0 !in Picks(s, gs)
    ensures Changes(s, gs) <= c + if s.entries[1].weight == weight then 0 else 1
    decreases c
  {
    if c == 0 {
      gs := Repeat(Load(weight), weight + MAX_WEIGHT * (n - 2));
      LastPhase(s, n, weight, gs);
    } else {
      var phase := Repeat(Load(weight), weight - 1);
      var s' := After(s, phase);
      PhaseHolds(s, n, weight, 15 - weight, phase, s');
      var rest := Phases(s', n, 15 - weight, c - 1);
      gs := phase + rest;
      RunsJoin(s, phase, rest);
      PhaseLengths(n, weight, c);
    }
  }

  lemma PhaseLengths(n: nat, weight: int, c: nat)
    requires (weight == 7 || weight == 8) && c > 0
    ensures PhasesTake(n, weight, c) == weight - 1 + PhasesTake(n, 15 - weight, c - 1)
  {
  }

  // ----- The state it starts in can be reached -----

  lemma ReachableNext(s: Sched, op: Op)
    requires Reachable(s)
    ensures Reachable(Apply(s, op))
  {
    var ops, states :| IsRun(ops, states) && s == states[|ops|];
    var ops', states' := ops + [op], states + [Apply(s, op)];
    assert IsRun(ops', states') && Apply(s, op) == states'[|ops'|];
  }

  lemma {:induction false} ReachableAfter(s: Sched, gs: seq<Goodput>)
    requires Reachable(s) && s.position < |s.entries|
    ensures Reachable(After(s, gs))
    decreases |gs|
  {
    if gs != [] {
      ReachableNext(s, Call(gs[0]));
      ReachableAfter(Choose(s, gs[0]).0, gs[1..]);
    }
  }

  lemma {:induction false} AttachAll(n: nat) returns (s: Sched)
    ensures Reachable(s) && s.position == 0 && |s.entries| == n
    ensures forall i :: 0 <= i < n ==> s.entries[i] == Entry(i, 1, 1)
    decreases n
  {
    if n == 0 {
      s := EMPTY;
      var ops: seq<Op>, states := [], [EMPTY];
      assert IsRun(ops, states) && s == states[|ops|];
    } else {
      var before := AttachAll(n - 1);
      s := Apply(before, Attach(n - 1));
      ReachableNext(before, Attach(n - 1));
    }
  }

  /** Eight calls after n subflows are attached. */
  lemma PoisedReachable(n: nat) returns (s: Sched)
    requires n >= 2
    ensures Reachable(s) && Poised(s, n, MAX_WEIGHT) && s.entries[1].weight == MAX_WEIGHT
  {
    var start := AttachAll(n);
    ReachableOk(start);
    s := After(start, Repeat(Load(MAX_WEIGHT), MAX_WEIGHT));
    ReachableAfter(start, Repeat(Load(MAX_WEIGHT), MAX_WEIGHT));
    var w := View(start, Load(MAX_WEIGHT));
    PoisedWeights(start, n, MAX_WEIGHT);
    assert w.left == w.weights;
    RepeatSpins(start, Load(MAX_WEIGHT), MAX_WEIGHT);
    assert Turn(w.weights, 0, 1) == MAX_WEIGHT;
    Walk(w, MAX_WEIGHT, 1);
    RepeatMeasures(start, Load(MAX_WEIGHT), MAX_WEIGHT);
    LoadWeighs(MAX_WEIGHT, 1);
  }

  /** For any number of subflows and changes, a run of this length that leaves one waiting. */
  lemma LongestWaitReached(n: nat, c: nat, k: nat) returns (s: Sched, gs: seq<Goodput>)
    requires n >= 1 && k <= LongestWait(n, c)
    ensures Reachable(s) && 0 < |s.entries| == n && s.position < n
    ensures |gs| == k && Changes(s, gs) <= c && 0 !in Picks(s, gs)
  {
    if n == 1 {
      s := AttachAll(n);
      gs := [];
    } else {
      s := PoisedReachable(n);
      var all := Phases(s, n, MAX_WEIGHT, c);
      gs := all[..k];
      assert all == gs + all[k..];
      RunsJoin(s, gs, all[k..]);
    }
  }

  /** With c changes, k calls are enough to serve every subflow if and only if k is greater than the
      longest wait. */
  lemma ServiceBoundExact(n: nat, c: nat, k: nat)
    requires n >= 1
    ensures AlwaysServes(n, c, k) <==> k > LongestWait(n, c)
  {
    if k > LongestWait(n, c) {
      forall s: Sched, gs: seq<Goodput>, i: nat
        | Reachable(s) && i < |s.entries| == n && s.position < n && |gs| == k && Changes(s, gs) <= c
        ensures i in Picks(s, gs)
      {
        ServedDespiteChanges(s, gs, i, c);
      }
    } else {
      var s, gs := LongestWaitReached(n, c, k);
      assert Reachable(s) && 0 < |s.entries| == n && s.position < n && |gs| == k && Changes(s, gs) <= c;
    }
  }
}
