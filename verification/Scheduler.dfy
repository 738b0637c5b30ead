/** The weighted round-robin scheduler (internal/overlay/scheduler.go). */
module Schedulers {
  import opened Basics

  const MIN_WEIGHT := 1
  const MAX_WEIGHT := 8
  const WEIGHT_QUANTUM := 65536.0
  const GOODPUT_SECONDS := 10.0

  datatype Entry = Entry(id: nat, weight: int, quota: int)

  datatype Sched = Sched(entries: seq<Entry>, position: nat)

  const EMPTY := Sched([], 0)

  /** Bytes each subflow sent in the measuring window, by subflow id. */
  type Goodput = nat -> int

  /** One more for every full quantum of 64 KiB/s over the ten seconds, between the two bounds. */
  function WeightOf(bytes: int): (weight: int)
    ensures MIN_WEIGHT <= weight <= MAX_WEIGHT
    ensures weight > MIN_WEIGHT ==> bytes >= (weight - 1) * 655_360
    ensures weight < MAX_WEIGHT ==> bytes < weight * 655_360
  {
    if bytes <= 0 then MIN_WEIGHT
    else if bytes >= 7 * 655_360 then MAX_WEIGHT
    else bytes / 655_360 + 1
  }

  method WeightFromThroughput(bytes: int) returns (weight: int)
    ensures weight == WeightOf(bytes)
  {
    if bytes <= 0 {
      return MIN_WEIGHT;
    }
    var rate := bytes as real / GOODPUT_SECONDS;
    weight := (rate / WEIGHT_QUANTUM).Floor + 1;
    if weight < MIN_WEIGHT {
      return MIN_WEIGHT;
    }
    if weight > MAX_WEIGHT {
      return MAX_WEIGHT;
    }
  }

  /** What a double can make of the real x: an integer below 2^19 is exact, so rounding never
      crosses it downwards, and below 458752 the error is far less than a tenth. */
  ghost predicate IsRounding(x: real, y: real) {
    && (forall m: int :: 0 <= m <= 458_752 ==> KeepsOrder(x, y, m))
    && (0.0 <= x < 458_752.0 ==> y - x < 0.1)
  }

  ghost predicate KeepsOrder(x: real, y: real, m: int) {
    m as real <= x ==> m as real <= y
  }

  /** The rounding of the division by ten does not change the weight. Dividing by the quantum, a
      power of two, is exact. */
  lemma RoundingKeepsWeight(bytes: int, rate: real)
    requires bytes > 0 && IsRounding(bytes as real / GOODPUT_SECONDS, rate)
    ensures var weight := (rate / WEIGHT_QUANTUM).Floor + 1;
            WeightOf(bytes) == if weight < MIN_WEIGHT then MIN_WEIGHT
                               else if weight > MAX_WEIGHT then MAX_WEIGHT else weight
  {
    var w := WeightOf(bytes);
    assert KeepsOrder(bytes as real / GOODPUT_SECONDS, rate, 65_536 * (w - 1));
    assert rate >= (65_536 * (w - 1)) as real;
    assert w < MAX_WEIGHT ==> rate < (65_536 * w) as real;
  }

  function RefreshedEntry(e: Entry, goodput: Goodput): Entry {
    var weight := WeightOf(goodput(e.id));
    if weight != e.weight then e.(weight := weight, quota := weight)
    else if e.quota <= 0 then e.(quota := e.weight)
    else e
  }

  function Refreshed(entries: seq<Entry>, goodput: Goodput): (r: seq<Entry>)
    ensures |r| == |entries|
  {
    if entries == [] then []
    else
      var n := |entries| - 1;
      Refreshed(entries[..n], goodput) + [RefreshedEntry(entries[n], goodput)]
  }

  function Without(entries: seq<Entry>, id: nat): seq<Entry> {
    if entries == [] then []
    else
      var n := |entries| - 1;
      Without(entries[..n], id) + if entries[n].id != id then [entries[n]] else []
  }

  function Attached(s: Sched, id: nat): Sched {
    s.(entries := s.entries + [Entry(id, 1, 1)])
  }

  function Detached(s: Sched, id: nat): Sched {
    var entries := Without(s.entries, id);
    Sched(entries, if s.position >= |entries| then 0 else s.position)
  }

  /** (p + 1) % n for an index p below n. */
  function Following(p: nat, n: nat): nat {
    if p + 1 == n then 0 else p + 1
  }

  lemma FollowingMod(p: nat, n: nat)
    requires p < n
    ensures (p + 1) % n == Following(p, n)
  {
  }

  /** Look for an entry with quota left, starting at the current position; the second part is the
      index of the entry chosen. */
  function Scan(s: Sched, tries: nat): (r: (Sched, nat))
    requires s.position < |s.entries|
    ensures |r.0.entries| == |s.entries| && r.0.position < |s.entries| && r.1 < |s.entries|
    decreases tries
  {
    var n, e := |s.entries|, s.entries[s.position];
    if tries == 0 then (s, 0)
    else if e.quota == 0 then
      Scan(Sched(s.entries[s.position := e.(quota := e.weight)], Following(s.position, n)), tries - 1)
    else
      (Sched(s.entries[s.position := e.(quota := e.quota - 1)],
             if e.quota - 1 == 0 then Following(s.position, n) else s.position),
       s.position)
  }

  function Choose(s: Sched, goodput: Goodput): (r: (Sched, nat))
    requires s.position < |s.entries|
    ensures |r.0.entries| == |s.entries| && r.0.position < |s.entries| && r.1 < |s.entries|
  {
    Scan(s.(entries := Refreshed(s.entries, goodput)), |s.entries|)
  }

  // ----- Bounds kept by every operation -----

  predicate EntryOk(e: Entry) {
    MIN_WEIGHT <= e.weight <= MAX_WEIGHT && 0 <= e.quota <= e.weight
  }

  ghost predicate Ok(s: Sched) {
    && (forall i :: 0 <= i < |s.entries| ==> EntryOk(s.entries[i]))
    && (s.position < |s.entries| || s.position == 0)
  }

  lemma {:induction false} RefreshedAt(entries: seq<Entry>, goodput: Goodput, i: nat)
    requires i < |entries|
    ensures Refreshed(entries, goodput)[i] == RefreshedEntry(entries[i], goodput)
    decreases |entries|
  {
    if i < |entries| - 1 {
      RefreshedAt(entries[..|entries| - 1], goodput, i);
    }
  }

  lemma {:induction false} WithoutKeeps(entries: seq<Entry>, id: nat)
    requires forall i :: 0 <= i < |entries| ==> EntryOk(entries[i])
    ensures forall i :: 0 <= i < |Without(entries, id)| ==> EntryOk(Without(entries, id)[i])
    ensures forall e :: e in Without(entries, id) <==> e in entries && e.id != id
    decreases |entries|
  {
    if entries != [] {
      var n := |entries| - 1;
      WithoutKeeps(entries[..n], id);
      assert entries == entries[..n] + [entries[n]];
    }
  }

  lemma {:induction false} WithoutNone(entries: seq<Entry>, id: nat)
    requires forall i :: 0 <= i < |entries| ==> entries[i].id != id
    ensures Without(entries, id) == entries
    decreases |entries|
  {
    if entries != [] {
      WithoutNone(entries[..|entries| - 1], id);
    }
  }

  lemma {:induction false} WithoutOne(entries: seq<Entry>, d: nat)
    requires d < |entries| && forall i :: 0 <= i < |entries| && i != d ==> entries[i].id != entries[d].id
    ensures Without(entries, entries[d].id) == entries[..d] + entries[d + 1..]
    decreases |entries|
  {
    var n, id := |entries| - 1, entries[d].id;
    if d == n {
      WithoutNone(entries[..n], id);
    } else {
      WithoutOne(entries[..n], d);
      assert entries[..n][..d] == entries[..d];
      assert entries[..n][d + 1..] + [entries[n]] == entries[d + 1..];
    }
  }

  /** Whose turn it is after the entry at d has been detached: the current entry keeps its turn if d lies
      behind it; if it was itself detached, or d lies before it, the next remaining entry is current. */
  lemma DetachTurn(s: Sched, d: nat, turn: nat)
    requires Ok(s) && d < |s.entries| && |s.entries| >= 2
    requires forall i :: 0 <= i < |s.entries| && i != d ==> s.entries[i].id != s.entries[d].id
    requires var next := Following(s.position, |s.entries|);
             turn == if d > s.position then s.position
                     else if next == d then Following(d, |s.entries|) else next
    ensures var s' := Detached(s, s.entries[d].id);
            && s'.entries == s.entries[..d] + s.entries[d + 1..]
            && s'.position < |s'.entries| && s'.entries[s'.position] == s.entries[turn]
  {
    WithoutOne(s.entries, d);
  }

  lemma ScanTakesCurrent(s: Sched, tries: nat)
    requires s.position < |s.entries| && tries > 0 && s.entries[s.position].quota >= 1
    ensures var p := s.position;
            var e := s.entries[p];
            Scan(s, tries) == (Sched(s.entries[p := e.(quota := e.quota - 1)],
                                     if e.quota == 1 then Following(p, |s.entries|) else p), p)
  {
  }

  /** k places on from p in a circle of n. */
  function Ahead(p: nat, k: nat, n: nat): nat {
    if p + k < n then p + k else p + k - n
  }

  /** j is at most d places ahead of p. */
  predicate Within(p: nat, d: nat, n: nat, j: nat) {
    exists k :: 0 <= k <= d && j == Ahead(p, k, n)
  }

  lemma WithinNext(p: nat, d: nat, n: nat)
    requires 0 < d < n && p < n
    ensures Within(p, d, n, p) && !Within(Following(p, n), d - 1, n, p)
    ensures forall j :: Within(Following(p, n), d - 1, n, j) ==> Within(p, d, n, j)
  {
    assert Ahead(p, 0, n) == p;
    forall j | Within(Following(p, n), d - 1, n, j)
      ensures Within(p, d, n, j)
    {
      var k :| 0 <= k <= d - 1 && j == Ahead(Following(p, n), k, n);
      assert j == Ahead(p, k + 1, n);
    }
  }

  /** Entries without quota are skipped and get their weight back; the first with quota is picked. */
  lemma {:induction false} ScanSkips(s: Sched, tries: nat, d: nat)
    requires var n := |s.entries|;
             && s.position < n && d < tries && d < n
             && (forall k :: 0 <= k < d ==> s.entries[Ahead(s.position, k, n)].quota == 0)
             && s.entries[Ahead(s.position, d, n)].quota != 0
    ensures var n, (s', picked) := |s.entries|, Scan(s, tries);
            && picked == Ahead(s.position, d, n)
            && s'.entries[picked].quota == s.entries[picked].quota - 1
            && (forall k :: 0 <= k < d ==>
                  var j := Ahead(s.position, k, n); s'.entries[j] == s.entries[j].(quota := s.entries[j].weight))
            && forall j :: 0 <= j < n && !Within(s.position, d, n, j) ==> s'.entries[j] == s.entries[j]
    decreases d
  {
    if d > 0 {
      var n, p, e := |s.entries|, s.position, s.entries[s.position];
      var next := Sched(s.entries[p := e.(quota := e.weight)], Following(p, n));
      assert Ahead(p, 0, n) == p;
      forall k | 0 <= k < d
        ensures Ahead(next.position, k, n) == Ahead(p, k + 1, n) != p
      {
      }
      ScanSkips(next, tries - 1, d - 1);
      WithinNext(p, d, n);
      var s' := Scan(s, tries).0;
      forall k | 0 <= k < d
        ensures var j := Ahead(p, k, n); s'.entries[j] == s.entries[j].(quota := s.entries[j].weight)
      {
        if k > 0 {
          assert Ahead(next.position, k - 1, n) == Ahead(p, k, n);
        }
      }
    } else {
      assert Ahead(s.position, 0, |s.entries|) == s.position && Within(s.position, 0, |s.entries|, s.position);
    }
  }

  lemma RefreshedHasQuota(e: Entry, goodput: Goodput)
    requires EntryOk(e)
    ensures EntryOk(RefreshedEntry(e, goodput)) && RefreshedEntry(e, goodput).quota >= 1
  {
  }

  /** After the refresh every entry has quota, so the scan takes the current entry at once. */
  lemma NextTakesCurrent(s: Sched, goodput: Goodput, r: seq<Entry>)
    requires Ok(s) && s.entries != [] && r == Refreshed(s.entries, goodput)
    ensures var p := s.position;
            && r[p].quota >= 1
            && Choose(s, goodput) == (Sched(r[p := r[p].(quota := r[p].quota - 1)],
                                          if r[p].quota == 1 then Following(p, |r|) else p), p)
  {
    RefreshedAt(s.entries, goodput, s.position);
    RefreshedHasQuota(s.entries[s.position], goodput);
    ScanTakesCurrent(s.(entries := r), |s.entries|);
  }

  lemma NextKeeps(s: Sched, goodput: Goodput)
    requires Ok(s) && s.entries != []
    ensures Ok(Choose(s, goodput).0)
  {
    var r := Refreshed(s.entries, goodput);
    NextTakesCurrent(s, goodput, r);
    forall i | 0 <= i < |r|
      ensures EntryOk(r[i])
    {
      RefreshedAt(s.entries, goodput, i);
      RefreshedHasQuota(s.entries[i], goodput);
    }
  }

  datatype Op = Attach(id: nat) | Detach(id: nat) | Call(goodput: Goodput)

  function Apply(s: Sched, op: Op): Sched {
    match op
    case Attach(id) => Attached(s, id)
    case Detach(id) => Detached(s, id)
    case Call(goodput) => if s.position < |s.entries| then Choose(s, goodput).0 else s
  }

  ghost predicate IsRun(ops: seq<Op>, states: seq<Sched>) {
    && |states| == |ops| + 1
    && states[0] == EMPTY
    && forall k :: 0 <= k < |ops| ==> states[k + 1] == Apply(states[k], ops[k])
  }

  /** Some run of attach, detach and next ends in s. */
  ghost predicate Reachable(s: Sched) {
    exists ops, states :: IsRun(ops, states) && s == states[|ops|]
  }

  lemma ApplyKeeps(s: Sched, op: Op)
    requires Ok(s)
    ensures Ok(Apply(s, op))
  {
    match op
    case Attach(_) =>
    case Detach(id) => WithoutKeeps(s.entries, id);
    case Call(goodput) =>
      if s.entries != [] {
        NextKeeps(s, goodput);
      }
  }

  lemma {:induction false} RunOk(ops: seq<Op>, states: seq<Sched>, k: nat)
    requires IsRun(ops, states) && k <= |ops|
    ensures Ok(states[k])
    decreases k
  {
    if k > 0 {
      var before := k - 1;
      RunOk(ops, states, before);
      assert states[before + 1] == Apply(states[before], ops[before]);
      ApplyKeeps(states[before], ops[before]);
    }
  }

  /** Positions and quotas stay within bounds over every run of the operations. */
  lemma ReachableOk(s: Sched)
    requires Reachable(s)
    ensures forall i :: 0 <= i < |s.entries| ==> EntryOk(s.entries[i])
    ensures s.position < |s.entries| || (s.position == 0 && s.entries == [])
  {
    var ops, states :| IsRun(ops, states) && s == states[|ops|];
    RunOk(ops, states, |ops|);
  }

  // ----- Runs of Next alone, and the wheel they turn -----

  /** The entries picked by one call for each measurement. */
  function Picks(s: Sched, gs: seq<Goodput>): (r: seq<nat>)
    requires s.position < |s.entries|
    ensures |r| == |gs|
    decreases |gs|
  {
    if gs == [] then []
    else
      var (s', picked) := Choose(s, gs[0]);
      [picked] + Picks(s', gs[1..])
  }

  function After(s: Sched, gs: seq<Goodput>): (r: Sched)
    requires s.position < |s.entries|
    ensures |r.entries| == |s.entries| && r.position < |r.entries|
    decreases |gs|
  {
    if gs == [] then s else After(Choose(s, gs[0]).0, gs[1..])
  }

  /** Throughput may vary, but not so much that a weight changes. */
  ghost predicate FixedWeights(gs: seq<Goodput>, goodput: Goodput) {
    forall k, id: nat :: 0 <= k < |gs| ==>
      WeightOf(gs[k](id)) == WeightOf(goodput(id))
  }

  /** What a schedule is while weights are fixed: `left` is each entry's quota once refreshed. */
  datatype Wheel = Wheel(weights: seq<nat>, left: seq<nat>, position: nat)

  ghost predicate Shaped(w: Wheel) {
    |w.left| == |w.weights| && w.position < |w.weights|
  }

  ghost predicate WheelOk(w: Wheel) {
    Shaped(w) && forall i :: 0 <= i < |w.weights| ==> 1 <= w.left[i] <= w.weights[i] <= MAX_WEIGHT
  }

  ghost function Spin(w: Wheel): (r: Wheel)
    requires Shaped(w)
    ensures Shaped(r)
  {
    var p := w.position;
    if w.left[p] <= 1 then
      Wheel(w.weights, w.left[p := w.weights[p]], Following(p, |w.weights|))
    else
      w.(left := w.left[p := w.left[p] - 1])
  }

  ghost function SpinPicks(w: Wheel, k: nat): (r: seq<nat>)
    requires Shaped(w)
    ensures |r| == k
    decreases k
  {
    if k == 0 then [] else [w.position] + SpinPicks(Spin(w), k - 1)
  }

  ghost function SpinAfter(w: Wheel, k: nat): (r: Wheel)
    requires Shaped(w)
    ensures Shaped(r)
    decreases k
  {
    if k == 0 then w else SpinAfter(Spin(w), k - 1)
  }

  ghost function View(s: Sched, goodput: Goodput): (w: Wheel)
    requires Ok(s) && s.entries != []
    ensures WheelOk(w) && |w.weights| == |s.entries| && w.position == s.position
  {
    Wheel(seq(|s.entries|, i requires 0 <= i < |s.entries| => ViewEntry(s, goodput, i).weight),
          seq(|s.entries|, i requires 0 <= i < |s.entries| => ViewEntry(s, goodput, i).quota),
          s.position)
  }

  ghost function ViewEntry(s: Sched, goodput: Goodput, i: nat): (e: Entry)
    requires Ok(s) && i < |s.entries|
    ensures 1 <= e.quota <= e.weight <= MAX_WEIGHT
  {
    assert EntryOk(s.entries[i]);
    RefreshedEntry(s.entries[i], goodput)
  }

  /** With weights fixed, one call is one turn of the wheel. */
  lemma NextSpins(s: Sched, first: Goodput, goodput: Goodput)
    requires Ok(s) && s.entries != []
    requires FixedWeights([first], goodput)
    ensures var (s', picked) := Choose(s, first);
            Ok(s') && picked == s.position && View(s', goodput) == Spin(View(s, goodput))
  {
    var r := Refreshed(s.entries, first);
    NextKeeps(s, first);
    NextTakesCurrent(s, first, r);
    var p, s', w := s.position, Choose(s, first).0, View(s, goodput);
    forall j | 0 <= j < |s.entries|
      ensures r[j].quota == w.left[j] && RefreshedEntry(r[j], goodput) == r[j]
      ensures ViewEntry(s', goodput, j).weight == w.weights[j]
      ensures ViewEntry(s', goodput, j).quota == Spin(w).left[j]
    {
      EntryTurns(s.entries[j], first, goodput);
      RefreshedAt(s.entries, first, j);
    }
    assert View(s', goodput).weights == w.weights && View(s', goodput).left == Spin(w).left;
  }

  lemma EntryTurns(e: Entry, first: Goodput, goodput: Goodput)
    requires EntryOk(e) && FixedWeights([first], goodput)
    ensures var r := RefreshedEntry(e, goodput);
            && RefreshedEntry(e, first) == r == RefreshedEntry(r, goodput)
            && RefreshedEntry(r.(quota := r.quota - 1), goodput)
               == r.(quota := if r.quota == 1 then r.weight else r.quota - 1)
  {
    assert WeightOf([first][0](e.id)) == WeightOf(goodput(e.id));
  }

  lemma {:induction false} RunSpins(s: Sched, gs: seq<Goodput>, goodput: Goodput)
    requires Ok(s) && s.entries != [] && FixedWeights(gs, goodput)
    ensures Picks(s, gs) == SpinPicks(View(s, goodput), |gs|)
    ensures Ok(After(s, gs)) && View(After(s, gs), goodput) == SpinAfter(View(s, goodput), |gs|)
    decreases |gs|
  {
    if gs != [] {
      forall k, id: nat | 0 <= k < |gs[1..]|
        ensures WeightOf(gs[1..][k](id)) == WeightOf(goodput(id))
      {
        assert gs[1..][k] == gs[k + 1];
      }
      NextSpins(s, gs[0], goodput);
      RunSpins(Choose(s, gs[0]).0, gs[1..], goodput);
    }
  }

  function Repeat<T>(p: T, m: nat): (r: seq<T>)
    ensures |r| == m && forall k :: 0 <= k < m ==> r[k] == p
  {
    seq(m, _ => p)
  }

  /** The current entry is picked until its quota is spent; it then has its whole weight again and
      the next entry is current. */
  lemma {:induction false} Burst(w: Wheel, k: nat, w': Wheel)
    requires Shaped(w) && k >= w.left[w.position] >= 1
    requires w' == Wheel(w.weights, w.left[w.position := w.weights[w.position]], Following(w.position, |w.weights|))
    ensures var m := w.left[w.position];
            && SpinPicks(w, k) == Repeat(w.position, m) + SpinPicks(w', k - m)
            && SpinAfter(w, k) == SpinAfter(w', k - m)
    decreases k
  {
    var p, m := w.position, w.left[w.position];
    if m == 1 {
      assert Repeat(p, 1) == [p];
    } else {
      assert Spin(w).left[p := w.weights[p]] == w'.left;
      Burst(Spin(w), k - 1, w');
      assert [p] + Repeat(p, m - 1) == Repeat(p, m);
    }
  }

  // ----- Every entry is served -----

  ghost function Distance(p: nat, i: nat, n: nat): nat
    requires p < n && i < n
  {
    if i >= p then i - p else i + n - p
  }

  /** An entry d places ahead is picked within the next 8*d + 1 calls. */
  lemma {:induction false} ServedFrom(w: Wheel, k: nat, i: nat)
    requires WheelOk(w) && i < |w.weights|
    requires k > MAX_WEIGHT * Distance(w.position, i, |w.weights|)
    ensures i in SpinPicks(w, k)
    decreases Distance(w.position, i, |w.weights|)
  {
    var p := w.position;
    if p == i {
      assert SpinPicks(w, k)[0] == i;
    } else {
      var w' := Wheel(w.weights, w.left[p := w.weights[p]], Following(p, |w.weights|));
      Burst(w, k, w');
      ServedFrom(w', k - w.left[p], i);
    }
  }

  lemma Served(s: Sched, gs: seq<Goodput>, goodput: Goodput, i: nat)
    requires Ok(s) && i < |s.entries| && FixedWeights(gs, goodput)
    requires |gs| == MAX_WEIGHT * (|s.entries| - 1) + 1
    ensures s.position < |s.entries| && i in Picks(s, gs)
  {
    RunSpins(s, gs, goodput);
    ServedFrom(View(s, goodput), |gs|, i);
  }

  /** Whatever was attached, detached and sent before, while weights stay fixed every attached
      subflow is picked within 8*(n-1) + 1 calls. */
  lemma EverySubflowServed(s: Sched, gs: seq<Goodput>, goodput: Goodput, i: nat)
    requires Reachable(s) && i < |s.entries| && FixedWeights(gs, goodput)
    requires |gs| == MAX_WEIGHT * (|s.entries| - 1) + 1
    ensures s.position < |s.entries| && i in Picks(s, gs)
  {
    ReachableOk(s);
    Served(s, gs, goodput, i);
  }

  // ----- A round gives each entry its weight -----

  ghost predicate Full(w: Wheel) {
    WheelOk(w) && w.left == w.weights
  }

  ghost function Sum(weights: seq<nat>): nat {
    if weights == [] then 0 else Sum(weights[..|weights| - 1]) + weights[|weights| - 1]
  }

  /** Calls needed to serve the d entries from position p on. */
  ghost function Turn(weights: seq<nat>, p: nat, d: nat): nat
    requires p < |weights|
    decreases d
  {
    if d == 0 then 0
    else weights[p] + Turn(weights, Following(p, |weights|), d - 1)
  }

  lemma {:induction false} TurnIsSum(weights: seq<nat>, p: nat, d: nat)
    requires p < |weights| && d <= |weights|
    ensures var n := |weights|;
            Turn(weights, p, d) ==
              if p + d <= n then Sum(weights[..p + d]) - Sum(weights[..p])
              else Sum(weights[..n]) - Sum(weights[..p]) + Sum(weights[..p + d - n])
    decreases d
  {
    if d > 0 {
      TurnIsSum(weights, Following(p, |weights|), d - 1);
      assert weights[..p + 1][..p] == weights[..p];
    }
  }

  lemma {:induction false} RepeatCount(p: nat, m: nat)
    ensures forall i :: multiset(Repeat(p, m))[i] == if i == p then m else 0
    decreases m
  {
    if m > 0 {
      RepeatCount(p, m - 1);
      assert Repeat(p, m) == Repeat(p, m - 1) + [p];
    }
  }

  /** The d entries from position p on were each picked as often as their weight says, and no
      other entry was picked. */
  ghost predicate Shared(picks: seq<nat>, weights: seq<nat>, p: nat, d: nat)
    requires p < |weights|
  {
    forall i :: 0 <= i < |weights| ==>
      multiset(picks)[i] == if Distance(p, i, |weights|) < d then weights[i] else 0
  }

  lemma BurstShares(picks: seq<nat>, rest: seq<nat>, weights: seq<nat>, p: nat, d: nat)
    requires p < |weights| && 0 < d <= |weights|
    requires picks == Repeat(p, weights[p]) + rest
    requires Shared(rest, weights, Following(p, |weights|), d - 1)
    ensures Shared(picks, weights, p, d)
  {
    RepeatCount(p, weights[p]);
    assert multiset(picks) == multiset(Repeat(p, weights[p])) + multiset(rest);
  }

  /** The picks of d whole bursts from position p on. */
  ghost function Bursts(weights: seq<nat>, p: nat, d: nat): seq<nat>
    requires p < |weights|
    decreases d
  {
    if d == 0 then [] else Repeat(p, weights[p]) + Bursts(weights, Following(p, |weights|), d - 1)
  }

  lemma {:induction false} BurstsShare(weights: seq<nat>, p: nat, d: nat)
    requires p < |weights| && d <= |weights|
    ensures Shared(Bursts(weights, p, d), weights, p, d)
    decreases d
  {
    if d > 0 {
      var rest := Bursts(weights, Following(p, |weights|), d - 1);
      BurstsShare(weights, Following(p, |weights|), d - 1);
      BurstShares(Bursts(weights, p, d), rest, weights, p, d);
    }
  }

  /** A full wheel turns in whole bursts, and is full again after each of them. */
  lemma {:induction false} Walk(w: Wheel, k: nat, d: nat)
    requires Full(w) && d <= |w.weights| && k == Turn(w.weights, w.position, d)
    ensures var n, p := |w.weights|, w.position;
            SpinAfter(w, k) == w.(position := if p + d < n then p + d else p + d - n)
    ensures SpinPicks(w, k) == Bursts(w.weights, w.position, d)
    decreases d
  {
    if d > 0 {
      var p, m := w.position, w.weights[w.position];
      var w' := w.(position := Following(p, |w.weights|));
      assert w.left[p := m] == w.left;
      Burst(w, k, w');
      Walk(w', k - m, d - 1);
    }
  }

  lemma {:induction false} SpinSplit(w: Wheel, a: nat, b: nat, w': Wheel)
    requires Shaped(w) && w' == SpinAfter(w, a)
    ensures SpinPicks(w, a + b) == SpinPicks(w, a) + SpinPicks(w', b)
    ensures SpinAfter(w, a + b) == SpinAfter(w', b)
    decreases a
  {
    if a > 0 {
      var next := Spin(w);
      SpinSplit(next, a - 1, b, w');
      assert SpinPicks(w, a + b) == [w.position] + SpinPicks(next, a - 1 + b);
    }
  }

  lemma OneRound(w: Wheel, k: nat)
    requires Full(w) && k == Sum(w.weights)
    ensures SpinAfter(w, k) == w
    ensures SpinPicks(w, k) == Bursts(w.weights, w.position, |w.weights|)
  {
    var n, p := |w.weights|, w.position;
    TurnIsSum(w.weights, p, n);
    assert w.weights[..n] == w.weights;
    Walk(w, k, n);
  }

  ghost predicate Proportional(picks: seq<nat>, weights: seq<nat>, rounds: nat) {
    forall i :: 0 <= i < |weights| ==> multiset(picks)[i] == rounds * weights[i]
  }

  lemma ProportionsAdd(before: seq<nat>, last: seq<nat>, weights: seq<nat>, rounds: nat)
    requires Proportional(before, weights, rounds) && Proportional(last, weights, 1)
    ensures Proportional(before + last, weights, rounds + 1)
  {
    forall i | 0 <= i < |weights|
      ensures multiset(before + last)[i] == (rounds + 1) * weights[i]
    {
      assert (rounds + 1) * weights[i] == rounds * weights[i] + weights[i];
    }
  }

  lemma OneMore(rounds: nat, total: nat)
    requires rounds > 0
    ensures rounds * total == (rounds - 1) * total + total >= total
  {
  }

  ghost function ManyBursts(weights: seq<nat>, p: nat, rounds: nat): seq<nat>
    requires p < |weights|
  {
    if rounds == 0 then [] else ManyBursts(weights, p, rounds - 1) + Bursts(weights, p, |weights|)
  }

  lemma {:induction false} ManyProportional(weights: seq<nat>, p: nat, rounds: nat)
    requires p < |weights|
    ensures Proportional(ManyBursts(weights, p, rounds), weights, rounds)
    decreases rounds
  {
    if rounds > 0 {
      ManyProportional(weights, p, rounds - 1);
      BurstsShare(weights, p, |weights|);
      ProportionsAdd(ManyBursts(weights, p, rounds - 1), Bursts(weights, p, |weights|), weights, rounds - 1);
    }
  }

  lemma NextRound(w: Wheel, total: nat, before: nat, rounds: nat)
    requires Full(w) && total == Sum(w.weights) && rounds > 0
    requires SpinAfter(w, before) == w
    requires SpinPicks(w, before) == ManyBursts(w.weights, w.position, rounds - 1)
    ensures SpinAfter(w, before + total) == w
    ensures SpinPicks(w, before + total) == ManyBursts(w.weights, w.position, rounds)
  {
    OneRound(w, total);
    SpinSplit(w, before, total, w);
  }

  lemma {:induction false} Rounds(w: Wheel, total: nat, rounds: nat, k: nat)
    requires Full(w) && total == Sum(w.weights) && k == rounds * total
    ensures SpinAfter(w, k) == w
    ensures SpinPicks(w, k) == ManyBursts(w.weights, w.position, rounds)
    decreases rounds
  {
    if rounds > 0 {
      var before := (rounds - 1) * total;
      OneMore(rounds, total);
      Rounds(w, total, rounds - 1, before);
      NextRound(w, total, before, rounds);
    }
  }

  /** From a round boundary, where every entry's quota once refreshed is its whole weight, any
      number of rounds picks each subflow exactly its weight times as often and ends at a boundary
      in the same place. */
  lemma RoundsShareByWeight(s: Sched, gs: seq<Goodput>, goodput: Goodput, rounds: nat)
    requires Ok(s) && s.entries != [] && Full(View(s, goodput)) && FixedWeights(gs, goodput)
    requires |gs| == rounds * Sum(View(s, goodput).weights)
    ensures Ok(After(s, gs)) && View(After(s, gs), goodput) == View(s, goodput)
    ensures forall i :: 0 <= i < |s.entries| ==>
              multiset(Picks(s, gs))[i] == rounds * WeightOf(goodput(s.entries[i].id))
  {
    var w := View(s, goodput);
    RunSpins(s, gs, goodput);
    Rounds(w, Sum(w.weights), rounds, |gs|);
    ManyProportional(w.weights, w.position, rounds);
    forall i | 0 <= i < |s.entries|
      ensures w.weights[i] == WeightOf(goodput(s.entries[i].id))
    {
      assert EntryOk(s.entries[i]);
    }
  }

  // ----- Why weights must be fixed -----

  ghost predicate NewWeight(goodput: Goodput, id: nat, weight: int) {
    WeightOf(goodput(id)) >= 2 && WeightOf(goodput(id)) != weight
  }

  /** The weight of subflow id changes before every call, and is never 1. */
  ghost predicate Changing(gs: seq<Goodput>, id: nat, weight: int)
    decreases |gs|
  {
    gs != [] ==> NewWeight(gs[0], id, weight) && Changing(gs[1..], id, WeightOf(gs[0](id)))
  }

  lemma NewWeightStays(s: Sched, goodput: Goodput)
    requires Ok(s) && s.entries != []
    requires var e := s.entries[s.position]; NewWeight(goodput, e.id, e.weight)
    ensures var p, (s', picked) := s.position, Choose(s, goodput);
            && Ok(s') && s'.position == p == picked
            && s'.entries[p].id == s.entries[p].id
            && s'.entries[p].weight == WeightOf(goodput(s.entries[p].id))
  {
    NextTakesCurrent(s, goodput, Refreshed(s.entries, goodput));
    RefreshedAt(s.entries, goodput, s.position);
    NextKeeps(s, goodput);
  }

  /** A current entry whose weight keeps changing is picked for ever: each change gives it a new
      quota, so the position never moves. */
  lemma {:induction false} ChangingWeightStarves(s: Sched, gs: seq<Goodput>)
    requires Ok(s) && s.entries != []
    requires Changing(gs, s.entries[s.position].id, s.entries[s.position].weight)
    ensures Picks(s, gs) == Repeat(s.position, |gs|)
    decreases |gs|
  {
    if gs != [] {
      NewWeightStays(s, gs[0]);
      ChangingWeightStarves(Choose(s, gs[0]).0, gs[1..]);
      assert [s.position] + Repeat(s.position, |gs| - 1) == Repeat(s.position, |gs|);
    }
  }

  // ----- The scheduler object -----

  class Scheduler {
    var entries: seq<Entry>
    var position: nat

    ghost function State(): Sched
      reads this
    {
      Sched(entries, position)
    }

    constructor ()
      ensures State() == EMPTY
    {
      entries, position := [], 0;
    }

    method Attach(id: nat)
      modifies this
      ensures State() == Attached(old(State()), id)
    {
      entries := entries + [Entry(id, 1, 1)];
    }

    method Detach(id: nat)
      modifies this
      ensures State() == Detached(old(State()), id)
    {
      var filtered := [];
      for i := 0 to |entries|
        invariant entries == old(entries) && filtered == Without(entries[..i], id)
      {
        assert entries[..i + 1][..i] == entries[..i];
        if entries[i].id != id {
          filtered := filtered + [entries[i]];
        }
      }
      assert entries[..|entries|] == entries;
      entries := filtered;
      if position >= |entries| {
        position := 0;
      }
    }

    method RefreshWeights(goodput: Goodput)
      modifies this`entries
      ensures entries == Refreshed(old(entries), goodput)
    {
      for i := 0 to |entries|
        invariant |entries| == |old(entries)|
        invariant entries == Refreshed(old(entries)[..i], goodput) + old(entries)[i..]
      {
        RefreshedStep(old(entries), goodput, i);
        var e := entries[i];
        var weight := WeightFromThroughput(goodput(e.id));
        if weight != e.weight {
          entries := entries[i := e.(weight := weight, quota := weight)];
        } else if e.quota <= 0 {
          entries := entries[i := e.(quota := e.weight)];
        }
      }
      assert old(entries)[..|entries|] == old(entries);
    }

    /** The loop of Next: the first entry with quota left, from the current position on. */
    method TakeTurn() returns (id: nat)
      requires position < |entries|
      modifies this
      ensures var (s, i) := Scan(old(State()), |old(entries)|);
              State() == s && id == old(entries)[i].id
    {
      var n := |entries|;
      ghost var chosen := Scan(State(), n);
      for i := 0 to n
        invariant |entries| == n && position < n
        invariant Scan(State(), n - i) == chosen
        invariant SameIds(entries, old(entries))
      {
        var e := entries[position];
        ScanStep(State(), n - i);
        FollowingMod(position, n);
        if e.quota == 0 {
          entries := entries[position := e.(quota := e.weight)];
          position := (position + 1) % n;
          continue;
        }
        entries := entries[position := e.(quota := e.quota - 1)];
        if e.quota - 1 == 0 {
          position := (position + 1) % n;
        }
        return e.id;
      }
      return entries[0].id;
    }

    /** The subflow to send on, or None when there is none. */
    method Next(goodput: Goodput) returns (picked: Option<nat>)
      requires position < |entries| || entries == []
      modifies this
      ensures old(entries) == [] ==> picked == None && State() == old(State())
      ensures old(entries) != [] ==>
                var (s, i) := Choose(old(State()), goodput);
                State() == s && picked == Some(old(entries)[i].id)
    {
      if |entries| == 0 {
        return None;
      }
      RefreshWeights(goodput);
      RefreshedIds(old(entries), goodput);
      var id := TakeTurn();
      return Some(id);
    }
  }

  lemma RefreshedStep(entries: seq<Entry>, goodput: Goodput, i: nat)
    requires i < |entries|
    ensures var now := Refreshed(entries[..i], goodput) + entries[i..];
            && now[i] == entries[i]
            && now[i := RefreshedEntry(entries[i], goodput)]
               == Refreshed(entries[..i + 1], goodput) + entries[i + 1..]
  {
    assert entries[..i + 1][..i] == entries[..i];
  }

  lemma ScanStep(s: Sched, tries: nat)
    requires s.position < |s.entries| && tries > 0
    ensures var n, p := |s.entries|, s.position;
            var e := s.entries[p];
            Scan(s, tries) ==
              if e.quota == 0 then Scan(Sched(s.entries[p := e.(quota := e.weight)], Following(p, n)), tries - 1)
              else (Sched(s.entries[p := e.(quota := e.quota - 1)],
                          if e.quota - 1 == 0 then Following(p, n) else p), p)
  {
  }

  ghost predicate SameIds(a: seq<Entry>, b: seq<Entry>) {
    |a| == |b| && forall i :: 0 <= i < |a| ==> a[i].id == b[i].id
  }

  lemma RefreshedIds(entries: seq<Entry>, goodput: Goodput)
    ensures SameIds(entries, Refreshed(entries, goodput))
  {
    forall i | 0 <= i < |entries|
      ensures entries[i].id == Refreshed(entries, goodput)[i].id
    {
      RefreshedAt(entries, goodput, i);
    }
  }

  lemma ChooseSameIds(s: Sched, goodput: Goodput)
    requires Ok(s) && s.entries != []
    ensures SameIds(s.entries, Choose(s, goodput).0.entries)
  {
    NextTakesCurrent(s, goodput, Refreshed(s.entries, goodput));
    RefreshedIds(s.entries, goodput);
  }
}
