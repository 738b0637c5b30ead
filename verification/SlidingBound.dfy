/** Exactly when the sliding counter keeps the plain bound: nothing older than the window and one
    step is reported. */
module SlidingBound {
  import opened Basics
  import opened Sliding
  import opened SlidingHistory

  /** After every history whose Adds pause at most `slack`, a Sum that pauses at most `wait`
      reports at most what was added within the window and one step before its second reading. */
  ghost predicate KeepsPlainBound(window: int, step: int, slack: int, wait: nat) {
    forall ops: seq<Op>, first: int, second: int ::
      Monotone(ops, first) && Quick(ops, slack) && first <= second <= first + wait ==>
        SumAfter(window, step, ops, first, second)
          <= AddedWithin(ops, second, window + Fresh(window, step).step)
  }

  function Turn(step: int): int {
    2 * step - 1
  }

  /** The longest time in which the ring can enter all its other buckets, one by one. */
  function SlowestTurn(n: nat, step: int): int {
    (n - 1) * Turn(step)
  }

  /** The Adds do not pause, or the ring is too short for a pause to matter, or its slowest turn and
      the pause of the Sum fit the window. */
  predicate PausesFit(window: int, step: int, slack: int, wait: nat) {
    var start := Fresh(window, step);
    var turn := SlowestTurn(|start.buckets|, start.step);
    slack <= 1 || turn <= 1 || turn + wait <= window
  }

  // ----- When it is kept -----

  lemma {:induction false} WithinGrows(ops: seq<Op>, slack: int, now: int, a: int, b: int)
    requires Quick(ops, slack) && a <= b
    ensures 0 <= AddedWithin(ops, now, a) <= AddedWithin(ops, now, b)
    decreases |ops|
  {
    if ops != [] {
      WithinGrows(ops[..|ops| - 1], slack, now, a, b);
    }
  }

  /** No bucket is stamped later than `now`. */
  ghost predicate StampedBy(buckets: seq<Bucket>, now: int) {
    forall j :: 0 <= j < |buckets| && buckets[j].stamp.Some? ==> buckets[j].stamp.value <= now
  }

  lemma {:induction false} AdvanceStamps(buckets: seq<Bucket>, index: nat, steps: nat, now: int)
    requires index < |buckets| && StampedBy(buckets, now)
    ensures StampedBy(Advance(buckets, index, steps).0, now)
    decreases steps
  {
    if steps > 0 {
      AdvanceStamps(buckets, index, steps - 1, now);
    }
  }

  lemma RolledStamps(c: Counter, now: int)
    requires c.step > 0 && c.index < |c.buckets| && StampedBy(c.buckets, now)
    ensures StampedBy(Rolled(c, now).buckets, now)
  {
    AdvanceStamps(c.buckets, c.index, StepsAt(c, now), now);
  }

  lemma {:induction false} RunStamps(window: int, step: int, ops: seq<Op>, now: int)
    requires Monotone(ops, now)
    ensures StampedBy(Run(window, step, ops).buckets, now)
    decreases |ops|
  {
    if ops != [] {
      var op, rest := ops[|ops| - 1], ops[..|ops| - 1];
      RunStamps(window, step, rest, op.first);
      RolledStamps(Run(window, step, rest), op.first);
    }
  }

  /** An event older than the window and one step is counted only if its bucket was stamped more
      than a step after it, and then the ring has been slower than a short turn allows. */
  lemma NoneOlder(c: Counter, e: Event, slot: nat, slack: int, first: int, second: int)
    requires Valid(c) && c.last.Some? && first < c.last.value + c.step
    requires EventOk(c.buckets, e, slot, c.step, slack) && EventTimeOk(e, slot, c.last.value, c.step)
    requires StampedBy(c.buckets, first)
    requires var turn := SlowestTurn(|c.buckets|, c.step); turn <= 1 || turn + second - first <= c.window
    requires Counted(c.buckets, e, slot, second - c.window, |c.buckets|)
    ensures second - e.time < c.window + c.step
  {
    LiveIsYoung(c, e, slot, slack, first);
  }

  lemma RolledBound(c: Counter, events: seq<Event>, slot: nat, slack: int, first: int, second: int)
    requires Valid(c) && c.last.Some? && first < c.last.value + c.step
    requires forall i :: 0 <= i < |events| ==>
               && EventOk(c.buckets, events[i], slot, c.step, slack)
               && EventTimeOk(events[i], slot, c.last.value, c.step)
               && events[i].value >= 0
    requires StampedBy(c.buckets, first)
    requires var turn := SlowestTurn(|c.buckets|, c.step); turn <= 1 || turn + second - first <= c.window
    ensures CountedSum(c.buckets, events, slot, second - c.window, |c.buckets|)
         <= YoungSum(events, second, c.window + c.step)
  {
    var n, cutoff := |c.buckets|, second - c.window;
    forall i | 0 <= i < |events| && Counted(c.buckets, events[i], slot, cutoff, n)
      ensures second - events[i].time < c.window + c.step
    {
      NoneOlder(c, events[i], slot, slack, first, second);
    }
    CountedWithin(c.buckets, events, slot, cutoff, second, c.window + c.step);
  }

  lemma TrackedBound(c: Counter, events: seq<Event>, slot: nat, slack: int, first: int, second: int, r: Counter)
    requires Tracks(c, events, slot, slack) && NotAfter(events, first)
    requires c.last.Some? ==> c.last.value <= first
    requires r == Rolled(c, first) && StampedBy(r.buckets, first)
    requires var turn := SlowestTurn(|c.buckets|, c.step); turn <= 1 || turn + second - first <= c.window
    ensures Total(r.buckets, second - c.window) <= YoungSum(events, second, c.window + c.step)
  {
    RollTracks(c, events, slot, slack, first);
    var n, slot' := |r.buckets|, slot + StepsAt(c, first);
    assert r.buckets[..n] == r.buckets;
    TotalIsCounted(r.buckets, events, slot', second - c.window, n);
    RolledBound(r, events, slot', slack, first, second);
  }

  lemma BoundKept(window: int, step: int, slack: int, wait: nat, ops: seq<Op>, first: int, second: int, limit: int)
    requires Monotone(ops, first) && Quick(ops, slack) && first <= second <= first + wait
    requires PausesFit(window, step, slack, wait) && limit == window + Fresh(window, step).step
    ensures SumAfter(window, step, ops, first, second) <= AddedWithin(ops, second, limit)
  {
    if slack <= 1 {
      SumSandwich(window, step, ops, slack, first, second);
      WithinGrows(ops, slack, second, limit + slack - 1, limit);
    } else {
      var c, log := Run(window, step, ops), Log(window, step, ops);
      LogTracks(window, step, ops, slack, first);
      RunStamps(window, step, ops, first);
      RolledStamps(c, first);
      TrackedBound(c, log.0, log.1, slack, first, second, Rolled(c, first));
      LogIsHistory(window, step, ops, second, limit);
    }
  }

  /** The step used: half a second when none is given. */
  function StepUsed(step: int): int {
    if step <= 0 then 500_000_000 else step
  }

  /** As many buckets as whole steps fit the window, but at least one. */
  lemma BucketsFill(window: int, step: int)
    ensures var c, s := Fresh(window, step), StepUsed(step);
            && c.window == window && c.step == s
            && (window >= s ==> |c.buckets| * s <= window < (|c.buckets| + 1) * s)
            && (window < s ==> |c.buckets| == 1)
            && forall j :: 0 <= j < |c.buckets| ==> c.buckets[j] == Bucket(None, 0)
  {
    var s := StepUsed(step);
    assert window == s * (window / s) + window % s;
    MultipleBound(window / s, s);
    if window >= s {
      StepsCovered(window, s);
    }
  }

  /** After every history of non-negative Adds, Sum is at least what was added within the window less two
      steps, and at most what was added within the window, one more step and the longest pause. */
  lemma SumInWindow(window: int, step: int, ops: seq<Op>, slack: int, first: int, second: int)
    requires Monotone(ops, first) && first <= second && Quick(ops, slack)
    ensures var s, total := StepUsed(step), SumAfter(window, step, ops, first, second);
            && AddedWithin(ops, second, window - 2 * s + 1) <= total
            && total <= AddedWithin(ops, second, window + s + slack - 1)
  {
    var n, s := |Fresh(window, step).buckets|, StepUsed(step);
    BucketsFill(window, step);
    SumSandwich(window, step, ops, slack, first, second);
    assert (n + 1) * s == (n - 1) * s + 2 * s;
    WithinGrows(ops, slack, second, window - 2 * s + 1, (n - 1) * s);
  }

  // ----- When it is broken -----

  /** Two Adds into the first bucket, the second as late as that bucket lasts and with a pause of
      two, and then m Sums that move the ring on as slowly as it goes. */
  function Slow(step: int, m: nat): seq<Op> {
    if m == 0 then [AddOp(0, 0, 1), AddOp(step - 1, step + 1, 1)]
    else Slow(step, m - 1) + [SumOp(m * Turn(step), m * Turn(step))]
  }

  lemma TurnsAdd(m: nat, step: int)
    requires m > 0 && step >= 1
    ensures m * Turn(step) == (m - 1) * Turn(step) + Turn(step)
    ensures (m - 1) * Turn(step) >= 0
  {
  }

  lemma {:induction false} SlowOk(step: int, m: nat, now: int, slack: int)
    requires step >= 1 && slack >= 2 && now >= m * Turn(step) && now >= step + 1
    requires m > 0 ==> step >= 2
    ensures Monotone(Slow(step, m), now) && Quick(Slow(step, m), slack)
    decreases m
  {
    if m == 0 {
      var two := Slow(step, 0);
      assert two[..1] == [AddOp(0, 0, 1)] && two[..1][..0] == [];
      assert Monotone(two[..1], step - 1);
    } else {
      var t := m * Turn(step);
      TurnsAdd(m, step);
      SlowOk(step, m - 1, t, slack);
      assert Slow(step, m)[..|Slow(step, m)| - 1] == Slow(step, m - 1);
    }
  }

  /** Only the second Add is younger than the first. */
  lemma {:induction false} SlowAdded(step: int, m: nat, now: int)
    requires step >= 1
    ensures AddedWithin(Slow(step, m), now, now) == if step == 1 then 0 else 1
    decreases m
  {
    if m == 0 {
      var two := Slow(step, 0);
      assert two[..1] == [AddOp(0, 0, 1)] && two[..1][..0] == [];
      assert AddedWithin(two[..1], now, now) == 0;
    } else {
      SlowAdded(step, m - 1, now);
      assert Slow(step, m)[..|Slow(step, m)| - 1] == Slow(step, m - 1);
    }
  }

  /** The ring with both Adds in its first bucket and nothing in the others. */
  function OneBucket(n: nat, step: int): (r: seq<Bucket>)
    requires n > 0
    ensures |r| == n && r[0] == Bucket(Some(step + 1), 2) && forall j :: 0 < j < n ==> r[j] == EMPTY
  {
    [Bucket(Some(step + 1), 2)] + seq(n - 1, _ => EMPTY)
  }

  lemma EnterEmpty(buckets: seq<Bucket>, index: nat)
    requires index + 1 < |buckets| && buckets[index + 1] == EMPTY
    ensures (index + 1) % |buckets| == index + 1
    ensures buckets[index + 1 := EMPTY] == buckets
  {
    MultipleMod(0, |buckets|, index + 1);
  }

  /** Entering buckets that are empty anyway. */
  lemma {:induction false} AdvanceEmpty(buckets: seq<Bucket>, index: nat, k: nat)
    requires index + k < |buckets| && forall j :: 0 < j < |buckets| ==> buckets[j] == EMPTY
    ensures Advance(buckets, index, k) == (buckets, index + k)
    decreases k
  {
    if k > 0 {
      AdvanceEmpty(buckets, index, k - 1);
      EnterEmpty(buckets, index + k - 1);
    }
  }

  lemma RollEmpty(c: Counter, now: int)
    requires c.step > 0 && c.last.Some? && now - c.last.value >= c.step
    requires c.index + (now - c.last.value) / c.step < |c.buckets|
    requires forall j :: 0 < j < |c.buckets| ==> c.buckets[j] == EMPTY
    ensures Rolled(c, now) == c.(index := c.index + (now - c.last.value) / c.step, last := Some(now))
  {
    StepsCovered(now - c.last.value, c.step);
    AdvanceEmpty(c.buckets, c.index, (now - c.last.value) / c.step);
  }

  lemma OneStep(elapsed: int, step: int)
    requires 0 < step <= elapsed < 2 * step
    ensures elapsed / step == 1
  {
    StepsCovered(elapsed, step);
    MultipleBound(elapsed / step - 1, step);
    assert step * (elapsed / step - 1) == (elapsed / step) * step - step;
  }

  lemma TwoAdds(window: int, step: int, start: Counter)
    requires start == Fresh(window, step)
    ensures Run(window, step, Slow(start.step, 0))
         == start.(buckets := OneBucket(|start.buckets|, start.step), last := Some(0))
  {
    var two := Slow(start.step, 0);
    assert two[..1] == [AddOp(0, 0, 1)] && two[..1][..0] == [];
    var one := start.(buckets := start.buckets[0 := Bucket(Some(0), 1)], last := Some(0));
    assert Run(window, step, []) == start;
    assert Run(window, step, two[..1]) == Applied(start, AddOp(0, 0, 1)) == one;
    var late := AddOp(start.step - 1, start.step + 1, 1);
    assert Run(window, step, two) == Applied(one, late);
    assert one.buckets[0 := Bucket(Some(start.step + 1), 2)] == OneBucket(|start.buckets|, start.step);
  }

  /** One slow turn of the ring. */
  lemma TurnOn(c: Counter, t: int)
    requires c.step >= 2 && c.index + 1 < |c.buckets| && c.last == Some(t - Turn(c.step))
    requires forall j :: 0 < j < |c.buckets| ==> c.buckets[j] == EMPTY
    ensures Rolled(c, t) == c.(index := c.index + 1, last := Some(t))
  {
    OneStep(Turn(c.step), c.step);
    RollEmpty(c, t);
  }

  lemma SlowNext(window: int, step: int, s: int, m: nat, c: Counter)
    requires m > 0 && c.step > 0 && c.index < |c.buckets| && c == Run(window, step, Slow(s, m - 1))
    ensures Run(window, step, Slow(s, m)) == Rolled(c, m * Turn(s))
  {
    var ops := Slow(s, m);
    assert ops[..|ops| - 1] == Slow(s, m - 1);
    assert ops[|ops| - 1] == SumOp(m * Turn(s), m * Turn(s));
  }

  lemma {:induction false} SlowRun(window: int, step: int, start: Counter, m: nat)
    requires start == Fresh(window, step) && m < |start.buckets|
    requires m > 0 ==> start.step >= 2
    ensures Run(window, step, Slow(start.step, m))
         == start.(buckets := OneBucket(|start.buckets|, start.step), index := m,
                   last := Some(m * Turn(start.step)))
    decreases m
  {
    if m == 0 {
      TwoAdds(window, step, start);
    } else {
      SlowRun(window, step, start, m - 1);
      TurnsAdd(m, start.step);
      var before := start.(buckets := OneBucket(|start.buckets|, start.step), index := m - 1,
                           last := Some((m - 1) * Turn(start.step)));
      SlowNext(window, step, start.step, m, before);
      TurnOn(before, m * Turn(start.step));
    }
  }

  lemma {:induction false} OneCounts(buckets: seq<Bucket>, cutoff: int, m: nat)
    requires 1 <= m <= |buckets| && Counts(buckets[0], cutoff)
    requires forall j :: 0 < j < |buckets| ==> buckets[j] == EMPTY
    ensures Total(buckets[..m], cutoff) == buckets[0].value
    decreases m
  {
    assert buckets[..m][..m - 1] == buckets[..m - 1];
    if m > 1 {
      OneCounts(buckets, cutoff, m - 1);
    } else {
      assert buckets[..0] == [];
    }
  }

  lemma BelowLimit(m: int, n: int, d: int, step: int, now: int)
    requires d >= step > 0 && m * d <= now < (n - 1) * d + step
    ensures m < n && (now - m * d >= step ==> m + 1 < n)
  {
    var k := m - (n - 1);
    MultipleBound(k, d);
    assert d * k == m * d - (n - 1) * d;
  }

  /** How many slow turns fit before `now`. */
  lemma SlowTurns(now: nat, n: nat, step: int, d: int) returns (m: nat)
    requires step >= 2 && d == Turn(step) && now < (n - 1) * d + step
    ensures m * d <= now < m * d + 2 * step
    ensures m < n && (now - m * d >= step ==> m + 1 < n)
  {
    m := now / d;
    assert m * d == d * (now / d) && now == d * (now / d) + now % d;
    BelowLimit(m, n, d, step, now);
  }

  /** A Sum whose roll stays within the empty buckets finds both Adds in the first one. */
  lemma PausedTotal(c: Counter, first: int, cutoff: int)
    requires c.step > 0 && c.last.Some? && c.last.value <= first
    requires c.index < |c.buckets| && c.buckets == OneBucket(|c.buckets|, c.step)
    requires first - c.last.value >= c.step ==> c.index + (first - c.last.value) / c.step < |c.buckets|
    requires cutoff < c.step + 1
    ensures Total(Rolled(c, first).buckets, cutoff) == 2
  {
    if first - c.last.value >= c.step {
      RollEmpty(c, first);
    }
    OneCounts(c.buckets, cutoff, |c.buckets|);
    assert c.buckets[..|c.buckets|] == c.buckets;
  }

  /** What the slow history leaves for a Sum soon after its last turn. */
  lemma PausedSum(window: int, step: int, start: Counter, m: nat, first: int, second: int)
    requires start == Fresh(window, step) && m < |start.buckets|
    requires m > 0 ==> start.step >= 2
    requires var past := first - m * Turn(start.step);
             past >= 0 && (past >= start.step ==> m + past / start.step < |start.buckets|)
    requires second - window < start.step + 1
    ensures SumAfter(window, step, Slow(start.step, m), first, second) == 2
  {
    SlowRun(window, step, start, m);
    var c := start.(buckets := OneBucket(|start.buckets|, start.step), index := m,
                    last := Some(m * Turn(start.step)));
    PausedTotal(c, first, second - window);
  }

  /** The turns after which a Sum at `first` still finds the first bucket. */
  lemma LateTurns(first: int, n: nat, step: int) returns (m: nat)
    requires n > 0 && step >= 1 && 0 <= first < SlowestTurn(n, step) + step
    ensures m < n && (m > 0 ==> step >= 2)
    ensures first >= m * Turn(step)
    ensures var past := first - m * Turn(step); past >= step ==> m + past / step < n
  {
    if step == 1 {
      m := 0;
    } else {
      m := SlowTurns(first, n, step, Turn(step));
      if first - m * Turn(step) >= step {
        OneStep(first - m * Turn(step), step);
      }
    }
  }

  /** An Add that pauses stamps its bucket late, and an older value in that bucket outlives the
      window and one step. */
  lemma PauseOutlivesWindow(window: int, step: int, slack: int, wait: nat)
      returns (ops: seq<Op>, first: int, second: int)
    requires !PausesFit(window, step, slack, wait)
    ensures Monotone(ops, first) && Quick(ops, slack) && first <= second <= first + wait
    ensures SumAfter(window, step, ops, first, second) == 2
    ensures AddedWithin(ops, second, window + Fresh(window, step).step) <= 1
  {
    var start := Fresh(window, step);
    var n, s := |start.buckets|, start.step;
    WideEnough(window, n, s);
    second := window + s;
    first := if second < SlowestTurn(n, s) + s then second else SlowestTurn(n, s) + s - 1;
    var m := LateTurns(first, n, s);
    ops := Slow(s, m);
    SlowOk(s, m, first, slack);
    SlowAdded(s, m, second);
    PausedSum(window, step, start, m, first, second);
  }

  /** A ring whose slowest turn takes time has several buckets, and its window spans them. */
  lemma WideEnough(window: int, n: nat, step: int)
    requires step > 0 && n > 0 && SlowestTurn(n, step) > 1 && (n > 1 ==> n * step <= window)
    ensures n > 1 && window >= 2
  {
    assert n == 1 ==> SlowestTurn(n, step) == 0;
    AtMost(2, n, step);
  }

  /** The plain bound is kept if and only if the pauses fit. */
  lemma PlainBoundExact(window: int, step: int, slack: int, wait: nat)
    ensures KeepsPlainBound(window, step, slack, wait) <==> PausesFit(window, step, slack, wait)
  {
    if PausesFit(window, step, slack, wait) {
      forall ops: seq<Op>, first: int, second: int
        | Monotone(ops, first) && Quick(ops, slack) && first <= second <= first + wait
        ensures SumAfter(window, step, ops, first, second)
             <= AddedWithin(ops, second, window + Fresh(window, step).step)
      {
        BoundKept(window, step, slack, wait, ops, first, second, window + Fresh(window, step).step);
      }
    } else {
      var ops, first, second := PauseOutlivesWindow(window, step, slack, wait);
    }
  }
}
