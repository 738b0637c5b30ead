/** What the sliding counter's sum says about the history of its calls. */
module SlidingHistory {
  import opened Basics
  import opened Sliding

  /** A value added. `slot` counts the buckets entered before it; `base` is the time from which
      that bucket has been the current one. */
  datatype Event = Event(time: int, stamp: int, value: int, slot: nat, base: int)

  ghost predicate Live(e: Event, slot: nat, n: nat) {
    e.slot + n > slot
  }

  /** Sum of the events that ring position j holds. */
  ghost function BucketSum(events: seq<Event>, slot: nat, n: nat, j: nat): int
    requires n > 0
  {
    if events == [] then 0
    else
      var e := events[|events| - 1];
      BucketSum(events[..|events| - 1], slot, n, j)
      + if Live(e, slot, n) && e.slot % n == j then e.value else 0
  }

  /** Sum of the events younger than `limit` at time `now`. */
  ghost function YoungSum(events: seq<Event>, now: int, limit: int): int {
    if events == [] then 0
    else
      var e := events[|events| - 1];
      YoungSum(events[..|events| - 1], now, limit) + if now - e.time < limit then e.value else 0
  }

  // ----- The ring and the events it holds -----

  ghost predicate RingOk(c: seq<Bucket>, index: nat, events: seq<Event>, slot: nat, step: int, slack: int) {
    var n := |c|;
    && n > 0 && index == slot % n
    && (forall j :: 0 <= j < n ==> c[j].value == BucketSum(events, slot, n, j))
    && (forall i :: 0 <= i < |events| ==> EventOk(c, events[i], slot, step, slack))
  }

  /** A live event's bucket is stamped no earlier than the event, and not long after the bucket
      was left. */
  ghost predicate EventOk(c: seq<Bucket>, e: Event, slot: nat, step: int, slack: int)
    requires |c| > 0
  {
    && e.slot <= slot
    && e.base <= e.time < e.base + step
    && e.time <= e.stamp <= e.time + slack
    && (Live(e, slot, |c|) ==>
          var b := c[e.slot % |c|];
          b.stamp.Some? && e.stamp <= b.stamp.value < e.base + step + slack)
  }

  /** How far the ring has moved since an event is bounded by the time that passed, and the other
      way round: a bucket entered takes less than two steps. */
  ghost predicate TimeOk(events: seq<Event>, slot: nat, last: int, step: int) {
    forall i :: 0 <= i < |events| ==> EventTimeOk(events[i], slot, last, step)
  }

  ghost predicate EventTimeOk(e: Event, slot: nat, last: int, step: int) {
    && (slot - e.slot) * step <= last - e.base <= (slot - e.slot) * (2 * step - 1)
    && (e.slot == slot ==> e.base == last)
  }

  lemma MultipleBound(k: int, n: int)
    requires n > 0
    ensures k >= 1 ==> n * k >= n
    ensures k <= -1 ==> n * k <= -n
  {
  }

  lemma SmallMultiple(k: int, n: int)
    requires n > 0 && -n < n * k < n
    ensures k == 0
  {
    MultipleBound(k, n);
  }

  lemma SameResidue(a: nat, b: nat, n: nat)
    requires n > 0 && a <= b < a + n && a % n == b % n
    ensures a == b
  {
    var k := b / n - a / n;
    assert n * k == n * (b / n) - n * (a / n);
    SmallMultiple(k, n);
  }

  lemma MultipleMod(q: nat, n: nat, r: nat)
    requires r < n
    ensures (n * q + r) % n == r
  {
    var x := n * q + r;
    var k := x / n - q;
    assert n * k == n * (x / n) - n * q;
    SmallMultiple(k, n);
  }

  lemma NextResidue(slot: nat, n: nat)
    requires n > 0
    ensures (slot % n + 1) % n == (slot + 1) % n
  {
    var q := slot / n;
    if slot % n + 1 == n {
      assert slot + 1 == n * (q + 1) + 0;
      MultipleMod(q + 1, n, 0);
      MultipleMod(1, n, 0);
    } else {
      assert slot + 1 == n * q + (slot % n + 1);
      MultipleMod(q, n, slot % n + 1);
      MultipleMod(0, n, slot % n + 1);
    }
  }

  /** Entering the next bucket drops exactly the events that it held. */
  lemma {:induction false} BucketSumNext(events: seq<Event>, slot: nat, n: nat, j: nat)
    requires n > 0 && j < n
    requires forall i :: 0 <= i < |events| ==> events[i].slot <= slot
    ensures BucketSum(events, slot + 1, n, j)
         == if j == (slot + 1) % n then 0 else BucketSum(events, slot, n, j)
    decreases |events|
  {
    if events != [] {
      var e := events[|events| - 1];
      BucketSumNext(events[..|events| - 1], slot, n, j);
      if Live(e, slot, n) && e.slot % n == (slot + 1) % n {
        if Live(e, slot + 1, n) {
          SameResidue(e.slot, slot + 1, n);
        }
      }
      if Live(e, slot, n) && !Live(e, slot + 1, n) {
        assert e.slot + n == slot + 1;
        WholeTurn(e.slot, n);
      }
    }
  }

  lemma WholeTurn(a: nat, n: nat)
    requires n > 0
    ensures (a + n) % n == a % n
  {
    var q := a / n;
    assert a + n == n * (q + 1) + a % n;
    MultipleMod(q + 1, n, a % n);
  }

  lemma EnterNext(c: seq<Bucket>, index: nat, events: seq<Event>, slot: nat, step: int, slack: int)
    requires RingOk(c, index, events, slot, step, slack)
    ensures var i := (index + 1) % |c|;
            RingOk(c[i := EMPTY], i, events, slot + 1, step, slack)
  {
    var n := |c|;
    NextResidue(slot, n);
    var at := (index + 1) % n;
    var c' := c[at := EMPTY];
    forall j | 0 <= j < n
      ensures c'[j].value == BucketSum(events, slot + 1, n, j)
    {
      forall i | 0 <= i < |events|
        ensures events[i].slot <= slot
      {
        assert EventOk(c, events[i], slot, step, slack);
      }
      BucketSumNext(events, slot, n, j);
    }
    forall k | 0 <= k < |events|
      ensures EventOk(c', events[k], slot + 1, step, slack)
    {
      var e := events[k];
      assert EventOk(c, e, slot, step, slack);
      if Live(e, slot + 1, n) && e.slot % n == at {
        SameResidue(e.slot, slot + 1, n);
      }
    }
  }

  lemma {:induction false} AdvanceKeepsRing(
      c: seq<Bucket>, index: nat, events: seq<Event>, slot: nat, step: int, slack: int, steps: nat)
    requires RingOk(c, index, events, slot, step, slack) && index < |c|
    ensures var r := Advance(c, index, steps);
            RingOk(r.0, r.1, events, slot + steps, step, slack)
    decreases steps
  {
    if steps > 0 {
      AdvanceKeepsRing(c, index, events, slot, step, slack, steps - 1);
      var before := Advance(c, index, steps - 1);
      EnterNext(before.0, before.1, events, slot + steps - 1, step, slack);
    }
  }

  // ----- One call -----

  /** The counter state agrees with the events so far. */
  ghost predicate Tracks(c: Counter, events: seq<Event>, slot: nat, slack: int) {
    && Valid(c)
    && RingOk(c.buckets, c.index, events, slot, c.step, slack)
    && (c.last.None? ==> events == [])
    && (c.last.Some? ==> TimeOk(events, slot, c.last.value, c.step))
  }

  lemma StepsCovered(elapsed: int, step: int)
    requires 0 < step <= elapsed
    ensures 0 < elapsed / step && (elapsed / step) * step <= elapsed < (elapsed / step + 1) * step
  {
    assert elapsed == step * (elapsed / step) + elapsed % step;
    MultipleBound(elapsed / step, step);
    assert (elapsed / step + 1) * step == step * (elapsed / step) + step;
  }

  lemma SlowSteps(steps: int, step: int)
    requires steps >= 1 && step >= 1
    ensures (steps + 1) * step - 1 <= steps * (2 * step - 1)
  {
    assert (steps - 1) * (step - 1) >= 0;
    assert steps * (2 * step - 1) - ((steps + 1) * step - 1) == (steps - 1) * (step - 1);
  }

  lemma RollTime(e: Event, slot: nat, last: int, step: int, now: int, steps: nat)
    requires EventTimeOk(e, slot, last, step) && e.slot <= slot
    requires steps > 0 && step > 0 && steps * step <= now - last < (steps + 1) * step
    ensures EventTimeOk(e, slot + steps, now, step)
  {
    var moved := slot - e.slot;
    SlowSteps(steps, step);
    assert (moved + steps) * step == moved * step + steps * step;
    assert (moved + steps) * (2 * step - 1) == moved * (2 * step - 1) + steps * (2 * step - 1);
  }

  lemma RollTracks(c: Counter, events: seq<Event>, slot: nat, slack: int, now: int)
    requires Tracks(c, events, slot, slack)
    requires c.last.Some? ==> c.last.value <= now
    ensures var r, slot' := Rolled(c, now), slot + StepsAt(c, now);
            && Tracks(r, events, slot', slack)
            && r.last.Some? && r.last.value <= now < r.last.value + r.step
            && r.step == c.step && r.window == c.window && |r.buckets| == |c.buckets|
  {
    var steps := StepsAt(c, now);
    if c.last.Some? && Elapsed(c, now) >= c.step {
      StepsCovered(Elapsed(c, now), c.step);
      AdvanceKeepsRing(c.buckets, c.index, events, slot, c.step, slack, steps);
      forall i | 0 <= i < |events|
        ensures EventTimeOk(events[i], slot + steps, now, c.step)
      {
        assert EventOk(c.buckets, events[i], slot, c.step, slack);
        assert EventTimeOk(events[i], slot, c.last.value, c.step);
        RollTime(events[i], slot, c.last.value, c.step, now, steps);
      }
    }
  }

  /** An older event stays in agreement when the current bucket is stamped again. */
  lemma RestampKeeps(c: seq<Bucket>, index: nat, f: Event, slot: nat, step: int, slack: int, base: int, b: Bucket)
    requires |c| > 0 && index == slot % |c|
    requires EventOk(c, f, slot, step, slack) && (f.slot == slot ==> f.base == base)
    requires b.stamp.Some? && f.stamp <= b.stamp.value < base + step + slack
    ensures EventOk(c[index := b], f, slot, step, slack)
  {
    if Live(f, slot, |c|) && f.slot % |c| == index {
      SameResidue(f.slot, slot, |c|);
    }
  }

  lemma AddKeepsRing(c: seq<Bucket>, index: nat, events: seq<Event>, slot: nat, step: int, slack: int, e: Event)
    requires RingOk(c, index, events, slot, step, slack) && index < |c|
    requires e.slot == slot && e.base <= e.time < e.base + step && e.time <= e.stamp <= e.time + slack
    requires forall i :: 0 <= i < |events| ==>
               events[i].stamp <= e.stamp && (events[i].slot == slot ==> events[i].base == e.base)
    ensures RingOk(c[index := Bucket(Some(e.stamp), c[index].value + e.value)], index, events + [e], slot, step, slack)
  {
    var b := Bucket(Some(e.stamp), c[index].value + e.value);
    var events' := events + [e];
    assert events'[..|events|] == events;
    forall i | 0 <= i < |events'|
      ensures EventOk(c[index := b], events'[i], slot, step, slack)
    {
      if i < |events| {
        RestampKeeps(c, index, events[i], slot, step, slack, e.base, b);
      }
    }
  }

  lemma AddTracks(c: Counter, events: seq<Event>, slot: nat, slack: int, now: int, stamp: int, value: int)
    requires Tracks(c, events, slot, slack)
    requires c.last.Some? && c.last.value <= now < c.last.value + c.step
    requires now <= stamp <= now + slack
    requires forall i :: 0 <= i < |events| ==> events[i].stamp <= stamp
    ensures var e := Event(now, stamp, value, slot, c.last.value);
            var b := Bucket(Some(stamp), c.buckets[c.index].value + value);
            Tracks(c.(buckets := c.buckets[c.index := b]), events + [e], slot, slack)
  {
    var e := Event(now, stamp, value, slot, c.last.value);
    forall i | 0 <= i < |events|
      ensures events[i].slot == slot ==> events[i].base == e.base
    {
      assert EventTimeOk(events[i], slot, c.last.value, c.step);
    }
    AddKeepsRing(c.buckets, c.index, events, slot, c.step, slack, e);
    assert EventTimeOk(e, slot, c.last.value, c.step);
  }

  // ----- The sum -----

  ghost predicate Counted(buckets: seq<Bucket>, e: Event, slot: nat, cutoff: int, m: nat)
    requires |buckets| > 0
  {
    Live(e, slot, |buckets|) && e.slot % |buckets| < m && Counts(buckets[e.slot % |buckets|], cutoff)
  }

  /** Sum of the events whose bucket is among the first m and newer than the cutoff. */
  ghost function CountedSum(buckets: seq<Bucket>, events: seq<Event>, slot: nat, cutoff: int, m: nat): int
    requires |buckets| > 0
  {
    if events == [] then 0
    else
      var e := events[|events| - 1];
      CountedSum(buckets, events[..|events| - 1], slot, cutoff, m)
      + if Counted(buckets, e, slot, cutoff, m) then e.value else 0
  }

  lemma {:induction false} CountedNone(buckets: seq<Bucket>, events: seq<Event>, slot: nat, cutoff: int)
    requires |buckets| > 0
    ensures CountedSum(buckets, events, slot, cutoff, 0) == 0
    decreases |events|
  {
    if events != [] {
      CountedNone(buckets, events[..|events| - 1], slot, cutoff);
    }
  }

  lemma {:induction false} CountedNext(buckets: seq<Bucket>, events: seq<Event>, slot: nat, cutoff: int, m: nat)
    requires m < |buckets|
    ensures CountedSum(buckets, events, slot, cutoff, m + 1)
         == CountedSum(buckets, events, slot, cutoff, m)
            + (if Counts(buckets[m], cutoff) then BucketSum(events, slot, |buckets|, m) else 0)
    decreases |events|
  {
    if events != [] {
      CountedNext(buckets, events[..|events| - 1], slot, cutoff, m);
    }
  }

  lemma {:induction false} TotalIsCounted(buckets: seq<Bucket>, events: seq<Event>, slot: nat, cutoff: int, m: nat)
    requires 0 < |buckets| && m <= |buckets|
    requires forall j :: 0 <= j < |buckets| ==> buckets[j].value == BucketSum(events, slot, |buckets|, j)
    ensures Total(buckets[..m], cutoff) == CountedSum(buckets, events, slot, cutoff, m)
    decreases m
  {
    if m == 0 {
      CountedNone(buckets, events, slot, cutoff);
    } else {
      TotalIsCounted(buckets, events, slot, cutoff, m - 1);
      assert buckets[..m][..m - 1] == buckets[..m - 1];
      CountedNext(buckets, events, slot, cutoff, m - 1);
    }
  }

  lemma GoneIsOld(age: nat, n: nat, step: nat, elapsed: int)
    requires age >= n && age * step <= elapsed
    ensures elapsed >= n * step && n * step == (n - 1) * step + step
  {
    assert age * step == n * step + (age - n) * step;
  }

  lemma RingSpan(n: nat, step: nat)
    requires n > 0
    ensures n * step == (n - 1) * step + step
    ensures n == 1 ==> (n - 1) * step == 0
  {
  }

  /** An event younger than the full buckets is counted. */
  lemma YoungIsCounted(c: Counter, e: Event, slot: nat, slack: int, later: int)
    requires Valid(c) && c.last.Some? && c.last.value <= later
    requires EventOk(c.buckets, e, slot, c.step, slack)
    requires EventTimeOk(e, slot, c.last.value, c.step)
    requires e.stamp <= later
    requires later - e.time < (|c.buckets| - 1) * c.step
    ensures Counted(c.buckets, e, slot, later - c.window, |c.buckets|)
  {
    var n := |c.buckets|;
    RingSpan(n, c.step);
    if slot - e.slot >= n {
      GoneIsOld(slot - e.slot, n, c.step, c.last.value - e.base);
      assert false;
    }
  }

  /** A counted event is younger than the window and one step. */
  lemma CountedIsYoung(buckets: seq<Bucket>, e: Event, slot: nat, step: int, slack: int, cutoff: int)
    requires |buckets| > 0
    requires EventOk(buckets, e, slot, step, slack)
    requires Counted(buckets, e, slot, cutoff, |buckets|)
    ensures cutoff - e.time < step + slack - 1
  {
  }

  /** The longest an event can stay in the ring: every other bucket entered as slowly as possible. */
  ghost function RingLimit(n: nat, step: int): int {
    (n - 1) * (2 * step - 1) + step
  }

  lemma AtMost(k: int, m: int, x: int)
    requires k <= m && x >= 0
    ensures k * x <= m * x
  {
  }

  /** An event that a reading of the clock still finds in the ring is younger than that. */
  lemma LiveIsYoung(c: Counter, e: Event, slot: nat, slack: int, now: int)
    requires Valid(c) && c.last.Some? && now < c.last.value + c.step
    requires EventOk(c.buckets, e, slot, c.step, slack) && EventTimeOk(e, slot, c.last.value, c.step)
    requires Live(e, slot, |c.buckets|)
    ensures now - e.time < RingLimit(|c.buckets|, c.step)
  {
    AtMost(slot - e.slot, |c.buckets| - 1, 2 * c.step - 1);
  }

  /** The sum is at least what is younger than `low`, if all of that is counted. */
  lemma {:induction false} CountedCovers(
      buckets: seq<Bucket>, events: seq<Event>, slot: nat, cutoff: int, later: int, low: int)
    requires |buckets| > 0
    requires forall i :: 0 <= i < |events| ==>
               && events[i].value >= 0
               && (later - events[i].time < low ==> Counted(buckets, events[i], slot, cutoff, |buckets|))
    ensures YoungSum(events, later, low) <= CountedSum(buckets, events, slot, cutoff, |buckets|)
    decreases |events|
  {
    if events != [] {
      CountedCovers(buckets, events[..|events| - 1], slot, cutoff, later, low);
    }
  }

  /** The sum is at most what is younger than `high`, if nothing older is counted. */
  lemma {:induction false} CountedWithin(
      buckets: seq<Bucket>, events: seq<Event>, slot: nat, cutoff: int, later: int, high: int)
    requires |buckets| > 0
    requires forall i :: 0 <= i < |events| ==>
               && events[i].value >= 0
               && (Counted(buckets, events[i], slot, cutoff, |buckets|) ==> later - events[i].time < high)
    ensures CountedSum(buckets, events, slot, cutoff, |buckets|) <= YoungSum(events, later, high)
    decreases |events|
  {
    if events != [] {
      CountedWithin(buckets, events[..|events| - 1], slot, cutoff, later, high);
    }
  }

  lemma Sandwich(c: Counter, events: seq<Event>, slot: nat, slack: int, first: int, later: int)
    requires Valid(c) && c.last.Some? && c.last.value <= first <= later && first < c.last.value + c.step
    requires forall i :: 0 <= i < |events| ==>
               && EventOk(c.buckets, events[i], slot, c.step, slack)
               && EventTimeOk(events[i], slot, c.last.value, c.step)
               && events[i].stamp <= first && events[i].value >= 0
    ensures var total := CountedSum(c.buckets, events, slot, later - c.window, |c.buckets|);
            && YoungSum(events, later, (|c.buckets| - 1) * c.step) <= total
            && total <= YoungSum(events, later, c.window + c.step + slack - 1)
            && total <= YoungSum(events, later, RingLimit(|c.buckets|, c.step) + later - first)
  {
    var low, high, n := (|c.buckets| - 1) * c.step, c.window + c.step + slack - 1, |c.buckets|;
    var cutoff := later - c.window;
    forall i | 0 <= i < |events|
      ensures later - events[i].time < low ==> Counted(c.buckets, events[i], slot, cutoff, n)
      ensures Counted(c.buckets, events[i], slot, cutoff, n) ==> later - events[i].time < high
      ensures Counted(c.buckets, events[i], slot, cutoff, n) ==> first - events[i].time < RingLimit(n, c.step)
    {
      var e := events[i];
      if later - e.time < low {
        YoungIsCounted(c, e, slot, slack, later);
      }
      if Counted(c.buckets, e, slot, cutoff, n) {
        CountedIsYoung(c.buckets, e, slot, c.step, slack, cutoff);
        LiveIsYoung(c, e, slot, slack, first);
      }
    }
    CountedCovers(c.buckets, events, slot, cutoff, later, low);
    CountedWithin(c.buckets, events, slot, cutoff, later, high);
    CountedWithin(c.buckets, events, slot, cutoff, later, RingLimit(n, c.step) + later - first);
  }

  // ----- Histories of calls -----

  /** A call and the two clock readings it makes. */
  datatype Op = AddOp(first: int, second: int, value: int) | SumOp(first: int, second: int)

  /** The clock never runs backwards, and no reading is later than `now`. */
  ghost predicate Monotone(ops: seq<Op>, now: int) {
    if ops == [] then true
    else
      var op := ops[|ops| - 1];
      Monotone(ops[..|ops| - 1], op.first) && op.first <= op.second <= now
  }

  /** Every Add makes its two readings at most `slack` apart and adds a non-negative value. */
  ghost predicate Quick(ops: seq<Op>, slack: int) {
    forall k :: 0 <= k < |ops| && ops[k].AddOp? ==>
      ops[k].second - ops[k].first <= slack && ops[k].value >= 0
  }

  /** The exact answer: what was added less than `limit` before `now`. */
  ghost function AddedWithin(ops: seq<Op>, now: int, limit: int): int {
    if ops == [] then 0
    else
      var op := ops[|ops| - 1];
      AddedWithin(ops[..|ops| - 1], now, limit)
      + if op.AddOp? && now - op.first < limit then op.value else 0
  }

  ghost predicate SameShape(c: Counter, d: Counter) {
    c.window == d.window && c.step == d.step && |c.buckets| == |d.buckets|
  }

  ghost function Applied(c: Counter, op: Op): (r: Counter)
    requires c.step > 0 && c.index < |c.buckets|
    ensures r.step > 0 && r.index < |r.buckets|
  {
    match op
    case AddOp(first, second, value) => Added(c, first, second, value)
    case SumOp(first, second) => Rolled(c, first)
  }

  ghost function Logged(c: Counter, log: (seq<Event>, nat), op: Op): (seq<Event>, nat)
    requires c.step > 0 && c.index < |c.buckets|
  {
    var slot := log.1 + StepsAt(c, op.first);
    match op
    case AddOp(first, second, value) =>
      (log.0 + [Event(first, second, value, slot, Rolled(c, first).last.value)], slot)
    case SumOp(_, _) => (log.0, slot)
  }

  /** The counter after a history. */
  ghost function Run(window: int, step: int, ops: seq<Op>): (c: Counter)
    ensures c.step > 0 && c.index < |c.buckets|
  {
    if ops == [] then Fresh(window, step)
    else
      var c := Run(window, step, ops[..|ops| - 1]);
      Applied(c, ops[|ops| - 1])
  }

  /** The events of a history, and how many buckets it entered. */
  ghost function Log(window: int, step: int, ops: seq<Op>): (seq<Event>, nat) {
    if ops == [] then ([], 0)
    else
      var rest := ops[..|ops| - 1];
      Logged(Run(window, step, rest), Log(window, step, rest), ops[|ops| - 1])
  }

  ghost predicate NotAfter(events: seq<Event>, now: int) {
    forall i :: 0 <= i < |events| ==> events[i].stamp <= now && events[i].value >= 0
  }

  lemma OpTracks(c: Counter, log: (seq<Event>, nat), slack: int, op: Op, c': Counter, log': (seq<Event>, nat))
    requires Tracks(c, log.0, log.1, slack) && NotAfter(log.0, op.first)
    requires c.last.Some? ==> c.last.value <= op.first
    requires op.first <= op.second
    requires op.AddOp? ==> op.second <= op.first + slack && op.value >= 0
    requires c' == Applied(c, op) && log' == Logged(c, log, op)
    ensures Tracks(c', log'.0, log'.1, slack) && NotAfter(log'.0, op.second)
    ensures SameShape(c', c) && c'.last.Some? && c'.last.value <= op.first
  {
    RollTracks(c, log.0, log.1, slack, op.first);
    if op.AddOp? {
      AddTracks(Rolled(c, op.first), log.0, log'.1, slack, op.first, op.second, op.value);
    }
  }

  lemma {:induction false} LogTracks(window: int, step: int, ops: seq<Op>, slack: int, now: int)
    requires Monotone(ops, now) && Quick(ops, slack)
    ensures var c, log := Run(window, step, ops), Log(window, step, ops);
            && Tracks(c, log.0, log.1, slack) && NotAfter(log.0, now)
            && SameShape(c, Fresh(window, step))
            && (c.last.Some? ==> c.last.value <= now)
    decreases |ops|
  {
    var c', log' := Run(window, step, ops), Log(window, step, ops);
    if ops != [] {
      var op, rest := ops[|ops| - 1], ops[..|ops| - 1];
      LogTracks(window, step, rest, slack, op.first);
      OpTracks(Run(window, step, rest), Log(window, step, rest), slack, op, c', log');
    }
  }

  lemma {:induction false} LogIsHistory(window: int, step: int, ops: seq<Op>, now: int, limit: int)
    ensures YoungSum(Log(window, step, ops).0, now, limit) == AddedWithin(ops, now, limit)
    decreases |ops|
  {
    if ops != [] {
      var rest := ops[..|ops| - 1];
      LogIsHistory(window, step, rest, now, limit);
      var before, after := Log(window, step, rest).0, Log(window, step, ops).0;
      if ops[|ops| - 1].AddOp? {
        assert after[..|after| - 1] == before;
      }
    }
  }

  ghost function SumAfter(window: int, step: int, ops: seq<Op>, first: int, second: int): int {
    Total(Rolled(Run(window, step, ops), first).buckets, second - window)
  }

  lemma TrackedSandwich(c: Counter, events: seq<Event>, slot: nat, slack: int, first: int, second: int, r: Counter)
    requires Tracks(c, events, slot, slack) && NotAfter(events, first)
    requires c.last.Some? ==> c.last.value <= first
    requires first <= second && r == Rolled(c, first)
    ensures var total := Total(r.buckets, second - c.window);
            && YoungSum(events, second, (|c.buckets| - 1) * c.step) <= total
            && total <= YoungSum(events, second, c.window + c.step + slack - 1)
            && total <= YoungSum(events, second, RingLimit(|c.buckets|, c.step) + second - first)
  {
    RollTracks(c, events, slot, slack, first);
    var n, slot' := |r.buckets|, slot + StepsAt(c, first);
    assert r.buckets[..n] == r.buckets;
    TotalIsCounted(r.buckets, events, slot', second - c.window, n);
    Sandwich(r, events, slot', slack, first, second);
  }

  lemma LogSandwich(window: int, step: int, ops: seq<Op>, slack: int, first: int, second: int, start: Counter)
    requires Monotone(ops, first) && first <= second && Quick(ops, slack) && start == Fresh(window, step)
    ensures var total, events := SumAfter(window, step, ops, first, second), Log(window, step, ops).0;
            && YoungSum(events, second, (|start.buckets| - 1) * start.step) <= total
            && total <= YoungSum(events, second, window + start.step + slack - 1)
            && total <= YoungSum(events, second, RingLimit(|start.buckets|, start.step) + second - first)
  {
    var c, log := Run(window, step, ops), Log(window, step, ops);
    LogTracks(window, step, ops, slack, first);
    TrackedSandwich(c, log.0, log.1, slack, first, second, Rolled(c, first));
  }

  /** After any history, Sum reports at least what was added within the last (buckets - 1) steps,
      and at most what was added within the window and one more step; the slack is the longest
      pause between the two clock readings of an Add. Nothing is reported that was older at the
      first reading of the Sum than the ring can hold. */
  lemma SumSandwich(window: int, step: int, ops: seq<Op>, slack: int, first: int, second: int)
    requires Monotone(ops, first) && first <= second
    requires Quick(ops, slack)
    ensures var start, total := Fresh(window, step), SumAfter(window, step, ops, first, second);
            && AddedWithin(ops, second, (|start.buckets| - 1) * start.step) <= total
            && total <= AddedWithin(ops, second, window + start.step + slack - 1)
            && total <= AddedWithin(ops, second, RingLimit(|start.buckets|, start.step) + second - first)
  {
    var start := Fresh(window, step);
    LogSandwich(window, step, ops, slack, first, second, start);
    LogIsHistory(window, step, ops, second, (|start.buckets| - 1) * start.step);
    LogIsHistory(window, step, ops, second, window + start.step + slack - 1);
    LogIsHistory(window, step, ops, second, RingLimit(|start.buckets|, start.step) + second - first);
  }
}
