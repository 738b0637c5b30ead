/** The scheduler fed by the counters of its own subflows (internal/overlay/scheduler.go:56-67 and
    internal/overlay/subflow.go:91-109), and a stream of ordinary frames that starves a subflow.
    Times are in milliseconds. */
module Starvation {
  import opened Basics
  import opened Sliding
  import opened Schedulers

  const WINDOW: int := 10_000
  const STEP: int := 500
  const FRAME_SIZE: nat := 0x8000

  /** The schedule, and the counter of payload bytes first sent on each subflow. */
  datatype Link = Link(sched: Sched, counters: map<nat, Counter>)

  const NO_LINK := Link(Schedulers.EMPTY, map[])

  datatype Event =
    | Join(id: nat)                   // a new subflow is registered
    | Send(now: int, payload: nat)    // a DATA frame is sent for the first time

  predicate Ready(c: Counter) {
    c.step > 0 && c.index < |c.buckets|
  }

  function RolledAt(c: Counter, now: int): Counter {
    if Ready(c) then Rolled(c, now) else c
  }

  function Reading(c: Counter, now: int): int {
    Total(RolledAt(c, now).buckets, now - c.window)
  }

  /** What Next reads from each subflow's counter. */
  function Measured(counters: map<nat, Counter>, now: int): Goodput {
    (id: nat) => if id in counters then Reading(counters[id], now) else 0
  }

  function Recorded(c: Counter, now: int, payload: nat): Counter {
    if Ready(c) && payload > 0 then Added(c, now, now, payload) else c
  }

  /** Every counter has been read, and that of subflow id has recorded the frame. */
  function Counted(counters: map<nat, Counter>, now: int, id: nat, payload: nat): map<nat, Counter> {
    map k | k in counters ::
      if k == id then Recorded(RolledAt(counters[k], now), now, payload) else RolledAt(counters[k], now)
  }

  /** One frame: Next picks a subflow by what the counters say, and the frame is sent on it. */
  function SendOn(l: Link, now: int, payload: nat): (r: (Link, nat))
    requires l.sched.position < |l.sched.entries|
    ensures r.0.sched.position < |r.0.sched.entries|
  {
    var (s, picked) := Choose(l.sched, Measured(l.counters, now));
    var id := l.sched.entries[picked].id;
    (Link(s, Counted(l.counters, now, id, payload)), id)
  }

  function After(l: Link, e: Event): Link {
    match e
    case Join(id) => Link(Attached(l.sched, id), l.counters[id := Fresh(WINDOW, STEP)])
    case Send(now, payload) => if l.sched.position < |l.sched.entries| then SendOn(l, now, payload).0 else l
  }

  ghost predicate Takes(l: Link, e: Event, l': Link) {
    l' == After(l, e)
  }

  /** `links` are the states that these events lead through. */
  ghost predicate IsRun(es: seq<Event>, links: seq<Link>) {
    && |links| == |es| + 1
    && links[0] == NO_LINK
    && forall k :: 0 <= k < |es| ==> Takes(links[k], es[k], links[k + 1])
  }

  lemma {:induction false} RunExists(es: seq<Event>) returns (links: seq<Link>)
    ensures IsRun(es, links)
    decreases |es|
  {
    if es == [] {
      links := [NO_LINK];
    } else {
      var n := |es| - 1;
      var before := RunExists(es[..n]);
      var last := After(before[n], es[n]);
      links := before + [last];
      forall k | 0 <= k < |es|
        ensures Takes(links[k], es[k], links[k + 1])
      {
        if k < n {
          assert Takes(before[k], es[..n][k], before[k + 1]);
        }
      }
    }
  }

  // ----- Three frames in every half second -----

  const LENGTH: nat := 22_800

  /** The last half second before b whose frames went into bucket j. */
  function PeriodOf(j: int, b: int): int {
    b - 1 - (b - 1 - j) % 20
  }

  function Filled(p: int): Bucket {
    if p >= 0 then Bucket(Some(500 * p + 200), 3 * LENGTH) else Sliding.EMPTY
  }

  /** The buckets when b half seconds are over. */
  function Ring(b: nat): (r: seq<Bucket>)
    ensures |r| == 20
  {
    seq(20, j requires 0 <= j < 20 => Filled(PeriodOf(j, b)))
  }

  function RingCounter(b: nat): Counter {
    if b == 0 then Counter(WINDOW, STEP, Ring(0), 0, None)
    else Counter(WINDOW, STEP, Ring(b), (b - 1) % 20, Some(500 * (b - 1)))
  }

  function Partial(b: nat, k: nat): Bucket {
    if k == 0 then Sliding.EMPTY else Bucket(Some(500 * b + 100 * (k - 1)), k * LENGTH)
  }

  /** The counter when k frames of half second b have been sent. */
  function MidCounter(b: nat, k: nat): Counter {
    Counter(WINDOW, STEP, Ring(b)[b % 20 := Partial(b, k)], b % 20, Some(500 * b))
  }

  ghost predicate At(c: Counter, b: nat, k: nat) {
    c == if k == 0 then RingCounter(b) else MidCounter(b, k)
  }

  lemma RollStart(b: nat)
    ensures RolledAt(RingCounter(b), 500 * b) == MidCounter(b, 0)
  {
    var c := RingCounter(b);
    if b == 0 {
      assert Ring(0)[0] == Sliding.EMPTY;
      assert Ring(0)[0 := Sliding.EMPTY] == Ring(0);
    } else {
      assert StepsAt(c, 500 * b) == 1;
      assert Advance(c.buckets, c.index, 0) == (c.buckets, c.index);
      assert (c.index + 1) % 20 == b % 20;
    }
  }

  lemma RollMid(b: nat, k: nat)
    requires k < 3
    ensures RolledAt(MidCounter(b, k), 500 * b + 100 * k) == MidCounter(b, k)
  {
  }

  lemma RecordMid(b: nat, k: nat)
    requires k < 3
    ensures Recorded(MidCounter(b, k), 500 * b + 100 * k, LENGTH) == MidCounter(b, k + 1)
  {
    RollMid(b, k);
  }

  lemma PeriodNext(j: int, b: nat)
    requires 0 <= j < 20
    ensures PeriodOf(j, b + 1) == if j == b % 20 then b else PeriodOf(j, b)
  {
  }

  lemma PeriodEnds(b: nat)
    ensures MidCounter(b, 3) == RingCounter(b + 1)
  {
    var before, after := Ring(b)[b % 20 := Partial(b, 3)], Ring(b + 1);
    forall j | 0 <= j < 20
      ensures before[j] == after[j]
    {
      PeriodNext(j, b);
    }
    assert before == after;
  }

  /** The total of buckets that all count v, except bucket i. */
  lemma {:induction false} TotalOfRing(buckets: seq<Bucket>, cutoff: int, i: nat, v: int, m: nat)
    requires i < |buckets| && m <= |buckets|
    requires forall j :: 0 <= j < |buckets| && j != i ==> Counts(buckets[j], cutoff) && buckets[j].value == v
    ensures Total(buckets[..m], cutoff)
         == if m <= i then m * v
            else (m - 1) * v + if Counts(buckets[i], cutoff) then buckets[i].value else 0
    decreases m
  {
    if m > 0 {
      TotalOfRing(buckets, cutoff, i, v, m - 1);
      assert buckets[..m][..m - 1] == buckets[..m - 1];
      assert m * v == (m - 1) * v + v;
      assert m > 1 ==> (m - 1) * v == (m - 2) * v + v;
    }
  }

  lemma OldBucket(b: nat, k: nat, j: nat)
    requires b >= 19 && k < 3 && j < 20 && j != b % 20
    ensures var x := MidCounter(b, k).buckets[j];
            Counts(x, 500 * b + 100 * k - WINDOW) && x.value == 3 * LENGTH
  {
    assert b - 19 <= PeriodOf(j, b) < b;
  }

  lemma RingSum(buckets: seq<Bucket>, cutoff: int, i: nat)
    requires |buckets| == 20 && i < 20
    requires forall j :: 0 <= j < 20 && j != i ==> Counts(buckets[j], cutoff) && buckets[j].value == 3 * LENGTH
    ensures Total(buckets, cutoff) == 57 * LENGTH + if Counts(buckets[i], cutoff) then buckets[i].value else 0
  {
    TotalOfRing(buckets, cutoff, i, 3 * LENGTH, 20);
    assert buckets[..20] == buckets;
  }

  lemma NewBucket(b: nat, k: nat)
    requires k < 3
    ensures MidCounter(b, k).buckets[b % 20] == Partial(b, k)
    ensures (if Counts(Partial(b, k), 500 * b + 100 * k - WINDOW) then Partial(b, k).value else 0) == k * LENGTH
  {
  }

  /** Once the ring is full, the k-th frame of a half second finds 57 + k frames in the window. */
  lemma SumAt(b: nat, k: nat, buckets: seq<Bucket>, cutoff: int)
    requires b >= 19 && k < 3 && buckets == MidCounter(b, k).buckets && cutoff == 500 * b + 100 * k - WINDOW
    ensures Total(buckets, cutoff) == (57 + k) * LENGTH
  {
    forall j | 0 <= j < 20 && j != b % 20
      ensures Counts(buckets[j], cutoff) && buckets[j].value == 3 * LENGTH
    {
      OldBucket(b, k, j);
    }
    RingSum(buckets, cutoff, b % 20);
    NewBucket(b, k);
  }

  // ----- One frame -----

  /** Subflow 0 is current, with its counter where k frames of half second b leave it. */
  ghost predicate Current(l: Link, b: nat, k: nat) {
    && Schedulers.Ok(l.sched) && l.sched.entries != [] && l.sched.position == 0 && l.sched.entries[0].id == 0
    && 0 in l.counters && At(l.counters[0], b, k)
  }

  lemma CounterAt(c: Counter, b: nat, k: nat, now: int)
    requires At(c, b, k) && k < 3 && now == 500 * b + 100 * k
    ensures Recorded(RolledAt(c, now), now, LENGTH) == MidCounter(b, k + 1)
    ensures b >= 19 ==> Reading(c, now) == (57 + k) * LENGTH
  {
    if k == 0 {
      RollStart(b);
    } else {
      RollMid(b, k);
    }
    RecordMid(b, k);
    if b >= 19 {
      SumAt(b, k, MidCounter(b, k).buckets, now - WINDOW);
    }
  }

  /** What a call does to the schedule when its first entry is current. */
  lemma ScheduleAt(s: Sched, goodput: Goodput, s': Sched, e: Entry)
    requires Schedulers.Ok(s) && s.entries != [] && s.position == 0
    requires s' == Choose(s, goodput).0 && e == RefreshedEntry(s.entries[0], goodput)
    ensures Choose(s, goodput).1 == 0
    ensures Schedulers.Ok(s') && SameIds(s.entries, s'.entries)
    ensures e.quota >= 1 && s'.entries[0] == e.(quota := e.quota - 1)
    ensures s'.position == if e.quota == 1 then Following(0, |s.entries|) else 0
    ensures e.weight == WeightOf(goodput(s.entries[0].id))
  {
    NextTakesCurrent(s, goodput, Refreshed(s.entries, goodput));
    RefreshedAt(s.entries, goodput, 0);
    NextKeeps(s, goodput);
    ChooseSameIds(s, goodput);
  }

  lemma SendAt(l: Link, b: nat, k: nat, now: int, l': Link, e: Entry)
    requires Current(l, b, k) && k < 3 && now == 500 * b + 100 * k
    requires l' == SendOn(l, now, LENGTH).0
    requires e == RefreshedEntry(l.sched.entries[0], Measured(l.counters, now))
    ensures SendOn(l, now, LENGTH).1 == 0
    ensures 0 in l'.counters && At(l'.counters[0], b, k + 1)
    ensures Schedulers.Ok(l'.sched) && SameIds(l.sched.entries, l'.sched.entries)
    ensures e.quota >= 1 && l'.sched.entries[0] == e.(quota := e.quota - 1)
    ensures l'.sched.position == if e.quota == 1 then Following(0, |l.sched.entries|) else 0
    ensures b >= 19 ==> e.weight == if k == 0 then 2 else 3
  {
    var goodput := Measured(l.counters, now);
    ScheduleAt(l.sched, goodput, Choose(l.sched, goodput).0, e);
    CounterAt(l.counters[0], b, k, now);
    assert goodput(0) == Reading(l.counters[0], now);
  }

  // ----- One half second -----

  function Frame(b: nat, k: nat): Event {
    Send(500 * b + 100 * k, LENGTH)
  }

  /** k frames into half second b: subflow 0 is alone on the schedule, so always current. */
  ghost predicate Alone(l: Link, b: nat, k: nat) {
    && Current(l, b, k) && |l.sched.entries| == 1
    && (b >= 19 && (k > 1 || (b > 19 && k == 0)) ==> l.sched.entries[0].weight == 3)
  }

  lemma AloneSends(l: Link, b: nat, k: nat, l': Link)
    requires Alone(l, b, k) && k < 3 && l' == After(l, Frame(b, k))
    ensures Alone(l', b, k + 1)
  {
    var now := 500 * b + 100 * k;
    SendAt(l, b, k, now, l', RefreshedEntry(l.sched.entries[0], Measured(l.counters, now)));
  }

  /** k frames into half second b: subflow 0 shares the schedule with subflow 1. The first frame
      of a half second finds its weight fallen to 2, the second risen to 3 again, and each change
      gives a new quota, of which at most two units are used. */
  ghost predicate Shared(l: Link, b: nat, k: nat) {
    && Current(l, b, k) && b >= 20
    && |l.sched.entries| == 2 && l.sched.entries[1].id == 1
    && l.sched.entries[0].weight == (if k == 1 then 2 else 3)
    && (k > 0 ==> l.sched.entries[0].quota == if k == 2 then 2 else 1)
  }

  lemma SharedSends(l: Link, b: nat, k: nat, l': Link)
    requires Shared(l, b, k) && k < 3 && l' == After(l, Frame(b, k))
    ensures Shared(l', b, k + 1)
  {
    var now := 500 * b + 100 * k;
    SendAt(l, b, k, now, l', RefreshedEntry(l.sched.entries[0], Measured(l.counters, now)));
  }

  /** Whatever the frame, it goes to the current subflow. */
  lemma FirstSends(l: Link, b: nat, k: nat, now: int, length: nat)
    requires Current(l, b, k)
    ensures SendOn(l, now, length).1 == 0
  {
    var goodput := Measured(l.counters, now);
    ScheduleAt(l.sched, goodput, Choose(l.sched, goodput).0, RefreshedEntry(l.sched.entries[0], goodput));
  }

  // ----- Whole runs -----

  /** The f-th frame of all, three to a half second. */
  function Numbered(f: nat): Event {
    Frame(f / 3, f % 3)
  }

  lemma NextNumber(f: nat)
    ensures if f % 3 == 2 then (f + 1) / 3 == f / 3 + 1 && (f + 1) % 3 == 0
            else (f + 1) / 3 == f / 3 && (f + 1) % 3 == f % 3 + 1
  {
  }

  ghost predicate AloneBefore(l: Link, f: nat) {
    Alone(l, f / 3, f % 3)
  }

  ghost predicate SharedBefore(l: Link, f: nat) {
    Shared(l, f / 3, f % 3)
  }

  lemma AloneNext(l: Link, f: nat, l': Link)
    requires AloneBefore(l, f) && l' == After(l, Numbered(f))
    ensures AloneBefore(l', f + 1)
  {
    var b, k := f / 3, f % 3;
    AloneSends(l, b, k, l');
    NextNumber(f);
    if k == 2 {
      PeriodEnds(b);
    }
  }

  lemma SharedStep(l: Link, b: nat, k: nat, l': Link)
    requires Shared(l, b, k) && k < 3 && l' == After(l, Frame(b, k))
    ensures if k == 2 then Shared(l', b + 1, 0) else Shared(l', b, k + 1)
  {
    SharedSends(l, b, k, l');
    if k == 2 {
      PeriodEnds(b);
    }
  }

  lemma SharedNext(l: Link, f: nat, l': Link, next: nat)
    requires SharedBefore(l, f) && l' == After(l, Numbered(f)) && next == f + 1
    ensures SharedBefore(l', next) && SendOn(l, Numbered(f).now, LENGTH).1 == 0
  {
    FirstSends(l, f / 3, f % 3, Numbered(f).now, LENGTH);
    SharedStep(l, f / 3, f % 3, l');
    NextNumber(f);
  }

  /** Subflow 0 joins, carries three frames in each half second of the first ten seconds, and goes
      on like this after subflow 1 has joined. */
  function EventAt(k: nat): Event {
    if k == 0 then Join(0) else if k < 61 then Numbered(k - 1) else if k == 61 then Join(1) else Numbered(k - 2)
  }

  function Events(n: nat): (es: seq<Event>)
    ensures |es| == n && forall k :: 0 <= k < n ==> es[k] == EventAt(k)
  {
    seq(n, k requires 0 <= k => EventAt(k))
  }

  lemma Joined(l: Link)
    requires l == After(NO_LINK, Join(0))
    ensures AloneBefore(l, 0)
  {
    assert l.counters[0].buckets == Ring(0);
  }

  lemma SecondJoins(l: Link, l': Link)
    requires AloneBefore(l, 60) && l' == After(l, Join(1))
    ensures SharedBefore(l', 60)
  {
  }

  lemma {:induction false} AloneRun(n: nat, links: seq<Link>, k: nat)
    requires IsRun(Events(n), links) && 1 <= k <= n && k <= 61
    ensures AloneBefore(links[k], k - 1)
    decreases k
  {
    var before := k - 1;
    assert Takes(links[before], Events(n)[before], links[before + 1]);
    if before == 0 {
      Joined(links[1]);
    } else {
      AloneRun(n, links, before);
      AloneNext(links[before], before - 1, links[k]);
    }
  }

  lemma {:induction false} SharedRun(n: nat, links: seq<Link>, k: nat)
    requires IsRun(Events(n), links) && 62 <= k <= n
    ensures SharedBefore(links[k], k - 2)
    decreases k
  {
    var before := k - 1;
    assert Takes(links[before], Events(n)[before], links[before + 1]);
    if before == 61 {
      AloneRun(n, links, 61);
      SecondJoins(links[61], links[62]);
    } else {
      SharedRun(n, links, before);
      SharedNext(links[before], before - 2, links[k], k - 2);
    }
  }

  /** Frames an endpoint can send: each within FrameSize, and one after the other. */
  ghost predicate Ordinary(es: seq<Event>) {
    && (forall i :: 0 <= i < |es| && es[i].Send? ==> 0 < es[i].payload <= FRAME_SIZE)
    && (forall i, j :: 0 <= i < j < |es| && es[i].Send? && es[j].Send? ==> es[i].now < es[j].now)
  }

  lemma EventsOrdinary(n: nat)
    ensures Ordinary(Events(n))
  {
    var es := Events(n);
    forall i, j | 0 <= i < j < n && es[i].Send? && es[j].Send?
      ensures es[i].now < es[j].now
    {
      InOrder(if i < 61 then i - 1 else i - 2, if j < 61 then j - 1 else j - 2);
    }
  }

  lemma InOrder(f: nat, g: nat)
    requires f < g
    ensures Numbered(f).now < Numbered(g).now
  {
  }

  /** Three ordinary frames in each half second, and after ten seconds a second subflow joins.
      However many frames follow, none goes to it: what the first subflow has sent keeps crossing
      the weight boundary at 128 KiB/s, down when half a second's frames leave the window and up
      again with the next frame, and each change renews its quota. */
  lemma SwingingThroughputStarves(n: nat) returns (links: seq<Link>)
    ensures Ordinary(Events(n)) && IsRun(Events(n), links)
    ensures forall k :: 62 <= k < n ==> Starves(links[k], Events(n)[k])
  {
    EventsOrdinary(n);
    links := RunExists(Events(n));
    forall k | 62 <= k < n
      ensures Starves(links[k], Events(n)[k])
    {
      SharedRun(n, links, k);
      SharedNext(links[k], k - 2, After(links[k], Numbered(k - 2)), k - 1);
    }
  }

  /** Two subflows are there, and the frame goes to the first. */
  ghost predicate Starves(l: Link, e: Event) {
    && e.Send? && |l.sched.entries| == 2 && l.sched.entries[1].id == 1
    && l.sched.position < |l.sched.entries| && SendOn(l, e.now, e.payload).1 == 0
  }
}
