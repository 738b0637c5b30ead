/** The condition on the window is exact: past the reorder capacity, frames of any size can be
    made to overflow the buffer. */
module ProtocolLimits {
  import opened Basics
  import opened Segments
  import opened Transfer
  import opened Protocol
  import ProtocolTheorems
  import Reorder

  lemma ReachableNext(c: Config, s: State, step: Step, s': State)
    requires Reachable(c, s) && Takes(c, s, step, s')
    ensures Reachable(c, s')
  {
    var steps, states :| IsRun(c, steps, states) && s == states[|steps|];
    var steps', states' := steps + [step], states + [s'];
    forall k | 0 <= k < |steps'|
      ensures Takes(c, states'[k], steps'[k], states'[k + 1])
    {
      if k < |steps| {
        assert Takes(c, states[k], steps[k], states[k + 1]);
      }
    }
    assert IsRun(c, steps', states') && s' == states'[|steps'|];
  }

  lemma ReachableInit(c: Config)
    ensures Reachable(c, Init(c))
  {
    var steps: seq<Step>, states := [], [Init(c)];
    assert IsRun(c, steps, states) && Init(c) == states[|steps|];
  }

  // ----- A plan of small frames -----

  function Zeros(n: nat): (r: seq<Byte>)
    ensures |r| == n
  {
    seq(n, _ => 0)
  }

  /** n bytes in pieces of `frame` bytes and a last one of at most that. */
  function Pieces(n: nat, frame: nat): (plan: seq<Chunk>)
    requires frame > 0
    ensures n > 0 ==> |plan| > 0
    ensures forall i :: 0 <= i < |plan| ==> !plan[i].end && 0 < |plan[i].data| <= frame
  {
    if n == 0 then []
    else
      var last := Min(n, frame);
      Pieces(n - last, frame) + [Chunk(Zeros(last), false)]
  }

  lemma {:induction false} PiecesTotal(n: nat, frame: nat, plan: seq<Chunk>)
    requires frame > 0 && plan == Pieces(n, frame)
    ensures WellFormed(plan) && Off(plan, |plan|) == n
    decreases n
  {
    if n > 0 {
      var last := Min(n, frame);
      var front := Pieces(n - last, frame);
      PiecesTotal(n - last, frame, front);
      OffPrefix(front, plan, |front|);
    }
  }

  lemma {:induction false} OffPrefix(front: seq<Chunk>, plan: seq<Chunk>, i: nat)
    requires i <= |front| <= |plan| && plan[..|front|] == front
    ensures Off(plan, i) == Off(front, i)
    decreases i
  {
    if i > 0 {
      OffPrefix(front, plan, i - 1);
      assert plan[i - 1] == plan[..|front|][i - 1];
    }
  }

  // ----- Sending them all -----

  ghost function Frames(plan: seq<Chunk>, lo: nat, hi: nat): (r: seq<DataFrame>)
    requires lo <= hi <= |plan|
    ensures |r| == hi - lo && forall i :: 0 <= i < |r| ==> r[i] == FrameOf(plan, lo + i)
  {
    seq(hi - lo, i requires 0 <= i < hi - lo => FrameOf(plan, lo + i))
  }

  /** The first j segments are in flight and nothing else has happened. */
  ghost predicate AllInFlight(c: Config, s: State, j: nat) {
    && j <= |c.plan|
    && s.h.queued == j && s.data == Frames(c.plan, 0, j) && s.rx == Listen(c.capacity) && !s.stuck
    && s.tx.sendSeq == Off(c.plan, j) && !s.tx.sendClosed && !s.tx.closed
    && s.tx.available + Off(c.plan, j) == c.window
  }

  ghost predicate Small(c: Config) {
    && WellFormed(c.plan) && Off(c.plan, |c.plan|) <= c.window
    && forall i :: 0 <= i < |c.plan| ==> c.plan[i].data != [] && !c.plan[i].end
  }

  lemma CanSend(c: Config, s: State)
    requires Small(c) && s.h.queued < |c.plan| && AllInFlight(c, s, s.h.queued)
    ensures NextQueue(c, s).Queued?
  {
    OffMonotone(c.plan, s.h.queued + 1, |c.plan|);
    assert Off(c.plan, s.h.queued + 1) == Off(c.plan, s.h.queued) + |c.plan[s.h.queued].data|;
  }

  lemma SendOne(c: Config, s: State, s': State)
    requires Small(c) && s.h.queued < |c.plan| && AllInFlight(c, s, s.h.queued)
    requires NextQueue(c, s).Queued? && s' == AfterSend(c, s, 0)
    ensures Takes(c, s, Send(0), s') && AllInFlight(c, s', s.h.queued + 1)
  {
    var j := s.h.queued;
    OffMonotone(c.plan, j + 1, |c.plan|);
    assert Off(c.plan, j + 1) == Off(c.plan, j) + |c.plan[j].data|;
    assert s'.data == Frames(c.plan, 0, j + 1);
  }

  lemma {:induction false} SendAll(c: Config, j: nat) returns (s: State)
    requires Small(c) && j <= |c.plan|
    ensures Reachable(c, s) && AllInFlight(c, s, j)
    decreases j
  {
    if j == 0 {
      s := Init(c);
      ReachableInit(c);
    } else {
      var before := SendAll(c, j - 1);
      CanSend(c, before);
      s := AfterSend(c, before, 0);
      SendOne(c, before, s);
      ReachableNext(c, before, Send(0), s);
    }
  }

  // ----- Delivering all but the first -----

  ghost function Later(d: nat): (r: set<nat>)
    ensures forall x :: x in r <==> 1 <= x <= d
  {
    if d == 0 then {} else Later(d - 1) + {d}
  }

  /** Segments 1..d have arrived; the first and those after d are in flight. */
  ghost predicate FirstMissing(c: Config, s: State, d: nat) {
    && 0 <= d < |c.plan| && !s.stuck
    && s.data == [FrameOf(c.plan, 0)] + Frames(c.plan, d + 1, |c.plan|)
    && Reorder.Settled(s.rx.buffer, c.plan, Later(d), 0)
    && s.rx.buffer.capacity == c.capacity
  }

  lemma HeldLater(plan: seq<Chunk>, d: nat, capacity: nat)
    requires |plan| > 0 && plan[0].data != [] && d < |plan| && Off(plan, |plan|) == capacity + 1
    ensures Held(plan, Later(d), 0, |plan|) <= capacity
  {
    HeldDisjoint(plan, Later(d), {0}, 0, |plan|);
    HeldAll(plan, {0}, 0, 1);
    HeldSplit(plan, {0}, 0, 1, |plan|);
    assert Off(plan, 1) == Off(plan, 0) + |plan[0].data|;
  }

  lemma DeliverOne(c: Config, s: State, d: nat, x: nat, s': State)
    requires Small(c) && Off(c.plan, |c.plan|) == c.capacity + 1
    requires x == d + 1 < |c.plan| && FirstMissing(c, s, d) && s' == AfterDeliverData(c, s, 1, true, 0)
    ensures Takes(c, s, DeliverData(1, true, 0), s') && FirstMissing(c, s', x)
  {
    assert s.data[1] == FrameOf(c.plan, x);
    assert Later(d) + {x} == Later(x);
    HeldLater(c.plan, x, c.capacity);
    Reorder.PushNew(s.rx.buffer, c.plan, Later(d), 0, x);
    assert Without(s.data, 1) == [FrameOf(c.plan, 0)] + Frames(c.plan, x + 1, |c.plan|);
    NothingReady(c.plan, x, Reorder.Push(s.rx.buffer, Off(c.plan, x), c.plan[x].data, c.plan[x].end), s.rx.buffer);
  }

  lemma NothingReady(plan: seq<Chunk>, x: nat, result: Reorder.PushResult, r: Reorder.Buffer)
    requires result.Accepted? && Reorder.Advances(result, r, plan, Later(x), 0)
    ensures result.chunks == [] && Reorder.Settled(result.buffer, plan, Later(x), 0)
  {
    assert 0 !in Later(x);
  }

  lemma AllButNone(c: Config, s: State)
    requires AllInFlight(c, s, |c.plan|) && |c.plan| > 0
    ensures FirstMissing(c, s, 0)
  {
    Reorder.EmptySettled(c.plan, c.capacity);
    assert s.data == [FrameOf(c.plan, 0)] + Frames(c.plan, 1, |c.plan|);
  }

  lemma DeliverNext(c: Config, s: State, d: nat, x: nat) returns (s': State)
    requires Small(c) && Off(c.plan, |c.plan|) == c.capacity + 1
    requires x == d + 1 < |c.plan| && Reachable(c, s) && FirstMissing(c, s, d)
    ensures Reachable(c, s') && FirstMissing(c, s', x)
  {
    s' := AfterDeliverData(c, s, 1, true, 0);
    DeliverOne(c, s, d, x, s');
    ReachableNext(c, s, DeliverData(1, true, 0), s');
  }

  lemma {:induction false} DeliverLater(c: Config, d: nat) returns (s: State)
    requires Small(c) && Off(c.plan, |c.plan|) == c.capacity + 1 && d < |c.plan|
    ensures Reachable(c, s) && FirstMissing(c, s, d)
    decreases d
  {
    if d == 0 {
      s := SendAll(c, |c.plan|);
      AllButNone(c, s);
    } else {
      var before := DeliverLater(c, d - 1);
      s := DeliverNext(c, before, d - 1, d);
    }
  }

  // ----- The first one does not fit -----

  lemma FirstRefused(c: Config, s: State, s': State)
    requires Small(c) && Off(c.plan, |c.plan|) == c.capacity + 1 && |c.plan| > 0
    requires FirstMissing(c, s, |c.plan| - 1) && s' == AfterDeliverData(c, s, 0, true, 0)
    ensures Takes(c, s, DeliverData(0, true, 0), s') && s'.stuck
  {
    var got := Later(|c.plan| - 1);
    HeldAll(c.plan, got + {0}, 0, |c.plan|);
    Reorder.PushNew(s.rx.buffer, c.plan, got, 0, 0);
  }

  /** For every window above the capacity, and frames bounded by any size however small, there is
      a run in which the receiver's dispatcher retries a frame for ever. */
  lemma LargerWindowSticks(window: Uint32, capacity: Uint32, frame: nat) returns (c: Config, s: State)
    requires capacity < window && frame > 0
    ensures c.window == window && c.capacity == capacity && WellFormed(c.plan)
    ensures forall i :: 0 <= i < |c.plan| ==> 0 < |c.plan[i].data| <= frame
    ensures Reachable(c, s) && s.stuck
  {
    c := Config(Pieces(capacity + 1, frame), window, capacity);
    PiecesTotal(capacity + 1, frame, c.plan);
    var before := DeliverLater(c, |c.plan| - 1);
    s := AfterDeliverData(c, before, 0, true, 0);
    FirstRefused(c, before, s);
    ReachableNext(c, before, DeliverData(0, true, 0), s);
  }

  /** The configuration has these sizes, and its input comes in frames of at most `frame` bytes. */
  ghost predicate Sized(c: Config, window: Uint32, capacity: Uint32, frame: nat) {
    && c.window == window && c.capacity == capacity
    && WellFormed(c.plan) && forall i :: 0 <= i < |c.plan| ==> |c.plan[i].data| <= frame
  }

  ghost predicate NeverSticks(window: Uint32, capacity: Uint32, frame: nat) {
    forall c: Config, s: State :: Sized(c, window, capacity, frame) && Reachable(c, s) ==> !s.stuck
  }

  /** Whatever bounds the frames, the receiver keeps up with every run if and only if the window is
      at most the capacity. */
  lemma WindowConditionExact(window: Uint32, capacity: Uint32, frame: nat)
    requires 0 < frame < TWO_TO_32
    ensures NeverSticks(window, capacity, frame) <==> window <= capacity
  {
    if window <= capacity {
      forall c: Config, s: State | Sized(c, window, capacity, frame) && Reachable(c, s)
        ensures !s.stuck
      {
        ProtocolTheorems.NeverOverflows(c, s);
      }
    } else {
      var c, s := LargerWindowSticks(window, capacity, frame);
      assert Sized(c, window, capacity, frame) && Reachable(c, s);
    }
  }
}
