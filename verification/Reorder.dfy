/** The receiver's bounded reorder buffer (internal/overlay/reorder.go). */
module Reorder {
  import opened Basics
  import opened Segments

  /** The fields of a reorder buffer. `entries` maps a start offset to a stored frame. */
  datatype Buffer = Buffer(
    next: nat,
    entries: map<nat, Chunk>,
    buffered: Uint32,
    capacity: Uint32,
    terminal: bool,
    endSeq: nat)

  datatype PushResult =
    | Overflow
    | Accepted(buffer: Buffer, chunks: seq<Chunk>)

  function Empty(capacity: Uint32): Buffer {
    Buffer(0, map[], 0, capacity, false, 0)
  }

  /** The buffer after the entry at `next` has been handed out. */
  function Popped(r: Buffer): Buffer
    requires r.next in r.entries
  {
    var entry := r.entries[r.next];
    var next := r.next + |entry.data|;
    r.(entries := r.entries - {r.next},
       buffered := if |entry.data| > 0 then U32(r.buffered - U32(|entry.data|)) else r.buffered,
       next := if entry.end then Max(next, r.endSeq) else next)
  }

  /** Hands out every entry that has become contiguous. */
  function PopReady(r: Buffer): (Buffer, seq<Chunk>)
    decreases |r.entries|
  {
    if r.next in r.entries then
      assert |r.entries - {r.next}| < |r.entries| by {
        assert (r.entries - {r.next}).Keys == r.entries.Keys - {r.next};
        assert |r.entries.Keys| == |r.entries|;
      }
      var rest := PopReady(Popped(r));
      (rest.0, [r.entries[r.next]] + rest.1)
    else
      (r, [])
  }

  /** True when a frame that has to be stored does not fit. */
  predicate Overflows(r: Buffer, seq_: nat, payload: seq<Byte>) {
    && r.next <= seq_
    && seq_ !in r.entries
    && U32(|payload|) > 0
    && U32(r.buffered + U32(|payload|)) > r.capacity
  }

  /** The buffer after a new frame has been stored, before anything is handed out. */
  function Stored(r: Buffer, seq_: nat, payload: seq<Byte>, end: bool): Buffer {
    var length := U32(|payload|);
    r.(entries := r.entries[seq_ := Chunk(payload, end)],
       buffered := if length > 0 then U32(r.buffered + length) else r.buffered,
       terminal := r.terminal || end,
       endSeq := if end then seq_ + |payload| else r.endSeq)
  }

  function Push(r: Buffer, seq_: nat, payload: seq<Byte>, end: bool): PushResult {
    if seq_ < r.next then
      Accepted(
        if end && !r.terminal then r.(terminal := true, endSeq := seq_ + |payload|) else r, [])
    else if seq_ in r.entries then
      var existing := r.entries[seq_];
      Accepted(
        if end && !existing.end then r.(entries := r.entries[seq_ := existing.(end := true)]) else r, [])
    else if Overflows(r, seq_, payload) then
      Overflow
    else
      var done := PopReady(Stored(r, seq_, payload, end));
      Accepted(done.0, done.1)
  }

  // ----- What the buffer holds, in terms of the segments received so far -----

  ghost predicate HasEnd(plan: seq<Chunk>, got: set<nat>) {
    |plan| > 0 && plan[|plan| - 1].end && |plan| - 1 in got
  }

  /** The received segments with index at least `lo`, by start offset. */
  ghost function Table(plan: seq<Chunk>, got: set<nat>, lo: nat): map<nat, Chunk>
    requires lo <= |plan|
    decreases |plan| - lo
  {
    if lo == |plan| then map[]
    else if lo in got then Table(plan, got, lo + 1)[Off(plan, lo) := plan[lo]]
    else Table(plan, got, lo + 1)
  }

  /** The first k segments have been handed out and every later one of `got` is stored. */
  ghost predicate Agrees(r: Buffer, plan: seq<Chunk>, got: set<nat>, k: nat) {
    && k <= |plan|
    && (forall i :: 0 <= i < k ==> i in got)
    && (forall i :: i in got ==> i < |plan|)
    && r.next == Off(plan, k)
    && r.entries == Table(plan, got, k)
    && r.buffered == Held(plan, got, k, |plan|)
    && r.terminal == HasEnd(plan, got)
    && r.endSeq == (if HasEnd(plan, got) then Off(plan, |plan|) else 0)
  }

  /** As Agrees, with nothing left to hand out: k is the longest received prefix. */
  ghost predicate Settled(r: Buffer, plan: seq<Chunk>, got: set<nat>, k: nat) {
    Agrees(r, plan, got, k) && k !in got
  }

  lemma {:induction false} TableHas(plan: seq<Chunk>, got: set<nat>, lo: nat, x: nat)
    requires WellFormed(plan)
    requires lo <= |plan| && x < |plan|
    ensures Off(plan, x) in Table(plan, got, lo) <==> lo <= x && x in got
    ensures lo <= x && x in got ==> Table(plan, got, lo)[Off(plan, x)] == plan[x]
    decreases |plan| - lo
  {
    if lo < |plan| {
      TableHas(plan, got, lo + 1, x);
      OffInjective(plan, lo, x);
    }
  }

  /** Every stored offset is the start of a received segment. */
  lemma {:induction false} TableOnly(plan: seq<Chunk>, got: set<nat>, lo: nat, o: nat) returns (x: nat)
    requires lo <= |plan|
    requires o in Table(plan, got, lo)
    ensures lo <= x < |plan| && x in got && o == Off(plan, x)
    decreases |plan| - lo
  {
    if lo in got && o == Off(plan, lo) {
      x := lo;
    } else {
      x := TableOnly(plan, got, lo + 1, o);
    }
  }

  lemma {:induction false} TableAdd(plan: seq<Chunk>, got: set<nat>, lo: nat, x: nat)
    requires WellFormed(plan)
    requires lo <= x < |plan|
    ensures Table(plan, got + {x}, lo) == Table(plan, got, lo)[Off(plan, x) := plan[x]]
    decreases |plan| - lo
  {
    if lo == x {
      TableAddBelow(plan, got, lo + 1, x);
    } else {
      TableAdd(plan, got, lo + 1, x);
      OffInjective(plan, lo, x);
    }
  }

  lemma {:induction false} TableAddBelow(plan: seq<Chunk>, got: set<nat>, lo: nat, x: nat)
    requires x < lo <= |plan|
    ensures Table(plan, got + {x}, lo) == Table(plan, got, lo)
    decreases |plan| - lo
  {
    if lo < |plan| {
      TableAddBelow(plan, got, lo + 1, x);
    }
  }

  lemma TableRemove(plan: seq<Chunk>, got: set<nat>, lo: nat)
    requires WellFormed(plan)
    requires lo < |plan| && lo in got
    ensures Table(plan, got, lo) - {Off(plan, lo)} == Table(plan, got, lo + 1)
  {
    TableHas(plan, got, lo + 1, lo);
  }

  lemma EmptySettled(plan: seq<Chunk>, capacity: Uint32)
    ensures Settled(Empty(capacity), plan, {}, 0)
  {
    HeldNone(plan, {}, 0, |plan|);
    if o: nat :| o in Table(plan, {}, 0) {
      var x := TableOnly(plan, {}, 0, o);
    }
  }

  /** The entry at `next` can only be the first segment not yet handed out. */
  lemma ReadyEntry(r: Buffer, plan: seq<Chunk>, got: set<nat>, k: nat)
    requires WellFormed(plan)
    requires Agrees(r, plan, got, k)
    ensures r.next in r.entries <==> k in got
    ensures k in got ==> k < |plan| && r.entries[r.next] == plan[k]
  {
    if k < |plan| {
      TableHas(plan, got, k, k);
    }
  }

  lemma PoppedAgrees(r: Buffer, plan: seq<Chunk>, got: set<nat>, k: nat)
    requires WellFormed(plan)
    requires Agrees(r, plan, got, k)
    requires r.next in r.entries
    ensures k < |plan| && r.entries[r.next] == plan[k]
    ensures Agrees(Popped(r), plan, got, k + 1)
    ensures Popped(r).buffered <= r.buffered
    ensures Popped(r).capacity == r.capacity
  {
    ReadyEntry(r, plan, got, k);
    TableRemove(plan, got, k);
    HeldSplit(plan, got, k, k + 1, |plan|);
    assert Held(plan, got, k, k + 1) == Held(plan, got, k, k) + |plan[k].data|;
  }

  /** Draining hands out exactly the segments that extend the received prefix. */
  lemma {:induction false} PopReadySettles(r: Buffer, plan: seq<Chunk>, got: set<nat>, k: nat)
    requires WellFormed(plan)
    requires Agrees(r, plan, got, k)
    ensures var done := PopReady(r);
            && k + |done.1| <= |plan|
            && Settled(done.0, plan, got, k + |done.1|)
            && done.1 == plan[k..k + |done.1|]
            && done.0.capacity == r.capacity
    decreases |plan| - k
  {
    ReadyEntry(r, plan, got, k);
    if r.next in r.entries {
      PoppedAgrees(r, plan, got, k);
      PopReadySettles(Popped(r), plan, got, k + 1);
    }
  }

  /** Whatever frames were stored, handing out one with the end mark moves on at least to the end that was
      announced. */
  lemma {:induction false} EndReached(r: Buffer, i: nat)
    requires i < |PopReady(r).1| && PopReady(r).1[i].end
    ensures r.next <= PopReady(r).0.next && r.endSeq <= PopReady(r).0.next
    decreases i
  {
    NextGrows(Popped(r));
    if i > 0 {
      EndReached(Popped(r), i - 1);
    }
  }

  lemma {:induction false} NextGrows(r: Buffer)
    ensures r.next <= PopReady(r).0.next
    decreases |PopReady(r).1|
  {
    if r.next in r.entries {
      NextGrows(Popped(r));
    }
  }

  lemma StoredAgrees(r: Buffer, plan: seq<Chunk>, got: set<nat>, k: nat, x: nat)
    requires WellFormed(plan)
    requires Agrees(r, plan, got, k)
    requires k <= x < |plan| && x !in got
    requires Held(plan, got + {x}, k, |plan|) < TWO_TO_32
    ensures |plan[x].data| < TWO_TO_32
    ensures r.buffered + |plan[x].data| == Held(plan, got + {x}, k, |plan|)
    ensures Agrees(Stored(r, Off(plan, x), plan[x].data, plan[x].end), plan, got + {x}, k)
  {
    HeldAdd(plan, got, k, |plan|, x);
    TableAdd(plan, got, k, x);
    EndIsLast(plan, x);
  }

  /** A push has handed out the segments that extend the prefix, to the longest prefix of `got`. */
  ghost predicate Advances(result: PushResult, r: Buffer, plan: seq<Chunk>, got: set<nat>, k: nat)
    requires result.Accepted?
  {
    && k + |result.chunks| <= |plan|
    && Settled(result.buffer, plan, got, k + |result.chunks|)
    && result.chunks == plan[k..k + |result.chunks|]
    && result.buffer.capacity == r.capacity
  }

  /** The main contract of Push on a new frame: it is refused exactly when the held bytes would
      exceed the capacity, and otherwise every segment that extends the prefix is handed out. */
  lemma PushNew(r: Buffer, plan: seq<Chunk>, got: set<nat>, k: nat, x: nat)
    requires WellFormed(plan)
    requires Settled(r, plan, got, k)
    requires x < |plan| && x !in got
    requires Held(plan, got + {x}, k, |plan|) < TWO_TO_32
    ensures var result := Push(r, Off(plan, x), plan[x].data, plan[x].end);
            && (result.Overflow? <==>
                  plan[x].data != [] && Held(plan, got + {x}, k, |plan|) > r.capacity)
            && (result.Accepted? ==> Advances(result, r, plan, got + {x}, k))
  {
    assert k <= x;
    OffMonotone(plan, k, x);
    TableHas(plan, got, k, x);
    StoredAgrees(r, plan, got, k, x);
    PopReadySettles(Stored(r, Off(plan, x), plan[x].data, plan[x].end), plan, got + {x}, k);
  }

  /** A copy of a frame that is still stored is ignored. */
  lemma StoredCopyIgnored(r: Buffer, o: nat, entry: Chunk)
    requires r.next <= o && o in r.entries && r.entries[o] == entry
    ensures Push(r, o, entry.data, entry.end) == Accepted(r, [])
  {
  }

  /** A copy of a frame that has been handed out, whose end mark is known, is ignored. */
  lemma OldCopyIgnored(r: Buffer, o: nat, entry: Chunk)
    requires o < r.next && (entry.end ==> r.terminal)
    ensures Push(r, o, entry.data, entry.end) == Accepted(r, [])
  {
  }

  /** Any frame at an offset below `next`, or at that of a stored frame, hands out nothing and changes
      nothing but what is known of the end: below `next` it marks the end of the stream if none is known,
      at a stored frame it marks that frame. */
  lemma RepeatMarksEnd(r: Buffer, o: nat, payload: seq<Byte>, end: bool, r': Buffer, chunks: seq<Chunk>)
    requires o < r.next || o in r.entries
    requires Push(r, o, payload, end) == Accepted(r', chunks)
    ensures chunks == [] && r'.next == r.next && r'.buffered == r.buffered && r'.capacity == r.capacity
    ensures r'.entries.Keys == r.entries.Keys
    ensures forall k :: k in r.entries ==> r'.entries[k].data == r.entries[k].data
    ensures forall k :: k in r.entries ==> (r'.entries[k].end <==> r.entries[k].end || (end && k == o && r.next <= o))
    ensures r'.terminal <==> r.terminal || (end && o < r.next)
    ensures r'.endSeq == if !r.terminal && end && o < r.next then o + |payload| else r.endSeq
  {
  }

  lemma BelowNext(plan: seq<Chunk>, x: nat, k: nat)
    requires WellFormed(plan) && x < k <= |plan| && plan[x].data != []
    ensures Off(plan, x) < Off(plan, k)
  {
    OffStrict(plan, x, x + 1);
    OffMonotone(plan, x + 1, k);
  }

  lemma DuplicateStored(r: Buffer, plan: seq<Chunk>, got: set<nat>, k: nat, x: nat)
    requires WellFormed(plan) && Settled(r, plan, got, k)
    requires x in got && k <= x
    ensures Push(r, Off(plan, x), plan[x].data, plan[x].end) == Accepted(r, [])
  {
    TableHas(plan, got, k, x);
    OffMonotone(plan, k, x);
    StoredCopyIgnored(r, Off(plan, x), plan[x]);
  }

  lemma DuplicateOld(r: Buffer, plan: seq<Chunk>, got: set<nat>, k: nat, x: nat)
    requires WellFormed(plan)
    requires x < k <= |plan| && x in got && plan[x].data != []
    requires r.next == Off(plan, k) && r.terminal == HasEnd(plan, got)
    ensures Push(r, Off(plan, x), plan[x].data, plan[x].end) == Accepted(r, [])
  {
    EndIsLast(plan, x);
    BelowNext(plan, x, k);
    OldCopyIgnored(r, Off(plan, x), plan[x]);
  }

  /** A frame seen before changes nothing, unless it is an empty end mark already handed out:
      that one is stored and handed out again. */
  lemma PushDuplicate(r: Buffer, plan: seq<Chunk>, got: set<nat>, k: nat, x: nat)
    requires WellFormed(plan)
    requires Settled(r, plan, got, k)
    requires x in got
    ensures Push(r, Off(plan, x), plan[x].data, plan[x].end) == Accepted(r, [])
       <==> plan[x].data != [] || k <= x
  {
    if k <= x {
      DuplicateStored(r, plan, got, k, x);
    } else if plan[x].data != [] {
      DuplicateOld(r, plan, got, k, x);
    } else {
      assert plan[x] == Chunk([], true);
      EmptyEndAgain(r, plan, got, k);
    }
  }

  lemma EmptyEndAgain(r: Buffer, plan: seq<Chunk>, got: set<nat>, k: nat)
    requires WellFormed(plan)
    requires Settled(r, plan, got, k)
    requires k == |plan| > 0 && plan[k - 1] == Chunk([], true)
    ensures var again := Push(r, Off(plan, k - 1), [], true);
            again.Accepted? && |again.chunks| > 0 && again.chunks[0] == Chunk([], true)
  {
    assert Off(plan, k) == Off(plan, k - 1);
    TableHas(plan, got, k, k - 1);
  }

  /** The state is a function of the set of segments received. */
  lemma SettledUnique(r: Buffer, r': Buffer, plan: seq<Chunk>, got: set<nat>, k: nat, k': nat)
    requires Settled(r, plan, got, k)
    requires Settled(r', plan, got, k')
    requires r.capacity == r'.capacity
    ensures k == k' && r == r'
  {
    assert k == k';
  }

  // ----- Whole sequences of arrivals -----

  datatype FillResult =
    | Full
    | Filled(buffer: Buffer, chunks: seq<Chunk>)

  ghost predicate Arrivals(plan: seq<Chunk>, order: seq<nat>) {
    forall i :: 0 <= i < |order| ==> order[i] < |plan|
  }

  /** Pushes the segments named by `order`, one after the other, into an empty buffer. */
  ghost function PushAll(plan: seq<Chunk>, capacity: Uint32, order: seq<nat>): FillResult
    requires Arrivals(plan, order)
  {
    if order == [] then Filled(Empty(capacity), [])
    else
      var before := PushAll(plan, capacity, order[..|order| - 1]);
      var x := order[|order| - 1];
      if before.Full? then Full
      else
        match Push(before.buffer, Off(plan, x), plan[x].data, plan[x].end)
        case Overflow => Full
        case Accepted(buffer, chunks) => Filled(buffer, before.chunks + chunks)
  }

  ghost function Seen(order: seq<nat>): set<nat> {
    set i | 0 <= i < |order| :: order[i]
  }

  /** No arrival repeats an empty frame; the sender never retransmits one. */
  ghost predicate EmptyOnce(plan: seq<Chunk>, order: seq<nat>)
    requires Arrivals(plan, order)
  {
    forall i, j :: 0 <= i < j < |order| && order[i] == order[j] ==> plan[order[i]].data != []
  }

  /** The uint32 sum in Push cannot wrap when the capacity leaves room for one more frame. */
  ghost predicate RoomForAny(plan: seq<Chunk>, capacity: Uint32) {
    forall i :: 0 <= i < |plan| ==> capacity + |plan[i].data| < TWO_TO_32
  }

  lemma SeenLast(order: seq<nat>)
    requires order != []
    ensures Seen(order) == Seen(order[..|order| - 1]) + {order[|order| - 1]}
  {
    var last := |order| - 1;
    forall x | x in Seen(order)
      ensures x in Seen(order[..last]) + {order[last]}
    {
      var i :| 0 <= i < |order| && order[i] == x;
      if i < last {
        assert order[..last][i] == x;
      }
    }
    forall x | x in Seen(order[..last])
      ensures x in Seen(order)
    {
      var i :| 0 <= i < last && order[..last][i] == x;
      assert order[i] == x;
    }
  }

  /** A stored frame keeps the buffer within its capacity. */
  lemma PushWithin(r: Buffer, plan: seq<Chunk>, got: set<nat>, k: nat, x: nat, result: PushResult)
    requires RoomForAny(plan, r.capacity)
    requires Settled(r, plan, got, k) && r.buffered <= r.capacity
    requires x < |plan| && x !in got
    requires Held(plan, got + {x}, k, |plan|) < TWO_TO_32
    requires result.Overflow? <==>
               plan[x].data != [] && Held(plan, got + {x}, k, |plan|) > r.capacity
    requires result.Accepted? ==> Advances(result, r, plan, got + {x}, k)
    ensures result.Accepted? ==> result.buffer.buffered <= r.capacity
  {
    if result.Accepted? {
      HeldAdd(plan, got, k, |plan|, x);
      HeldShrinks(plan, got + {x}, k, k + |result.chunks|);
    }
  }

  /** One more arrival: the invariant of a run of pushes. */
  lemma PushStep(r: Buffer, plan: seq<Chunk>, got: set<nat>, k: nat, x: nat)
    returns (result: PushResult)
    requires WellFormed(plan)
    requires RoomForAny(plan, r.capacity)
    requires Settled(r, plan, got, k) && r.buffered <= r.capacity
    requires x < |plan|
    requires x in got ==> plan[x].data != []
    ensures result == Push(r, Off(plan, x), plan[x].data, plan[x].end)
    ensures result.Accepted? ==>
              Advances(result, r, plan, got + {x}, k) && result.buffer.buffered <= r.capacity
  {
    if x in got {
      PushDuplicate(r, plan, got, k, x);
      assert got + {x} == got;
      return Accepted(r, []);
    }
    HeldAdd(plan, got, k, |plan|, x);
    PushNew(r, plan, got, k, x);
    result := Push(r, Off(plan, x), plan[x].data, plan[x].end);
    PushWithin(r, plan, got, k, x, result);
  }

  lemma RepeatNotEmpty(plan: seq<Chunk>, order: seq<nat>)
    requires order != [] && Arrivals(plan, order) && EmptyOnce(plan, order)
    ensures var front, x := order[..|order| - 1], order[|order| - 1];
            && Arrivals(plan, front) && EmptyOnce(plan, front) && x < |plan|
            && (x in Seen(front) ==> plan[x].data != [])
  {
    var front, x := order[..|order| - 1], order[|order| - 1];
    if x in Seen(front) {
      var i :| 0 <= i < |front| && front[i] == x;
      assert order[i] == order[|order| - 1];
    }
  }

  /** The buffer and the chunks handed out after the arrivals `got`. */
  ghost predicate FilledFrom(result: FillResult, plan: seq<Chunk>, capacity: Uint32, got: set<nat>)
    requires result.Filled?
  {
    && |result.chunks| <= |plan|
    && result.chunks == plan[..|result.chunks|]
    && Settled(result.buffer, plan, got, |result.chunks|)
    && result.buffer.capacity == capacity
    && result.buffer.buffered <= capacity
  }

  lemma FillNext(before: FillResult, plan: seq<Chunk>, capacity: Uint32, got: set<nat>, x: nat)
    returns (result: PushResult)
    requires WellFormed(plan) && RoomForAny(plan, capacity)
    requires before.Filled? && FilledFrom(before, plan, capacity, got)
    requires x < |plan| && (x in got ==> plan[x].data != [])
    ensures result == Push(before.buffer, Off(plan, x), plan[x].data, plan[x].end)
    ensures result.Accepted? ==>
              FilledFrom(Filled(result.buffer, before.chunks + result.chunks), plan, capacity, got + {x})
  {
    var k := |before.chunks|;
    result := PushStep(before.buffer, plan, got, k, x);
    if result.Accepted? {
      assert plan[..k] + plan[k..k + |result.chunks|] == plan[..k + |result.chunks|];
    }
  }

  /** After any arrivals the buffer has handed out the longest received prefix and holds
      exactly the other received segments. */
  lemma {:induction false} ArrivalState(plan: seq<Chunk>, capacity: Uint32, order: seq<nat>)
    requires WellFormed(plan)
    requires RoomForAny(plan, capacity)
    requires Arrivals(plan, order) && EmptyOnce(plan, order)
    ensures var result := PushAll(plan, capacity, order);
            result.Filled? ==> FilledFrom(result, plan, capacity, Seen(order))
    decreases |order|
  {
    if order == [] {
      EmptySettled(plan, capacity);
      assert Seen(order) == {};
    } else {
      var front, x := order[..|order| - 1], order[|order| - 1];
      RepeatNotEmpty(plan, order);
      ArrivalState(plan, capacity, front);
      SeenLast(order);
      var before := PushAll(plan, capacity, front);
      if before.Filled? {
        var result := FillNext(before, plan, capacity, Seen(front), x);
      }
    }
  }

  /** The order of arrival leaves no trace, and a complete set of arrivals emits the stream. */
  lemma OrderIndependent(plan: seq<Chunk>, capacity: Uint32, order: seq<nat>, order': seq<nat>)
    requires WellFormed(plan)
    requires RoomForAny(plan, capacity)
    requires Arrivals(plan, order) && EmptyOnce(plan, order)
    requires Arrivals(plan, order') && EmptyOnce(plan, order')
    requires Seen(order) == Seen(order')
    requires PushAll(plan, capacity, order).Filled? && PushAll(plan, capacity, order').Filled?
    ensures PushAll(plan, capacity, order) == PushAll(plan, capacity, order')
    ensures (forall i :: 0 <= i < |plan| ==> i in Seen(order)) ==>
              && PushAll(plan, capacity, order).chunks == plan
              && PushAll(plan, capacity, order).buffer.entries == map[]
              && PushAll(plan, capacity, order).buffer.buffered == 0
  {
    ArrivalState(plan, capacity, order);
    ArrivalState(plan, capacity, order');
    var one, other := PushAll(plan, capacity, order), PushAll(plan, capacity, order');
    SettledUnique(one.buffer, other.buffer, plan, Seen(order), |one.chunks|, |other.chunks|);
  }

  lemma FitsAccepted(r: Buffer, plan: seq<Chunk>, got: set<nat>, k: nat, x: nat)
    requires WellFormed(plan) && Settled(r, plan, got, k)
    requires Off(plan, |plan|) <= r.capacity
    requires x < |plan| && (x in got ==> plan[x].data != [])
    ensures Push(r, Off(plan, x), plan[x].data, plan[x].end).Accepted?
  {
    if x in got {
      PushDuplicate(r, plan, got, k, x);
    } else {
      HeldDisjoint(plan, got + {x}, {}, k, |plan|);
      PushNew(r, plan, got, k, x);
    }
  }

  /** A stream that fits the capacity as a whole is never refused, in whatever order it arrives. */
  lemma {:induction false} WholeStreamFits(plan: seq<Chunk>, capacity: Uint32, order: seq<nat>)
    requires WellFormed(plan) && RoomForAny(plan, capacity)
    requires Off(plan, |plan|) <= capacity
    requires Arrivals(plan, order) && EmptyOnce(plan, order)
    ensures PushAll(plan, capacity, order).Filled?
    decreases |order|
  {
    if order != [] {
      var front, x := order[..|order| - 1], order[|order| - 1];
      RepeatNotEmpty(plan, order);
      WholeStreamFits(plan, capacity, front);
      ArrivalState(plan, capacity, front);
      var before := PushAll(plan, capacity, front);
      FitsAccepted(before.buffer, plan, Seen(front), |before.chunks|, x);
    }
  }

  /** The uint32 addition is what decides: the refusal of a frame is right exactly when the sum
      of buffered bytes and frame length does not wrap. */
  lemma RefusalExact(r: Buffer, seq_: nat, payload: seq<Byte>)
    requires r.buffered <= r.capacity
    requires r.next <= seq_ && seq_ !in r.entries
    requires 0 < |payload| < TWO_TO_32
    ensures (Overflows(r, seq_, payload) <==> r.buffered + |payload| > r.capacity)
       <==> r.buffered + |payload| < TWO_TO_32
  {
    if r.buffered + |payload| >= TWO_TO_32 {
      assert U32(r.buffered + |payload|) == r.buffered + |payload| - TWO_TO_32;
    }
  }
}
