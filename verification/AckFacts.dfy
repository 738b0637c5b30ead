/** What an acknowledgement of this receiver says about the segments of the stream. */
module AckFacts {
  import opened Basics
  import opened Segments
  import opened Sack
  import Reorder

  /** The range is the run of segments [a, b), all of them received. */
  ghost predicate RunOf(plan: seq<Chunk>, got: set<nat>, r: Range, a: nat, b: nat) {
    && a < b <= |plan|
    && r.start == Off(plan, a)
    && r.end == Off(plan, b)
    && forall i :: a <= i < b ==> i in got
  }

  ghost predicate Run(plan: seq<Chunk>, got: set<nat>, r: Range) {
    exists a, b :: RunOf(plan, got, r, a, b)
  }

  ghost predicate Boundary(plan: seq<Chunk>, hi: nat, p: nat)
    requires hi <= |plan|
  {
    exists j: nat :: j <= hi && p == Off(plan, j)
  }

  /** The acknowledgement is true of the first `written` segments and of the set `got`. */
  ghost predicate Truthful(plan: seq<Chunk>, got: set<nat>, written: nat, ack: Ack) {
    && written <= |plan|
    && Boundary(plan, written, ack.ackSeq)
    && Separated(ack.ranges)
    && (forall i :: 0 <= i < |ack.ranges| ==> Run(plan, got, ack.ranges[i]))
    && (forall i :: 0 <= i < |ack.ranges| ==> ack.ackSeq < ack.ranges[i].start)
  }

  /** Later receptions keep an acknowledgement true, however late it arrives. */
  lemma TruthfulLater(plan: seq<Chunk>, got: set<nat>, written: nat, got': set<nat>, written': nat, ack: Ack)
    requires Truthful(plan, got, written, ack)
    requires got <= got' && written <= written' <= |plan|
    ensures Truthful(plan, got', written', ack)
  {
    forall i | 0 <= i < |ack.ranges|
      ensures Run(plan, got', ack.ranges[i])
    {
      var a, b :| RunOf(plan, got, ack.ranges[i], a, b);
      assert RunOf(plan, got', ack.ranges[i], a, b);
    }
  }

  // ----- The ranges the receiver builds -----

  /** The frame is a received segment with index at least k. */
  ghost predicate HeldFrame(plan: seq<Chunk>, got: set<nat>, k: nat, frame: Range) {
    var x := IndexAt(plan, frame.start);
    k <= x < |plan| && x in got && plan[x].data != [] && frame == Range(Off(plan, x), Off(plan, x + 1))
  }

  lemma StoredHeld(plan: seq<Chunk>, got: set<nat>, k: nat, table: map<nat, Chunk>, o: nat)
    requires WellFormed(plan) && k <= |plan| && table == Reorder.Table(plan, got, k)
    requires o in table && table[o].data != []
    ensures HeldFrame(plan, got, k, Range(o, o + |table[o].data|))
  {
    var x := Reorder.TableOnly(plan, got, k, o);
    Reorder.TableHas(plan, got, k, x);
    IndexAtOff(plan, x);
  }

  lemma SortedHeld(plan: seq<Chunk>, got: set<nat>, k: nat, table: map<nat, Chunk>, frames: seq<Range>)
    requires WellFormed(plan) && k <= |plan| && table == Reorder.Table(plan, got, k)
    requires frames == SortedFrames(table)
    ensures forall i :: 0 <= i < |frames| ==> HeldFrame(plan, got, k, frames[i])
  {
    AscendingLists(Keys(table));
    var keys := Ascending(Keys(table));
    forall i | 0 <= i < |frames|
      ensures HeldFrame(plan, got, k, frames[i])
    {
      assert keys[i] in keys;
      StoredHeld(plan, got, k, table, keys[i]);
    }
  }

  /** Runs so far, the last of them ending with segment y. */
  ghost predicate RunsUpTo(plan: seq<Chunk>, got: set<nat>, k: nat, ranges: seq<Range>, y: nat) {
    && y < |plan| && k <= |plan|
    && ranges != []
    && (forall i :: 0 <= i < |ranges| ==> Run(plan, got, ranges[i]) && Off(plan, k) <= ranges[i].start)
    && ranges[|ranges| - 1].end == Off(plan, y + 1)
  }

  lemma ExtendRun(plan: seq<Chunk>, got: set<nat>, r: Range, a: nat, b: nat, x: nat)
    requires WellFormed(plan)
    requires RunOf(plan, got, r, a, b)
    requires x < |plan| && x in got && plan[x].data != [] && r.end == Off(plan, x)
    ensures Run(plan, got, Range(r.start, Off(plan, x + 1)))
    ensures r.end < Off(plan, x + 1)
  {
    if b < |plan| {
      OffInjective(plan, b, x);
    } else {
      OffStrict(plan, x, b);
    }
    assert RunOf(plan, got, Range(r.start, Off(plan, x + 1)), a, x + 1);
  }

  lemma AddSegment(plan: seq<Chunk>, got: set<nat>, k: nat, ranges: seq<Range>, y: nat, x: nat)
    requires WellFormed(plan)
    requires k <= x < |plan| && x in got && plan[x].data != []
    requires ranges == [] || (RunsUpTo(plan, got, k, ranges, y) && y < x)
    ensures RunsUpTo(plan, got, k, AddFrame(ranges, Range(Off(plan, x), Off(plan, x + 1))), x)
  {
    assert RunOf(plan, got, Range(Off(plan, x), Off(plan, x + 1)), x, x + 1);
    OffMonotone(plan, k, x);
    if ranges != [] {
      var last := ranges[|ranges| - 1];
      OffMonotone(plan, y + 1, x);
      if Off(plan, x) <= last.end {
        OffInjective(plan, y + 1, x);
        var a, b :| RunOf(plan, got, last, a, b);
        ExtendRun(plan, got, last, a, b, x);
      }
    }
  }

  lemma AddHeld(plan: seq<Chunk>, got: set<nat>, k: nat, ranges: seq<Range>, last: Range, frame: Range)
    requires WellFormed(plan) && HeldFrame(plan, got, k, frame)
    requires ranges != [] ==>
               && HeldFrame(plan, got, k, last) && last.start < frame.start
               && RunsUpTo(plan, got, k, ranges, IndexAt(plan, last.start))
    ensures RunsUpTo(plan, got, k, AddFrame(ranges, frame), IndexAt(plan, frame.start))
  {
    var x, y := IndexAt(plan, frame.start), IndexAt(plan, last.start);
    if ranges != [] {
      OffInjective(plan, y, x);
    }
    AddSegment(plan, got, k, ranges, y, x);
  }

  lemma {:induction false} CoalesceRuns(plan: seq<Chunk>, got: set<nat>, k: nat, frames: seq<Range>)
    requires WellFormed(plan)
    requires InOrder(frames) && frames != []
    requires forall i :: 0 <= i < |frames| ==> HeldFrame(plan, got, k, frames[i])
    ensures RunsUpTo(plan, got, k, Coalesce(frames), IndexAt(plan, frames[|frames| - 1].start))
    decreases |frames|
  {
    var front, frame := frames[..|frames| - 1], frames[|frames| - 1];
    if front == [] {
      AddHeld(plan, got, k, [], frame, frame);
    } else {
      InOrderFront(frames);
      CoalesceRuns(plan, got, k, front);
      var last := front[|front| - 1];
      assert last == frames[|frames| - 2];
      AddHeld(plan, got, k, Coalesce(front), last, frame);
    }
  }

  lemma TableRuns(plan: seq<Chunk>, got: set<nat>, k: nat, table: map<nat, Chunk>, ranges: seq<Range>)
    requires WellFormed(plan) && k <= |plan| && table == Reorder.Table(plan, got, k)
    requires ranges == AllRanges(table)
    ensures forall i :: 0 <= i < |ranges| ==> Run(plan, got, ranges[i]) && Off(plan, k) <= ranges[i].start
  {
    var frames := SortedFrames(table);
    SortedFramesExact(table);
    SortedHeld(plan, got, k, table, frames);
    if frames != [] {
      CoalesceRuns(plan, got, k, frames);
    }
  }

  /** Every reported range is a run of received segments above the contiguous prefix. */
  lemma ReportedRuns(r: Reorder.Buffer, plan: seq<Chunk>, got: set<nat>, k: nat)
    requires WellFormed(plan)
    requires Reorder.Settled(r, plan, got, k)
    ensures Separated(SackRanges(r.entries))
    ensures forall i :: 0 <= i < |SackRanges(r.entries)| ==>
              Run(plan, got, SackRanges(r.entries)[i]) && r.next < SackRanges(r.entries)[i].start
  {
    SackExact(r.entries);
    var ranges := AllRanges(r.entries);
    TableRuns(plan, got, k, r.entries, ranges);
    forall i | 0 <= i < |SackRanges(r.entries)|
      ensures Run(plan, got, SackRanges(r.entries)[i]) && r.next < SackRanges(r.entries)[i].start
    {
      assert SackRanges(r.entries)[i] == ranges[i];
      AboveNext(plan, got, k, ranges[i]);
    }
  }

  lemma AboveNext(plan: seq<Chunk>, got: set<nat>, k: nat, range: Range)
    requires WellFormed(plan) && k <= |plan| && k !in got
    requires Run(plan, got, range) && Off(plan, k) <= range.start < range.end
    ensures Off(plan, k) < range.start
  {
    var a: nat, b: nat :| RunOf(plan, got, range, a, b);
    assert a in got;
    OffMonotone(plan, b, |plan|);
    if k < |plan| {
      OffInjective(plan, a, k);
    }
  }

  lemma ReportTruthful(r: Reorder.Buffer, plan: seq<Chunk>, got: set<nat>, k: nat, written: nat, credit: Uint32)
    requires WellFormed(plan)
    requires Reorder.Settled(r, plan, got, k)
    requires written <= k
    ensures Truthful(plan, got, written, Ack(Off(plan, written), credit, SackRanges(r.entries)))
  {
    ReportedRuns(r, plan, got, k);
    OffMonotone(plan, written, k);
  }

  // ----- What the sender may conclude -----

  /** A position aligned with the segments never falls strictly inside one. */
  lemma Aligned(plan: seq<Chunk>, x: nat, j: nat)
    requires x < |plan| && j <= |plan|
    ensures Off(plan, j) <= Off(plan, x) || Off(plan, x + 1) <= Off(plan, j)
    ensures plan[x].data != [] ==> (Off(plan, j) <= Off(plan, x) <==> j <= x)
  {
    if j <= x {
      OffMonotone(plan, j, x);
    } else {
      OffMonotone(plan, x + 1, j);
    }
  }

  /** A covered non-empty segment has been received in full. */
  lemma CoveredReceived(plan: seq<Chunk>, got: set<nat>, written: nat, ack: Ack, x: nat)
    requires Truthful(plan, got, written, ack)
    requires x < |plan| && plan[x].data != []
    requires Covers(ack, Off(plan, x), Off(plan, x + 1))
    ensures x < written || x in got
  {
    if ack.ackSeq >= Off(plan, x + 1) {
      var j: nat :| j <= written && ack.ackSeq == Off(plan, j);
      Aligned(plan, x, j);
    } else {
      var i :| 0 <= i < |ack.ranges|
            && Off(plan, x) >= ack.ranges[i].start && Off(plan, x + 1) <= ack.ranges[i].end;
      var a, b :| RunOf(plan, got, ack.ranges[i], a, b);
      Aligned(plan, x, a);
      Aligned(plan, x, b);
    }
  }

  /** The segment lies inside one hole. */
  ghost predicate InsideHole(plan: seq<Chunk>, ack: Ack, x: nat)
    requires x < |plan|
  {
    exists i :: 0 <= i < |Holes(ack)|
             && Holes(ack)[i].start <= Off(plan, x) && Off(plan, x + 1) <= Holes(ack)[i].end
  }

  /** The segment lies at or above everything the acknowledgement mentions. */
  ghost predicate Beyond(plan: seq<Chunk>, ack: Ack, x: nat)
    requires x < |plan|
  {
    Max(ack.ackSeq, MaxEnd(ack.ranges)) <= Off(plan, x)
  }

  /** Hole edges are edges of the acknowledgement: its cumulative point or an edge of a range. */
  lemma {:induction false} HoleEdges(plan: seq<Chunk>, cur: nat, ranges: seq<Range>)
    requires Boundary(plan, |plan|, cur)
    requires forall i :: 0 <= i < |ranges| ==>
               Boundary(plan, |plan|, ranges[i].start) && Boundary(plan, |plan|, ranges[i].end)
    ensures forall i :: 0 <= i < |HolesFrom(cur, ranges)| ==>
              && Boundary(plan, |plan|, HolesFrom(cur, ranges)[i].start)
              && Boundary(plan, |plan|, HolesFrom(cur, ranges)[i].end)
    decreases |ranges|
  {
    if ranges != [] {
      HoleEdges(plan, Max(cur, ranges[0].end), ranges[1..]);
    }
  }

  lemma TruthfulEdges(plan: seq<Chunk>, got: set<nat>, written: nat, ack: Ack)
    requires Truthful(plan, got, written, ack)
    ensures Boundary(plan, |plan|, ack.ackSeq)
    ensures forall i :: 0 <= i < |ack.ranges| ==>
              Boundary(plan, |plan|, ack.ranges[i].start) && Boundary(plan, |plan|, ack.ranges[i].end)
    ensures StartSorted(ack.ranges)
  {
    var j: nat :| j <= written && ack.ackSeq == Off(plan, j);
    assert j <= |plan|;
    forall i | 0 <= i < |ack.ranges|
      ensures Boundary(plan, |plan|, ack.ranges[i].start) && Boundary(plan, |plan|, ack.ranges[i].end)
    {
      var a, b :| RunOf(plan, got, ack.ranges[i], a, b);
    }
  }

  /** Meeting a hole is lying inside it, and the retransmission test is exact. */
  lemma MeetsIsInside(plan: seq<Chunk>, got: set<nat>, written: nat, ack: Ack, x: nat)
    requires Truthful(plan, got, written, ack)
    requires x < |plan| && plan[x].data != []
    ensures MeetsHole(Holes(ack), Off(plan, x), Off(plan, x + 1)) <==> InsideHole(plan, ack, x)
  {
    TruthfulEdges(plan, got, written, ack);
    HoleEdges(plan, ack.ackSeq, ack.ranges);
    var holes := Holes(ack);
    if i :| 0 <= i < |holes| && Off(plan, x) < holes[i].end && Off(plan, x + 1) > holes[i].start {
      var a: nat :| a <= |plan| && holes[i].start == Off(plan, a);
      var b: nat :| b <= |plan| && holes[i].end == Off(plan, b);
      Aligned(plan, x, a);
      Aligned(plan, x, b);
    }
    if i :| 0 <= i < |holes| && holes[i].start <= Off(plan, x) && Off(plan, x + 1) <= holes[i].end {
      assert Off(plan, x) < holes[i].end && Off(plan, x + 1) > holes[i].start;
    }
  }

  /** The first byte of a segment decides where the whole segment is. */
  lemma FirstByte(plan: seq<Chunk>, got: set<nat>, written: nat, ack: Ack, x: nat)
    requires Truthful(plan, got, written, ack)
    requires x < |plan| && plan[x].data != []
    ensures Covers(ack, Off(plan, x), Off(plan, x + 1))
       <==> Off(plan, x) < ack.ackSeq || InRanges(ack.ranges, Off(plan, x))
    ensures InsideHole(plan, ack, x) <==> InRanges(Holes(ack), Off(plan, x))
  {
    TruthfulEdges(plan, got, written, ack);
    var p := Off(plan, x);
    var j: nat :| j <= written && ack.ackSeq == Off(plan, j);
    Aligned(plan, x, j);
    if i :| 0 <= i < |ack.ranges| && ack.ranges[i].start <= p < ack.ranges[i].end {
      var a, b :| RunOf(plan, got, ack.ranges[i], a, b);
      Aligned(plan, x, b);
    }
    MeetsIsInside(plan, got, written, ack, x);
    if i :| 0 <= i < |Holes(ack)| && Holes(ack)[i].start <= p < Holes(ack)[i].end {
      assert MeetsHole(Holes(ack), p, Off(plan, x + 1));
    }
  }

  /** Every non-empty segment is covered, inside one hole, or beyond the acknowledgement, and
      only one of the three. */
  lemma Trichotomy(plan: seq<Chunk>, got: set<nat>, written: nat, ack: Ack, x: nat)
    requires Truthful(plan, got, written, ack)
    requires x < |plan| && plan[x].data != []
    ensures var covered := Covers(ack, Off(plan, x), Off(plan, x + 1));
            var inside := InsideHole(plan, ack, x);
            var beyond := Beyond(plan, ack, x);
            && (covered || inside || beyond)
            && !(covered && inside) && !(inside && beyond) && !(covered && beyond)
  {
    FirstByte(plan, got, written, ack, x);
    TruthfulEdges(plan, got, written, ack);
    HolesExact(ack);
    MaxEndBounds(ack.ranges);
  }
}
