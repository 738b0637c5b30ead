/** Selective acknowledgements: the ranges a receiver reports (internal/overlay/reorder.go) and
    what a sender reads from them (internal/overlay/stream.go). */
module Sack {
  import opened Basics
  import opened Segments

  /** The byte positions p with start <= p < end. */
  datatype Range = Range(start: nat, end: nat)

  datatype Ack = Ack(ackSeq: nat, credit: Uint32, ranges: seq<Range>)

  const MAX_SACK_RANGES: nat := 4

  // ----- Building the ranges -----

  /** The start offsets of the stored frames that carry data. */
  function Keys(entries: map<nat, Chunk>): set<nat> {
    set o | o in entries && entries[o].data != []
  }

  ghost function MaxOf(s: set<nat>): (m: nat)
    requires s != {}
    ensures m in s && forall x :: x in s ==> x <= m
  {
    var x :| x in s;
    if s == {x} then x
    else
      assert s - {x} != {} by {
        assert s == (s - {x}) + {x};
      }
      var m := MaxOf(s - {x});
      assert forall y :: y in s ==> y == x || y in s - {x};
      Max(x, m)
  }

  /** The elements of a set in ascending order. */
  ghost function Ascending(s: set<nat>): seq<nat> {
    if s == {} then [] else Ascending(s - {MaxOf(s)}) + [MaxOf(s)]
  }

  ghost predicate StrictlyAscending(keys: seq<nat>) {
    forall i, j :: 0 <= i < j < |keys| ==> keys[i] < keys[j]
  }

  ghost predicate Lists(keys: seq<nat>, s: set<nat>) {
    forall x :: x in keys <==> x in s
  }

  lemma {:induction false} AscendingLists(s: set<nat>)
    ensures StrictlyAscending(Ascending(s)) && Lists(Ascending(s), s)
  {
    if s != {} {
      AscendingLists(s - {MaxOf(s)});
      var front := Ascending(s - {MaxOf(s)});
      forall i | 0 <= i < |front|
        ensures front[i] < MaxOf(s)
      {
        assert front[i] in front;
      }
    }
  }

  lemma AscendingLast(keys: seq<nat>, s: set<nat>)
    requires StrictlyAscending(keys) && Lists(keys, s) && keys != []
    ensures s != {} && MaxOf(s) == keys[|keys| - 1]
  {
    assert keys[|keys| - 1] in keys;
    assert MaxOf(s) in keys;
  }

  lemma ListsFront(keys: seq<nat>, s: set<nat>)
    requires StrictlyAscending(keys) && Lists(keys, s) && keys != []
    ensures Lists(keys[..|keys| - 1], s - {keys[|keys| - 1]})
  {
    var front, last := keys[..|keys| - 1], keys[|keys| - 1];
    assert keys == front + [last];
    forall x: nat
      ensures x in front <==> x in s - {last}
    {
      assert x in keys <==> x in front || x == last;
      assert last !in front;
    }
  }

  /** A strictly ascending list of a set is the only one. */
  lemma {:induction false} AscendingUnique(keys: seq<nat>, s: set<nat>)
    requires StrictlyAscending(keys) && Lists(keys, s)
    ensures keys == Ascending(s)
    decreases |keys|
  {
    if keys == [] {
      assert s == {} by {
        assert forall x :: x in s ==> x in keys;
      }
    } else {
      AscendingLast(keys, s);
      ListsFront(keys, s);
      AscendingUnique(keys[..|keys| - 1], s - {keys[|keys| - 1]});
      assert keys == keys[..|keys| - 1] + [keys[|keys| - 1]];
    }
  }

  /** Adds one frame to coalesced ranges; its start is no smaller than the last range's. */
  function AddFrame(ranges: seq<Range>, frame: Range): seq<Range> {
    if ranges == [] then [frame]
    else
      var last := ranges[|ranges| - 1];
      if frame.start <= last.end then
        if frame.end > last.end then ranges[..|ranges| - 1] + [Range(last.start, frame.end)] else ranges
      else ranges + [frame]
  }

  /** Coalesces frames listed in ascending order. */
  function Coalesce(frames: seq<Range>): seq<Range> {
    if frames == [] then [] else AddFrame(Coalesce(frames[..|frames| - 1]), frames[|frames| - 1])
  }

  /** The stored frames that start at the given keys, as ranges. */
  function FramesAt(entries: map<nat, Chunk>, keys: seq<nat>): (r: seq<Range>)
    requires forall i :: 0 <= i < |keys| ==> keys[i] in entries
    ensures |r| == |keys|
    ensures forall i :: 0 <= i < |keys| ==> r[i] == Range(keys[i], keys[i] + |entries[keys[i]].data|)
  {
    seq(|keys|, i requires 0 <= i < |keys| => Range(keys[i], keys[i] + |entries[keys[i]].data|))
  }

  /** Non-empty frames in strictly ascending order of their starts. */
  ghost predicate InOrder(frames: seq<Range>) {
    && (forall i :: 0 <= i < |frames| ==> frames[i].start < frames[i].end)
    && (forall i, j :: 0 <= i < j < |frames| ==> frames[i].start < frames[j].start)
  }

  lemma KeysListed(entries: map<nat, Chunk>)
    ensures forall i :: 0 <= i < |Ascending(Keys(entries))| ==> Ascending(Keys(entries))[i] in entries
  {
    AscendingLists(Keys(entries));
    var keys := Ascending(Keys(entries));
    forall i | 0 <= i < |keys|
      ensures keys[i] in entries
    {
      assert keys[i] in keys;
    }
  }

  /** The stored frames that carry data, in ascending order. */
  ghost function SortedFrames(entries: map<nat, Chunk>): seq<Range> {
    KeysListed(entries);
    FramesAt(entries, Ascending(Keys(entries)))
  }

  /** All coalesced ranges of the stored data. */
  ghost function AllRanges(entries: map<nat, Chunk>): seq<Range> {
    Coalesce(SortedFrames(entries))
  }

  function FirstRanges(ranges: seq<Range>): seq<Range> {
    ranges[..Min(|ranges|, MAX_SACK_RANGES)]
  }

  /** What the receiver reports: the first four ranges. */
  ghost function SackRanges(entries: map<nat, Chunk>): seq<Range> {
    FirstRanges(AllRanges(entries))
  }

  // ----- The ranges are exact -----

  /** Non-empty ranges in ascending order with a real gap between neighbours. */
  ghost predicate Separated(ranges: seq<Range>) {
    && (forall i :: 0 <= i < |ranges| ==> ranges[i].start < ranges[i].end)
    && (forall i, j :: 0 <= i < j < |ranges| ==> ranges[i].end < ranges[j].start)
  }

  ghost predicate InRanges(ranges: seq<Range>, p: nat) {
    exists i :: 0 <= i < |ranges| && ranges[i].start <= p < ranges[i].end
  }

  /** The last range, if any, starts no later than `start`. */
  ghost predicate StartsBy(ranges: seq<Range>, start: nat) {
    ranges != [] ==> ranges[|ranges| - 1].start <= start
  }

  lemma AddFrameSeparated(ranges: seq<Range>, frame: Range)
    requires Separated(ranges) && frame.start < frame.end
    requires StartsBy(ranges, frame.start)
    ensures Separated(AddFrame(ranges, frame))
    ensures StartsBy(AddFrame(ranges, frame), frame.start)
  {
  }

  lemma InRangesLast(ranges: seq<Range>, p: nat)
    requires ranges != []
    ensures InRanges(ranges, p) <==>
            (InRanges(ranges[..|ranges| - 1], p)
             || ranges[|ranges| - 1].start <= p < ranges[|ranges| - 1].end)
  {
    var front := ranges[..|ranges| - 1];
    if i :| 0 <= i < |front| && front[i].start <= p < front[i].end {
      assert ranges[i].start <= p < ranges[i].end;
    }
    if i :| 0 <= i < |ranges| && ranges[i].start <= p < ranges[i].end {
      if i < |front| {
        assert front[i].start <= p < front[i].end;
      }
    }
  }

  lemma AddFrameCovers(ranges: seq<Range>, frame: Range, p: nat)
    requires frame.start < frame.end && StartsBy(ranges, frame.start)
    ensures InRanges(AddFrame(ranges, frame), p) <==>
            InRanges(ranges, p) || frame.start <= p < frame.end
  {
    var r := AddFrame(ranges, frame);
    InRangesLast(r, p);
    if ranges != [] {
      InRangesLast(ranges, p);
      var front := ranges[..|ranges| - 1];
      assert r[..|r| - 1] == front || r[..|r| - 1] == ranges;
    }
  }

  lemma InOrderFront(frames: seq<Range>)
    requires InOrder(frames) && frames != []
    ensures InOrder(frames[..|frames| - 1])
    ensures StartsBy(frames[..|frames| - 1], frames[|frames| - 1].start)
  {
  }

  lemma {:induction false} CoalesceSeparated(frames: seq<Range>)
    requires InOrder(frames)
    ensures Separated(Coalesce(frames))
    ensures frames == [] ==> Coalesce(frames) == []
    ensures frames != [] ==> StartsBy(Coalesce(frames), frames[|frames| - 1].start)
    decreases |frames|
  {
    if frames != [] {
      var front, frame := frames[..|frames| - 1], frames[|frames| - 1];
      InOrderFront(frames);
      CoalesceSeparated(front);
      AddFrameSeparated(Coalesce(front), frame);
    }
  }

  lemma {:induction false} CoalesceCovers(frames: seq<Range>, p: nat)
    requires InOrder(frames)
    ensures InRanges(Coalesce(frames), p) <==> InRanges(frames, p)
    decreases |frames|
  {
    if frames != [] {
      var front, frame := frames[..|frames| - 1], frames[|frames| - 1];
      InOrderFront(frames);
      CoalesceSeparated(front);
      CoalesceCovers(front, p);
      AddFrameCovers(Coalesce(front), frame, p);
      InRangesLast(frames, p);
    }
  }

  /** Position p is held by some stored frame. */
  ghost predicate Stored(entries: map<nat, Chunk>, p: nat) {
    exists o :: o in entries && o <= p < o + |entries[o].data|
  }

  lemma SortedFramesExact(entries: map<nat, Chunk>)
    ensures InOrder(SortedFrames(entries))
    ensures forall p: nat :: InRanges(SortedFrames(entries), p) <==> Stored(entries, p)
  {
    AscendingLists(Keys(entries));
    var keys := Ascending(Keys(entries));
    forall i | 0 <= i < |keys|
      ensures keys[i] in entries && entries[keys[i]].data != []
    {
      assert keys[i] in keys;
    }
    forall p: nat
      ensures InRanges(SortedFrames(entries), p) <==> Stored(entries, p)
    {
      if o :| o in entries && o <= p < o + |entries[o].data| {
        assert o in Keys(entries);
        assert o in keys;
        var i :| 0 <= i < |keys| && keys[i] == o;
        assert SortedFrames(entries)[i].start <= p < SortedFrames(entries)[i].end;
      }
    }
  }

  /** Before truncation the ranges are sorted, separated by real gaps, and cover exactly the
      stored bytes; what is reported is the first four of them. */
  lemma SackExact(entries: map<nat, Chunk>)
    ensures Separated(AllRanges(entries))
    ensures forall p: nat :: InRanges(AllRanges(entries), p) <==> Stored(entries, p)
    ensures SackRanges(entries) <= AllRanges(entries)
    ensures |SackRanges(entries)| == Min(|AllRanges(entries)|, MAX_SACK_RANGES)
  {
    SortedFramesExact(entries);
    var frames := SortedFrames(entries);
    CoalesceSeparated(frames);
    forall p: nat
      ensures InRanges(AllRanges(entries), p) <==> Stored(entries, p)
    {
      CoalesceCovers(frames, p);
    }
  }

  // ----- Reading the ranges -----

  /** The hole that one more range closes, when `reach` is covered so far. */
  function Gap(reach: nat, r: Range): seq<Range> {
    if r.start > reach then [Range(reach, r.start)] else []
  }

  /** The gaps left by `ranges` above position `cur`. */
  function HolesFrom(cur: nat, ranges: seq<Range>): seq<Range>
    decreases |ranges|
  {
    if ranges == [] then []
    else
      var r := ranges[0];
      Gap(cur, r) + HolesFrom(Max(cur, r.end), ranges[1..])
  }

  function Holes(ack: Ack): seq<Range> {
    HolesFrom(ack.ackSeq, ack.ranges)
  }

  /** Ranges as the wire format admits them, sorted by start. */
  ghost predicate StartSorted(ranges: seq<Range>) {
    && (forall i :: 0 <= i < |ranges| ==> ranges[i].start <= ranges[i].end)
    && (forall i, j :: 0 <= i < j < |ranges| ==> ranges[i].start <= ranges[j].start)
  }

  ghost function MaxEnd(ranges: seq<Range>): nat {
    if ranges == [] then 0 else Max(ranges[0].end, MaxEnd(ranges[1..]))
  }

  /** Disjoint, non-empty and in ascending order, within [lo, hi). */
  ghost predicate Tidy(holes: seq<Range>, lo: nat, hi: nat) {
    && (forall i :: 0 <= i < |holes| ==> lo <= holes[i].start < holes[i].end <= hi)
    && (forall i, j :: 0 <= i < j < |holes| ==> holes[i].end <= holes[j].start)
  }

  lemma InRangesCons(r: Range, rest: seq<Range>, p: nat)
    ensures InRanges([r] + rest, p) <==> r.start <= p < r.end || InRanges(rest, p)
  {
    var all := [r] + rest;
    if r.start <= p < r.end {
      assert all[0].start <= p < all[0].end;
    }
    if i :| 0 <= i < |rest| && rest[i].start <= p < rest[i].end {
      assert all[i + 1].start <= p < all[i + 1].end;
    }
    if i :| 0 <= i < |all| && all[i].start <= p < all[i].end {
      if i > 0 {
        assert rest[i - 1].start <= p < rest[i - 1].end;
      }
    }
  }

  lemma {:induction false} MaxEndBounds(ranges: seq<Range>)
    ensures forall i :: 0 <= i < |ranges| ==> ranges[i].end <= MaxEnd(ranges)
  {
    if ranges != [] {
      MaxEndBounds(ranges[1..]);
      forall i | 0 <= i < |ranges|
        ensures ranges[i].end <= MaxEnd(ranges)
      {
        if i > 0 {
          assert ranges[i] == ranges[1..][i - 1];
        }
      }
    }
  }

  lemma TidyMore(cur: nat, r: Range, tail: seq<Range>, hi: nat)
    requires r.start <= r.end && Tidy(tail, Max(cur, r.end), hi)
    ensures Tidy(Gap(cur, r) + tail, cur, Max(r.end, hi))
  {
    if r.start > cur {
      var first := Range(cur, r.start);
      forall i | 0 < i <= |tail|
        ensures ([first] + tail)[i] == tail[i - 1] && r.end <= tail[i - 1].start < tail[i - 1].end <= hi
      {
      }
    } else {
      assert Gap(cur, r) + tail == tail;
    }
  }

  lemma {:induction false} HolesTidy(cur: nat, ranges: seq<Range>)
    requires StartSorted(ranges)
    ensures Tidy(HolesFrom(cur, ranges), cur, MaxEnd(ranges))
    decreases |ranges|
  {
    if ranges != [] {
      var r, rest := ranges[0], ranges[1..];
      HolesTidy(Max(cur, r.end), rest);
      TidyMore(cur, r, HolesFrom(Max(cur, r.end), rest), MaxEnd(rest));
    }
  }

  /** The holes are exactly what the cumulative point and the ranges leave uncovered. */
  lemma {:induction false} HolesCover(cur: nat, ranges: seq<Range>, p: nat)
    requires StartSorted(ranges)
    ensures InRanges(HolesFrom(cur, ranges), p)
       <==> cur <= p < MaxEnd(ranges) && !InRanges(ranges, p)
    decreases |ranges|
  {
    if ranges != [] {
      var r, rest := ranges[0], ranges[1..];
      var cur' := Max(cur, r.end);
      HolesCover(cur', rest, p);
      assert ranges == [r] + rest;
      InRangesCons(r, rest, p);
      var tail := HolesFrom(cur', rest);
      if r.start > cur {
        InRangesCons(Range(cur, r.start), tail, p);
      } else {
        assert HolesFrom(cur, ranges) == tail;
      }
      if i :| 0 <= i < |rest| && rest[i].start <= p < rest[i].end {
        assert rest[i] == ranges[i + 1];
        assert r.start <= p;
      }
    }
  }

  /** For start-sorted ranges the holes are in order and disjoint, and every position below the
      highest end is in exactly one of [0, ackSeq) or the ranges on one side, a hole on the other. */
  lemma HolesExact(ack: Ack)
    requires StartSorted(ack.ranges)
    ensures Tidy(Holes(ack), ack.ackSeq, MaxEnd(ack.ranges))
    ensures forall p: nat :: p < MaxEnd(ack.ranges) ==>
              (InRanges(Holes(ack), p) <==> !(p < ack.ackSeq || InRanges(ack.ranges, p)))
    ensures forall p: nat :: InRanges(Holes(ack), p) ==> ack.ackSeq <= p < MaxEnd(ack.ranges)
  {
    HolesTidy(ack.ackSeq, ack.ranges);
    forall p: nat
      ensures InRanges(Holes(ack), p)
         <==> ack.ackSeq <= p < MaxEnd(ack.ranges) && !InRanges(ack.ranges, p)
    {
      HolesCover(ack.ackSeq, ack.ranges, p);
    }
  }

  lemma {:induction false} HolesAppend(cur: nat, ranges: seq<Range>, r: Range)
    ensures HolesFrom(cur, ranges + [r]) == HolesFrom(cur, ranges) + Gap(Max(cur, MaxEnd(ranges)), r)
    decreases |ranges|
  {
    var all := ranges + [r];
    if ranges == [] {
      assert all[1..] == [];
      assert HolesFrom(Max(cur, r.end), all[1..]) == [];
      assert HolesFrom(cur, all) == Gap(cur, r);
    } else {
      assert all[1..] == ranges[1..] + [r];
      var cur' := Max(cur, ranges[0].end);
      HolesAppend(cur', ranges[1..], r);
      var tail := HolesFrom(cur', ranges[1..]);
      assert HolesFrom(cur, all) == Gap(cur, ranges[0]) + (tail + Gap(Max(cur', MaxEnd(ranges[1..])), r));
      assert HolesFrom(cur, ranges) == Gap(cur, ranges[0]) + tail;
    }
  }

  lemma {:induction false} MaxEndAppend(ranges: seq<Range>, r: Range)
    ensures MaxEnd(ranges + [r]) == Max(MaxEnd(ranges), r.end)
    decreases |ranges|
  {
    if ranges == [] {
      assert (ranges + [r])[1..] == [];
    } else {
      assert (ranges + [r])[1..] == ranges[1..] + [r];
      MaxEndAppend(ranges[1..], r);
    }
  }

  /** The loop of computeAckHoles: `cur` is raised to each range's end in turn. */
  method ComputeAckHoles(ack: Ack) returns (holes: seq<Range>)
    ensures holes == Holes(ack)
  {
    var cur := ack.ackSeq;
    holes := [];
    for i := 0 to |ack.ranges|
      invariant cur == Max(ack.ackSeq, MaxEnd(ack.ranges[..i]))
      invariant holes == HolesFrom(ack.ackSeq, ack.ranges[..i])
    {
      var r := ack.ranges[i];
      assert ack.ranges[..i + 1] == ack.ranges[..i] + [r];
      HolesAppend(ack.ackSeq, ack.ranges[..i], r);
      MaxEndAppend(ack.ranges[..i], r);
      if r.start > cur {
        holes := holes + [Range(cur, r.start)];
      }
      if r.end > cur {
        cur := r.end;
      }
    }
    assert ack.ranges[..|ack.ranges|] == ack.ranges;
  }

  /** The acknowledgement reports the whole frame [start, end) as received. */
  predicate Covers(ack: Ack, start: nat, end: nat) {
    || ack.ackSeq >= end
    || exists i :: 0 <= i < |ack.ranges| && start >= ack.ranges[i].start && end <= ack.ranges[i].end
  }

  /** The frame [start, end) meets some hole. */
  predicate MeetsHole(holes: seq<Range>, start: nat, end: nat) {
    exists i :: 0 <= i < |holes| && start < holes[i].end && end > holes[i].start
  }
}
