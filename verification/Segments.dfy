/** The partition of one byte stream into frames.

    The sender cuts the bytes it reads into consecutive segments and numbers each one by the
    offset of its first byte. Retransmissions reuse a segment, so every DATA frame of a stream
    is one of these segments. */
module Segments {
  import opened Basics

  /** A piece of the stream; the last piece of a finished stream carries the end mark. */
  datatype Chunk = Chunk(data: seq<Byte>, end: bool)

  /** The pump sends non-empty reads, then one end mark, with the last read or alone. */
  ghost predicate WellFormed(plan: seq<Chunk>) {
    forall i :: 0 <= i < |plan| ==>
      && (plan[i].data == [] ==> plan[i].end)
      && (plan[i].end ==> i == |plan| - 1)
  }

  /** The stream offset at which segment i starts; Off(plan, |plan|) is the stream's length. */
  ghost function Off(plan: seq<Chunk>, i: nat): nat
    requires i <= |plan|
  {
    if i == 0 then 0 else Off(plan, i - 1) + |plan[i - 1].data|
  }

  /** The bytes of the first i segments. */
  ghost function Content(plan: seq<Chunk>, i: nat): (r: seq<Byte>)
    requires i <= |plan|
    ensures |r| == Off(plan, i)
  {
    if i == 0 then [] else Content(plan, i - 1) + plan[i - 1].data
  }

  /** Total length of the segments of the set `got` with index in [lo, hi). */
  ghost function Held(plan: seq<Chunk>, got: set<nat>, lo: nat, hi: nat): nat
    requires lo <= hi <= |plan|
  {
    if lo == hi then 0
    else Held(plan, got, lo, hi - 1) + if hi - 1 in got then |plan[hi - 1].data| else 0
  }

  lemma {:induction false} OffMonotone(plan: seq<Chunk>, i: nat, j: nat)
    requires i <= j <= |plan|
    ensures Off(plan, i) <= Off(plan, j)
    decreases j
  {
    if i < j {
      OffMonotone(plan, i, j - 1);
    }
  }

  /** Every segment has its own start: only the last one can be empty. */
  lemma {:induction false} OffStrict(plan: seq<Chunk>, i: nat, j: nat)
    requires WellFormed(plan)
    requires i < j <= |plan|
    requires j < |plan| || plan[i].data != []
    ensures Off(plan, i) < Off(plan, j)
  {
    OffMonotone(plan, i + 1, j);
  }

  /** Offsets order segments as indices do. */
  lemma OffInjective(plan: seq<Chunk>, i: nat, j: nat)
    requires WellFormed(plan)
    requires i < |plan| && j < |plan|
    ensures Off(plan, i) == Off(plan, j) <==> i == j
    ensures Off(plan, i) < Off(plan, j) <==> i < j
  {
    if i < j {
      OffStrict(plan, i, j);
    } else if j < i {
      OffStrict(plan, j, i);
    }
  }

  /** The segment that starts at offset o, or |plan| when there is none. */
  ghost function IndexAt(plan: seq<Chunk>, o: nat): (x: nat)
    ensures x <= |plan|
    ensures x < |plan| ==> Off(plan, x) == o
  {
    if exists x: nat :: x < |plan| && Off(plan, x) == o
    then (var x: nat :| x < |plan| && Off(plan, x) == o; x)
    else |plan|
  }

  lemma IndexAtOff(plan: seq<Chunk>, x: nat)
    requires WellFormed(plan)
    requires x < |plan|
    ensures IndexAt(plan, Off(plan, x)) == x
  {
    var y := IndexAt(plan, Off(plan, x));
    if y < |plan| {
      OffInjective(plan, x, y);
    }
  }

  lemma EndIsLast(plan: seq<Chunk>, x: nat)
    requires WellFormed(plan)
    requires x < |plan|
    ensures plan[x].end || plan[x].data == [] ==> x == |plan| - 1
    ensures plan[x].end ==> Off(plan, x) + |plan[x].data| == Off(plan, |plan|)
  {
  }

  lemma {:induction false} ContentPrefix(plan: seq<Chunk>, i: nat, j: nat)
    requires i <= j <= |plan|
    ensures Content(plan, i) <= Content(plan, j)
    decreases j
  {
    if i < j {
      ContentPrefix(plan, i, j - 1);
    }
  }

  /** Adding one new segment adds its length, wherever it lies in the range. */
  lemma {:induction false} HeldAdd(plan: seq<Chunk>, got: set<nat>, lo: nat, hi: nat, x: nat)
    requires lo <= hi <= |plan|
    requires x !in got
    ensures Held(plan, got + {x}, lo, hi)
         == Held(plan, got, lo, hi) + if lo <= x < hi then |plan[x].data| else 0
    decreases hi
  {
    if lo < hi {
      HeldAdd(plan, got, lo, hi - 1, x);
    }
  }

  lemma {:induction false} HeldSplit(plan: seq<Chunk>, got: set<nat>, lo: nat, mid: nat, hi: nat)
    requires lo <= mid <= hi <= |plan|
    ensures Held(plan, got, lo, hi) == Held(plan, got, lo, mid) + Held(plan, got, mid, hi)
    decreases hi
  {
    if mid < hi {
      HeldSplit(plan, got, lo, mid, hi - 1);
    }
  }

  lemma HeldShrinks(plan: seq<Chunk>, got: set<nat>, lo: nat, mid: nat)
    requires lo <= mid <= |plan|
    ensures Held(plan, got, mid, |plan|) <= Held(plan, got, lo, |plan|)
  {
    HeldSplit(plan, got, lo, mid, |plan|);
  }

  /** Two sets that share no index hold together at most the bytes of the range. */
  lemma {:induction false} HeldDisjoint(plan: seq<Chunk>, got: set<nat>, other: set<nat>, lo: nat, hi: nat)
    requires lo <= hi <= |plan|
    requires got !! other
    ensures Held(plan, got, lo, hi) + Held(plan, other, lo, hi) <= Off(plan, hi) - Off(plan, lo)
    decreases hi
  {
    if lo < hi {
      HeldDisjoint(plan, got, other, lo, hi - 1);
    }
  }

  /** Segments outside the set add nothing. */
  lemma {:induction false} HeldNone(plan: seq<Chunk>, got: set<nat>, lo: nat, hi: nat)
    requires lo <= hi <= |plan|
    requires forall i :: lo <= i < hi ==> i !in got
    ensures Held(plan, got, lo, hi) == 0
    decreases hi
  {
    if lo < hi {
      HeldNone(plan, got, lo, hi - 1);
    }
  }

  /** A set that has every index of the range holds all of its bytes. */
  lemma {:induction false} HeldAll(plan: seq<Chunk>, got: set<nat>, lo: nat, hi: nat)
    requires lo <= hi <= |plan|
    requires forall i :: lo <= i < hi ==> i in got
    ensures Held(plan, got, lo, hi) == Off(plan, hi) - Off(plan, lo)
    decreases hi
  {
    if lo < hi {
      HeldAll(plan, got, lo, hi - 1);
    }
  }
}
