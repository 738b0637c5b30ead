/** The mutable reorder buffer, proved against the value-level functions of Reorder and Sack. */
module ReorderBuffers {
  import opened Basics
  import opened Segments
  import opened Sack
  import Reorder

  /** Insertion into an ascending list. */
  method InsertKey(keys: seq<nat>, key: nat) returns (r: seq<nat>)
    requires StrictlyAscending(keys) && key !in keys
    ensures StrictlyAscending(r)
    ensures forall x: nat :: x in r <==> x in keys || x == key
  {
    var i := |keys|;
    while i > 0 && keys[i - 1] > key
      invariant 0 <= i <= |keys|
      invariant i < |keys| ==> keys[i] > key
    {
      i := i - 1;
    }
    if i > 0 {
      assert keys[i - 1] in keys;
    }
    InsertedAscends(keys, key, i);
    r := keys[..i] + [key] + keys[i..];
    forall x: nat
      ensures x in r <==> x in keys || x == key
    {
      InsertedMembers(keys, key, i, x);
    }
  }

  lemma InsertedAscends(keys: seq<nat>, key: nat, i: nat)
    requires StrictlyAscending(keys)
    requires i <= |keys|
    requires i > 0 ==> keys[i - 1] < key
    requires i < |keys| ==> key < keys[i]
    ensures StrictlyAscending(keys[..i] + [key] + keys[i..])
  {
    var r := keys[..i] + [key] + keys[i..];
    forall a, b | 0 <= a < b < |r|
      ensures r[a] < r[b]
    {
      if a < i {
        assert r[a] == keys[a] <= keys[i - 1];
      }
      if b > i {
        assert r[b] == keys[b - 1] >= keys[i];
      }
    }
  }

  lemma InsertedMembers(keys: seq<nat>, key: nat, i: nat, x: nat)
    requires i <= |keys|
    ensures x in keys[..i] + [key] + keys[i..] <==> x in keys || x == key
  {
    assert keys == keys[..i] + keys[i..];
  }

  /** The merging loop of SACKRanges over the sorted keys. */
  method CoalesceKeys(entries: map<nat, Chunk>, keys: seq<nat>) returns (ranges: seq<Range>)
    requires forall i :: 0 <= i < |keys| ==> keys[i] in entries
    ensures ranges == Coalesce(FramesAt(entries, keys))
  {
    ranges := [];
    ghost var frames := FramesAt(entries, keys);
    for i := 0 to |keys|
      invariant ranges == Coalesce(frames[..i])
    {
      assert frames[..i + 1][..i] == frames[..i];
      var start := keys[i];
      var end := start + |entries[start].data|;
      if |ranges| == 0 {
        ranges := [Range(start, end)];
      } else {
        var last := ranges[|ranges| - 1];
        if start <= last.end {
          if end > last.end {
            ranges := ranges[..|ranges| - 1] + [Range(last.start, end)];
          }
        } else {
          ranges := ranges + [Range(start, end)];
        }
      }
    }
    assert frames[..|keys|] == frames;
  }

  /** One turn of the draining loop. */
  lemma PopStep(r: Reorder.Buffer, ready: seq<Chunk>)
    requires r.next in r.entries
    ensures var p := Reorder.Popped(r);
            && |p.entries| < |r.entries|
            && Reorder.PopReady(r).0 == Reorder.PopReady(p).0
            && ready + Reorder.PopReady(r).1 == ready + [r.entries[r.next]] + Reorder.PopReady(p).1
  {
    assert (r.entries - {r.next}).Keys == r.entries.Keys - {r.next};
    assert |r.entries| == |r.entries.Keys|;
    assert |r.entries - {r.next}| == |(r.entries - {r.next}).Keys|;
  }

  class ReorderBuffer {
    var next: nat
    var entries: map<nat, Chunk>
    var buffered: Uint32
    const capacity: Uint32
    var terminal: bool
    var endSeq: nat

    function State(): Reorder.Buffer
      reads this
    {
      Reorder.Buffer(next, entries, buffered, capacity, terminal, endSeq)
    }

    constructor (capacity: Uint32)
      ensures State() == Reorder.Empty(capacity)
    {
      next, entries, buffered := 0, map[], 0;
      this.capacity := capacity;
      terminal, endSeq := false, 0;
    }

    method Push(seq_: nat, payload: seq<Byte>, end: bool) returns (overflow: bool, chunks: seq<Chunk>)
      modifies this
      ensures (if overflow then Reorder.Overflow else Reorder.Accepted(State(), chunks))
           == Reorder.Push(old(State()), seq_, payload, end)
      ensures overflow ==> State() == old(State()) && chunks == []
    {
      if seq_ < next {
        if end && !terminal {
          terminal := true;
          endSeq := seq_ + |payload|;
        }
        return false, [];
      }
      if seq_ in entries {
        var existing := entries[seq_];
        if end && !existing.end {
          entries := entries[seq_ := Chunk(existing.data, true)];
        }
        return false, [];
      }
      var length := U32(|payload|);
      if length > 0 {
        if U32(buffered + length) > capacity {
          return true, [];
        }
        buffered := U32(buffered + length);
      }
      entries := entries[seq_ := Chunk(payload, end)];
      if end {
        terminal := true;
        endSeq := seq_ + |payload|;
      }
      assert State() == Reorder.Stored(old(State()), seq_, payload, end);
      overflow := false;
      chunks := PopReadyLocked();
    }

    /** The body of the draining loop: take out the entry at `next`. */
    method PopOne() returns (entry: Chunk)
      requires next in entries
      modifies this
      ensures entry == old(entries)[old(next)]
      ensures State() == Reorder.Popped(old(State()))
    {
      entry := entries[next];
      entries := entries - {next};
      if |entry.data| > 0 {
        buffered := U32(buffered - U32(|entry.data|));
      }
      next := next + |entry.data|;
      if entry.end {
        next := Max(next, endSeq);
      }
    }

    method PopReadyLocked() returns (ready: seq<Chunk>)
      modifies this
      ensures (State(), ready) == Reorder.PopReady(old(State()))
    {
      ready := [];
      if |entries| == 0 {
        return;
      }
      ghost var goal := Reorder.PopReady(State());
      while next in entries
        invariant goal.0 == Reorder.PopReady(State()).0
        invariant goal.1 == ready + Reorder.PopReady(State()).1
        decreases |entries|
      {
        PopStep(State(), ready);
        var entry := PopOne();
        ready := ready + [entry];
      }
      assert ready + [] == ready;
    }

    method HasTerminal() returns (r: bool)
      ensures r == State().terminal
    {
      r := terminal;
    }

    /** Collects the starts of the non-empty entries in the map's arbitrary order, sorted. */
    method SortedKeys() returns (keys: seq<nat>)
      ensures keys == Ascending(Keys(entries))
    {
      keys := [];
      var rest := entries.Keys;
      while rest != {}
        invariant rest <= entries.Keys
        invariant StrictlyAscending(keys)
        invariant Lists(keys, Keys(entries) - rest)
        decreases rest
      {
        var o :| o in rest;
        rest := rest - {o};
        if |entries[o].data| > 0 {
          assert o !in keys;
          keys := InsertKey(keys, o);
        }
      }
      AscendingUnique(keys, Keys(entries));
    }

    /** The ranges for the next acknowledgement. */
    method SACKRanges() returns (ranges: seq<Range>)
      ensures ranges == SackRanges(State().entries)
    {
      KeysListed(entries);
      ranges := [];
      if |entries| == 0 {
        assert Keys(entries) == {};
        return;
      }
      var keys := SortedKeys();
      ranges := CoalesceKeys(entries, keys);
      if |ranges| > MAX_SACK_RANGES {
        ranges := ranges[..MAX_SACK_RANGES];
      }
    }
  }
}
