/** The sliding-window counter (internal/metrics/sliding.go): a ring of buckets that stands for a
    log of timestamped values. Clock readings are integers and come as parameters; each call
    reads the clock twice, once to roll the ring and once to stamp or to cut off. */
module Sliding {
  import opened Basics

  /** stamp is None in a bucket that has been cleared: the zero time lies before every cutoff. */
  datatype Bucket = Bucket(stamp: Option<int>, value: int)

  const EMPTY := Bucket(None, 0)

  datatype Counter = Counter(window: int, step: int, buckets: seq<Bucket>, index: nat, last: Option<int>)

  ghost predicate Valid(c: Counter) {
    && c.step > 0
    && c.index < |c.buckets|
    && (|c.buckets| > 1 ==> |c.buckets| * c.step <= c.window)
  }

  /** Move on by `steps` buckets, clearing each one entered. */
  function Advance(buckets: seq<Bucket>, index: nat, steps: nat): (r: (seq<Bucket>, nat))
    requires index < |buckets|
    ensures |r.0| == |buckets| && r.1 < |buckets|
    decreases steps
  {
    if steps == 0 then (buckets, index)
    else
      var before := Advance(buckets, index, steps - 1);
      var i := (before.1 + 1) % |buckets|;
      (before.0[i := EMPTY], i)
  }

  function Elapsed(c: Counter, now: int): int {
    if c.last.Some? then now - c.last.value else 0
  }

  function StepsAt(c: Counter, now: int): nat
    requires c.step > 0
  {
    if Elapsed(c, now) < c.step then 0 else Elapsed(c, now) / c.step
  }

  function Rolled(c: Counter, now: int): Counter
    requires c.step > 0 && c.index < |c.buckets|
  {
    if c.last.None? then c.(last := Some(now))
    else if Elapsed(c, now) < c.step then c
    else
      var r := Advance(c.buckets, c.index, StepsAt(c, now));
      c.(buckets := r.0, index := r.1, last := Some(now))
  }

  function Added(c: Counter, now: int, stamp: int, value: int): Counter
    requires c.step > 0 && c.index < |c.buckets|
  {
    var r := Rolled(c, now);
    r.(buckets := r.buckets[r.index := Bucket(Some(stamp), r.buckets[r.index].value + value)])
  }

  predicate Counts(b: Bucket, cutoff: int) {
    b.stamp.Some? && b.stamp.value > cutoff
  }

  function Total(buckets: seq<Bucket>, cutoff: int): int {
    if buckets == [] then 0
    else
      var b := buckets[|buckets| - 1];
      Total(buckets[..|buckets| - 1], cutoff) + if Counts(b, cutoff) then b.value else 0
  }

  function Fresh(window: int, step: int): (c: Counter)
    ensures Valid(c) && c.index == 0 && c.last == None
    ensures forall j :: 0 <= j < |c.buckets| ==> c.buckets[j] == EMPTY
  {
    var step' := if step <= 0 then 500_000_000 else step;
    var count := window / step';
    var n := if count <= 0 then 1 else count;
    Counter(window, step', seq(n, _ => EMPTY), 0, None)
  }

  class SlidingCounter {
    const window: int
    const step: int
    const buckets: array<Bucket>
    var index: nat
    var last: Option<int>

    ghost predicate Ready()
      reads this
    {
      step > 0 && index < buckets.Length
    }

    ghost function State(): Counter
      reads this, buckets
    {
      Counter(window, step, buckets[..], index, last)
    }

    constructor (window: int, step: int)
      ensures Ready() && fresh(buckets) && State() == Fresh(window, step)
    {
      this.window := window;
      var step' := if step <= 0 then 500_000_000 else step;
      this.step := step';
      var bucketCount := window / step';
      if bucketCount <= 0 {
        bucketCount := 1;
      }
      buckets := new Bucket[bucketCount](_ => EMPTY);
      index, last := 0, None;
    }

    method Roll(now: int)
      requires Ready()
      modifies this, buckets
      ensures Ready() && State() == Rolled(old(State()), now)
    {
      if last.None? {
        last := Some(now);
        return;
      }
      var elapsed := now - last.value;
      if elapsed < step {
        return;
      }
      var steps := elapsed / step;
      for i := 0 to steps
        invariant index < buckets.Length && last == old(last)
        invariant (buckets[..], index) == Advance(old(buckets[..]), old(index), i)
      {
        index := (index + 1) % buckets.Length;
        buckets[index] := EMPTY;
      }
      last := Some(now);
    }

    method Add(value: int, now: int, stamp: int)
      requires Ready()
      modifies this, buckets
      ensures Ready() && State() == Added(old(State()), now, stamp, value)
    {
      Roll(now);
      buckets[index] := Bucket(Some(stamp), buckets[index].value + value);
    }

    method Sum(now: int, later: int) returns (total: int)
      requires Ready()
      modifies this, buckets
      ensures Ready() && State() == Rolled(old(State()), now)
      ensures total == Total(State().buckets, later - window)
    {
      Roll(now);
      total := 0;
      var cutoff := later - window;
      for j := 0 to buckets.Length
        invariant total == Total(buckets[..j], cutoff)
      {
        assert buckets[..j + 1][..j] == buckets[..j];
        if Counts(buckets[j], cutoff) {
          total := total + buckets[j].value;
        }
      }
      assert buckets[..buckets.Length] == buckets[..];
    }
  }
}
