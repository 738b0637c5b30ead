/** One endpoint's stream object (internal/overlay/stream.go and the sending side of
    internal/overlay/session.go), proved against the functions of Transfer. What the transport
    does to a frame is a parameter: `sent` or `refused` say which sends it refuses. */
module Streams {
  import opened Basics
  import opened Segments
  import opened Sack
  import T = Transfer
  import opened Windows
  import opened ReorderBuffers

  /** The filtering loop of onAck: keeps the entries that the acknowledgement does not cover. */
  method FilterPending(pending: seq<T.Entry>, ack: Ack) returns (filtered: seq<T.Entry>)
    ensures filtered == T.Kept(pending, ack)
  {
    filtered := [];
    for i := 0 to |pending|
      invariant filtered == T.Kept(pending[..i], ack)
    {
      var entry := pending[i];
      assert pending[..i + 1][..i] == pending[..i];
      if !Covers(ack, entry.frame.seq_, T.EndOf(entry.frame)) {
        filtered := filtered + [entry];
      }
    }
    assert pending[..|pending|] == pending;
  }

  lemma DueNext(entries: seq<T.Entry>, holes: seq<Range>, now: int, refused: set<nat>, i: nat)
    requires i < |entries|
    ensures var before := T.DueOf(entries[..i], holes, now);
            var after := T.DueOf(entries[..i + 1], holes, now);
            var e := entries[i];
            && after == before + (if T.Due(e, holes, now) then [e] else [])
            && T.FramesSent(after, refused)
            == T.FramesSent(before, refused)
               + (if T.Due(e, holes, now) && e.frame.seq_ !in refused then [e.frame] else [])
            && (T.AnyRefused(after, refused) <==>
                  T.AnyRefused(before, refused) || (T.Due(e, holes, now) && e.frame.seq_ in refused))
  {
    assert entries[..i + 1][..i] == entries[..i];
    var before, e := T.DueOf(entries[..i], holes, now), entries[i];
    if T.Due(e, holes, now) {
      AddRefused(before, e, refused);
    } else {
      assert before + [] == before;
    }
  }

  lemma AddRefused(before: seq<T.Entry>, e: T.Entry, refused: set<nat>)
    ensures T.FramesSent(before + [e], refused)
         == T.FramesSent(before, refused) + (if e.frame.seq_ in refused then [] else [e.frame])
    ensures T.AnyRefused(before + [e], refused) <==>
            T.AnyRefused(before, refused) || e.frame.seq_ in refused
  {
    var after := before + [e];
    assert after[..|before|] == before;
    assert after[|before|] == e;
    if j :| 0 <= j < |before| && before[j].frame.seq_ in refused {
      assert after[j] == before[j];
    }
  }

  /** The retransmission loop of onAck: every due entry is sent again, and one that reaches a
      subflow gets the new send time. */
  method RetransmitDue(entries: seq<T.Entry>, holes: seq<Range>, now: int, refused: set<nat>)
    returns (stamped: seq<T.Entry>, frames: seq<T.DataFrame>, failed: bool)
    ensures stamped == T.RestampAll(entries, holes, now, refused)
    ensures frames == T.FramesSent(T.DueOf(entries, holes, now), refused)
    ensures failed == T.AnyRefused(T.DueOf(entries, holes, now), refused)
  {
    stamped, frames, failed := entries, [], false;
    for i := 0 to |entries|
      invariant |stamped| == |entries|
      invariant forall k :: 0 <= k < i ==> stamped[k] == T.Restamped(entries[k], holes, now, refused)
      invariant forall k :: i <= k < |entries| ==> stamped[k] == entries[k]
      invariant frames == T.FramesSent(T.DueOf(entries[..i], holes, now), refused)
      invariant failed == T.AnyRefused(T.DueOf(entries[..i], holes, now), refused)
    {
      DueNext(entries, holes, now, refused, i);
      var entry := entries[i];
      if T.Due(entry, holes, now) {
        if entry.frame.seq_ in refused {
          failed := true;
        } else {
          frames := frames + [entry.frame];
          stamped := stamped[i := entry.(lastSend := Some(now))];
        }
      }
    }
    assert entries[..|entries|] == entries;
  }

  /** The search loop of onSendFailure. */
  method RemoveEntry(pending: seq<T.Entry>, entry: T.Entry) returns (r: seq<T.Entry>)
    ensures r == T.RemoveFirst(pending, entry)
  {
    for i := 0 to |pending|
      invariant forall j :: 0 <= j < i ==> pending[j] != entry
    {
      if pending[i] == entry {
        assert T.FirstAt(pending, entry, i);
        assert forall k: nat :: T.FirstAt(pending, entry, k) ==> k == i;
        return pending[..i] + pending[i + 1..];
      }
    }
    assert forall k: nat :: !T.FirstAt(pending, entry, k);
    r := pending;
  }

  datatype QueueOutcome =
    | Closed
    | Queued(entry: T.Entry)

  class Stream {
    const window: Window
    const reorder: ReorderBuffer
    var sendSeq: nat
    var sendClosed: bool
    var inflight: Uint32
    var pending: seq<T.Entry>
    var recvSeq: nat
    var inbound: seq<Chunk>
    var done: bool
    var localDone: bool
    var remoteDone: bool

    /** A stream is done exactly when its window is closed: both happen in fail. */
    ghost predicate Valid()
      reads this, window
    {
      done == window.closed
    }

    ghost function Tx(): T.Sender
      reads this, window
    {
      T.Sender(sendSeq, sendClosed, window.available, window.closed, pending, inflight)
    }

    ghost function Rx(): T.Receiver
      reads this, reorder
    {
      T.Receiver(reorder.State(), inbound, recvSeq, done, remoteDone)
    }

    constructor (initialWindow: Uint32)
      ensures Valid() && fresh(window) && fresh(reorder)
      ensures Tx() == T.Start(initialWindow) && Rx() == T.Listen(T.ReorderCapacity(initialWindow))
      ensures !localDone
    {
      var capacity: Uint32 := initialWindow;
      if capacity == 0 {
        capacity := 0x4_0000;
      }
      if capacity > 0xFFFF_FFFF / 2 {
        capacity := 0xFFFF_FFFF;
      } else {
        capacity := capacity * 2;
      }
      window := new Window(initialWindow);
      reorder := new ReorderBuffer(capacity);
      sendSeq, sendClosed, inflight, pending := 0, false, 0, [];
      recvSeq, inbound, done, localDone, remoteDone := 0, [], false, false, false;
    }

    method Fail()
      modifies this`done, window
      ensures Valid()
      ensures Tx() == T.Fail(old(Tx())) && Rx() == old(Rx()).(done := true)
    {
      done := true;
      window.Close();
    }

    /** queueFrame, from the call to its return: a call that Acquire keeps waiting has not
        returned yet. */
    method QueueFrame(payload: seq<Byte>, end: bool) returns (r: QueueOutcome)
      requires Valid()
      requires !T.QueueFrame(Tx(), payload, end).Blocked?
      modifies this`sendSeq, this`sendClosed, this`inflight, this`pending, window
      ensures Valid() && Rx() == old(Rx())
      ensures match T.QueueFrame(old(Tx()), payload, end)
              case Refused(tx) => r == Closed && Tx() == tx
              case Queued(tx, entry) => r == Queued(entry) && Tx() == tx
      ensures old(window.closed) && 0 < |payload| < TWO_TO_32 ==>
                && r == Closed && sendSeq == old(sendSeq) && pending == old(pending)
                && inflight == old(inflight) && window.available == old(window.available)
    {
      var length := U32(|payload|);
      if sendClosed {
        return Closed;
      }
      if end {
        sendClosed := true;
      }
      var acquired := window.Acquire(length);
      if acquired.WindowClosed? {
        return Closed;
      }
      var entry := T.Entry(T.DataFrame(sendSeq, payload, end), None);
      sendSeq := sendSeq + length;
      pending := pending + [entry];
      if length > 0 {
        inflight := U32(inflight + length);
      }
      r := Queued(entry);
    }

    method OnSendFailure(entry: T.Entry)
      requires Valid()
      modifies this`pending, this`inflight, window
      ensures Valid() && Rx() == old(Rx())
      ensures Tx() == T.OnSendFailure(old(Tx()), entry)
    {
      pending := RemoveEntry(pending, entry);
      var length := T.Length(entry.frame);
      if length > 0 {
        window.Release(length);
        inflight := T.Deduct(inflight, length);
      }
    }

    /** sendData: queue a read and hand its frame to the scheduler's choice of subflow. */
    method SendData(payload: seq<Byte>, end: bool, sent: bool, now: int)
      returns (accepted: bool, frames: seq<T.DataFrame>)
      requires Valid()
      requires !T.QueueFrame(Tx(), payload, end).Blocked?
      modifies this`sendSeq, this`sendClosed, this`inflight, this`pending, window
      ensures Valid() && Rx() == old(Rx())
      ensures match T.QueueFrame(old(Tx()), payload, end)
              case Refused(tx) => !accepted && frames == [] && Tx() == tx
              case Queued(tx, entry) =>
                if sent then accepted && frames == [entry.frame] && Tx() == T.Sent(tx, now)
                else !accepted && frames == [] && Tx() == T.OnSendFailure(tx, entry)
    {
      var r := QueueFrame(payload, end);
      if r.Closed? {
        return false, [];
      }
      if !sent {
        OnSendFailure(r.entry);
        return false, [];
      }
      pending := pending[|pending| - 1 := r.entry.(lastSend := Some(now))];
      return true, [r.entry.frame];
    }

    /** onAck; a refused retransmission fails the whole stream. */
    method OnAck(ack: Ack, now: int, refused: set<nat>) returns (frames: seq<T.DataFrame>)
      requires Valid()
      modifies this`pending, this`inflight, this`done, window
      ensures Valid()
      ensures (Tx(), frames) == T.OnAck(old(Tx()), ack, now, refused)
      ensures Rx() == old(Rx()).(done := Tx().closed)
    {
      var holes := ComputeAckHoles(ack);
      var filtered := FilterPending(pending, ack);
      if ack.credit > 0 {
        window.Release(ack.credit);
        inflight := T.Deduct(inflight, ack.credit);
      }
      var failed;
      pending, frames, failed := RetransmitDue(filtered, holes, now, refused);
      if failed {
        Fail();
      }
    }

    /** sendAck: build an acknowledgement when there is something to say and send it. */
    method SendAck(credit: Uint32, sent: bool) returns (acks: seq<Ack>)
      requires Valid()
      modifies this`done, window
      ensures Valid() && Tx() == old(Tx()).(closed := done)
      ensures (Rx(), acks) == T.SendAck(old(Rx()), credit, sent)
    {
      var ranges := reorder.SACKRanges();
      var terminal := reorder.HasTerminal();
      if credit == 0 && |ranges| == 0 && !terminal {
        return [];
      }
      if !sent {
        Fail();
        return [];
      }
      return [Ack(recvSeq, credit, ranges)];
    }

    /** One turn of the loop in onData. In the protocol no frame is refused
        (ProtocolTheorems.NeverOverflows); one that is leaves the buffer as it was, so the loop
        would retry it for ever. */
    method OnData(f: T.DataFrame, sent: bool, keep: nat) returns (retry: bool, acks: seq<Ack>)
      requires Valid()
      modifies this`inbound, this`done, window, reorder
      ensures Valid() && Tx() == old(Tx()).(closed := done)
      ensures T.OnData(old(Rx()), f, sent, keep)
           == if retry then T.Retry(Rx(), acks) else T.Handled(Rx(), acks)
    {
      var overflow, chunks := reorder.Push(f.seq_, f.payload, f.end);
      if overflow {
        acks := SendAck(0, sent);
        return true, acks;
      }
      if |chunks| == 0 {
        acks := SendAck(0, sent);
        return false, acks;
      }
      inbound := inbound + if done then chunks[..Min(keep, |chunks|)] else chunks;
      return false, [];
    }

    /** One turn of the outgoing pump on the next queued chunk; `wrote` bytes of it reach the
        connection. */
    method WriteChunk(wrote: nat, sent: bool) returns (written: seq<Byte>, acks: seq<Ack>)
      requires Valid()
      requires T.CanWrite(Rx()) && wrote <= |inbound[0].data|
      modifies this`inbound, this`recvSeq, this`done, this`remoteDone, window
      ensures Valid() && Tx() == old(Tx()).(closed := done)
      ensures T.WriteResult(Rx(), written, acks) == T.WriteChunk(old(Rx()), wrote, sent)
    {
      var chunk := inbound[0];
      inbound := inbound[1..];
      if wrote < |chunk.data| {
        Fail();
        return chunk.data[..wrote], [];
      }
      recvSeq := recvSeq + |chunk.data|;
      acks := SendAck(U32(|chunk.data|), sent);
      if chunk.end && !done {
        remoteDone := true;
      }
      written := chunk.data;
    }

    /** maybeFinalize: close once the local side has ended and the remote side is written. */
    method MaybeFinalize()
      requires Valid()
      modifies this`done, window
      ensures Valid()
      ensures Tx() == (if localDone && remoteDone then T.Fail(old(Tx())) else old(Tx()))
      ensures Rx() == old(Rx()).(done := Tx().closed)
    {
      if localDone && remoteDone {
        Fail();
      }
    }
  }
}
