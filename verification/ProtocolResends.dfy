/** What an arriving acknowledgement makes the sender do: which entries it drops, which frames it sends
    again, and what that leaves pending. */
module ProtocolResends {
  import opened Basics
  import opened Segments
  import opened Sack
  import opened Transfer
  import opened Protocol
  import ProtocolSteps
  import ProtocolTheorems
  import AckFacts
  import Reorder

  // ----- What an acknowledgement drops and sends again -----

  /** The acknowledgement says that byte p is missing below something that was received. */
  ghost predicate Missing(ack: Ack, p: nat) {
    && ack.ackSeq <= p
    && (forall i :: 0 <= i < |ack.ranges| ==> !(ack.ranges[i].start <= p < ack.ranges[i].end))
    && exists i :: 0 <= i < |ack.ranges| && p < ack.ranges[i].end
  }

  /** All of the entry has arrived: it ends by the cumulative point or lies in one range. */
  ghost predicate Acknowledged(ack: Ack, e: Entry) {
    var lo, hi := e.frame.seq_, e.frame.seq_ + |e.frame.payload|;
    || hi <= ack.ackSeq
    || exists i :: 0 <= i < |ack.ranges| && ack.ranges[i].start <= lo && hi <= ack.ranges[i].end
  }

  /** The entry carries data, each byte of which is missing, and it was not sent for 50 ms. */
  ghost predicate Overdue(ack: Ack, e: Entry, now: int) {
    && e.frame.payload != []
    && (forall p :: e.frame.seq_ <= p < e.frame.seq_ + |e.frame.payload| ==> Missing(ack, p))
    && (e.lastSend == None || now - e.lastSend.value >= 50_000_000)
  }

  ghost predicate SentAgain(ack: Ack, e: Entry, now: int, refused: set<nat>) {
    Overdue(ack, e, now) && e.frame.seq_ !in refused
  }

  ghost predicate AscendingFrames(frames: seq<DataFrame>) {
    forall i, j :: 0 <= i < j < |frames| ==> frames[i].seq_ < frames[j].seq_
  }

  ghost predicate AscendingEntries(entries: seq<Entry>) {
    forall i, j :: 0 <= i < j < |entries| ==> entries[i].frame.seq_ < entries[j].frame.seq_
  }

  /** In a truthful acknowledgement the bytes of a segment are missing together. */
  lemma MissingTogether(plan: seq<Chunk>, got: set<nat>, written: nat, ack: Ack, x: nat)
    requires AckFacts.Truthful(plan, got, written, ack)
    requires x < |plan| && plan[x].data != []
    ensures AckFacts.InsideHole(plan, ack, x)
       <==> forall p :: Off(plan, x) <= p < Off(plan, x + 1) ==> Missing(ack, p)
  {
    AckFacts.FirstByte(plan, got, written, ack, x);
    forall p: nat
      ensures Missing(ack, p) <==> InRanges(Holes(ack), p)
    {
      MissingIsHole(plan, got, written, ack, p);
    }
    if AckFacts.InsideHole(plan, ack, x) {
      var i :| 0 <= i < |Holes(ack)|
            && Holes(ack)[i].start <= Off(plan, x) && Off(plan, x + 1) <= Holes(ack)[i].end;
      forall p | Off(plan, x) <= p < Off(plan, x + 1)
        ensures Missing(ack, p)
      {
        assert Holes(ack)[i].start <= p < Holes(ack)[i].end;
      }
    } else {
      assert !Missing(ack, Off(plan, x));
    }
  }

  lemma MissingIsHole(plan: seq<Chunk>, got: set<nat>, written: nat, ack: Ack, p: nat)
    requires AckFacts.Truthful(plan, got, written, ack)
    ensures Missing(ack, p) <==> InRanges(Holes(ack), p)
  {
    AckFacts.TruthfulEdges(plan, got, written, ack);
    HolesExact(ack);
    MaxEndBounds(ack.ranges);
    if p < MaxEnd(ack.ranges) {
      var i := ProtocolTheorems.MaxEndReached(ack.ranges, p);
    }
  }

  /** The tests of onAck on one pending entry mean what they should. */
  lemma EntryTests(c: Config, q: nat, unsent: set<nat>, got: set<nat>, written: nat, ack: Ack, e: Entry, now: int)
    requires ValidConfig(c) && KnownFrame(c.plan, q, unsent, e.frame)
    requires AckFacts.Truthful(c.plan, got, written, ack)
    ensures Covers(ack, e.frame.seq_, EndOf(e.frame)) <==> Acknowledged(ack, e)
    ensures Due(e, Holes(ack), now) <==> Overdue(ack, e, now)
  {
    var x := ProtocolSteps.KnownSpan(c, q, unsent, e.frame);
    if c.plan[x].data != [] {
      AckFacts.MeetsIsInside(c.plan, got, written, ack, x);
      MissingTogether(c.plan, got, written, ack, x);
      assert AckFacts.InsideHole(c.plan, ack, x) ==> Holes(ack) != [];
    }
  }

  /** Frames of a list of entries that are not refused, as they are sent. */
  lemma {:induction false} FramesSentExact(entries: seq<Entry>, refused: set<nat>)
    requires AscendingEntries(entries)
    ensures var frames := FramesSent(entries, refused);
            && AscendingFrames(frames)
            && (forall f :: f in frames <==> f.seq_ !in refused && exists e :: e in entries && e.frame == f)
    decreases |entries|
  {
    if entries != [] {
      var front, last := entries[..|entries| - 1], entries[|entries| - 1];
      FramesSentExact(front, refused);
      assert entries == front + [last];
      FramesSentNext(front, last, refused, entries);
    }
  }

  lemma FramesSentNext(front: seq<Entry>, last: Entry, refused: set<nat>, entries: seq<Entry>)
    requires entries == front + [last] && AscendingEntries(entries)
    requires AscendingFrames(FramesSent(front, refused))
    requires forall f :: f in FramesSent(front, refused) <==>
               f.seq_ !in refused && exists e :: e in front && e.frame == f
    ensures AscendingFrames(FramesSent(entries, refused))
    ensures forall f :: f in FramesSent(entries, refused) <==>
              f.seq_ !in refused && exists e :: e in entries && e.frame == f
  {
    var before, after := FramesSent(front, refused), FramesSent(entries, refused);
    assert entries[..|entries| - 1] == front;
    forall i | 0 <= i < |before|
      ensures before[i].seq_ < last.frame.seq_
    {
      assert before[i] in before;
      var e :| e in front && e.frame == before[i];
      var j :| 0 <= j < |front| && front[j] == e;
      assert entries[j].frame.seq_ < entries[|front|].frame.seq_;
    }
    forall f
      ensures f in after <==> f.seq_ !in refused && exists e :: e in entries && e.frame == f
    {
      if f in after {
        if f in before {
          var e :| e in front && e.frame == f;
          assert e in entries;
        } else {
          assert last in entries;
        }
      }
      if e :| e in entries && e.frame == f && f.seq_ !in refused {
        assert e in front || e == last;
      }
    }
  }

  lemma {:induction false} KeptAscends(pending: seq<Entry>, ack: Ack)
    requires AscendingEntries(pending)
    ensures AscendingEntries(Kept(pending, ack))
    ensures forall e :: e in Kept(pending, ack) ==> e in pending
    decreases |pending|
  {
    if pending != [] {
      var front, last := pending[..|pending| - 1], pending[|pending| - 1];
      KeptAscends(front, ack);
      assert pending == front + [last];
      AscendsNext(Kept(front, ack), front, last);
    }
  }

  lemma {:induction false} DueAscends(entries: seq<Entry>, holes: seq<Range>, now: int)
    requires AscendingEntries(entries)
    ensures AscendingEntries(DueOf(entries, holes, now))
    ensures forall e :: e in DueOf(entries, holes, now) ==> e in entries
    decreases |entries|
  {
    if entries != [] {
      var front, last := entries[..|entries| - 1], entries[|entries| - 1];
      DueAscends(front, holes, now);
      assert entries == front + [last];
      AscendsNext(DueOf(front, holes, now), front, last);
    }
  }

  lemma AscendsNext(some: seq<Entry>, front: seq<Entry>, last: Entry)
    requires AscendingEntries(some) && AscendingEntries(front + [last])
    requires forall e :: e in some ==> e in front
    ensures AscendingEntries(some + [last])
  {
    var all := front + [last];
    forall i | 0 <= i < |some|
      ensures some[i].frame.seq_ < last.frame.seq_
    {
      assert some[i] in front;
      var j :| 0 <= j < |front| && front[j] == some[i];
      assert all[j].frame.seq_ < all[|front|].frame.seq_;
    }
  }

  /** An entry as the acknowledgement leaves it. */
  ghost function Renewed(ack: Ack, e: Entry, now: int, refused: set<nat>): Entry {
    if SentAgain(ack, e, now, refused) then e.(lastSend := Some(now)) else e
  }

  /** The frame of a pending entry that is sent again. */
  ghost predicate Resent(ack: Ack, pending: seq<Entry>, now: int, refused: set<nat>, f: DataFrame) {
    exists e :: e in pending && SentAgain(ack, e, now, refused) && e.frame == f
  }

  /** An entry that stays pending, with its new send time if it is sent again. */
  ghost predicate Left(ack: Ack, pending: seq<Entry>, now: int, refused: set<nat>, e': Entry) {
    exists e :: e in pending && !Acknowledged(ack, e) && e' == Renewed(ack, e, now, refused)
  }

  /** Some retransmission is refused by the transport. */
  ghost predicate SomeRefused(ack: Ack, pending: seq<Entry>, now: int, refused: set<nat>) {
    exists e :: e in pending && Overdue(ack, e, now) && e.frame.seq_ in refused
  }

  ghost predicate Known(c: Config, q: nat, unsent: set<nat>, got: set<nat>, written: nat, ack: Ack, pending: seq<Entry>)
  {
    && ValidConfig(c) && AckFacts.Truthful(c.plan, got, written, ack)
    && PendingOk(c.plan, q, unsent, pending)
  }

  lemma EntryKept(
      c: Config, q: nat, unsent: set<nat>, got: set<nat>, written: nat, ack: Ack, pending: seq<Entry>,
      e: Entry, now: int)
    requires Known(c, q, unsent, got, written, ack, pending) && e in pending
    ensures e in Kept(pending, ack) <==> !Acknowledged(ack, e)
    ensures e in DueOf(Kept(pending, ack), Holes(ack), now) <==> Overdue(ack, e, now)
    ensures Due(e, Holes(ack), now) <==> Overdue(ack, e, now)
    ensures Overdue(ack, e, now) ==> !Acknowledged(ack, e)
  {
    var i :| 0 <= i < |pending| && pending[i] == e;
    EntryTests(c, q, unsent, got, written, ack, e, now);
    ProtocolSteps.KeptHas(pending, ack, e);
    ProtocolSteps.DueHas(Kept(pending, ack), Holes(ack), now, e);
    if Overdue(ack, e, now) {
      assert Missing(ack, e.frame.seq_);
    }
  }

  /** What onAck sends and what it leaves pending. */
  lemma ResendExact(
      c: Config, q: nat, unsent: set<nat>, got: set<nat>, written: nat, ack: Ack, pending: seq<Entry>,
      now: int, refused: set<nat>, resend: seq<Entry>)
    requires Known(c, q, unsent, got, written, ack, pending)
    requires resend == DueOf(Kept(pending, ack), Holes(ack), now)
    ensures AscendingFrames(FramesSent(resend, refused))
    ensures forall f :: f in FramesSent(resend, refused) <==> Resent(ack, pending, now, refused, f)
    ensures AnyRefused(resend, refused) <==> SomeRefused(ack, pending, now, refused)
  {
    KeptAscends(pending, ack);
    DueAscends(Kept(pending, ack), Holes(ack), now);
    FramesSentExact(resend, refused);
    forall e
      ensures e in resend <==> e in pending && Overdue(ack, e, now)
    {
      if e in pending {
        EntryKept(c, q, unsent, got, written, ack, pending, e, now);
      }
    }
    forall f
      ensures f in FramesSent(resend, refused) <==> Resent(ack, pending, now, refused, f)
    {
      if e :| e in pending && SentAgain(ack, e, now, refused) && e.frame == f {
        assert e in resend;
      }
      if f in FramesSent(resend, refused) {
        var e :| e in resend && e.frame == f;
        assert e in pending && SentAgain(ack, e, now, refused);
      }
    }
    RefusedExact(ack, pending, now, refused, resend);
  }

  lemma RefusedExact(ack: Ack, pending: seq<Entry>, now: int, refused: set<nat>, resend: seq<Entry>)
    requires forall e :: e in resend <==> e in pending && Overdue(ack, e, now)
    ensures AnyRefused(resend, refused) <==> SomeRefused(ack, pending, now, refused)
  {
    if e :| e in pending && Overdue(ack, e, now) && e.frame.seq_ in refused {
      assert e in resend;
    }
    if i :| 0 <= i < |resend| && resend[i].frame.seq_ in refused {
      assert resend[i] in resend;
    }
  }

  lemma RenewOne(ack: Ack, e: Entry, now: int, refused: set<nat>)
    requires Due(e, Holes(ack), now) <==> Overdue(ack, e, now)
    ensures Restamped(e, Holes(ack), now, refused) == Renewed(ack, e, now, refused)
  {
  }

  lemma RenewAscends(kept: seq<Entry>, holes: seq<Range>, now: int, refused: set<nat>)
    requires AscendingEntries(kept)
    ensures AscendingEntries(RestampAll(kept, holes, now, refused))
  {
  }

  lemma RenewAt(
      c: Config, q: nat, unsent: set<nat>, got: set<nat>, written: nat, ack: Ack, pending: seq<Entry>,
      now: int, refused: set<nat>, kept: seq<Entry>, i: nat)
    requires Known(c, q, unsent, got, written, ack, pending)
    requires kept == Kept(pending, ack) && i < |kept|
    ensures Restamped(kept[i], Holes(ack), now, refused) == Renewed(ack, kept[i], now, refused)
  {
    var e := kept[i];
    assert e in kept;
    ProtocolSteps.KeptHas(pending, ack, e);
    EntryKept(c, q, unsent, got, written, ack, pending, e, now);
    RenewOne(ack, e, now, refused);
  }

  lemma RenewAll(
      c: Config, q: nat, unsent: set<nat>, got: set<nat>, written: nat, ack: Ack, pending: seq<Entry>,
      now: int, refused: set<nat>, kept: seq<Entry>, pending': seq<Entry>)
    requires Known(c, q, unsent, got, written, ack, pending)
    requires kept == Kept(pending, ack) && pending' == RestampAll(kept, Holes(ack), now, refused)
    ensures forall i :: 0 <= i < |kept| ==> pending'[i] == Renewed(ack, kept[i], now, refused)
  {
    forall i | 0 <= i < |kept|
      ensures pending'[i] == Renewed(ack, kept[i], now, refused)
    {
      RenewAt(c, q, unsent, got, written, ack, pending, now, refused, kept, i);
    }
  }

  lemma KeptExact(
      c: Config, q: nat, unsent: set<nat>, got: set<nat>, written: nat, ack: Ack, pending: seq<Entry>, now: int)
    requires Known(c, q, unsent, got, written, ack, pending)
    ensures forall e :: e in Kept(pending, ack) <==> e in pending && !Acknowledged(ack, e)
  {
    forall e
      ensures e in Kept(pending, ack) <==> e in pending && !Acknowledged(ack, e)
    {
      ProtocolSteps.KeptHas(pending, ack, e);
      if e in pending {
        EntryKept(c, q, unsent, got, written, ack, pending, e, now);
      }
    }
  }

  lemma RenewMembers(
      ack: Ack, pending: seq<Entry>, now: int, refused: set<nat>, kept: seq<Entry>, pending': seq<Entry>)
    requires |pending'| == |kept|
    requires forall i :: 0 <= i < |kept| ==> pending'[i] == Renewed(ack, kept[i], now, refused)
    requires forall e :: e in kept <==> e in pending && !Acknowledged(ack, e)
    ensures forall e' :: e' in pending' <==> Left(ack, pending, now, refused, e')
  {
    forall e'
      ensures e' in pending' <==> Left(ack, pending, now, refused, e')
    {
      if e :| e in pending && !Acknowledged(ack, e) && e' == Renewed(ack, e, now, refused) {
        assert e in kept;
        var i :| 0 <= i < |kept| && kept[i] == e;
        assert pending'[i] == e';
      }
      if e' in pending' {
        var i :| 0 <= i < |pending'| && pending'[i] == e';
        assert kept[i] in kept;
      }
    }
  }

  lemma RenewExact(
      c: Config, q: nat, unsent: set<nat>, got: set<nat>, written: nat, ack: Ack, pending: seq<Entry>,
      now: int, refused: set<nat>, pending': seq<Entry>)
    requires Known(c, q, unsent, got, written, ack, pending)
    requires pending' == RestampAll(Kept(pending, ack), Holes(ack), now, refused)
    ensures AscendingEntries(pending')
    ensures forall e' :: e' in pending' <==> Left(ack, pending, now, refused, e')
  {
    var kept := Kept(pending, ack);
    KeptAscends(pending, ack);
    RenewAscends(kept, Holes(ack), now, refused);
    KeptExact(c, q, unsent, got, written, ack, pending, now);
    RenewAll(c, q, unsent, got, written, ack, pending, now, refused, kept, pending');
    RenewMembers(ack, pending, now, refused, kept, pending');
  }

  /** In every run an acknowledgement that arrives makes the sender send again, in order and each once,
      exactly the frames of the pending entries that carry data, are missing between what it reports,
      were not sent for 50 ms, and are not refused. Exactly these get the new send time; entries that
      it reports as received are dropped, and every other one stays as it was. */
  lemma AckResends(c: Config, s: State, i: nat, ack: Ack, now: int, refused: set<nat>, s': State)
    requires ValidConfig(c) && Reachable(c, s) && Takes(c, s, DeliverAck(i, now, refused), s')
    requires ack == s.acks[i]
    ensures |s.data| <= |s'.data| && s'.data[..|s.data|] == s.data
    ensures AscendingFrames(s'.data[|s.data|..])
    ensures forall f :: f in s'.data[|s.data|..] <==> Resent(ack, s.tx.pending, now, refused, f)
    ensures AscendingEntries(s'.tx.pending)
    ensures forall e' :: e' in s'.tx.pending <==> Left(ack, s.tx.pending, now, refused, e')
    ensures s'.tx.closed <==> s.tx.closed || SomeRefused(ack, s.tx.pending, now, refused)
  {
    ProtocolSteps.ReachableInv(c, s);
    AckEffect(c, s, i, now, refused, ack, s');
  }

  lemma AckEffect(c: Config, s: State, i: nat, now: int, refused: set<nat>, ack: Ack, s': State)
    requires ValidConfig(c) && Inv(c, s) && i < |s.acks| && ack == s.acks[i]
    requires s' == AfterDeliverAck(s, i, now, refused)
    ensures |s.data| <= |s'.data| && s'.data[..|s.data|] == s.data
    ensures AscendingFrames(s'.data[|s.data|..])
    ensures forall f :: f in s'.data[|s.data|..] <==> Resent(ack, s.tx.pending, now, refused, f)
    ensures AscendingEntries(s'.tx.pending)
    ensures forall e' :: e' in s'.tx.pending <==> Left(ack, s.tx.pending, now, refused, e')
    ensures s'.tx.closed <==> s.tx.closed || SomeRefused(ack, s.tx.pending, now, refused)
  {
    var h, kept := s.h, Kept(s.tx.pending, ack);
    var resend := DueOf(kept, Holes(ack), now);
    ResendExact(c, h.queued, h.unsent, h.got, h.written, ack, s.tx.pending, now, refused, resend);
    RenewExact(c, h.queued, h.unsent, h.got, h.written, ack, s.tx.pending, now, refused, s'.tx.pending);
    assert s'.data[|s.data|..] == FramesSent(resend, refused);
  }
}
