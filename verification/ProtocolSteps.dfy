/** Every step of the protocol keeps its invariant; one group of lemmas a step. */
module ProtocolSteps {
  import opened Basics
  import opened Segments
  import opened Sack
  import opened Transfer
  import opened Protocol
  import AckFacts
  import Reorder

  // ----- Bags kept as sequences -----

  lemma {:induction false} CreditsAppend(acks: seq<Ack>, more: seq<Ack>)
    ensures Credits(acks + more) == Credits(acks) + Credits(more)
    decreases |more|
  {
    if more == [] {
      assert acks + more == acks;
    } else {
      assert (acks + more)[..|acks + more| - 1] == acks + more[..|more| - 1];
      CreditsAppend(acks, more[..|more| - 1]);
    }
  }

  lemma {:induction false} CreditsWithout(acks: seq<Ack>, i: nat)
    requires i < |acks|
    ensures Credits(acks) == acks[i].credit + Credits(Without(acks, i))
    decreases |acks|
  {
    var last := |acks| - 1;
    if i == last {
      assert Without(acks, i) == acks[..last];
    } else {
      CreditsWithout(acks[..last], i);
      assert Without(acks, i) == Without(acks[..last], i) + [acks[last]];
      assert Without(acks, i)[..last - 1] == Without(acks[..last], i);
    }
  }

  lemma WithoutMember<T>(s: seq<T>, i: nat, j: nat) returns (j': nat)
    requires i < |s| && j < |s| - 1
    ensures j' == (if j < i then j else j + 1) && j' < |s| && j' != i
    ensures Without(s, i)[j] == s[j']
  {
    j' := if j < i then j else j + 1;
  }

  lemma AcksWithout(plan: seq<Chunk>, got: set<nat>, written: nat, acks: seq<Ack>, i: nat)
    requires AcksOk(plan, got, written, acks) && i < |acks|
    ensures AcksOk(plan, got, written, Without(acks, i))
  {
    forall j | 0 <= j < |acks| - 1
      ensures AckFacts.Truthful(plan, got, written, Without(acks, i)[j])
    {
      var j' := WithoutMember(acks, i, j);
    }
  }

  lemma FlightWithout(plan: seq<Chunk>, q: nat, unsent: set<nat>, got: set<nat>, data: seq<DataFrame>, i: nat)
    requires FlightOk(plan, q, unsent, got, data) && i < |data|
    ensures FlightOk(plan, q, unsent, got, Without(data, i))
    ensures data[i].payload == [] ==>
              forall j :: 0 <= j < |data| - 1 ==> Without(data, i)[j].payload != []
  {
    var rest := Without(data, i);
    forall j | 0 <= j < |rest|
      ensures KnownFrame(plan, q, unsent, rest[j])
      ensures rest[j].payload == [] ==> IndexAt(plan, rest[j].seq_) !in got
      ensures data[i].payload == [] ==> rest[j].payload != []
    {
      var j' := WithoutMember(data, i, j);
    }
    forall j, k | 0 <= j < k < |rest|
      ensures rest[j].payload != [] || rest[k].payload != []
    {
      var j' := WithoutMember(data, i, j);
      var k' := WithoutMember(data, i, k);
    }
  }

  // ----- Credit -----

  /** What is charged covers everything handed out: no unsent segment was ever received. */
  lemma SentBytes(c: Config, s: State)
    requires SenderOk(c, s.tx, s.h.queued, s.h.unsent)
    requires BufferOk(c, s.rx.buffer, s.h.got, s.h.ready) && CountsOk(s.h)
    ensures s.h.ready <= s.h.queued
    ensures Held(c.plan, s.h.unsent, 0, s.h.ready) == 0
    ensures Off(c.plan, s.h.ready) + Held(c.plan, s.h.unsent, 0, s.h.queued) <= Off(c.plan, s.h.queued)
    ensures Off(c.plan, s.h.written) <= Off(c.plan, s.h.ready)
  {
    var h := s.h;
    assert h.queued !in h.got;
    HeldSplit(c.plan, h.unsent, 0, h.ready, h.queued);
    HeldNone(c.plan, h.unsent, 0, h.ready);
    HeldDisjoint(c.plan, h.unsent, {}, h.ready, h.queued);
    OffMonotone(c.plan, h.written, h.ready);
  }

  /** Credit on its way back never exceeds what the sender counts as in flight. */
  lemma CreditWithinInflight(c: Config, s: State)
    requires Inv(c, s)
    ensures Credits(s.acks) + s.h.lost <= s.tx.inflight <= c.window
  {
    SentBytes(c, s);
  }

  /** The bytes the buffer would hold after one more segment fit in the sender's window. */
  lemma HeldWithinWindow(c: Config, s: State, x: nat)
    requires Inv(c, s)
    requires x < s.h.queued && x !in s.h.unsent
    ensures Held(c.plan, s.h.got + {x}, s.h.ready, |c.plan|) <= c.window
  {
    var h, plan := s.h, c.plan;
    SentBytes(c, s);
    HeldSplit(plan, h.got + {x}, h.ready, h.queued, |plan|);
    HeldNone(plan, h.got + {x}, h.queued, |plan|);
    HeldSplit(plan, h.unsent, 0, h.ready, h.queued);
    HeldDisjoint(plan, h.got + {x}, h.unsent, h.ready, h.queued);
  }

  // ----- Sending -----

  lemma KnownLater(plan: seq<Chunk>, q: nat, unsent: set<nat>, q': nat, unsent': set<nat>, f: DataFrame)
    requires KnownFrame(plan, q, unsent, f)
    requires q <= q' && forall x :: x in unsent' && x < q ==> x in unsent
    ensures KnownFrame(plan, q', unsent', f)
  {
  }

  lemma PendingLater(plan: seq<Chunk>, q: nat, unsent: set<nat>, unsent': set<nat>, pending: seq<Entry>)
    requires PendingOk(plan, q, unsent, pending)
    requires forall x :: x in unsent' && x < q ==> x in unsent
    ensures PendingOk(plan, q + 1, unsent', pending)
  {
    forall i | 0 <= i < |pending|
      ensures KnownFrame(plan, q + 1, unsent', pending[i].frame)
    {
      KnownLater(plan, q, unsent, q + 1, unsent', pending[i].frame);
    }
  }

  /** A new frame starts above every pending one. */
  lemma PendingBelow(plan: seq<Chunk>, q: nat, unsent: set<nat>, pending: seq<Entry>)
    requires WellFormed(plan) && q < |plan|
    requires PendingOk(plan, q, unsent, pending)
    ensures forall i :: 0 <= i < |pending| ==> pending[i].frame.seq_ < Off(plan, q)
  {
    forall i | 0 <= i < |pending|
      ensures pending[i].frame.seq_ < Off(plan, q)
    {
      OffInjective(plan, IndexAt(plan, pending[i].frame.seq_), q);
    }
  }

  lemma PendingAdd(plan: seq<Chunk>, q: nat, unsent: set<nat>, pending: seq<Entry>, e: Entry)
    requires WellFormed(plan) && q < |plan| && q !in unsent
    requires PendingOk(plan, q, unsent, pending)
    requires e.frame == FrameOf(plan, q)
    ensures PendingOk(plan, q + 1, unsent, pending + [e])
  {
    PendingBelow(plan, q, unsent, pending);
    PendingLater(plan, q, unsent, unsent, pending);
    IndexAtOff(plan, q);
  }

  lemma RemoveNew(pending: seq<Entry>, e: Entry)
    requires forall i :: 0 <= i < |pending| ==> pending[i] != e
    ensures RemoveFirst(pending + [e], e) == pending
  {
    var all := pending + [e];
    assert FirstAt(all, e, |pending|);
    assert forall j :: 0 <= j < |pending| ==> all[j] == pending[j];
    assert forall i: nat :: FirstAt(all, e, i) ==> i == |pending|;
    assert Without(all, |pending|) == pending;
  }

  /** A send that fails undoes everything queueFrame did except the numbering: the window, the
      in-flight count and the pending list are as before. */
  lemma QueueThenFail(tx: Sender, payload: seq<Byte>, end: bool)
    requires QueueFrame(tx, payload, end).Queued?
    requires forall i :: 0 <= i < |tx.pending| ==> tx.pending[i].frame.seq_ < tx.sendSeq
    requires tx.available + tx.inflight < TWO_TO_32
    ensures OnSendFailure(QueueFrame(tx, payload, end).tx, QueueFrame(tx, payload, end).entry)
         == tx.(sendSeq := tx.sendSeq + U32(|payload|), sendClosed := end)
  {
    var q := QueueFrame(tx, payload, end);
    RemoveNew(tx.pending, q.entry);
    if U32(|payload|) > 0 {
      DeductExact(q.tx.inflight, U32(|payload|));
    }
  }

  lemma PendsMore(pending: seq<Entry>, e: Entry)
    ensures Pends(pending + [e], e.frame.seq_)
    ensures forall o :: Pends(pending, o) ==> Pends(pending + [e], o)
  {
    assert (pending + [e])[|pending|] == e;
    forall o | Pends(pending, o)
      ensures Pends(pending + [e], o)
    {
      var i :| 0 <= i < |pending| && pending[i].frame.seq_ == o;
      assert (pending + [e])[i].frame.seq_ == o;
    }
  }

  /** The sender after a successful send, field by field. */
  lemma SendFields(c: Config, s: State, now: int)
    requires ValidConfig(c) && Enabled(c, s, Send(now))
    requires SenderOk(c, s.tx, s.h.queued, s.h.unsent)
    ensures var q, tx' := s.h.queued, AfterSend(c, s, now).tx;
            && tx'.sendSeq == Off(c.plan, q + 1)
            && tx'.sendClosed == c.plan[q].end
            && tx'.closed == s.tx.closed
            && tx'.pending == s.tx.pending + [Entry(FrameOf(c.plan, q), Some(now))]
            && (c.plan[q].end ==> q + 1 == |c.plan|)
            && AfterSend(c, s, now).data == s.data + [FrameOf(c.plan, q)]
  {
    EndIsLast(c.plan, s.h.queued);
  }

  lemma SendKeepsSender(c: Config, s: State, now: int)
    requires ValidConfig(c) && Enabled(c, s, Send(now))
    requires SenderOk(c, s.tx, s.h.queued, s.h.unsent)
    ensures SenderOk(c, AfterSend(c, s, now).tx, s.h.queued + 1, s.h.unsent)
  {
    SendFields(c, s, now);
    PendingAdd(c.plan, s.h.queued, s.h.unsent, s.tx.pending, Entry(FrameOf(c.plan, s.h.queued), Some(now)));
  }

  lemma SendKeepsWindow(c: Config, s: State, now: int)
    requires ValidConfig(c) && Enabled(c, s, Send(now))
    requires SenderOk(c, s.tx, s.h.queued, s.h.unsent)
    requires WindowOk(c, s.tx.available, s.tx.inflight, s.h.queued, s.h.unsent, s.h.released)
    ensures var tx' := AfterSend(c, s, now).tx;
            WindowOk(c, tx'.available, tx'.inflight, s.h.queued + 1, s.h.unsent, s.h.released)
  {
  }

  lemma SendKeepsFlight(plan: seq<Chunk>, q: nat, unsent: set<nat>, got: set<nat>, data: seq<DataFrame>)
    requires WellFormed(plan) && q < |plan|
    requires FlightOk(plan, q, unsent, got, data)
    requires forall x :: x in got || x in unsent ==> x < q
    ensures FlightOk(plan, q + 1, unsent, got, data + [FrameOf(plan, q)])
  {
    IndexAtOff(plan, q);
    forall i | 0 <= i < |data|
      ensures KnownFrame(plan, q + 1, unsent, data[i])
      ensures data[i].payload != []
    {
      KnownLater(plan, q, unsent, q + 1, unsent, data[i]);
      var x := IndexAt(plan, data[i].seq_);
      EndIsLast(plan, x);
    }
  }

  lemma SendKeepsMemory(plan: seq<Chunk>, q: nat, unsent: set<nat>, got: set<nat>, pending: seq<Entry>, e: Entry)
    requires q < |plan| && e.frame == FrameOf(plan, q)
    requires Remembered(plan, q, unsent, got, pending)
    ensures Remembered(plan, q + 1, unsent, got, pending + [e])
  {
    PendsMore(pending, e);
  }

  lemma SendKeepsNetwork(c: Config, s: State, now: int)
    requires ValidConfig(c) && Inv(c, s) && Enabled(c, s, Send(now))
    ensures var s', q := AfterSend(c, s, now), s.h.queued + 1;
            && FlightOk(c.plan, q, s.h.unsent, s.h.got, s'.data)
            && Remembered(c.plan, q, s.h.unsent, s.h.got, s'.tx.pending)
  {
    var q := s.h.queued;
    SendFields(c, s, now);
    SendKeepsFlight(c.plan, q, s.h.unsent, s.h.got, s.data);
    SendKeepsMemory(c.plan, q, s.h.unsent, s.h.got, s.tx.pending, Entry(FrameOf(c.plan, q), Some(now)));
  }

  /** What a send leaves alone keeps its part of the invariant. */
  lemma SendKeepsReceiver(c: Config, s: State, tx': Sender, data': seq<DataFrame>, s': State)
    requires Inv(c, s)
    requires s' == s.(tx := tx', data := data', h := s.h.(queued := s.h.queued + 1))
    requires SenderOk(c, tx', s.h.queued + 1, s.h.unsent)
    requires WindowOk(c, tx'.available, tx'.inflight, s.h.queued + 1, s.h.unsent, s.h.released)
    requires FlightOk(c.plan, s.h.queued + 1, s.h.unsent, s.h.got, data')
    requires Remembered(c.plan, s.h.queued + 1, s.h.unsent, s.h.got, tx'.pending)
    ensures Inv(c, s')
  {
  }

  lemma SendStep(c: Config, s: State, now: int)
    requires ValidConfig(c) && Inv(c, s) && Enabled(c, s, Send(now))
    ensures Inv(c, AfterSend(c, s, now))
  {
    SendKeepsSender(c, s, now);
    SendKeepsWindow(c, s, now);
    SendKeepsNetwork(c, s, now);
    var s' := AfterSend(c, s, now);
    SendKeepsReceiver(c, s, s'.tx, s'.data, s');
  }

  lemma SendFailsKeepsSender(c: Config, s: State)
    requires ValidConfig(c) && Enabled(c, s, SendFails)
    requires SenderOk(c, s.tx, s.h.queued, s.h.unsent)
    requires s.tx.available + s.tx.inflight < TWO_TO_32
    ensures var q, tx' := s.h.queued, AfterSendFails(c, s).tx;
            && tx'.available == s.tx.available && tx'.inflight == s.tx.inflight
            && tx'.pending == s.tx.pending
            && SenderOk(c, tx', q + 1, s.h.unsent + {q})
  {
    var q := s.h.queued;
    PendingBelow(c.plan, q, s.h.unsent, s.tx.pending);
    QueueThenFail(s.tx, c.plan[q].data, c.plan[q].end);
    PendingLater(c.plan, q, s.h.unsent, s.h.unsent + {q}, s.tx.pending);
  }

  lemma SendFailsKeepsFlight(plan: seq<Chunk>, q: nat, unsent: set<nat>, got: set<nat>, data: seq<DataFrame>)
    requires FlightOk(plan, q, unsent, got, data)
    ensures FlightOk(plan, q + 1, unsent + {q}, got, data)
  {
    forall i | 0 <= i < |data|
      ensures KnownFrame(plan, q + 1, unsent + {q}, data[i])
    {
      KnownLater(plan, q, unsent, q + 1, unsent + {q}, data[i]);
    }
  }

  lemma WindowUnsent(c: Config, available: nat, inflight: nat, q: nat, unsent: set<nat>, released: nat)
    requires q < |c.plan| && q !in unsent
    requires WindowOk(c, available, inflight, q, unsent, released)
    ensures WindowOk(c, available, inflight, q + 1, unsent + {q}, released)
  {
    HeldAdd(c.plan, unsent, 0, q, q);
  }

  lemma SendFailsKeepsMemory(plan: seq<Chunk>, q: nat, unsent: set<nat>, got: set<nat>, pending: seq<Entry>)
    requires Remembered(plan, q, unsent, got, pending)
    ensures Remembered(plan, q + 1, unsent + {q}, got, pending)
  {
  }

  lemma SendFailsKeepsCounts(h: History)
    requires CountsOk(h)
    ensures CountsOk(h.(queued := h.queued + 1, unsent := h.unsent + {h.queued}))
  {
  }

  lemma SendFailsKeepsRest(c: Config, s: State)
    requires Inv(c, s) && s.h.queued < |c.plan|
    ensures var h := s.h.(queued := s.h.queued + 1, unsent := s.h.unsent + {s.h.queued});
            && CountsOk(h)
            && WindowOk(c, s.tx.available, s.tx.inflight, h.queued, h.unsent, h.released)
            && FlightOk(c.plan, h.queued, h.unsent, h.got, s.data)
            && Remembered(c.plan, h.queued, h.unsent, h.got, s.tx.pending)
  {
    SendFailsKeepsCounts(s.h);
    WindowUnsent(c, s.tx.available, s.tx.inflight, s.h.queued, s.h.unsent, s.h.released);
    SendFailsKeepsFlight(c.plan, s.h.queued, s.h.unsent, s.h.got, s.data);
    SendFailsKeepsMemory(c.plan, s.h.queued, s.h.unsent, s.h.got, s.tx.pending);
  }

  /** The invariant with a new sender half that differs only in its numbering and flags. */
  lemma SenderReplaced(c: Config, s: State, s': State)
    requires Inv(c, s) && s.h.queued < |c.plan|
    requires s' == s.(tx := s'.tx, h := s.h.(queued := s.h.queued + 1, unsent := s.h.unsent + {s.h.queued}))
    requires SenderOk(c, s'.tx, s.h.queued + 1, s.h.unsent + {s.h.queued})
    requires s'.tx.available == s.tx.available && s'.tx.inflight == s.tx.inflight
    requires s'.tx.pending == s.tx.pending
    ensures Inv(c, s')
  {
    SendFailsKeepsRest(c, s);
  }

  lemma SendFailsStep(c: Config, s: State)
    requires ValidConfig(c) && Inv(c, s) && Enabled(c, s, SendFails)
    ensures Inv(c, AfterSendFails(c, s))
  {
    SendFailsKeepsSender(c, s);
    SenderReplaced(c, s, AfterSendFails(c, s));
  }

  // ----- Steps of the network and of a failing endpoint -----

  lemma LoseDataStep(c: Config, s: State, i: nat)
    requires Inv(c, s) && i < |s.data|
    ensures Inv(c, After(c, s, LoseData(i)))
  {
    FlightWithout(c.plan, s.h.queued, s.h.unsent, s.h.got, s.data, i);
  }

  lemma LoseAckStep(c: Config, s: State, i: nat)
    requires Inv(c, s) && i < |s.acks|
    ensures Inv(c, After(c, s, LoseAck(i)))
  {
    CreditsWithout(s.acks, i);
    AcksWithout(c.plan, s.h.got, s.h.written, s.acks, i);
  }

  lemma SendRefusedStep(c: Config, s: State)
    requires Inv(c, s) && Enabled(c, s, SendRefused)
    ensures Inv(c, After(c, s, SendRefused))
  {
  }

  lemma SenderFailsStep(c: Config, s: State)
    requires Inv(c, s)
    ensures Inv(c, After(c, s, SenderFails))
  {
  }

  lemma ReceiverFailsStep(c: Config, s: State)
    requires Inv(c, s)
    ensures Inv(c, After(c, s, ReceiverFails))
  {
    ContentPrefix(c.plan, s.h.written, s.h.ready);
  }

  // ----- An acknowledgement arrives -----

  lemma {:induction false} KeptOk(plan: seq<Chunk>, q: nat, unsent: set<nat>, pending: seq<Entry>, ack: Ack)
    requires PendingOk(plan, q, unsent, pending)
    ensures PendingOk(plan, q, unsent, Kept(pending, ack))
    ensures forall i :: 0 <= i < |Kept(pending, ack)| ==>
              pending != [] && Kept(pending, ack)[i].frame.seq_ <= pending[|pending| - 1].frame.seq_
    decreases |pending|
  {
    if pending != [] {
      KeptOk(plan, q, unsent, pending[..|pending| - 1], ack);
    }
  }

  /** An entry is kept exactly when the acknowledgement does not cover it. */
  lemma {:induction false} KeptHas(pending: seq<Entry>, ack: Ack, e: Entry)
    ensures e in Kept(pending, ack)
       <==> e in pending && !Covers(ack, e.frame.seq_, EndOf(e.frame))
    decreases |pending|
  {
    if pending != [] {
      var front, last := pending[..|pending| - 1], pending[|pending| - 1];
      KeptHas(front, ack, e);
      assert pending == front + [last];
    }
  }

  lemma {:induction false} DueHas(entries: seq<Entry>, holes: seq<Range>, now: int, e: Entry)
    ensures e in DueOf(entries, holes, now) <==> e in entries && Due(e, holes, now)
    decreases |entries|
  {
    if entries != [] {
      var front, last := entries[..|entries| - 1], entries[|entries| - 1];
      DueHas(front, holes, now, e);
      assert entries == front + [last];
    }
  }

  lemma {:induction false} FramesSentFrom(resend: seq<Entry>, refused: set<nat>, f: DataFrame)
    requires f in FramesSent(resend, refused)
    ensures exists e :: e in resend && e.frame == f
    decreases |resend|
  {
    var front, last := resend[..|resend| - 1], resend[|resend| - 1];
    assert resend == front + [last];
    if f in FramesSent(front, refused) {
      FramesSentFrom(front, refused, f);
    } else {
      assert last in resend && last.frame == f;
    }
  }

  /** Everything an acknowledgement makes the sender send is a known, non-empty frame. */
  lemma ResendKnown(
      plan: seq<Chunk>, q: nat, unsent: set<nat>, pending: seq<Entry>, ack: Ack, now: int, refused: set<nat>)
    requires PendingOk(plan, q, unsent, pending)
    ensures forall f :: f in FramesSent(DueOf(Kept(pending, ack), Holes(ack), now), refused) ==>
              KnownFrame(plan, q, unsent, f) && f.payload != []
  {
    var resend := DueOf(Kept(pending, ack), Holes(ack), now);
    forall f | f in FramesSent(resend, refused)
      ensures KnownFrame(plan, q, unsent, f) && f.payload != []
    {
      FramesSentFrom(resend, refused, f);
      var e :| e in resend && e.frame == f;
      DueHas(Kept(pending, ack), Holes(ack), now, e);
      KeptHas(pending, ack, e);
    }
  }

  lemma FlightMore(
      plan: seq<Chunk>, q: nat, unsent: set<nat>, got: set<nat>, data: seq<DataFrame>, more: seq<DataFrame>)
    requires FlightOk(plan, q, unsent, got, data)
    requires forall f :: f in more ==> KnownFrame(plan, q, unsent, f) && f.payload != []
    ensures FlightOk(plan, q, unsent, got, data + more)
  {
    var all := data + more;
    forall i | 0 <= i < |all|
      ensures KnownFrame(plan, q, unsent, all[i])
      ensures i >= |data| ==> all[i].payload != []
    {
      if i >= |data| {
        assert all[i] in more;
      }
    }
  }

  lemma PendingSameFrames(plan: seq<Chunk>, q: nat, unsent: set<nat>, pending: seq<Entry>, pending': seq<Entry>)
    requires PendingOk(plan, q, unsent, pending)
    requires |pending| == |pending'|
    requires forall i :: 0 <= i < |pending| ==> pending'[i].frame == pending[i].frame
    ensures PendingOk(plan, q, unsent, pending')
    ensures forall o :: Pends(pending, o) ==> Pends(pending', o)
  {
    forall o | Pends(pending, o)
      ensures Pends(pending', o)
    {
      var i :| 0 <= i < |pending| && pending[i].frame.seq_ == o;
      assert pending'[i].frame.seq_ == o;
    }
  }

  /** The offsets of a known pending frame are those of its segment. */
  lemma KnownSpan(c: Config, q: nat, unsent: set<nat>, f: DataFrame) returns (x: nat)
    requires ValidConfig(c)
    requires KnownFrame(c.plan, q, unsent, f)
    ensures x < q && x < |c.plan| && x !in unsent && f == FrameOf(c.plan, x)
    ensures f.seq_ == Off(c.plan, x) && EndOf(f) == Off(c.plan, x + 1)
    ensures Length(f) == |c.plan[x].data|
    ensures x == IndexAt(c.plan, f.seq_)
  {
    x := IndexAt(c.plan, f.seq_);
  }

  /** A dropped non-empty entry has been received in full, however stale the acknowledgement. */
  lemma DroppedReceived(c: Config, s: State, i: nat, e: Entry)
    requires ValidConfig(c) && Inv(c, s) && i < |s.acks|
    requires e in s.tx.pending && e.frame.payload != []
    requires e !in Kept(s.tx.pending, s.acks[i])
    ensures IndexAt(c.plan, e.frame.seq_) in s.h.got
  {
    KeptHas(s.tx.pending, s.acks[i], e);
    var x := KnownSpan(c, s.h.queued, s.h.unsent, e.frame);
    AckFacts.CoveredReceived(c.plan, s.h.got, s.h.written, s.acks[i], x);
  }

  lemma AckKeepsMemory(c: Config, s: State, i: nat)
    requires ValidConfig(c) && Inv(c, s) && i < |s.acks|
    ensures Remembered(c.plan, s.h.queued, s.h.unsent, s.h.got, Kept(s.tx.pending, s.acks[i]))
  {
    var kept := Kept(s.tx.pending, s.acks[i]);
    forall x | 0 <= x < s.h.queued && x < |c.plan| && c.plan[x].data != [] && x !in s.h.unsent
      ensures x in s.h.got || Pends(kept, Off(c.plan, x))
    {
      if x !in s.h.got {
        var j :| 0 <= j < |s.tx.pending| && s.tx.pending[j].frame.seq_ == Off(c.plan, x);
        var e := s.tx.pending[j];
        IndexAtOff(c.plan, x);
        if e !in kept {
          DroppedReceived(c, s, i, e);
        } else {
          var k :| 0 <= k < |kept| && kept[k] == e;
          assert kept[k].frame.seq_ == Off(c.plan, x);
        }
      }
    }
  }

  /** The window after the credit of an acknowledgement: nothing wraps. */
  lemma RefundExact(tx: Sender, n: Uint32)
    requires n <= tx.inflight && tx.available + tx.inflight < TWO_TO_32
    ensures Refund(tx, n) == tx.(available := tx.available + n, inflight := tx.inflight - n)
  {
    if n > 0 {
      DeductExact(tx.inflight, n);
    }
  }

  lemma AckFields(tx: Sender, ack: Ack, now: int, refused: set<nat>)
    requires ack.credit <= tx.inflight && tx.available + tx.inflight < TWO_TO_32
    ensures var tx' := OnAck(tx, ack, now, refused).0;
            && tx'.sendSeq == tx.sendSeq && tx'.sendClosed == tx.sendClosed
            && (tx.closed ==> tx'.closed)
            && tx'.available == tx.available + ack.credit
            && tx'.inflight == tx.inflight - ack.credit
            && tx'.pending == RestampAll(Kept(tx.pending, ack), Holes(ack), now, refused)
  {
    var kept := Kept(tx.pending, ack);
    RefundExact(tx.(pending := RestampAll(kept, Holes(ack), now, refused)), ack.credit);
  }

  lemma AckKeepsSender(c: Config, s: State, i: nat, now: int, refused: set<nat>)
    requires ValidConfig(c) && Inv(c, s) && i < |s.acks|
    ensures var tx' := AfterDeliverAck(s, i, now, refused).tx;
            && tx'.available == s.tx.available + s.acks[i].credit
            && tx'.inflight == s.tx.inflight - s.acks[i].credit
            && SenderOk(c, tx', s.h.queued, s.h.unsent)
            && Remembered(c.plan, s.h.queued, s.h.unsent, s.h.got, tx'.pending)
  {
    var ack := s.acks[i];
    CreditsWithout(s.acks, i);
    CreditWithinInflight(c, s);
    AckFields(s.tx, ack, now, refused);
    var kept := Kept(s.tx.pending, ack);
    KeptOk(c.plan, s.h.queued, s.h.unsent, s.tx.pending, ack);
    AckKeepsMemory(c, s, i);
    PendingSameFrames(c.plan, s.h.queued, s.h.unsent, kept, RestampAll(kept, Holes(ack), now, refused));
  }

  lemma AckKeepsNetwork(c: Config, s: State, i: nat, now: int, refused: set<nat>)
    requires Inv(c, s) && i < |s.acks|
    ensures var s' := AfterDeliverAck(s, i, now, refused);
            && FlightOk(c.plan, s.h.queued, s.h.unsent, s.h.got, s'.data)
            && AcksOk(c.plan, s.h.got, s.h.written, s'.acks)
            && CreditOk(c.plan, s.h.written, s.h.released + s.acks[i].credit, s'.acks, s.h.lost)
  {
    var ack := s.acks[i];
    var frames := FramesSent(DueOf(Kept(s.tx.pending, ack), Holes(ack), now), refused);
    ResendKnown(c.plan, s.h.queued, s.h.unsent, s.tx.pending, ack, now, refused);
    FlightMore(c.plan, s.h.queued, s.h.unsent, s.h.got, s.data, frames);
    AcksWithout(c.plan, s.h.got, s.h.written, s.acks, i);
    CreditsWithout(s.acks, i);
  }

  lemma DeliverAckStep(c: Config, s: State, i: nat, now: int, refused: set<nat>)
    requires ValidConfig(c) && Inv(c, s) && i < |s.acks|
    ensures Inv(c, AfterDeliverAck(s, i, now, refused))
  {
    AckKeepsSender(c, s, i, now, refused);
    AckKeepsNetwork(c, s, i, now, refused);
  }

  // ----- A frame arrives -----

  /** What a push of segment x does to a buffer that has received `got`. */
  ghost predicate PushAdvances(plan: seq<Chunk>, buffer: Reorder.Buffer, got: set<nat>, ready: nat, x: nat)
    requires x < |plan|
  {
    var result := Reorder.Push(buffer, Off(plan, x), plan[x].data, plan[x].end);
    result.Accepted? && Reorder.Advances(result, buffer, plan, got + {x}, ready)
  }

  lemma PushOld(plan: seq<Chunk>, buffer: Reorder.Buffer, got: set<nat>, ready: nat, x: nat)
    requires WellFormed(plan) && Reorder.Settled(buffer, plan, got, ready)
    requires x in got && plan[x].data != []
    ensures PushAdvances(plan, buffer, got, ready, x)
  {
    Reorder.PushDuplicate(buffer, plan, got, ready, x);
    assert got + {x} == got;
  }

  lemma PushFresh(plan: seq<Chunk>, buffer: Reorder.Buffer, got: set<nat>, ready: nat, x: nat)
    requires WellFormed(plan) && Reorder.Settled(buffer, plan, got, ready)
    requires x < |plan| && x !in got
    requires Held(plan, got + {x}, ready, |plan|) <= buffer.capacity
    ensures PushAdvances(plan, buffer, got, ready, x)
  {
    Reorder.PushNew(buffer, plan, got, ready, x);
  }

  /** No overflow: the push of any frame in flight is accepted, and it advances the prefix. */
  lemma PushKnown(c: Config, s: State, f: DataFrame) returns (x: nat, result: Reorder.PushResult)
    requires ValidConfig(c) && Inv(c, s)
    requires KnownFrame(c.plan, s.h.queued, s.h.unsent, f)
    requires f.payload == [] ==> IndexAt(c.plan, f.seq_) !in s.h.got
    ensures x == IndexAt(c.plan, f.seq_)
    ensures x < s.h.queued && x < |c.plan| && x !in s.h.unsent
    ensures result == Reorder.Push(s.rx.buffer, f.seq_, f.payload, f.end)
    ensures result.Accepted?
    ensures Reorder.Advances(result, s.rx.buffer, c.plan, s.h.got + {x}, s.h.ready)
  {
    x := KnownSpan(c, s.h.queued, s.h.unsent, f);
    if x in s.h.got {
      PushOld(c.plan, s.rx.buffer, s.h.got, s.h.ready, x);
    } else {
      HeldWithinWindow(c, s, x);
      PushFresh(c.plan, s.rx.buffer, s.h.got, s.h.ready, x);
    }
    result := Reorder.Push(s.rx.buffer, Off(c.plan, x), c.plan[x].data, c.plan[x].end);
  }

  lemma FlightDelivered(plan: seq<Chunk>, q: nat, unsent: set<nat>, got: set<nat>, data: seq<DataFrame>, i: nat)
    requires FlightOk(plan, q, unsent, got, data) && i < |data|
    ensures FlightOk(plan, q, unsent, got + {IndexAt(plan, data[i].seq_)}, Without(data, i))
  {
    FlightWithout(plan, q, unsent, got, data, i);
    var rest := Without(data, i);
    forall j | 0 <= j < |rest| && rest[j].payload == []
      ensures IndexAt(plan, rest[j].seq_) !in got + {IndexAt(plan, data[i].seq_)}
    {
      assert KnownFrame(plan, q, unsent, rest[j]) && KnownFrame(plan, q, unsent, data[i]);
    }
  }

  lemma AcksLater(plan: seq<Chunk>, got: set<nat>, got': set<nat>, written: nat, written': nat, acks: seq<Ack>)
    requires AcksOk(plan, got, written, acks)
    requires got <= got' && written <= written' <= |plan|
    ensures AcksOk(plan, got', written', acks)
  {
    forall i | 0 <= i < |acks|
      ensures AckFacts.Truthful(plan, got', written', acks[i])
    {
      AckFacts.TruthfulLater(plan, got, written, got', written', acks[i]);
    }
  }

  /** sendAck reports truthfully and carries exactly the credit it was given. */
  lemma SendAckFacts(c: Config, rx: Receiver, credit: Uint32, sent: bool, got: set<nat>, ready: nat, written: nat)
    requires WellFormed(c.plan)
    requires BufferOk(c, rx.buffer, got, ready) && written <= ready
    requires rx.recvSeq == Off(c.plan, written)
    ensures var r := SendAck(rx, credit, sent);
            && r.0.(done := rx.done) == rx && (rx.done ==> r.0.done)
            && AcksOk(c.plan, got, written, r.1)
            && |r.1| <= 1 && Credits(r.1) == (if r.1 == [] then 0 else credit)
            && (credit > 0 && r.1 == [] ==> r.0.done)
  {
    AckFacts.ReportTruthful(rx.buffer, c.plan, got, ready, written, credit);
    var r := SendAck(rx, credit, sent);
    assert r.1[..0] == [];
  }

  lemma OutputLater(
      plan: seq<Chunk>, rx: Receiver, output: seq<Byte>, written: nat, ready: nat, ready': nat, rx': Receiver)
    requires written <= ready <= ready' <= |plan|
    requires OutputOk(plan, rx, output, written, ready)
    requires rx'.recvSeq == rx.recvSeq && rx'.remoteDone == rx.remoteDone
    requires rx.done ==> rx'.done
    requires !rx'.done ==> rx'.inbound == rx.inbound + plan[ready..ready']
    ensures OutputOk(plan, rx', output, written, ready')
  {
    ContentPrefix(plan, written, ready');
    ContentPrefix(plan, ready, ready');
    assert plan[written..ready] + plan[ready..ready'] == plan[written..ready'];
  }

  /** A frame that hands out nothing is answered at once, truthfully and without credit. */
  lemma DataAnswered(
      c: Config, rx: Receiver, output: seq<Byte>, got: set<nat>, written: nat, ready: nat,
      buffer: Reorder.Buffer, sent: bool)
    requires WellFormed(c.plan) && written <= ready
    requires BufferOk(c, buffer, got, ready)
    requires OutputOk(c.plan, rx, output, written, ready)
    ensures var r := SendAck(rx.(buffer := buffer), 0, sent);
            && r.0.buffer == buffer
            && AcksOk(c.plan, got, written, r.1) && Credits(r.1) == 0
            && OutputOk(c.plan, r.0, output, written, ready)
  {
    var rx' := rx.(buffer := buffer);
    SendAckFacts(c, rx', 0, sent, got, ready, written);
    assert rx.inbound + c.plan[ready..ready] == rx.inbound;
    OutputLater(c.plan, rx, output, written, ready, ready, SendAck(rx', 0, sent).0);
  }

  /** Chunks handed out extend the queue. */
  lemma DataQueued(
      c: Config, rx: Receiver, output: seq<Byte>, written: nat, ready: nat, ready': nat,
      buffer: Reorder.Buffer, keep: nat)
    requires written <= ready <= ready' <= |c.plan|
    requires OutputOk(c.plan, rx, output, written, ready)
    ensures var chunks := c.plan[ready..ready'];
            var more := if rx.done then chunks[..Min(keep, |chunks|)] else chunks;
            OutputOk(c.plan, rx.(buffer := buffer, inbound := rx.inbound + more), output, written, ready')
  {
    var chunks := c.plan[ready..ready'];
    var more := if rx.done then chunks[..Min(keep, |chunks|)] else chunks;
    OutputLater(c.plan, rx, output, written, ready, ready', rx.(buffer := buffer, inbound := rx.inbound + more));
  }

  /** The receiver after a frame has been accepted: the acknowledgement it may send is truthful
      and carries no credit, and what is written and queued is still the prefix of the stream. */
  lemma DataReceived(
      c: Config, rx: Receiver, output: seq<Byte>, got: set<nat>, written: nat, ready: nat,
      f: DataFrame, sent: bool, keep: nat, result: Reorder.PushResult)
    returns (r: DataResult, ready': nat)
    requires WellFormed(c.plan) && written <= ready
    requires result == Reorder.Push(rx.buffer, f.seq_, f.payload, f.end) && result.Accepted?
    requires Reorder.Advances(result, rx.buffer, c.plan, got, ready)
    requires rx.buffer.capacity == c.capacity
    requires OutputOk(c.plan, rx, output, written, ready)
    ensures r == OnData(rx, f, sent, keep) && r.Handled?
    ensures ready' == ready + |result.chunks| && BufferOk(c, r.rx.buffer, got, ready')
    ensures OutputOk(c.plan, r.rx, output, written, ready')
    ensures AcksOk(c.plan, got, written, r.acks) && Credits(r.acks) == 0
  {
    r, ready' := OnData(rx, f, sent, keep), ready + |result.chunks|;
    if result.chunks == [] {
      DataAnswered(c, rx, output, got, written, ready, result.buffer, sent);
    } else {
      DataQueued(c, rx, output, written, ready, ready', result.buffer, keep);
    }
  }

  lemma CountsReceived(h: History, x: nat, more: nat)
    requires CountsOk(h) && x < h.queued && x !in h.unsent
    ensures CountsOk(h.(got := h.got + {x}, ready := h.ready + more))
  {
  }

  lemma Delivered(c: Config, s: State, f: DataFrame, sent: bool, keep: nat)
    returns (x: nat, r: DataResult, ready': nat)
    requires ValidConfig(c) && Inv(c, s)
    requires KnownFrame(c.plan, s.h.queued, s.h.unsent, f)
    requires f.payload == [] ==> IndexAt(c.plan, f.seq_) !in s.h.got
    ensures x == IndexAt(c.plan, f.seq_) && x < s.h.queued && x !in s.h.unsent
    ensures r == OnData(s.rx, f, sent, keep) && r.Handled?
    ensures ready' == s.h.ready + |HandedOut(s.rx, f)| && ready' <= |c.plan|
  {
    var result;
    x, result := PushKnown(c, s, f);
    ready' := s.h.ready + |result.chunks|;
    r := OnData(s.rx, f, sent, keep);
  }

  lemma DeliveredState(c: Config, s: State, i: nat, sent: bool, keep: nat, x: nat, r: DataResult, ready': nat)
    requires i < |s.data| && x == IndexAt(c.plan, s.data[i].seq_)
    requires r == OnData(s.rx, s.data[i], sent, keep) && r.Handled?
    requires ready' == s.h.ready + |HandedOut(s.rx, s.data[i])|
    ensures AfterDeliverData(c, s, i, sent, keep)
         == s.(rx := r.rx, data := Without(s.data, i), acks := s.acks + r.acks,
               h := s.h.(got := s.h.got + {x}, ready := ready'))
  {
  }

  lemma DeliverKeepsNetwork(c: Config, s: State, i: nat, x: nat, acks: seq<Ack>)
    requires Inv(c, s) && i < |s.data| && x == IndexAt(c.plan, s.data[i].seq_)
    requires AcksOk(c.plan, s.h.got + {x}, s.h.written, acks) && Credits(acks) == 0
    ensures CreditOk(c.plan, s.h.written, s.h.released, s.acks + acks, s.h.lost)
    ensures AcksOk(c.plan, s.h.got + {x}, s.h.written, s.acks + acks)
    ensures FlightOk(c.plan, s.h.queued, s.h.unsent, s.h.got + {x}, Without(s.data, i))
  {
    FlightDelivered(c.plan, s.h.queued, s.h.unsent, s.h.got, s.data, i);
    AcksLater(c.plan, s.h.got, s.h.got + {x}, s.h.written, s.h.written, s.acks);
    CreditsAppend(s.acks, acks);
  }

  lemma DeliverKeepsMemory(plan: seq<Chunk>, q: nat, unsent: set<nat>, got: set<nat>, pending: seq<Entry>, x: nat)
    requires Remembered(plan, q, unsent, got, pending)
    ensures Remembered(plan, q, unsent, got + {x}, pending)
  {
  }

  lemma DeliverKeepsInv(
      c: Config, s: State, i: nat, x: nat, rx': Receiver, acks: seq<Ack>, got': set<nat>, ready': nat, s': State)
    requires ValidConfig(c) && Inv(c, s) && i < |s.data|
    requires x == IndexAt(c.plan, s.data[i].seq_) && x < s.h.queued && x !in s.h.unsent
    requires s.h.ready <= ready' <= |c.plan|
    requires got' == s.h.got + {x} && BufferOk(c, rx'.buffer, got', ready')
    requires OutputOk(c.plan, rx', s.output, s.h.written, ready')
    requires AcksOk(c.plan, got', s.h.written, acks) && Credits(acks) == 0
    requires s' == s.(rx := rx', data := Without(s.data, i), acks := s.acks + acks,
                      h := s.h.(got := got', ready := ready'))
    ensures Inv(c, s')
  {
    DeliverKeepsNetwork(c, s, i, x, acks);
    CountsReceived(s.h, x, ready' - s.h.ready);
    DeliverKeepsMemory(c.plan, s.h.queued, s.h.unsent, s.h.got, s.tx.pending, x);
  }

  lemma DeliverDataStep(c: Config, s: State, i: nat, sent: bool, keep: nat)
    requires ValidConfig(c) && Inv(c, s) && i < |s.data|
    ensures Inv(c, AfterDeliverData(c, s, i, sent, keep))
  {
    var x, result := PushKnown(c, s, s.data[i]);
    var got' := s.h.got + {x};
    var r, ready' := DataReceived(c, s.rx, s.output, got', s.h.written, s.h.ready, s.data[i], sent, keep, result);
    DeliveredState(c, s, i, sent, keep, x, r, ready');
    DeliverKeepsInv(c, s, i, x, r.rx, r.acks, got', ready', AfterDeliverData(c, s, i, sent, keep));
  }

  // ----- A chunk is written -----

  /** The chunk at the head of the queue is the next segment to write. */
  lemma HeadChunk(plan: seq<Chunk>, rx: Receiver, output: seq<Byte>, written: nat, ready: nat)
    requires written <= ready <= |plan|
    requires OutputOk(plan, rx, output, written, ready) && CanWrite(rx)
    ensures written < ready
    ensures rx.inbound[0] == plan[written]
    ensures rx.inbound[1..] == plan[written + 1..ready]
    ensures output == Content(plan, written)
  {
    assert plan[written..ready][1..] == plan[written + 1..ready];
  }

  lemma ShortPrefix(plan: seq<Chunk>, written: nat, ready: nat, wrote: nat)
    requires written < ready <= |plan|
    requires wrote < |plan[written].data|
    ensures Content(plan, written) + plan[written].data[..wrote] <= Content(plan, ready)
  {
    ContentPrefix(plan, written + 1, ready);
    var short := Content(plan, written) + plan[written].data[..wrote];
    assert Content(plan, written + 1)[..|short|] == short;
  }

  lemma ShortWriteOutput(
      plan: seq<Chunk>, rx: Receiver, output: seq<Byte>, written: nat, ready: nat, wrote: nat, sent: bool)
    requires written <= ready <= |plan|
    requires OutputOk(plan, rx, output, written, ready)
    requires CanWrite(rx) && wrote < |rx.inbound[0].data|
    ensures var r := WriteChunk(rx, wrote, sent);
            OutputOk(plan, r.rx, output + r.written, written, ready) && r.acks == []
  {
    HeadChunk(plan, rx, output, written, ready);
    ShortPrefix(plan, written, ready, wrote);
  }

  lemma ShortWriteStep(c: Config, s: State, wrote: nat, sent: bool)
    requires Inv(c, s)
    requires CanWrite(s.rx) && wrote < |s.rx.inbound[0].data|
    ensures Inv(c, AfterWrite(s, wrote, sent))
  {
    ShortWriteOutput(c.plan, s.rx, s.output, s.h.written, s.h.ready, wrote, sent);
    assert s.acks + [] == s.acks;
  }

  /** A whole chunk written: the receiver's fields up to what sendAck does to them. */
  lemma WholeWriteOutput(plan: seq<Chunk>, rx: Receiver, output: seq<Byte>, written: nat, ready: nat, sent: bool)
    requires WellFormed(plan) && written <= ready <= |plan|
    requires OutputOk(plan, rx, output, written, ready) && CanWrite(rx)
    ensures var r := WriteChunk(rx, |rx.inbound[0].data|, sent);
            && written < ready
            && r.rx.buffer == rx.buffer
            && OutputOk(plan, r.rx, output + r.written, written + 1, ready)
  {
    HeadChunk(plan, rx, output, written, ready);
    EndIsLast(plan, written);
    ContentPrefix(plan, written + 1, ready);
  }

  lemma WholeWriteAck(c: Config, rx: Receiver, output: seq<Byte>, got: set<nat>, written: nat, ready: nat, sent: bool)
    requires ValidConfig(c) && BufferOk(c, rx.buffer, got, ready)
    requires written <= ready
    requires OutputOk(c.plan, rx, output, written, ready) && CanWrite(rx)
    ensures var r := WriteChunk(rx, |rx.inbound[0].data|, sent);
            && written < ready && rx.inbound[0] == c.plan[written]
            && AcksOk(c.plan, got, written + 1, r.acks)
            && Credits(r.acks) == if r.acks == [] then 0 else |rx.inbound[0].data|
  {
    HeadChunk(c.plan, rx, output, written, ready);
    var chunk := rx.inbound[0];
    var rx1 := rx.(inbound := rx.inbound[1..], recvSeq := rx.recvSeq + |chunk.data|);
    SendAckFacts(c, rx1, U32(|chunk.data|), sent, got, ready, written + 1);
  }

  lemma WholeWriteCredit(c: Config, s: State, sent: bool)
    requires ValidConfig(c) && Inv(c, s) && CanWrite(s.rx)
    ensures var s' := AfterWrite(s, |s.rx.inbound[0].data|, sent);
            && s.h.written < |c.plan|
            && CreditOk(c.plan, s.h.written + 1, s.h.released, s'.acks, s'.h.lost)
            && AcksOk(c.plan, s.h.got, s.h.written + 1, s'.acks)
  {
    WholeWriteAck(c, s.rx, s.output, s.h.got, s.h.written, s.h.ready, sent);
    var r := WriteChunk(s.rx, |s.rx.inbound[0].data|, sent);
    AcksLater(c.plan, s.h.got, s.h.got, s.h.written, s.h.written + 1, s.acks);
    CreditsAppend(s.acks, r.acks);
  }

  lemma WriteStep(c: Config, s: State, wrote: nat, sent: bool)
    requires ValidConfig(c) && Inv(c, s)
    requires CanWrite(s.rx) && wrote <= |s.rx.inbound[0].data|
    ensures Inv(c, AfterWrite(s, wrote, sent))
  {
    if wrote < |s.rx.inbound[0].data| {
      ShortWriteStep(c, s, wrote, sent);
    } else {
      WholeWriteOutput(c.plan, s.rx, s.output, s.h.written, s.h.ready, sent);
      WholeWriteCredit(c, s, sent);
    }
  }

  // ----- Every step, every run -----

  lemma InitInv(c: Config)
    requires ValidConfig(c)
    ensures Inv(c, Init(c))
  {
    Reorder.EmptySettled(c.plan, c.capacity);
  }

  lemma StepKeepsInv(c: Config, s: State, step: Step)
    requires ValidConfig(c) && Inv(c, s) && Enabled(c, s, step)
    ensures Inv(c, After(c, s, step))
  {
    match step
    case Send(now) => SendStep(c, s, now);
    case SendFails => SendFailsStep(c, s);
    case SendRefused => SendRefusedStep(c, s);
    case LoseData(i) => LoseDataStep(c, s, i);
    case DeliverData(i, sent, keep) => DeliverDataStep(c, s, i, sent, keep);
    case Write(wrote, sent) => WriteStep(c, s, wrote, sent);
    case LoseAck(i) => LoseAckStep(c, s, i);
    case DeliverAck(i, now, refused) => DeliverAckStep(c, s, i, now, refused);
    case SenderFails => SenderFailsStep(c, s);
    case ReceiverFails => ReceiverFailsStep(c, s);
  }

  lemma TakesKeepsInv(c: Config, s: State, step: Step, s': State)
    requires ValidConfig(c) && Inv(c, s) && Takes(c, s, step, s')
    ensures Inv(c, s')
  {
    StepKeepsInv(c, s, step);
  }

  /** The invariant holds all along every run. */
  lemma {:induction false} RunKeepsInv(c: Config, steps: seq<Step>, states: seq<State>, k: nat)
    requires ValidConfig(c) && IsRun(c, steps, states) && k <= |steps|
    ensures Inv(c, states[k])
    decreases k
  {
    if k == 0 {
      InitInv(c);
    } else {
      var before := k - 1;
      RunKeepsInv(c, steps, states, before);
      assert Takes(c, states[before], steps[before], states[before + 1]);
      TakesKeepsInv(c, states[before], steps[before], states[k]);
    }
  }

  lemma RunTakes(c: Config, steps: seq<Step>, states: seq<State>, k: nat, s: State, step: Step, s': State)
    requires IsRun(c, steps, states) && k < |steps|
    requires s == states[k] && step == steps[k] && s' == states[k + 1]
    ensures Takes(c, s, step, s')
  {
  }

  lemma ReachableInv(c: Config, s: State)
    requires ValidConfig(c) && Reachable(c, s)
    ensures Inv(c, s)
  {
    var steps, states :| IsRun(c, steps, states) && s == states[|steps|];
    RunKeepsInv(c, steps, states, |steps|);
  }
}
