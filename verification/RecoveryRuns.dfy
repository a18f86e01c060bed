/** Which ends of a connection can still hear of each other: the states from which one end can
    accept a packet of the other again. */
module RecoveryRuns {
  import opened AckProtocol
  import opened AckRuns
  import opened MathUtility

  /** A packet that b has sent can be taken in at a. */
  ghost predicate CanHear(l: Link) {
    exists i :: 0 <= i < |l.fromB| && Readable(l.fromB[i]) && Accepts(l.a, l.fromB[i])
  }

  // ----- what a can still tell b while it hears nothing -----

  /** A header that a could write, now or once its packets have been dispatched. */
  ghost predicate Fresh(a: Peer, h: Header) {
    && h.seqNo >= a.out
    && (h == HeaderOf(a).(seqNo := h.seqNo) || h == HeaderOf(Dispatched(a, true)).(seqNo := h.seqNo))
  }

  /** One that a has written, or could write. */
  ghost predicate Offer(l: Link, h: Header) {
    h in l.fromA || Fresh(l.a, h)
  }

  ghost predicate Tells(l: Link, h: Header) {
    Offer(l, h) && Readable(h) && Accepts(l.b, h)
  }

  /** What b would then take for known. */
  function Known(b: Peer, h: Header): int {
    ProcessAcks(b, h).inAckAck
  }

  /** With that much known, b's history is too long for a header, and so it is when the packet
      taken in last has been dispatched. */
  predicate Long(b: Peer, known: int) {
    b.inSeq - known > BITS_PER_WORD && (b.InAck() < known || b.InAck() - known > BITS_PER_WORD)
  }

  ghost predicate ArrivedBeyond(b: Peer, known: int, k: nat) {
    known < k < |b.log| && b.log[k]
  }

  ghost predicate SomeBeyond(b: Peer, known: int) {
    exists k: nat :: ArrivedBeyond(b, known, k)
  }

  /** A flush is awaited, and b can be made to record losses up to the next packets. */
  ghost predicate Fills(l: Link) {
    exists h :: Tells(l, h) && h.Acked() < l.b.waiting && h.seqNo - l.b.inAckAck <= HISTORY_SIZE
  }

  /** The history has moved on to packets that have not been dispatched yet; what it still
      shows are older ones that arrived, and they stay. */
  ghost predicate Buried(l: Link) {
    l.b.InAck() < l.b.inAckAck && HasUnacknowledged(l.b) && !Fills(l)
  }

  /** This header does not make the history move on: it fits, or a packet that arrived is
      still to be confirmed, or the flush that is awaited is not. */
  ghost predicate Stays(l: Link, h: Header) {
    || h.seqNo - Known(l.b, h) <= HISTORY_SIZE || SomeBeyond(l.b, Known(l.b, h))
    || h.Acked() < l.b.waiting || Buried(l)
  }

  /** No header of b that could be read is left, and nothing that a can still tell b makes b's
      history short enough for another, or moves it on. */
  ghost predicate Deaf(l: Link) {
    && !CanHear(l) && Long(l.b, l.b.inAckAck)
    && forall h | Tells(l, h) :: Long(l.b, Known(l.b, h)) && Stays(l, h)
  }

  // ----- offers -----

  lemma DispatchedTwice(p: Peer)
    ensures Dispatched(Dispatched(p, true), true) == Dispatched(p, true)
  {
  }

  /** Nothing that a does while it hears nothing adds to what it can tell. */
  lemma OffersShrink(l: Link, e: Event, h: Header)
    requires Enabled(l, e) && !CanHear(l) && (e.Dispatch? ==> e.isAck)
    ensures Offer(StepA(l, e), h) ==> Offer(l, h)
    ensures Fresh(StepA(l, e).a, h) ==> Fresh(l.a, h)
  {
    hide AckSeq, Words;
    match e
    case Send =>
      assert HeaderOf(Commit(l.a)).(seqNo := h.seqNo) == HeaderOf(l.a).(seqNo := h.seqNo) by {
        WordsSame(l.a, Commit(l.a));
      }
      WordsSame(Dispatched(l.a, true), Dispatched(Commit(l.a), true));
    case Arrive(seqNo) =>
      NotHeard(l, seqNo);
    case Dispatch(_) =>
      DispatchedTwice(l.a);
  }

  lemma WordsSame(p: Peer, q: Peer)
    requires q.log == p.log && q.inAckAck == p.inAckAck
    ensures Words(q) == Words(p)
  {
  }

  lemma NotHeard(l: Link, seqNo: nat)
    requires !CanHear(l) && seqNo < |l.fromB|
    ensures Receive(l.a, l.fromB[seqNo]) == l.a
  {
  }

  /** All that a can acknowledge it has taken in. */
  lemma OfferBounds(l: Link, h: Header)
    requires Inv(l) && Offer(l, h)
    ensures h.Acked() <= l.a.inSeq < |l.fromB| == l.b.out
  {
    hide Told, Words;
    HeardBounds(l);
    DispatchedLength(l.a);
    if h in l.fromA {
      var i :| 0 <= i < |l.fromA| && l.fromA[i] == h;
    }
  }

  lemma HeardBounds(l: Link)
    requires Inv(l)
    ensures l.a.InAck() <= l.a.inSeq < |l.fromB| == l.b.out && l.b.InAck() <= l.b.inSeq < |l.fromA| == l.a.out
    ensures |l.b.reports| <= |l.a.log| && |l.a.reports| <= |l.b.log| && l.b.inAckAck <= l.b.inSeq
  {
  }

  lemma DispatchedLength(p: Peer)
    requires p.InAck() <= p.inSeq
    ensures |Dispatched(p, true).log| == p.inSeq + 1
  {
  }

  // ----- a deaf end stays deaf -----

  lemma DeafAtA(l: Link, e: Event)
    requires Inv(l) && Deaf(l) && Enabled(l, e) && (e.Dispatch? ==> e.isAck)
    ensures Deaf(StepA(l, e))
  {
    hide Inv, Offer, Fresh, Long, AckSeq, Words, Readable, HasUnacknowledged;
    var z := StepA(l, e);
    StillUnheard(l, e);
    forall h
      ensures Tells(z, h) ==> Tells(l, h)
    {
      OffersShrink(l, e, h);
    }
    assert z.b == l.b;
  }

  lemma StillUnheard(l: Link, e: Event)
    requires Inv(l) && !CanHear(l) && Enabled(l, e)
    ensures !CanHear(StepA(l, e)) && StepA(l, e).b == l.b && StepA(l, e).fromB == l.fromB
  {
    hide AckSeq, Words, Readable, Told, Receive;
    if e.Arrive? {
      NotHeard(l, e.seqNo);
    }
    forall i | 0 <= i < |l.fromB|
      ensures l.fromB[i].Acked() < l.a.out
    {
      HeardBounds(l);
      assert l.fromB[i].log <= l.b.log;
    }
  }

  /** What b takes for known is what its packet acknowledged when it was written. */
  lemma KnownIs(b: Peer, wire: seq<Header>, h: Header)
    requires Sent(b, wire) && Accepts(b, h)
    ensures 0 <= h.Acked() ==> h.Acked() < |wire|
    ensures Known(b, h) == if h.Acked() > b.OutAck() then Max(b.inAckAck, wire[h.Acked()].Acked()) else b.inAckAck
  {
    hide ReportsOf;
    if h.Acked() > b.OutAck() {
      var count := h.Acked() - b.OutAck();
      assert b.record[count - 1] == wire[|b.reports| + (count - 1)].Acked();
    }
  }

  lemma KnownAtMost(b: Peer, wire: seq<Header>, h: Header)
    requires PeerOk(b, wire) && Accepts(b, h)
    ensures b.inAckAck <= Known(b, h) <= b.inSeq
    ensures Known(b, h) > b.inAckAck ==> Known(b, h) <= b.InAck()
  {
    hide ProcessAcks;
    KnownIs(b, wire, h);
    if h.Acked() > b.OutAck() {
      assert wire[h.Acked()].log <= b.log;
    }
  }

  lemma NoMoveOn(l: Link, h: Header)
    requires Inv(l) && Tells(l, h) && Stays(l, h)
    ensures var p := ProcessAcks(l.b, h);
            Fits(p, h.seqNo) || HasUnacknowledged(p) || p.IsWaiting()
  {
    hide ReportsOf, Told, Fresh;
    var b, p := l.b, ProcessAcks(l.b, h);
    KnownAtMost(b, l.fromB, h);
    if h.Acked() < b.waiting {
    } else if h.seqNo - p.inAckAck <= HISTORY_SIZE {
    } else if SomeBeyond(b, Known(b, h)) {
      var k: nat :| ArrivedBeyond(b, Known(b, h), k);
      assert b.inSeq - b.inAckAck <= HISTORY_SIZE by {
        assert !LostAt(b.log, k);
      }
      assert HistoryLength(p) == p.InAck() - p.inAckAck;
      assert Recent(p.log, p.InAck() - k);
    } else {
      SameHistory(b, p);
    }
  }

  lemma SameHistory(p: Peer, q: Peer)
    requires p.log == q.log && p.inAckAck == q.inAckAck
    ensures HasUnacknowledged(p) == HasUnacknowledged(q)
  {
  }

  /** What receiving leaves when the history does not move on. */
  lemma TakesIn(b: Peer, wire: seq<Header>, h: Header)
    requires PeerOk(b, wire) && Accepts(b, h) && Readable(h)
    requires var p := ProcessAcks(b, h);
             Fits(p, h.seqNo) || HasUnacknowledged(p) || p.IsWaiting()
    ensures var z := Receive(b, h);
            && z.inAckAck == Known(b, h) && z.inSeq >= b.inSeq && z.out == b.out && z.OutAck() == h.Acked()
            && b.log <= z.log && (z.log == b.log || z.InAck() == z.inSeq)
            && z.waiting >= b.waiting
  {
    hide ReportsOf, HasUnacknowledged, FlushTo, Fits;
    var p := ProcessAcks(b, h);
    var r := MakeRoom(p, h.seqNo);
    var to := FlushTo(r, h.seqNo);
    if r.IsWaiting() && to >= r.inSeq {
      AckSeqIs(r.log, to, false);
    }
  }

  /** A buried history stays buried until a flush begins that nothing confirms. */
  lemma BuriedTakesIn(l: Link, h: Header)
    requires Inv(l) && Tells(l, h) && l.b.InAck() < l.b.inAckAck && HasUnacknowledged(l.b) && !Fills(l)
    requires Long(l.b, l.b.inAckAck)
    ensures var z := Receive(l.b, h);
            || z.waiting == l.b.out
            || (z.log == l.b.log && z.inAckAck == l.b.inAckAck && z.waiting == Max(l.b.waiting, h.Acked()))
            || (z.log == l.b.log && z.inAckAck == l.b.inAckAck && z.waiting == l.b.waiting)
  {
    hide ReportsOf, Told, Fresh;
    var b, p := l.b, ProcessAcks(l.b, h);
    KnownAtMost(b, l.fromB, h);
    SameHistory(b, p);
    hide HasUnacknowledged;
    assert HistoryLength(p) == HISTORY_SIZE;
    if p.IsWaiting() {
      assert h.Acked() < b.waiting;
      assert !Fits(p, h.seqNo);
      assert FlushTo(p, h.seqNo) == p.inAckAck;
    }
  }

  lemma LongLater(b: Peer, z: Peer, known: int)
    requires Long(b, known) && z.inSeq >= b.inSeq && (z.log == b.log || z.InAck() == z.inSeq)
    ensures Long(z, known)
  {
  }

  lemma KnownLater(b: Peer, z: Peer, wire: seq<Header>, h: Header, h2: Header)
    requires PeerOk(b, wire) && PeerOk(z, wire) && Accepts(b, h) && Accepts(z, h2)
    requires z.inAckAck == Known(b, h) && z.inSeq >= b.inSeq && z.out == b.out && z.OutAck() == h.Acked()
    ensures Accepts(b, h2) && Known(z, h2) == Known(b, h2)
  {
    hide ProcessAcks, Known;
    KnownIs(b, wire, h);
    assert h2.seqNo > b.inSeq && h2.Acked() >= b.OutAck() && b.out > h2.Acked();
    KnownIs(b, wire, h2);
    KnownIs(z, wire, h2);
    if h.Acked() > b.OutAck() {
      assert wire[h.Acked()].log <= wire[h2.Acked()].log;
    }
  }

  /** A step of b that leaves what a has said, and takes nothing back. */
  lemma DeafStays(l: Link, z: Link)
    requires Deaf(l) && !CanHear(z) && z.a == l.a && z.fromA == l.fromA
    requires z.b.inSeq >= l.b.inSeq && l.b.log <= z.b.log && (z.b.log == l.b.log || z.b.InAck() == z.b.inSeq)
    requires z.b.inAckAck == l.b.inAckAck || exists h :: Tells(l, h) && z.b.inAckAck == Known(l.b, h)
    requires z.b.waiting >= l.b.waiting
    requires forall h | Tells(z, h) :: Tells(l, h) && Known(z.b, h) == Known(l.b, h)
    requires Buried(l) ==> forall h | Tells(z, h) :: Stays(z, h)
    ensures Deaf(z)
  {
    hide Known, Offer, Fresh, Readable, Long, Accepts, Tells, Buried;
    LongLater(l.b, z.b, z.b.inAckAck);
    forall h | Tells(z, h)
      ensures Long(z.b, Known(z.b, h)) && Stays(z, h)
    {
      LongLater(l.b, z.b, Known(l.b, h));
      if SomeBeyond(l.b, Known(l.b, h)) {
        var k: nat :| ArrivedBeyond(l.b, Known(l.b, h), k);
        assert ArrivedBeyond(z.b, Known(z.b, h), k);
      }
    }
  }

  lemma DeafDispatch(l: Link)
    requires Inv(l) && Deaf(l)
    ensures Deaf(StepA(l.Swapped(), Dispatch(true)).Swapped())
  {
    hide Deaf, Told, Readable, Offer, Fresh, Accepts, Known, AckSeq, HasUnacknowledged;
    var z := StepA(l.Swapped(), Dispatch(true)).Swapped();
    DeafParts(l);
    AckSeqIs(l.b.log, l.b.inSeq, true);
    DispatchedLength(l.b);
    SameHearing(l, z);
    forall h
      ensures Tells(z, h) ==> Tells(l, h) && Known(z.b, h) == Known(l.b, h)
    {
      KnownDispatched(l.b, h);
      SameOffers(l, z, h);
    }
    if Buried(l) {
      BothOk(l);
      TellsAccepted(l);
      forall h | Tells(z, h)
        ensures Stays(z, h)
      {
        KnownAtMost(l.b, l.fromB, h);
        assert ArrivedBeyond(z.b, Known(z.b, h), l.b.inSeq);
      }
    }
    DeafStays(l, z);
  }

  lemma DeafParts(l: Link)
    requires Inv(l) && Deaf(l)
    ensures !CanHear(l) && Long(l.b, l.b.inAckAck) && l.b.InAck() <= l.b.inSeq
    ensures forall h | Tells(l, h) :: Long(l.b, Known(l.b, h)) && Stays(l, h)
  {
    hide Known, Tells, Fresh, Long, CanHear, Stays;
  }

  lemma KnownDispatched(b: Peer, h: Header)
    ensures Known(Dispatched(b, true), h) == Known(b, h) && (Accepts(Dispatched(b, true), h) <==> Accepts(b, h))
  {
    hide ReportsOf, AckSeq;
  }

  lemma DeafArrive(l: Link, seqNo: nat)
    requires Inv(l) && Deaf(l) && seqNo < |l.fromA|
    ensures Deaf(StepA(l.Swapped(), Arrive(seqNo)).Swapped())
  {
    hide Deaf, Told, PeerOk, Long, Readable, Offer, Fresh, Stays, Buried, Receive, Accepts, Known, ProcessAcks;
    var h, z := l.fromA[seqNo], StepA(l.Swapped(), Arrive(seqNo)).Swapped();
    if Readable(h) && Accepts(l.b, h) {
      SwapKeeps(l);
      StepKeeps(l.Swapped(), Arrive(seqNo));
      SwapKeeps(StepA(l.Swapped(), Arrive(seqNo)));
      DeafParts(l);
      assert Tells(l, h) by {
        IsOffer(l, seqNo);
      }
      NoMoveOn(l, h);
      TakesIn(l.b, l.fromB, h);
      forall h2
        ensures Tells(z, h2) ==> Tells(l, h2) && Known(z.b, h2) == Known(l.b, h2) && h2.Acked() >= h.Acked()
      {
        if Tells(z, h2) {
          KnownLater(l.b, z.b, l.fromB, h, h2);
          SameOffers(l, z, h2);
          AcceptedLater(z.b, h2);
        }
      }
      SameHearing(l, z);
      if Buried(l) {
        StaysBuried(l, z, h);
      }
      DeafStays(l, z);
    } else {
      NotTakenIn(l.b, h);
      assert z == l;
    }
  }

  lemma AcceptedLater(b: Peer, h: Header)
    requires Accepts(b, h)
    ensures h.Acked() >= b.OutAck()
  {
  }

  lemma StaysBuried(l: Link, z: Link, h: Header)
    requires Inv(l) && Buried(l) && Long(l.b, l.b.inAckAck) && Tells(l, h)
    requires z == l.(b := Receive(l.b, h))
    requires forall h2 | Tells(z, h2) :: Tells(l, h2) && h2.Acked() >= h.Acked()
    ensures forall h2 | Tells(z, h2) :: Stays(z, h2)
  {
    hide Inv, Receive, Known, Accepts, Readable, Fresh, HasUnacknowledged, Offer;
    BuriedTakesIn(l, h);
    if z.b.waiting == l.b.out {
      forall h2 | Tells(z, h2)
        ensures Stays(z, h2)
      {
        OfferBounds(l, h2);
      }
    } else {
      SameHistory(l.b, z.b);
      assert !Fills(z);
      assert Buried(z);
    }
  }

  lemma IsOffer(l: Link, seqNo: nat)
    requires seqNo < |l.fromA|
    ensures Offer(l, l.fromA[seqNo])
  {
  }

  lemma SameOffers(l: Link, z: Link, h: Header)
    requires z.a == l.a && z.fromA == l.fromA
    ensures Offer(z, h) <==> Offer(l, h)
  {
  }

  lemma SameHearing(l: Link, z: Link)
    requires z.a == l.a && z.fromB == l.fromB
    ensures CanHear(z) <==> CanHear(l)
  {
  }

  lemma NotTakenIn(p: Peer, h: Header)
    requires !(Readable(h) && Accepts(p, h))
    ensures Receive(p, h) == p
  {
  }

  lemma DeafSend(l: Link)
    requires Inv(l) && Deaf(l)
    ensures Deaf(StepA(l.Swapped(), Send).Swapped())
  {
    hide Deaf, Told, PeerOk, Long, Offer, Fresh, Known, ProcessAcks, Words, Tells, HasUnacknowledged;
    var z := StepA(l.Swapped(), Send).Swapped();
    DeafParts(l);
    forall h
      ensures Tells(z, h) ==> Tells(l, h) && Known(z.b, h) == Known(l.b, h)
    {
      if Tells(z, h) {
        TellsSent(l, z, h);
      }
    }
    assert !CanHear(z) by {
      LongUnreadable(l.b);
      assert z.fromB == l.fromB + [HeaderOf(l.b)];
    }
    if Buried(l) {
      SameHistory(l.b, z.b);
      assert !Fills(z);
      assert Buried(z);
    }
    DeafStays(l, z);
  }

  lemma LongUnreadable(b: Peer)
    requires Long(b, b.inAckAck)
    ensures !Readable(HeaderOf(b))
  {
    ReadableIff(b);
  }

  lemma TellsSent(l: Link, z: Link, h: Header)
    requires Inv(l) && z == StepA(l.Swapped(), Send).Swapped() && Tells(z, h)
    ensures Tells(l, h) && Known(z.b, h) == Known(l.b, h)
  {
    hide Told, Offer, Words, Readable;
    SameOffers(l, z, h);
    OfferBounds(l, h);
    KnownCommitted(l.b, l.fromB, h);
  }

  lemma KnownCommitted(b: Peer, wire: seq<Header>, h: Header)
    requires PeerOk(b, wire) && h.Acked() < b.out
    ensures Known(Commit(b), h) == Known(b, h)
  {
    hide ReportsOf;
  }

  /** What is dispatched is acknowledged, as the connection always does. */
  predicate Acknowledges(act: Action) {
    act.e.Dispatch? ==> act.e.isAck
  }

  lemma DeafStep(l: Link, act: Action)
    requires Inv(l) && Deaf(l) && CanDo(l, act) && Acknowledges(act)
    ensures Deaf(Do(l, act))
  {
    hide Inv, Deaf, StepA;
    if act.AtA? {
      DeafAtA(l, act.e);
    } else {
      match act.e
      case Send => DeafSend(l);
      case Arrive(seqNo) => DeafArrive(l, seqNo);
      case Dispatch(_) => DeafDispatch(l);
    }
  }

  lemma StepKeepsInv(l: Link, act: Action)
    requires Inv(l) && CanDo(l, act)
    ensures Inv(Do(l, act))
  {
    hide Inv, StepA;
    if act.AtA? {
      StepKeeps(l, act.e);
    } else {
      SwapKeeps(l);
      StepKeeps(l.Swapped(), act.e);
      SwapKeeps(StepA(l.Swapped(), act.e));
    }
  }

  ghost predicate AllAcknowledge(actions: seq<Action>) {
    forall i | 0 <= i < |actions| :: Acknowledges(actions[i])
  }

  /** From such a state on a never again takes in a packet of b, whatever happens. */
  lemma {:induction false} DeafForever(l: Link, actions: seq<Action>)
    requires Inv(l) && Deaf(l) && Possible(l, actions) && AllAcknowledge(actions)
    ensures !CanHear(Run(l, actions))
    decreases |actions|
  {
    hide Inv, Do, CanDo, Stays, Long, Known, CanHear, Acknowledges;
    if actions != [] {
      DeafStep(l, actions[0]);
      StepKeepsInv(l, actions[0]);
      DeafForever(Do(l, actions[0]), actions[1..]);
    }
  }


  lemma BothOk(l: Link)
    requires Inv(l)
    ensures PeerOk(l.a, l.fromA) && PeerOk(l.b, l.fromB)
  {
  }

  lemma TellsAccepted(l: Link)
    ensures forall h | Tells(l, h) :: Accepts(l.b, h)
  {
  }

  // ----- an end that is not deaf -----

  ghost predicate Reaches(l: Link, z: Link) {
    exists actions :: Possible(l, actions) && AllAcknowledge(actions) && Run(l, actions) == z
  }

  lemma ReachesItself(l: Link)
    ensures Reaches(l, l)
  {
    assert Possible(l, []) && Run(l, []) == l;
  }

  lemma ReachesNext(l: Link, z: Link, act: Action)
    requires Reaches(l, z) && CanDo(z, act) && Acknowledges(act)
    ensures Reaches(l, Do(z, act))
  {
    hide Do, CanDo, Run, Possible, Acknowledges;
    var actions :| Possible(l, actions) && AllAcknowledge(actions) && Run(l, actions) == z;
    RunOn(l, actions, act);
    assert AllAcknowledge(actions + [act]);
  }

  lemma ReachesOk(l: Link, z: Link)
    requires Inv(l) && Reaches(l, z)
    ensures Inv(z)
  {
    hide Inv, Run, Possible, Acknowledges;
    var actions :| Possible(l, actions) && AllAcknowledge(actions) && Run(l, actions) == z;
    RunKeeps(l, actions);
  }

  /** a can still take in a packet of b, in a continuation in which what is dispatched is
      acknowledged. */
  ghost predicate Recovers(l: Link) {
    exists z :: Reaches(l, z) && CanHear(z)
  }

  lemma SpeaksNow(l: Link, z: Link)
    requires Inv(l) && Reaches(l, z) && HistoryLength(z.b) <= BITS_PER_WORD
    ensures Recovers(l)
  {
    hide Inv, Reaches, HistoryLength, Accepts, Words;
    ReachesOk(l, z);
    var y := Do(z, AtB(Send));
    ReachesNext(l, z, AtB(Send));
    ReadableIff(z.b);
    NewsIsAcceptable(z);
    assert y.fromB[|z.fromB|] == HeaderOf(z.b) && y.a == z.a;
    assert CanHear(y);
  }

  /** A history that is short enough, if need be after dispatching. */
  lemma ShortSpeaks(l: Link, z: Link)
    requires Inv(l) && Reaches(l, z) && !Long(z.b, z.b.inAckAck)
    ensures Recovers(l)
  {
    hide Inv, Reaches, AckSeq;
    ReachesOk(l, z);
    HeardBounds(z);
    if HistoryLength(z.b) <= BITS_PER_WORD {
      SpeaksNow(l, z);
    } else {
      ReachesNext(l, z, AtB(Dispatch(true)));
      DispatchedLength(z.b);
      SpeaksNow(l, Do(z, AtB(Dispatch(true))));
    }
  }

  /** a writes the packets up to the given number. */
  lemma {:induction false} SendsUpTo(l: Link, z: Link, n: nat) returns (y: Link)
    requires Inv(l) && Reaches(l, z)
    ensures Reaches(l, y) && y.b == z.b && y.fromB == z.fromB && z.fromA <= y.fromA && n < |y.fromA|
    ensures y.a.out == |y.fromA| == Max(z.a.out, n + 1)
    ensures y.a.log == z.a.log && y.a.inSeq == z.a.inSeq && y.a.inAckAck == z.a.inAckAck
    ensures n >= z.a.out ==> y.fromA[n] == HeaderOf(z.a).(seqNo := n)
    decreases n + 1 - z.a.out
  {
    hide Inv, Reaches, Words;
    ReachesOk(l, z);
    HeardBounds(z);
    if n < z.a.out {
      y := z;
    } else {
      var next := Do(z, AtA(Send));
      ReachesNext(l, z, AtA(Send));
      WordsSame(z.a, next.a);
      assert next.fromA == z.fromA + [HeaderOf(z.a)];
      y := SendsUpTo(l, next, n);
    }
  }

  /** a writes the packet with this header, if it has not yet. */
  lemma Written(l: Link, h: Header) returns (z: Link)
    requires Inv(l) && Offer(l, h)
    ensures Reaches(l, z) && z.b == l.b && z.fromB == l.fromB && h.seqNo < |z.fromA|
    ensures z.fromA[h.seqNo] == h && l.fromA <= z.fromA
  {
    hide Reaches, Words, AckSeq, Told;
    ReachesItself(l);
    HeardBounds(l);
    if h in l.fromA {
      z := l;
    } else {
      var y := l;
      if h != HeaderOf(l.a).(seqNo := h.seqNo) {
        y := Do(l, AtA(Dispatch(true)));
        ReachesNext(l, l, AtA(Dispatch(true)));
      }
      z := SendsUpTo(l, y, h.seqNo);
    }
  }

  /** Two of them, of which the second acknowledges more. */
  lemma BothWritten(l: Link, h1: Header, h: Header) returns (z: Link)
    requires Inv(l) && Offer(l, h1) && Offer(l, h) && h1.seqNo < h.seqNo && h1.Acked() < h.Acked()
    ensures Reaches(l, z) && z.b == l.b && z.fromB == l.fromB && h1.seqNo < h.seqNo < |z.fromA|
    ensures z.fromA[h1.seqNo] == h1 && z.fromA[h.seqNo] == h
  {
    hide Reaches, Words, AckSeq, Told;
    HeardBounds(l);
    if h1 in l.fromA {
      z := Written(l, h);
    } else {
      OfferBounds(l, h);
      DispatchedLength(l.a);
      ReachesItself(l);
      var y := SendsUpTo(l, l, h1.seqNo);
      ReachesNext(l, y, AtA(Dispatch(true)));
      var d := Do(y, AtA(Dispatch(true)));
      WordsSame(Dispatched(l.a, true), d.a);
      z := SendsUpTo(l, d, h.seqNo);
    }
  }

  // ----- when it recovers -----

  lemma KnownByAck(b: Peer, h: Header, h2: Header)
    requires h.Acked() == h2.Acked()
    ensures Known(b, h) == Known(b, h2)
  {
    hide ReportsOf;
  }

  /** A header that fits, and meets no flush that it does not end, is taken in without more
      ado. */
  lemma FittingTaken(b: Peer, wire: seq<Header>, h: Header)
    requires PeerOk(b, wire) && Accepts(b, h) && Readable(h) && b.waiting <= h.Acked()
    requires h.seqNo - Known(b, h) <= HISTORY_SIZE
    ensures var z := Receive(b, h);
            z.inAckAck == Known(b, h) && z.log == b.log && z.inSeq == h.seqNo
  {
    hide ReportsOf, HasUnacknowledged;
    KnownAtMost(b, wire, h);
    var p := ProcessAcks(b, h);
    assert !p.IsWaiting() && Fits(p, h.seqNo);
  }

  /** One that tells b enough makes its history short. */
  lemma EnoughCanBeTold(l: Link, h: Header)
    requires Inv(l) && Tells(l, h) && l.b.waiting <= h.Acked() && h.seqNo - Known(l.b, h) <= HISTORY_SIZE
    requires Long(l.b, l.b.inAckAck) && !Long(l.b, Known(l.b, h))
    ensures Recovers(l)
  {
    hide Inv, Reaches, Receive, Known, Readable, Accepts, Offer;
    HeardBounds(l);
    BothOk(l);
    KnownAtMost(l.b, l.fromB, h);
    FittingTaken(l.b, l.fromB, h);
    var z := Written(l, h);
    ReachesNext(l, z, AtB(Arrive(h.seqNo)));
    ShortSpeaks(l, Do(z, AtB(Arrive(h.seqNo))));
  }

  /** A header far ahead, with nothing but losses left to confirm, moves the history on. */
  lemma FarMovesOn(b: Peer, wire: seq<Header>, h: Header)
    requires PeerOk(b, wire) && Accepts(b, h) && Readable(h) && b.waiting <= h.Acked()
    requires h.seqNo - Known(b, h) > HISTORY_SIZE && !SomeBeyond(b, Known(b, h))
    requires b.InAck() >= Known(b, h) || !HasUnacknowledged(b)
    ensures !Long(Receive(b, h), Receive(b, h).inAckAck)
  {
    hide ReportsOf;
    KnownAtMost(b, wire, h);
    var p := ProcessAcks(b, h);
    assert !p.IsWaiting() && !Fits(p, h.seqNo);
    if b.InAck() >= Known(b, h) {
      forall age: nat | age < HistoryLength(p) && age <= p.InAck()
        ensures !Recent(p.log, age)
      {
        assert !ArrivedBeyond(b, Known(b, h), p.InAck() - age);
      }
    } else {
      SameHistory(b, p);
    }
    assert !HasUnacknowledged(p);
  }

  lemma LossesForgotten(l: Link, h: Header)
    requires Inv(l) && Tells(l, h) && l.b.waiting <= h.Acked()
    requires h.seqNo - Known(l.b, h) > HISTORY_SIZE && !SomeBeyond(l.b, Known(l.b, h))
    requires l.b.InAck() >= l.b.inAckAck || !HasUnacknowledged(l.b)
    ensures Recovers(l)
  {
    hide Inv, Reaches, Known, Accepts, Offer, Receive, Readable, Long, HasUnacknowledged;
    BothOk(l);
    KnownAtMost(l.b, l.fromB, h);
    FarMovesOn(l.b, l.fromB, h);
    var z := Written(l, h);
    ReachesNext(l, z, AtB(Arrive(h.seqNo)));
    ShortSpeaks(l, Do(z, AtB(Arrive(h.seqNo))));
  }

  /** During a flush a packet that fits is recorded as lost, with all before it. */
  lemma FillsUp(b: Peer, wire: seq<Header>, h: Header)
    requires PeerOk(b, wire) && Accepts(b, h) && Readable(h) && h.Acked() < b.waiting
    requires h.seqNo - b.inAckAck <= HISTORY_SIZE && b.InAck() < b.inAckAck
    ensures var z := Receive(b, h);
            && z.inAckAck == b.inAckAck && z.inSeq == z.InAck() == h.seqNo && z.waiting == b.waiting
            && z.OutAck() == h.Acked() && !SomeBeyond(z, z.inAckAck) && z.out == b.out
  {
    hide ReportsOf, HasUnacknowledged;
    KnownAtMost(b, wire, h);
    var p := ProcessAcks(b, h);
    assert p.IsWaiting() && Fits(p, h.seqNo) && FlushTo(p, h.seqNo) == h.seqNo;
    AckSeqIs(p.log, h.seqNo, false);
    var z := Receive(b, h);
    forall k: nat
      ensures !ArrivedBeyond(z, z.inAckAck, k)
    {
    }
  }

  /** Then the history can move on when the flush ends. */
  lemma FilledForgotten(l: Link, h1: Header, h: Header)
    requires Inv(l) && Tells(l, h1) && Tells(l, h) && l.b.InAck() < l.b.inAckAck
    requires h1.Acked() < l.b.waiting <= h.Acked() && h1.seqNo - l.b.inAckAck <= HISTORY_SIZE
    requires h.seqNo - Known(l.b, h) > HISTORY_SIZE
    ensures Recovers(l)
  {
    hide Inv, Reaches, Known, Accepts, Offer, Receive, Readable, Long, HasUnacknowledged, SomeBeyond;
    BothOk(l);
    KnownAtMost(l.b, l.fromB, h);
    KnownAtMost(l.b, l.fromB, h1);
    FillsUp(l.b, l.fromB, h1);
    var z := BothWritten(l, h1, h);
    ReachesNext(l, z, AtB(Arrive(h1.seqNo)));
    var y := Do(z, AtB(Arrive(h1.seqNo)));
    assert y.b == Receive(l.b, h1);
    ReachesOk(l, y);
    BothOk(y);
    OfferBounds(l, h);
    StillAccepted(l.b, y.b, h);
    AcceptedWithin(l.b, h1);
    KnownLater(l.b, y.b, y.fromB, h1, h);
    FarMovesOn(y.b, y.fromB, h);
    ReachesNext(l, y, AtB(Arrive(h.seqNo)));
    ShortSpeaks(l, Do(y, AtB(Arrive(h.seqNo))));
  }

  lemma StillAccepted(b: Peer, z: Peer, h: Header)
    requires Accepts(b, h) && h.seqNo > z.inSeq && h.Acked() >= z.OutAck() && z.out == b.out
    ensures Accepts(z, h)
  {
  }

  lemma AcceptedWithin(b: Peer, h: Header)
    requires Accepts(b, h)
    ensures h.Acked() >= b.OutAck() && b.out > h.Acked() && h.seqNo > b.inSeq
  {
  }

  /** What would make b's history short can be told it without running into a flush: some
      packet that says as much fits, and ends the flush that is awaited, if any. */
  ghost predicate NoFlushAhead(l: Link) {
    forall h | Tells(l, h) && !Long(l.b, Known(l.b, h)) ::
      exists h2 :: Tells(l, h2) && h2.Acked() == h.Acked() && Ends(l, h2)
  }

  predicate Ends(l: Link, h: Header) {
    l.b.waiting <= h.Acked() && h.seqNo - Known(l.b, h) <= HISTORY_SIZE
  }

  /** That is so while no flush is awaited and no more than 256 packets are unconfirmed. */
  lemma UnflushedIsClear(l: Link)
    requires Inv(l) && !l.b.IsWaiting() && l.a.out - l.b.inAckAck <= HISTORY_SIZE
    ensures NoFlushAhead(l)
  {
    hide Told, Known, Readable, Words, AckSeq, Long;
    HeardBounds(l);
    BothOk(l);
    forall h | Tells(l, h)
      ensures exists h2 :: Tells(l, h2) && h2.Acked() == h.Acked() && Ends(l, h2)
    {
      AcceptedWithin(l.b, h);
      var h2 := h;
      if h !in l.fromA {
        h2 := h.(seqNo := l.a.out);
        ReadableByWords(h, h2);
      }
      assert Tells(l, h2);
      KnownAtMost(l.b, l.fromB, h2);
      assert forall i | 0 <= i < |l.fromA| :: l.fromA[i].seqNo == i < l.a.out;
    }
  }

  lemma ReadableByWords(h: Header, h2: Header)
    requires h.words == h2.words
    ensures Readable(h) <==> Readable(h2)
  {
  }

  lemma NotDeafRecovers(l: Link)
    requires Inv(l) && NoFlushAhead(l) && !Deaf(l)
    ensures Recovers(l)
  {
    hide Inv, Reaches, Known, Accepts, Offer, Readable, Long, HasUnacknowledged, SomeBeyond;
    ReachesItself(l);
    if CanHear(l) {
    } else if !Long(l.b, l.b.inAckAck) {
      ShortSpeaks(l, l);
    } else if h :| Tells(l, h) && !Long(l.b, Known(l.b, h)) {
      var h2 :| Tells(l, h2) && h2.Acked() == h.Acked() && Ends(l, h2);
      KnownByAck(l.b, h, h2);
      EnoughCanBeTold(l, h2);
    } else {
      var h :| Tells(l, h) && !Stays(l, h);
      if l.b.InAck() >= l.b.inAckAck || !HasUnacknowledged(l.b) {
        LossesForgotten(l, h);
      } else {
        var h1 :| Tells(l, h1) && h1.Acked() < l.b.waiting && h1.seqNo - l.b.inAckAck <= HISTORY_SIZE;
        FilledForgotten(l, h1, h);
      }
    }
  }

  /** a takes in another packet of b in some continuation if and only if it is not deaf to
      it. */
  lemma HearsAgainIff(l: Link)
    requires Inv(l) && NoFlushAhead(l)
    ensures Recovers(l) <==> !Deaf(l)
  {
    hide Inv, Deaf, CanHear, NoFlushAhead;
    if Deaf(l) {
      forall z | Reaches(l, z)
        ensures !CanHear(z)
      {
        var actions :| Possible(l, actions) && AllAcknowledge(actions) && Run(l, actions) == z;
        DeafForever(l, actions);
      }
    } else {
      NotDeafRecovers(l);
    }
  }

  /** A dead end is a deaf one. */
  lemma DeadIsDeaf(l: Link, k: nat)
    requires Inv(l) && DeadEnd(l, k)
    ensures Deaf(l)
  {
    hide Told, Offer, Readable, Known, HasUnacknowledged;
    BothOk(l);
    HeardBounds(l);
    forall h | Tells(l, h)
      ensures Known(l.b, h) == l.b.inAckAck
    {
      OfferBounds(l, h);
      KnownIs(l.b, l.fromB, h);
    }
    forall i | 0 <= i < |l.fromB|
      ensures !(Readable(l.fromB[i]) && Accepts(l.a, l.fromB[i]))
    {
      NumberIs(l.b, l.fromB, i);
    }
    assert ArrivedBeyond(l.b, l.b.inAckAck, k);
  }

  // ----- a run that ends deaf -----

  function Trues(n: nat): seq<bool> {
    seq(n, _ => true)
  }

  lemma {:induction false} RoundsAcknowledge(n: nat)
    ensures AllAcknowledge(Rounds(n))
    decreases n
  {
    if n > 0 {
      RoundsAcknowledge(n - 1);
    }
  }

  lemma OneSidedReached(n: nat)
    ensures Reaches(NEW_LINK, OneSided(n))
  {
    hide OneSided, Rounds, Run, Possible, Acknowledges;
    OneSidedRun(n);
    RoundsAcknowledge(n);
  }

  /** b answers once, and a has heard of its ten packets. */
  lemma Answered() returns (z: Link)
    ensures Reaches(NEW_LINK, z) && z.b == Peer(1, [], [9], 9, Trues(10), -1, -1) && |z.fromA| == 10
    ensures z.a == Peer(10, Trues(10), [], 0, [true], -1, 9) && z.fromB == [Header(0, 1, Trues(10))]
  {
    hide Reaches;
    OneSidedReached(10);
    var l := OneSided(10);
    ReachesNext(NEW_LINK, l, AtB(Send));
    var s := Do(l, AtB(Send));
    var h := Header(0, 1, Trues(10));
    assert HeaderOf(l.b) == h;
    assert s.fromB == [h] && s.b == Peer(1, [], [9], 9, Trues(10), -1, -1);
    AnswerHeard(s.a, h);
    ReachesNext(NEW_LINK, s, AtA(Arrive(0)));
    var r := Do(s, AtA(Arrive(0)));
    ReachesNext(NEW_LINK, r, AtA(Dispatch(true)));
    z := Do(r, AtA(Dispatch(true)));
    assert AckSeq([], 0, true) == [true];
  }

  lemma AnswerHeard(a: Peer, h: Header)
    requires a == OneSided(10).a && h == Header(0, 1, Trues(10))
    ensures Receive(a, h) == Peer(10, Trues(10), [], 0, [], -1, 9)
  {
    assert Accepts(a, h) && Readable(h);
    assert ReportsOf(h, 0, 10) == Trues(10);
    var p := ProcessAcks(a, h);
    assert p == Peer(10, [] + Trues(10), [], -1, [], -1, 9) && !p.IsWaiting() && Fits(p, 0);
  }

  /** Three of its next packets reach b, which dispatches none of them. */
  lemma ThreeTaken(b: Peer)
    requires b == Peer(1, [], [9], 9, Trues(10), -1, -1)
    ensures var b1 := Receive(b, Header(10, 1, [true]));
            && b1 == Peer(1, [true], [], 10, Trues(10), 9, 0)
            && Receive(b1, Header(300, 1, [true])) == b1.(inSeq := 300, inAckAck := 299)
            && Receive(b1.(inSeq := 300, inAckAck := 299), Header(340, 1, [true]))
               == b1.(inSeq := 340, inAckAck := 299)
  {
    var h := Header(10, 1, [true]);
    assert Accepts(b, h) && ReportsOf(h, 0, 1) == [true];
    var p := ProcessAcks(b, h);
    assert p == Peer(1, [] + [true], [], 9, Trues(10), 9, 0) && !p.IsWaiting() && Fits(p, 10);
    var b1 := Receive(b, h);
    assert HistoryLength(b1) == 0 && !HasUnacknowledged(b1) && !Fits(b1, 300);
    assert Fits(b1.(inSeq := 300, inAckAck := 299), 340);
  }

  lemma BuriedIsDeaf(l: Link)
    requires Inv(l) && !CanHear(l) && Buried(l) && Long(l.b, l.b.inAckAck)
    ensures Deaf(l)
  {
    hide Inv, CanHear, Known, Accepts, Offer, Readable, HasUnacknowledged;
    BothOk(l);
    TellsAccepted(l);
    forall h | Tells(l, h)
      ensures Known(l.b, h) == l.b.inAckAck
    {
      KnownAtMost(l.b, l.fromB, h);
    }
  }

  /** Ten packets of a, an answer of b, and three more packets of a, the second 290 after the
      first, of which none is dispatched: no flush is awaited, everything fits, and a never
      takes in a packet of b again.  The dispatch of the last one would be too late. */
  lemma BuriedRun() returns (l: Link)
    ensures Reaches(NEW_LINK, l) && l.b == Peer(1, [true], [], 340, Trues(10), 299, 0)
    ensures !l.b.IsWaiting() && l.a.out - l.b.inAckAck <= HISTORY_SIZE && Deaf(l) && !Recovers(l)
  {
    hide Reaches, Receive, Words, Inv, Recovers, Deaf;
    NewLinkOk();
    var z := Answered();
    assert HeaderOf(z.a) == Header(10, 1, [true]) by {
      OneWord(z.a);
    }
    var x := SendsUpTo(NEW_LINK, z, 10);
    WordsSame(z.a, x.a);
    var y := SendsUpTo(NEW_LINK, x, 300);
    WordsSame(z.a, y.a);
    var w := SendsUpTo(NEW_LINK, y, 340);
    assert w.fromA[10] == Header(10, 1, [true]) && w.fromA[300] == Header(300, 1, [true]);
    assert w.fromA[340] == Header(340, 1, [true]);
    ThreeTaken(w.b);
    ReachesNext(NEW_LINK, w, AtB(Arrive(10)));
    var w1 := Do(w, AtB(Arrive(10)));
    ReachesNext(NEW_LINK, w1, AtB(Arrive(300)));
    var w2 := Do(w1, AtB(Arrive(300)));
    ReachesNext(NEW_LINK, w2, AtB(Arrive(340)));
    l := Do(w2, AtB(Arrive(340)));
    ReachesOk(NEW_LINK, l);
    BuriedThere(l);
    BuriedIsDeaf(l);
    UnflushedIsClear(l);
    HearsAgainIff(l);
  }

  lemma OneWord(p: Peer)
    requires HistoryLength(p) == 1
    ensures Words(p) == 1
  {
  }

  lemma BuriedThere(l: Link)
    requires l.b == Peer(1, [true], [], 340, Trues(10), 299, 0) && l.a.inSeq == 0
    requires l.fromB == [Header(0, 1, Trues(10))]
    ensures !CanHear(l) && Buried(l) && Long(l.b, l.b.inAckAck)
  {
    hide Offer, Readable;
    assert HistoryLength(l.b) == HISTORY_SIZE && Recent(l.b.log, 0);
  }

  // ----- one way is enough -----

  /** a talks and b listens, and what has been received is dispatched. */
  predicate OneWay(act: Action) {
    if act.AtA? then act.e == Send || act.e == Dispatch(true) else act.e.Arrive? || act.e == Dispatch(true)
  }

  ghost predicate AllOneWay(actions: seq<Action>) {
    forall i | 0 <= i < |actions| :: OneWay(actions[i])
  }

  /** By that alone b's history becomes short enough. */
  ghost predicate Talked(l: Link) {
    exists actions :: Possible(l, actions) && AllOneWay(actions)
                      && !Long(Run(l, actions).b, Run(l, actions).b.inAckAck)
  }

  /** One more packet sent makes no difference to what b takes in. */
  ghost predicate Follows(p: Peer, q: Peer) {
    && p.reports == q.reports && p.inSeq == q.inSeq && p.log == q.log && p.inAckAck == q.inAckAck
    && |q.reports| + |q.record| == q.out && p.out == q.out + 1
    && q.record <= p.record && |p.record| == |q.record| + 1
    && (p.waiting == q.waiting || (p.waiting >= q.out && q.waiting >= q.out))
  }

  ghost predicate Shadows(z: Link, y: Link) {
    z.a == y.a && z.fromA == y.fromA && Follows(z.b, y.b)
  }

  lemma FollowsAcks(p: Peer, q: Peer, h: Header)
    requires Follows(p, q) && Accepts(q, h)
    ensures Follows(ProcessAcks(p, h), ProcessAcks(q, h)) && ProcessAcks(q, h).OutAck() == h.Acked()
  {
    hide ReportsOf;
    var count := h.Acked() - q.OutAck();
    assert count > 0 ==> p.record[count - 1] == q.record[count - 1];
    assert count > 0 ==> q.record[count..] <= p.record[count..];
  }

  lemma FollowsIn(p: Peer, q: Peer, seqNo: int)
    requires Follows(p, q) && q.OutAck() < q.out
    ensures Follows(TakeIn(MakeRoom(p, seqNo), seqNo), TakeIn(MakeRoom(q, seqNo), seqNo))
  {
    SameHistory(p, q);
    SameHistory(MakeRoom(p, seqNo), MakeRoom(q, seqNo));
    hide HasUnacknowledged, HistoryLength;
    SameLength(p, q);
    SameLength(MakeRoom(p, seqNo), MakeRoom(q, seqNo));
  }

  lemma SameLength(p: Peer, q: Peer)
    requires p.log == q.log && p.inAckAck == q.inAckAck
    ensures HistoryLength(p) == HistoryLength(q)
  {
  }

  lemma FollowsReceive(p: Peer, q: Peer, h: Header)
    requires Follows(p, q) && h.Acked() < q.out
    ensures Follows(Receive(p, h), Receive(q, h))
  {
    hide ProcessAcks, TakeIn, MakeRoom, Readable;
    if Readable(h) && Accepts(q, h) {
      FollowsAcks(p, q, h);
      OutSame(q, h);
      FollowsIn(ProcessAcks(p, h), ProcessAcks(q, h), h.seqNo);
    }
  }

  lemma OutSame(q: Peer, h: Header)
    ensures ProcessAcks(q, h).out == q.out
  {
  }

  lemma ShadowsStep(z: Link, y: Link, act: Action)
    requires Inv(y) && Shadows(z, y) && CanDo(z, act) && OneWay(act)
    ensures CanDo(y, act) && Shadows(Do(z, act), Do(y, act))
  {
    hide Inv, Follows, Receive, Words, AckSeq;
    if act.AtB? && act.e.Arrive? {
      IsOffer(y, act.e.seqNo);
      OfferBounds(y, y.fromA[act.e.seqNo]);
      FollowsReceive(z.b, y.b, y.fromA[act.e.seqNo]);
    } else if act.AtB? {
      FollowsDispatched(z.b, y.b);
    }
  }

  lemma FollowsDispatched(p: Peer, q: Peer)
    requires Follows(p, q)
    ensures Follows(Dispatched(p, true), Dispatched(q, true))
  {
  }

  lemma {:induction false} ShadowsRun(z: Link, y: Link, actions: seq<Action>)
    requires Inv(y) && Shadows(z, y) && Possible(z, actions) && AllOneWay(actions)
    ensures Possible(y, actions) && Shadows(Run(z, actions), Run(y, actions))
    decreases |actions|
  {
    hide Inv, Shadows, Do, CanDo, OneWay;
    if actions != [] {
      ShadowsStep(z, y, actions[0]);
      StepKeepsInv(y, actions[0]);
      ShadowsRun(Do(z, actions[0]), Do(y, actions[0]), actions[1..]);
    }
  }

  lemma SendShadows(l: Link)
    requires Inv(l)
    ensures Shadows(Do(l, AtB(Send)), l)
  {
    hide Told, Words;
  }

  lemma LongSame(p: Peer, q: Peer)
    requires Follows(p, q)
    ensures Long(p, p.inAckAck) == Long(q, q.inAckAck)
  {
  }

  lemma FirstAction(l: Link, act: Action, actions: seq<Action>)
    requires CanDo(l, act) && Possible(Do(l, act), actions)
    ensures Possible(l, [act] + actions) && Run(l, [act] + actions) == Run(Do(l, act), actions)
  {
    hide Do, CanDo;
    assert ([act] + actions)[1..] == actions;
  }

  /** Whatever happens, what could not be reached one way cannot be reached. */
  lemma ShutStep(l: Link, act: Action)
    requires Inv(l) && !CanHear(l) && !Talked(l) && CanDo(l, act) && Acknowledges(act)
    ensures !CanHear(Do(l, act)) && !Talked(Do(l, act))
  {
    hide Inv, CanHear, Possible, Run, Long;
    var z := Do(l, act);
    assert !CanHear(z) by {
      StillShut(l, act);
    }
    if OneWay(act) {
      forall actions | Possible(z, actions) && AllOneWay(actions)
        ensures Long(Run(z, actions).b, Run(z, actions).b.inAckAck)
      {
        FirstAction(l, act, actions);
        assert AllOneWay([act] + actions);
      }
    } else if act.AtA? {
      NotHeard(l, act.e.seqNo);
    } else {
      SendShadows(l);
      forall actions | Possible(z, actions) && AllOneWay(actions)
        ensures Long(Run(z, actions).b, Run(z, actions).b.inAckAck)
      {
        ShadowsRun(z, l, actions);
        LongSame(Run(z, actions).b, Run(l, actions).b);
      }
    }
  }

  lemma StillShut(l: Link, act: Action)
    requires Inv(l) && !CanHear(l) && !Talked(l) && CanDo(l, act) && Acknowledges(act)
    ensures !CanHear(Do(l, act))
  {
    hide Inv, Receive, Words, AckSeq, Accepts, Readable;
    if act.AtA? {
      StillUnheard(l, act.e);
    } else {
      assert Long(l.b, l.b.inAckAck) by {
        assert Possible(l, []) && Run(l, []) == l && AllOneWay([]);
      }
      LongUnreadable(l.b);
    }
  }

  lemma {:induction false} ShutForever(l: Link, actions: seq<Action>)
    requires Inv(l) && !CanHear(l) && !Talked(l) && Possible(l, actions) && AllAcknowledge(actions)
    ensures !CanHear(Run(l, actions))
    decreases |actions|
  {
    hide Inv, Do, CanDo, Talked, CanHear, Acknowledges;
    if actions != [] {
      ShutStep(l, actions[0]);
      StepKeepsInv(l, actions[0]);
      ShutForever(Do(l, actions[0]), actions[1..]);
    }
  }

  /** From every state, flushes or not: a takes in another packet of b in some continuation if
      and only if one can be read already, or b's history becomes short enough by what a says
      alone, with b sending nothing and a hearing nothing. */
  lemma OneWayIff(l: Link)
    requires Inv(l)
    ensures Recovers(l) <==> CanHear(l) || Talked(l)
  {
    hide Inv, CanHear, Long, Acknowledges, OneWay, Run, Possible;
    if CanHear(l) {
      ReachesItself(l);
    } else if Talked(l) {
      var actions :| Possible(l, actions) && AllOneWay(actions)
                     && !Long(Run(l, actions).b, Run(l, actions).b.inAckAck);
      assert AllAcknowledge(actions) by {
        OneWayAcknowledges(actions);
      }
      assert Reaches(l, Run(l, actions));
      ShortSpeaks(l, Run(l, actions));
    } else {
      forall z | Reaches(l, z)
        ensures !CanHear(z)
      {
        var actions :| Possible(l, actions) && AllAcknowledge(actions) && Run(l, actions) == z;
        ShutForever(l, actions);
      }
    }
  }

  lemma OneWayAcknowledges(actions: seq<Action>)
    requires AllOneWay(actions)
    ensures AllAcknowledge(actions)
  {
    forall i | 0 <= i < |actions|
      ensures Acknowledges(actions[i])
    {
      assert OneWay(actions[i]);
    }
  }
}
