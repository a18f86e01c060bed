/** What taking a packet in does to the record of the peer's packets, flushes included. */
module FlushRuns {
  import opened AckProtocol
  import opened AckRuns
  import opened PendingPackets
  import opened RecoveryRuns

  /** The peer's packets that are recorded and not known to be known, 256 at most. */
  function Unconfirmed(p: Peer): int {
    var n := |p.log| - 1 - p.inAckAck;
    if n < 0 || n > 256 then 256 else n
  }

  /** One of them has arrived. */
  ghost predicate SomeArrived(p: Peer) {
    exists k: nat :: |p.log| - Unconfirmed(p) <= k < |p.log| && p.log[k]
  }

  predicate Beyond(p: Peer, seqNo: int) {
    seqNo < p.inAckAck || seqNo > p.inAckAck + 256
  }

  /** The record goes on to a packet, all that is new being losses. */
  ghost predicate LossesUpTo(before: seq<bool>, after: seq<bool>, to: int) {
    && before <= after && |after| == (if to < |before| then |before| else to + 1)
    && forall k | |before| <= k < |after| :: !after[k]
  }

  lemma ArrivedIs(p: Peer)
    ensures Unconfirmed(p) == HistoryLength(p) && (SomeArrived(p) <==> HasUnacknowledged(p))
  {
    if k: nat :| |p.log| - Unconfirmed(p) <= k < |p.log| && p.log[k] {
      assert Recent(p.log, |p.log| - 1 - k);
    }
    if age: nat :| age < HistoryLength(p) && Recent(p.log, age) {
      assert p.log[|p.log| - 1 - age];
    }
  }

  lemma AckedLosses(log: seq<bool>, to: int)
    ensures LossesUpTo(log, AckSeq(log, to, false), to)
  {
  }

  /** No flush is awaited: a packet that fits is taken in and recorded later; one beyond the
      history that finds only losses in view makes everything before it known. */
  lemma TakenIn(p: Peer, seqNo: int)
    requires p.waiting < |p.reports| && !(Beyond(p, seqNo) && SomeArrived(p))
    ensures TakeIn(MakeRoom(p, seqNo), seqNo)
         == p.(inSeq := seqNo, inAckAck := if Beyond(p, seqNo) then seqNo - 1 else p.inAckAck)
  {
    hide HasUnacknowledged, SomeArrived;
    ArrivedIs(p);
  }

  /** A packet beyond the history, with an arrival to be confirmed, starts a flush unless one
      is awaited.  With n packets unconfirmed, losses are recorded up to the packet that makes
      them 256, exactly when that is no older than the last one taken in; else nothing moves. */
  lemma FlushFills(p: Peer, seqNo: int)
    requires |p.reports| <= p.out && Beyond(p, seqNo) && SomeArrived(p)
    ensures var z, end := TakeIn(MakeRoom(p, seqNo), seqNo), p.inAckAck + 256 - Unconfirmed(p);
            && z == p.(waiting := z.waiting, inSeq := z.inSeq, log := z.log)
            && z.waiting == (if p.waiting < |p.reports| then p.out else p.waiting)
            && if end >= p.inSeq then z.inSeq == end && LossesUpTo(p.log, z.log, end)
               else z.inSeq == p.inSeq && z.log == p.log
  {
    hide HasUnacknowledged, SomeArrived, HistoryLength, AckSeq;
    ArrivedIs(p);
    ArrivedIs(p.(waiting := p.out));
    SameHistory(p, p.(waiting := p.out));
    AckedLosses(p.log, p.inAckAck + 256 - Unconfirmed(p));
  }

  /** During a flush any other packet is recorded as lost, with all before it. */
  lemma FlushCountsLost(p: Peer, seqNo: int)
    requires p.waiting >= |p.reports| && !(Beyond(p, seqNo) && SomeArrived(p)) && seqNo >= p.inSeq
    ensures var z := TakeIn(MakeRoom(p, seqNo), seqNo);
            z == p.(inSeq := seqNo, log := z.log) && LossesUpTo(p.log, z.log, seqNo)
  {
    hide HasUnacknowledged, SomeArrived, AckSeq;
    ArrivedIs(p);
    AckedLosses(p.log, seqNo);
  }

  /** In every reachable state a packet of the peer is acceptable exactly when it is newer than
      the last one taken in and acknowledges no less than has been reported: none ever
      acknowledges what has not been sent. */
  lemma AcceptedIff(l: Link, i: nat)
    requires Inv(l) && i < |l.fromB|
    ensures Accepts(l.a, l.fromB[i]) <==> i > l.a.inSeq && |l.fromB[i].log| >= |l.a.reports|
  {
    hide LostAt, Faithful;
    assert l.fromB[i].log <= l.b.log;
    assert |l.b.log| - 1 <= l.b.inSeq < |l.fromA|;
  }

  /** A header announces as many words as hold the packets unconfirmed, one at least. */
  lemma WordsAre(p: Peer)
    ensures var n := Words(p);
            1 <= n <= 8 && Unconfirmed(p) <= 32 * n && (n > 1 ==> Unconfirmed(p) > 32 * (n - 1))
  {
    ArrivedIs(p);
  }

  // ----- at its numbers -----

  /** Ten packets have arrived and been dispatched, the next 290 are lost, and packet 300
      arrives: b starts a flush, records losses up to packet 245, moves InSeq there by 236, and
      does not queue the packet. */
  lemma FlushRun() returns (l: Link)
    ensures !Queued(OneSided(10).b, Header(300, 1, []))
    ensures Reaches(NEW_LINK, l) && OneSided(10).b.inSeq == 9 && OneSided(10).b.inAckAck == -1
    ensures l.b.inSeq == 245 && l.b.IsWaiting() && LossesUpTo(Trues(10), l.b.log, 245)
  {
    hide Reaches, Words, Receive, OneSided, HasUnacknowledged;
    OneSidedReached(10);
    TenThere();
    var z := SendsUpTo(NEW_LINK, OneSided(10), 300);
    NewLinkOk();
    ReachesNext(NEW_LINK, z, AtB(Arrive(300)));
    l := Do(z, AtB(Arrive(300)));
    FarArrives(z.b, z.fromA[300]);
  }

  lemma TenThere()
    ensures OneSided(10).b == Peer(0, [], [], 9, Trues(10), -1, -1) && OneSided(10).a.out == 10
    ensures HeaderOf(OneSided(10).a).words == 1 && HeaderOf(OneSided(10).a).log == []
  {
  }

  lemma FarArrives(b: Peer, h: Header)
    requires b == Peer(0, [], [], 9, Trues(10), -1, -1) && h == Header(300, 1, [])
    ensures var z := Receive(b, h);
            Accepts(b, h) && z.inSeq == 245 && z.IsWaiting() && LossesUpTo(Trues(10), z.log, 245)
  {
    hide TakeIn, MakeRoom, LossesUpTo;
    assert Accepts(b, h) && Readable(h) && ProcessAcks(b, h) == b;
    assert Unconfirmed(b) == 10 && b.log[0];
    FlushFills(b, 300);
  }
}
