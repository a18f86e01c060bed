/** The windows that the 14-bit notifications need, met in the runs of two ends. */
module NotifyRuns {
  import opened AckProtocol
  import opened AckRuns
  import opened MathUtility
  import opened PacketNotify
  import opened SequenceNumber

  /** Every count of the peer's packets in use lies from low on. */
  ghost predicate PeerFrom(p: Peer, low: int) {
    low <= p.InAck() && low <= p.inAckAck && low <= p.inSeq && forall i | 0 <= i < |p.record| :: low <= p.record[i]
  }

  /** What an end compares when a header arrives lies less than half a turn apart, as long as
      that holds of the oldest and the newest packet that either end still counts. */
  lemma ArrivalInWindow(l: Link, seqNo: nat, peerLow: int, ownLow: int)
    requires Inv(l) && seqNo < |l.fromB|
    requires PeerFrom(l.a, peerLow) && peerLow <= seqNo && |l.fromB| - peerLow < SEQ_NUMBER_HALF
    requires ownLow <= l.a.OutAck() && ownLow <= l.fromB[seqNo].Acked() && l.a.out - ownLow < SEQ_NUMBER_HALF
    ensures InWindow(l.a) && HeaderInWindow(l.a, l.fromB[seqNo])
    ensures forall i | 0 <= i < |l.a.record| :: Close(l.a.record[i], l.a.inAckAck)
    ensures Accepts(l.a, l.fromB[seqNo]) ==> TakeInWindow(ProcessAcks(l.a, l.fromB[seqNo]), seqNo)
    ensures Readable(l.fromB[seqNo]) ==>
              StaysInside(l.fromB[seqNo].words, l.fromB[seqNo].Acked() - l.a.OutAck())
  {
    StaysInsideIff(l.fromB[seqNo].words, l.fromB[seqNo].Acked() - l.a.OutAck());
    var a, h := l.a, l.fromB[seqNo];
    OwnBounds(l, seqNo);
    if Accepts(a, h) {
      TakenInInWindow(l, seqNo, peerLow, ownLow);
    }
  }

  lemma OwnBounds(l: Link, seqNo: nat)
    requires Inv(l) && seqNo < |l.fromB|
    ensures var a, h := l.a, l.fromB[seqNo];
            && h.seqNo == seqNo && h.Acked() < a.out && a.inSeq < |l.fromB| && a.InAck() <= a.inSeq
                && a.inAckAck <= a.inSeq
            && a.OutAck() <= a.waiting <= a.out && |a.record| == a.out - 1 - a.OutAck()
            && (forall i | 0 <= i < |a.record| :: a.record[i] <= a.InAck())
  {
    var a, h := l.a, l.fromB[seqNo];
    assert h.log <= l.b.log && l.b.InAck() <= l.b.inSeq < |l.fromA| == a.out;
    forall i | 0 <= i < |a.record|
      ensures a.record[i] <= a.InAck()
    {
      assert l.fromA[|a.reports| + i].log <= a.log;
    }
  }

  lemma TakenInInWindow(l: Link, seqNo: nat, peerLow: int, ownLow: int)
    requires Inv(l) && seqNo < |l.fromB| && Accepts(l.a, l.fromB[seqNo])
    requires PeerFrom(l.a, peerLow) && peerLow <= seqNo && |l.fromB| - peerLow < SEQ_NUMBER_HALF
    requires ownLow <= l.a.OutAck() && ownLow <= l.fromB[seqNo].Acked() && l.a.out - ownLow < SEQ_NUMBER_HALF
    ensures TakeInWindow(ProcessAcks(l.a, l.fromB[seqNo]), seqNo)
  {
    hide HasUnacknowledged, ReportsOf, Told, Sent, InHistory;
    var h := l.fromB[seqNo];
    var p := ProcessAcks(l.a, h);
    OwnBounds(l, seqNo);
    ProcessKeepsOwn(l.a, l.fromA, l.b, l.fromB, h);
    OwnParts(p, l.fromA);
    TakenInBetween(p, seqNo);
    FlushFrom(MakeRoom(p, seqNo), seqNo);
    assert MakeRoom(p, seqNo).inAckAck >= peerLow;
    assert FlushTo(MakeRoom(p, seqNo), seqNo) <= |l.fromB| - 1 by {
      FlushUpTo(p, seqNo);
    }
  }

  lemma FlushFrom(p: Peer, seqNo: int)
    ensures FlushTo(p, seqNo) >= Min(p.inAckAck, seqNo)
  {
    hide HasUnacknowledged;
  }

  lemma FlushUpTo(p: Peer, seqNo: int)
    requires Ordered(p) && seqNo > p.inSeq
    ensures FlushTo(MakeRoom(p, seqNo), seqNo) <= seqNo
  {
    hide HasUnacknowledged;
  }

  /** In particular for the first 8190 packets of each end. */
  lemma FirstPacketsInWindow(l: Link, seqNo: nat)
    requires Inv(l) && seqNo < |l.fromB| && |l.fromA| <= 8190 && |l.fromB| <= 8190
    ensures InWindow(l.a) && HeaderInWindow(l.a, l.fromB[seqNo])
    ensures forall i | 0 <= i < |l.a.record| :: Close(l.a.record[i], l.a.inAckAck)
    ensures Accepts(l.a, l.fromB[seqNo]) ==> TakeInWindow(ProcessAcks(l.a, l.fromB[seqNo]), seqNo)
  {
    hide InWindow, HeaderInWindow, TakeInWindow, Told;
    ArrivalInWindow(l, seqNo, -1, -1);
  }
}
