/** NetPacketNotify: the notifications with numbers of 14 bits and a history of 256 bits,
    proved against the plain counts of AckProtocol.  The numbers stand for the counts while
    those compared lie less than half a turn apart. */
module PacketNotify {
  import opened AckProtocol
  import opened MathUtility
  import opened SequenceNumber
  import H = SequenceHistory

  /** NotificationHeader */
  datatype Notification = Notification(seqNo: SequenceNumberT, ackedSeq: SequenceNumberT, wordCount: nat,
                                       words: seq<bv32>)

  /** An entry of AckRecord: an own packet and InAckSeq when it was sent. */
  datatype AckEntry = AckEntry(outSeq: SequenceNumberT, inAckSeq: SequenceNumberT)

  /** One call of the functor. */
  datatype Report = Report(seqNo: SequenceNumberT, delivered: bool)

  ghost predicate Close(x: int, y: int) {
    -SEQ_NUMBER_HALF < x - y < SEQ_NUMBER_HALF
  }

  /** All that is compared lies within half a turn. */
  ghost predicate InWindow(p: Peer) {
    && Close(p.InAck(), p.inAckAck) && Close(p.inSeq, p.InAck()) && Close(p.waiting, p.OutAck())
    && |p.record| < SEQ_NUMBER_HALF
  }

  ghost predicate HeaderInWindow(p: Peer, h: Header) {
    && Close(h.seqNo, p.inSeq) && Close(h.seqNo, p.inAckAck) && Close(h.seqNo, p.InAck())
    && Close(h.Acked(), p.OutAck()) && Close(p.out, h.Acked())
    && Close(h.Acked(), p.waiting) && Close(p.out, p.OutAck())
  }

  /** The same for a packet being taken in. */
  ghost predicate TakeInWindow(p: Peer, seqNo: int) {
    && InWindow(p) && Close(p.out, p.OutAck())
    && Close(seqNo, p.inAckAck) && Close(seqNo, p.inSeq) && Close(seqNo, p.InAck()) && Close(seqNo - 1, p.InAck())
    && (var r := MakeRoom(p, seqNo); Close(FlushTo(r, seqNo), p.inSeq) && Close(FlushTo(r, seqNo), p.InAck()))
  }

  ghost predicate HistoryIs(bits: seq<bool>, log: seq<bool>) {
    |bits| == HISTORY_SIZE && forall age | 0 <= age < HISTORY_SIZE :: bits[age] == Recent(log, age)
  }

  /** What travels of a header.  The count has four bits, so that up to 16 words can be
      announced; the reader stores eight at most. */
  ghost predicate Represents(n: Notification, h: Header, seqBase: int, ackBase: int) {
    && n.seqNo == Seq(seqBase + h.seqNo) && n.ackedSeq == Seq(ackBase + h.Acked())
    && n.wordCount == h.words && |n.words| == WORD_COUNT
    && forall age | 0 <= age < Min(BITS_PER_WORD * h.words, HISTORY_SIZE) ::
         H.BitsOf(n.words)[age] == Recent(h.log, age)
  }

  /** The indices with which the reports of a header look into its history. */
  predicate LooksAt(wordCount: nat, ackCount: int, index: int) {
    0 <= index < ackCount && index < BITS_PER_WORD * wordCount
  }

  /** None of them lies behind the eight words that are stored. */
  ghost predicate StaysInside(wordCount: nat, ackCount: int) {
    forall index: int | LooksAt(wordCount, ackCount, index) :: index < HISTORY_SIZE
  }

  /** That is so exactly when no more than eight words are announced, or no more than 256
      packets are reported on at once. */
  lemma StaysInsideIff(wordCount: nat, ackCount: int)
    ensures StaysInside(wordCount, ackCount) <==> wordCount <= WORD_COUNT || ackCount <= HISTORY_SIZE
  {
    assert LooksAt(wordCount, ackCount, HISTORY_SIZE) <==> wordCount > WORD_COUNT && ackCount > HISTORY_SIZE;
  }

  ghost predicate RecordMatches(entries: seq<AckEntry>, p: Peer, inBase: int, outBase: int) {
    && |entries| == |p.record| && |p.reports| + |p.record| == p.out
    && forall i | 0 <= i < |entries| ::
        entries[i] == AckEntry(Seq(outBase + |p.reports| + i), Seq(inBase + p.record[i]))
  }

  /** The entry of the packet acknowledged, and the record without those up to it. */
  lemma RecordProcessed(entries: seq<AckEntry>, p: Peer, h: Header, inBase: int, outBase: int)
    requires RecordMatches(entries, p, inBase, outBase) && p.OutAck() < h.Acked() < p.out
    ensures var count := h.Acked() - p.OutAck();
            && count <= |entries| == |p.record|
            && entries[count - 1] == AckEntry(Seq(outBase + h.Acked()), Seq(inBase + p.record[count - 1]))
            && RecordMatches(entries[count..], ProcessAcks(p, h), inBase, outBase)
  {
    hide Seq, ReportsOf;
  }

  /** What ProcessReceivedAcks tells its functor. */
  function ReportsFor(h: Header, base: int, told: nat, n: nat): (reports: seq<Report>)
    ensures |reports| == n
  {
    seq(n, i requires 0 <= i < n => Report(Seq(base + told + i), Reported(h, told + i)))
  }

  lemma ReportsForNone(h: Header, base: int, told: nat)
    ensures ReportsFor(h, base, told, 0) == []
  {
  }

  lemma ReportsForNext(h: Header, base: int, told: nat, n: nat)
    ensures ReportsFor(h, base, told, n + 1) == ReportsFor(h, base, told, n) +
            [Report(Seq(base + told + n), Reported(h, told + n))]
  {
  }

  lemma HistoryGrows(bits: seq<bool>, log: seq<bool>, delivered: bool)
    requires HistoryIs(bits, log)
    ensures HistoryIs([delivered] + bits[..HISTORY_SIZE - 1], log + [delivered])
  {
    var more := log + [delivered];
    forall age | 0 <= age < HISTORY_SIZE
      ensures ([delivered] + bits[..HISTORY_SIZE - 1])[age] == Recent(more, age)
    {
      assert age > 0 ==> Recent(more, age) == Recent(log, age - 1);
    }
  }

  class NetPacketNotify {
    var AckRecord: seq<AckEntry>
    var WrittenHistoryWordCount: nat
    var WrittenInAckSeq: SequenceNumberT
    const InSeqHistory: H.SequenceHistory
    var InSeq: SequenceNumberT
    var InAckSeq: SequenceNumberT
    var InAckSeqAck: SequenceNumberT
    var WaitingForFlushSeqAck: SequenceNumberT
    var OutSeq: SequenceNumberT
    var OutAckSeq: SequenceNumberT

    /** The counts the numbers stand for, and the numbers the two ends started from. */
    ghost var P: Peer
    ghost const InBase: int
    ghost const OutBase: int

    ghost predicate InNumbers()
      reads this`InSeq, this`InAckSeq, this`InAckSeqAck, this`P
    {
      InSeq == Seq(InBase + P.inSeq) && InAckSeq == Seq(InBase + P.InAck()) && InAckSeqAck == Seq(InBase + P.inAckAck)
    }

    ghost predicate OutNumbers()
      reads this`OutSeq, this`OutAckSeq, this`WaitingForFlushSeqAck, this`P
    {
      OutSeq == Seq(OutBase + P.out) && OutAckSeq == Seq(OutBase + P.OutAck())
          && WaitingForFlushSeqAck == Seq(OutBase + P.waiting)
    }

    ghost predicate RecordIs()
      reads this`AckRecord, this`P
    {
      RecordMatches(AckRecord, P, InBase, OutBase)
    }

    ghost predicate Valid()
      reads this, InSeqHistory, InSeqHistory.Storage
    {
      InNumbers() && OutNumbers() && RecordIs() && InSeqHistory.Valid() && HistoryIs(InSeqHistory.View(), P.log)
    }

    constructor (initialInSeq: SequenceNumberT, initialOutSeq: SequenceNumberT)
      ensures Valid() && fresh(InSeqHistory) && fresh(InSeqHistory.Storage)
      ensures P == START && InSeq == initialInSeq && OutSeq == initialOutSeq && WrittenHistoryWordCount == 0
    {
      InSeqHistory := new H.SequenceHistory();
      InSeq, InAckSeq, InAckSeqAck := initialInSeq, initialInSeq, initialInSeq;
      OutSeq, OutAckSeq := initialOutSeq, Seq(initialOutSeq - 1);
      WaitingForFlushSeqAck := Seq(initialOutSeq - 1);
      AckRecord, WrittenHistoryWordCount, WrittenInAckSeq := [], 0, 0;
      P, InBase, OutBase := START, initialInSeq + 1, initialOutSeq;
    }

    // ----- the statuses of the peer's packets -----

    /** AckSeq: the packet with the given number, taken for the one nearest to InAckSeq. */
    method Ack(ackedSeq: SequenceNumberT, isAck: bool)
      requires Valid()
      modifies this`InAckSeq, this`P, InSeqHistory.Storage
      ensures Valid()
      ensures var seqNo := old(P).InAck() + Diff(ackedSeq, old(InAckSeq));
              P == old(P).(log := AckProtocol.AckSeq(old(P).log, seqNo, isAck))
    {
      hide Recent, H.BitsOf, Seq, Greater, Diff, HistoryIs;
      ghost var log, seqNo := P.log, P.InAck() + Diff(ackedSeq, InAckSeq);
      DiffIs(ackedSeq, InAckSeq);
      SeqAdd(InBase + P.InAck(), Diff(ackedSeq, InAckSeq));
      GreaterIsPositive(ackedSeq, InAckSeq);
      while Greater(ackedSeq, InAckSeq)
        invariant InNumbers() && InSeqHistory.Valid() && HistoryIs(InSeqHistory.View(), P.log)
        invariant |log| <= |P.log| <= Max(|log|, seqNo + 1) && ackedSeq == Seq(InBase + seqNo)
        invariant Greater(ackedSeq, InAckSeq) <==> seqNo > P.InAck()
        invariant P == old(P).(log := if |P.log| <= seqNo then log + Falses(|P.log| - |log|)
                                      else AckProtocol.AckSeq(log, seqNo, isAck))
        decreases seqNo - |P.log|
      {
        InAckSeq := Seq(InAckSeq + 1);
        SeqAdd(InBase + P.InAck(), 1);
        Window(InBase + seqNo, InBase + P.InAck() + 1);
        var reportAcked := if InAckSeq == ackedSeq then isAck else false;
        HistoryGrows(InSeqHistory.View(), P.log, reportAcked);
        InSeqHistory.AddDeliveryStatus(reportAcked);
        P := P.(log := P.log + [reportAcked]);
      }
    }

    /** GetCurrentSequenceHistoryLength */
    method CurrentSequenceHistoryLength() returns (n: nat)
      requires Valid()
      ensures n <= HISTORY_SIZE && (Close(P.InAck(), P.inAckAck) ==> n == HistoryLength(P))
    {
      hide Seq, GreaterEq, Diff;
      GreaterIsPositive(InAckSeq, InAckSeqAck);
      if Close(P.InAck(), P.inAckAck) {
        Window(InBase + P.InAck(), InBase + P.inAckAck);
      }
      n := if GreaterEq(InAckSeq, InAckSeqAck) then Min(Diff(InAckSeq, InAckSeqAck), HISTORY_SIZE) else HISTORY_SIZE;
    }

    /** GetHasUnacknowledgedAcks */
    method HasUnacknowledgedAcks() returns (found: bool)
      requires Valid()
      ensures Close(P.InAck(), P.inAckAck) ==> found == HasUnacknowledged(P)
    {
      hide Recent, H.BitsOf, H.Delivered;
      var end := CurrentSequenceHistoryLength();
      var i := 0;
      while i < end
        invariant i <= end && forall age: nat | age < i :: !Recent(P.log, age)
      {
        if InSeqHistory.IsDelivered(i) {
          return true;
        }
        i := i + 1;
      }
      found := false;
    }

    /** WriteHeader without a refresh: the packed numbers and the words of the history. */
    method WriteHeader() returns (n: Notification)
      requires Valid()
      modifies this`WrittenHistoryWordCount, this`WrittenInAckSeq
      ensures Valid() && 1 <= WrittenHistoryWordCount <= WORD_COUNT && WrittenInAckSeq == InAckSeq
      ensures Close(P.InAck(), P.inAckAck) ==>
                Represents(n, HeaderOf(P), OutBase, InBase) && WrittenHistoryWordCount == Words(P)
    {
      hide Recent, H.Delivered;
      var length := CurrentSequenceHistoryLength();
      var words := (length + BITS_PER_WORD - 1) / BITS_PER_WORD;
      WrittenHistoryWordCount := Max(1, Min(words, WORD_COUNT));
      WrittenInAckSeq := InAckSeq;
      n := Notification(OutSeq, InAckSeq, WrittenHistoryWordCount, InSeqHistory.Storage[..]);
    }

    /** CommitAndIncrementOutSeq: nothing happens before the packet's header is written; the
        entry holds what was acknowledged when that was done. */
    method CommitAndIncrementOutSeq(ghost written: int)
      requires Valid() && (WrittenHistoryWordCount > 0 ==> WrittenInAckSeq == Seq(InBase + written))
      modifies this`AckRecord, this`WrittenHistoryWordCount, this`OutSeq, this`P
      ensures Valid() && WrittenHistoryWordCount == 0
      ensures P == if old(WrittenHistoryWordCount) == 0 then old(P)
                   else old(P).(out := old(P).out + 1, record := old(P).record + [written])
      ensures old(WrittenHistoryWordCount) > 0 && written == old(P).InAck() ==> P == Commit(old(P))
    {
      hide Seq, HistoryIs;
      if WrittenHistoryWordCount == 0 {
        return;
      }
      SeqAdd(OutBase + P.out, 1);
      AckRecord := AckRecord + [AckEntry(OutSeq, WrittenInAckSeq)];
      WrittenHistoryWordCount := 0;
      OutSeq := Seq(OutSeq + 1);
      P := P.(out := P.out + 1, record := P.record + [written]);
    }

    // ----- what a notification says -----

    /** GetSequenceDelta: positive exactly for a packet that is acceptable. */
    method GetSequenceDelta(n: Notification, ghost h: Header) returns (delta: int)
      requires Valid() && Represents(n, h, InBase, OutBase)
      ensures delta >= 0
      ensures HeaderInWindow(P, h) ==> delta == if Accepts(P, h) then h.seqNo - P.inSeq else 0
    {
      hide Seq, Greater, GreaterEq, Diff, HistoryIs, H.BitsOf;
      GreaterIsPositive(n.seqNo, InSeq);
      if HeaderInWindow(P, h) {
        Window(InBase + h.seqNo, InBase + P.inSeq);
        Window(OutBase + h.Acked(), OutBase + P.OutAck());
        Window(OutBase + P.out, OutBase + h.Acked());
      }
      if Greater(n.seqNo, InSeq) && GreaterEq(n.ackedSeq, OutAckSeq) && Greater(OutSeq, n.ackedSeq) {
        delta := Diff(n.seqNo, InSeq);
      } else {
        delta := 0;
      }
    }

    /** UpdateInAckSeqAck: the entries up to the packet acknowledged are dropped, and what
        was acknowledged with that packet is known to the peer. */
    method UpdateInAckSeqAck(ackCount: int, ackedSeq: SequenceNumberT) returns (inAckSeqAck: SequenceNumberT)
      requires ackCount > 0
      modifies this`AckRecord
      ensures AckRecord == if ackCount <= |old(AckRecord)| then old(AckRecord)[ackCount..] else old(AckRecord)
      ensures inAckSeqAck == if ackCount <= |old(AckRecord)| && old(AckRecord)[ackCount - 1].outSeq == ackedSeq
                             then old(AckRecord)[ackCount - 1].inAckSeq else Seq(ackedSeq - HISTORY_SIZE)
    {
      if ackCount <= |AckRecord| {
        var i := 0;
        while i < ackCount - 1
          invariant 0 <= i <= ackCount - 1 && AckRecord == old(AckRecord)[i..]
        {
          AckRecord := AckRecord[1..];
          i := i + 1;
        }
        var ackData := AckRecord[0];
        AckRecord := AckRecord[1..];
        if ackData.outSeq == ackedSeq {
          return ackData.inAckSeq;
        }
      }
      inAckSeqAck := Seq(ackedSeq - HISTORY_SIZE);
    }

    /** The calls of the functor, one for each own packet up to the one acknowledged, oldest
        first: lost when the history sent does not reach back to it, else what it says. */
    method ReportAcks(n: Notification, ghost h: Header, ackCount: int) returns (reports: seq<Report>)
      requires Valid() && Represents(n, h, InBase, OutBase) && ackCount == h.Acked() - P.OutAck() >= 0
      requires StaysInside(n.wordCount, ackCount)
      ensures reports == ReportsFor(h, OutBase, |P.reports|, ackCount)
    {
      hide Seq, Recent, H.Delivered, HistoryIs, ReportsFor;
      ReportsForNone(h, OutBase, |P.reports|);
      reports := [];
      var currentAck: SequenceNumberT := Seq(OutAckSeq + 1);
      SeqAdd(OutBase + P.OutAck(), 1);
      var count := ackCount;
      var historyBits := n.wordCount * BITS_PER_WORD;
      ghost var told := |P.reports|;
      while count > historyBits
        invariant 0 <= count <= ackCount && currentAck == Seq(OutBase + told + |reports|)
                  && |reports| == ackCount - count
        invariant reports == ReportsFor(h, OutBase, told, ackCount - count)
      {
        ReportsForNext(h, OutBase, told, ackCount - count);
        count := count - 1;
        reports := reports + [Report(currentAck, false)];
        SeqAdd(OutBase + told + |reports| - 1, 1);
        currentAck := Seq(currentAck + 1);
      }
      while count > 0
        invariant 0 <= count <= ackCount && count <= historyBits
        invariant currentAck == Seq(OutBase + told + |reports|) && |reports| == ackCount - count
        invariant reports == ReportsFor(h, OutBase, told, ackCount - count)
      {
        ReportsForNext(h, OutBase, told, ackCount - count);
        count := count - 1;
        assert LooksAt(n.wordCount, ackCount, count);
        assert H.BitsOf(n.words)[count] == H.Delivered(n.words, count);
        reports := reports + [Report(currentAck, H.Delivered(n.words, count))];
        SeqAdd(OutBase + told + |reports| - 1, 1);
        currentAck := Seq(currentAck + 1);
      }
    }

    /** ProcessReceivedAcks; reports lists the calls of the functor. */
    method ProcessReceivedAcks(n: Notification, ghost h: Header) returns (reports: seq<Report>)
      requires Valid() && InWindow(P) && Represents(n, h, InBase, OutBase) && HeaderInWindow(P, h)
      requires P.OutAck() <= h.Acked() < P.out && StaysInside(n.wordCount, h.Acked() - P.OutAck())
      requires forall i | 0 <= i < |P.record| :: Close(P.record[i], P.inAckAck)
      modifies this`AckRecord, this`InAckSeqAck, this`OutAckSeq, this`WaitingForFlushSeqAck, this`P
      ensures Valid() && P == ProcessAcks(old(P), h)
      ensures reports == ReportsFor(h, OutBase, |old(P).reports|, h.Acked() - old(P).OutAck())
    {
      hide Seq, Greater, Diff, HistoryIs, H.BitsOf, Recent, ReportsFor, ReportsOf, Represents, RecordMatches,
           StaysInside;
      WhatArrives(n, h, InBase, OutBase);
      Window(OutBase + h.Acked(), OutBase + P.OutAck());
      Window(OutBase + h.Acked(), OutBase + P.waiting);
      reports := [];
      ReportsForNone(h, OutBase, |P.reports|);
      if Greater(n.ackedSeq, OutAckSeq) {
        var ackCount := Diff(n.ackedSeq, OutAckSeq);
        reports := ReportAcks(n, h, ackCount);
        RecordProcessed(AckRecord, P, h, InBase, OutBase);
        ghost var known := P.record[ackCount - 1];
        var newInAckSeqAck := UpdateInAckSeqAck(ackCount, n.ackedSeq);
        Window(InBase + known, InBase + P.inAckAck);
        if Greater(newInAckSeqAck, InAckSeqAck) {
          InAckSeqAck := newInAckSeqAck;
        }
        OutAckSeq := n.ackedSeq;
        if Greater(OutAckSeq, WaitingForFlushSeqAck) {
          WaitingForFlushSeqAck := OutAckSeq;
        }
        P := ProcessAcks(P, h);
      }
    }

    // ----- taking the packet in -----

    /** IsWaitingForSequenceHistoryFlush */
    method WaitingForFlush() returns (waiting: bool)
      requires Valid() && Close(P.waiting, P.OutAck())
      ensures waiting == P.IsWaiting()
    {
      hide Seq, Greater;
      Window(OutBase + P.waiting, OutBase + P.OutAck());
      waiting := Greater(WaitingForFlushSeqAck, OutAckSeq);
    }

    /** WillSequenceFitInSequenceHistory */
    method WillFit(ghost seqNo: int, number: SequenceNumberT) returns (fits: bool)
      requires Valid() && number == Seq(InBase + seqNo) && Close(seqNo, P.inAckAck)
      ensures fits == Fits(P, seqNo)
    {
      hide Seq, GreaterEq, Diff;
      Window(InBase + seqNo, InBase + P.inAckAck);
      fits := GreaterEq(number, InAckSeqAck) && Diff(number, InAckSeqAck) <= HISTORY_SIZE;
    }

    /** The first half of InternalUpdate. */
    method MakeHistoryRoom(ghost seqNo: int, number: SequenceNumberT)
      requires Valid() && TakeInWindow(P, seqNo) && number == Seq(InBase + seqNo)
      modifies this`WaitingForFlushSeqAck, this`InAckSeqAck, this`P
      ensures Valid() && P == MakeRoom(old(P), seqNo)
      ensures InWindow(P) && Close(seqNo, P.inAckAck)
    {
      hide Seq, HistoryIs, Recent, H.BitsOf, HasUnacknowledged, Fits, FlushTo;
      var waiting := WaitingForFlush();
      var fits := WillFit(seqNo, number);
      if !waiting && !fits {
        var unacknowledged := HasUnacknowledgedAcks();
        if unacknowledged {
          WaitingForFlushSeqAck := OutSeq;
          P := P.(waiting := P.out);
        } else {
          SeqAdd(InBase + seqNo, -1);
          InAckSeqAck := Seq(number - 1);
          P := P.(inAckAck := seqNo - 1);
        }
      }
    }

    /** How far the flush gets. */
    method NewInSeqToAck(ghost seqNo: int, number: SequenceNumberT) returns (to: SequenceNumberT)
      requires Valid() && InWindow(P) && Close(seqNo, P.inAckAck) && number == Seq(InBase + seqNo)
      ensures to == Seq(InBase + FlushTo(P, seqNo))
    {
      hide Seq, HistoryIs, Recent, H.BitsOf, HasUnacknowledged, Fits, HistoryLength;
      to := number;
      var fits := WillFit(seqNo, number);
      if !fits {
        var unacknowledged := HasUnacknowledgedAcks();
        if unacknowledged {
          var length := CurrentSequenceHistoryLength();
          SeqAdd(InBase + P.inAckAck, HISTORY_SIZE - length);
          to := Seq(InAckSeqAck + (HISTORY_SIZE - length));
        }
      }
    }

    /** InternalUpdate: the result is how far InSeq has moved. */
    method InternalUpdate(n: Notification, ghost h: Header, inSeqDelta: int) returns (delta: int)
      requires Valid() && TakeInWindow(P, h.seqNo) && n.seqNo == Seq(InBase + h.seqNo)
               && inSeqDelta == h.seqNo - P.inSeq
      modifies this`WaitingForFlushSeqAck, this`InAckSeqAck, this`P, this`InSeq, this`InAckSeq, InSeqHistory.Storage
      ensures Valid() && P == TakeIn(MakeRoom(old(P), h.seqNo), h.seqNo)
      ensures delta == P.inSeq - old(P).inSeq
    {
      hide Seq, GreaterEq, Diff, HistoryIs, Recent, H.BitsOf, HasUnacknowledged, Fits, FlushTo, AckProtocol.AckSeq;
      MakeHistoryRoom(h.seqNo, n.seqNo);
      var waiting := WaitingForFlush();
      if !waiting {
        InSeq := n.seqNo;
        P := P.(inSeq := h.seqNo);
        return inSeqDelta;
      }
      var to := NewInSeqToAck(h.seqNo, n.seqNo);
      ghost var count := FlushTo(P, h.seqNo);
      Window(InBase + count, InBase + P.inSeq);
      delta := 0;
      if GreaterEq(to, InSeq) {
        delta := Diff(to, InSeq);
        InSeq := to;
        P := P.(inSeq := count);
        Window(InBase + count, InBase + P.InAck());
        Ack(to, false);
      }
    }

    /** Update for a packet that GetSequenceDelta finds acceptable. */
    method Update(n: Notification, ghost h: Header) returns (delta: int, reports: seq<Report>)
      requires Valid() && InWindow(P) && Represents(n, h, InBase, OutBase) && HeaderInWindow(P, h)
      requires Accepts(P, h) ==>
                 TakeInWindow(ProcessAcks(P, h), h.seqNo) && StaysInside(n.wordCount, h.Acked() - P.OutAck())
      requires forall i | 0 <= i < |P.record| :: Close(P.record[i], P.inAckAck)
      modifies this`AckRecord, this`InAckSeqAck, this`OutAckSeq, this`WaitingForFlushSeqAck, this`P
      modifies this`InSeq, this`InAckSeq, InSeqHistory.Storage
      ensures Valid()
      ensures P == if Accepts(old(P), h) then TakeIn(MakeRoom(ProcessAcks(old(P), h), h.seqNo), h.seqNo) else old(P)
      ensures delta == P.inSeq - old(P).inSeq
      ensures reports == if Accepts(old(P), h)
              then ReportsFor(h, OutBase, |old(P).reports|, h.Acked() - old(P).OutAck())
              else []
    {
      hide Seq, HistoryIs, Recent, H.BitsOf, MakeRoom, TakeIn, TakeInWindow, ReportsFor, ReportsOf, Represents;
      WhatArrives(n, h, InBase, OutBase);
      delta, reports := 0, [];
      var inSeqDelta := GetSequenceDelta(n, h);
      if inSeqDelta > 0 {
        reports := ProcessReceivedAcks(n, h);
        delta := InternalUpdate(n, h, inSeqDelta);
      }
    }
  }

  lemma WhatArrives(n: Notification, h: Header, seqBase: int, ackBase: int)
    requires Represents(n, h, seqBase, ackBase)
    ensures n.seqNo == Seq(seqBase + h.seqNo) && n.ackedSeq == Seq(ackBase + h.Acked())
  {
  }
}
