/** NetPacketNotify over plain packet counts: what the notifications of a connection say,
    before the numbers are cut to 14 bits and the record of arrivals to 256 entries. */
module AckProtocol {
  import opened MathUtility
  import SequenceHistory

  const HISTORY_SIZE := SequenceHistory.HISTORY_SIZE

  const BITS_PER_WORD := SequenceHistory.BITS_PER_WORD

  const WORD_COUNT := SequenceHistory.WORD_COUNT

  /** One end.  Both ends count packets from 0.
      out      OutSeq: the number of the next packet sent
      reports  what the notifications so far said of the own packets, in order; the last
               one reported is OutAckSeq
      record   AckRecord: InAckSeq as it was when each own packet not yet reported was sent
      inSeq    InSeq: the last packet of the peer taken in
      log      whether each packet of the peer arrived; the last one logged is InAckSeq
      inAckAck InAckSeqAck: the last status the peer is known to know
      waiting  WaitingForFlushSeqAck */
  datatype Peer = Peer(out: nat, reports: seq<bool>, record: seq<int>,
                       inSeq: int, log: seq<bool>, inAckAck: int, waiting: int)
  {
    function OutAck(): int {
      |reports| - 1
    }

    function InAck(): int {
      |log| - 1
    }

    predicate IsWaiting() {
      waiting > OutAck()
    }
  }

  /** The notification in front of a packet: its number, and the statuses of the receiver's
      packets, of which the last 32 * words travel. */
  datatype Header = Header(seqNo: nat, words: nat, log: seq<bool>) {
    function Acked(): int {
      |log| - 1
    }
  }

  const START := Peer(0, [], [], -1, [], -1, -1)

  /** The bits of the history: the status of the newest packet first. */
  predicate Recent(log: seq<bool>, age: nat) {
    age < |log| && log[|log| - 1 - age]
  }

  /** GetCurrentSequenceHistoryLength */
  function HistoryLength(p: Peer): int {
    if p.InAck() >= p.inAckAck then Min(p.InAck() - p.inAckAck, HISTORY_SIZE) else HISTORY_SIZE
  }

  /** As many words as the history is long, but at least one and at most all. */
  function Words(p: Peer): nat {
    Max(1, Min((HistoryLength(p) + BITS_PER_WORD - 1) / BITS_PER_WORD, WORD_COUNT))
  }

  /** WriteHeader */
  function HeaderOf(p: Peer): Header {
    Header(p.out, Words(p), p.log)
  }

  /** The bits of a packet's header: its size byte, magic number, session, client and
      handshake flag, the packed numbers, and the history. */
  function HeaderBits(words: nat): nat {
    8 + 1 + 2 + 3 + 1 + 32 + BITS_PER_WORD * words
  }

  /** PacketHeaderBitSize: a word that does not fit is not written, and a header that
      announces more words than it has cannot be read. */
  const PACKET_HEADER_BITS := 80

  /** ReadHeader succeeds. */
  predicate Readable(h: Header) {
    HeaderBits(h.words) <= PACKET_HEADER_BITS
  }

  /** CommitAndIncrementOutSeq */
  function Commit(p: Peer): Peer {
    p.(out := p.out + 1, record := p.record + [p.InAck()])
  }

  function Falses(n: int): seq<bool> {
    seq(if n < 0 then 0 else n, _ => false)
  }

  /** AckSeq: the packets up to the given one count as lost, the last as said. */
  function AckSeq(log: seq<bool>, seqNo: int, isAck: bool): seq<bool> {
    if seqNo > |log| - 1 then log + Falses(seqNo - |log|) + [isAck] else log
  }

  /** GetSequenceDelta: a newer packet of the peer that acknowledges nothing unsent and
      takes nothing back. */
  predicate Accepts(p: Peer, h: Header) {
    h.seqNo > p.inSeq && h.Acked() >= p.OutAck() && p.out > h.Acked()
  }

  /** What a header says of the own packet with the given number. */
  predicate Reported(h: Header, seqNo: int) {
    h.Acked() >= seqNo && h.Acked() - seqNo < BITS_PER_WORD * h.words && Recent(h.log, h.Acked() - seqNo)
  }

  function ReportsOf(h: Header, from: nat, n: nat): (reports: seq<bool>)
    ensures |reports| == n
  {
    seq(n, i requires 0 <= i < n => Reported(h, from + i))
  }

  /** ProcessReceivedAcks: news of every own packet up to the one acknowledged. */
  function ProcessAcks(p: Peer, h: Header): Peer {
    var count := h.Acked() - p.OutAck();
    if 0 < count <= |p.record| then
      p.(reports := p.reports + ReportsOf(h, |p.reports|, count),
         record := p.record[count..],
         inAckAck := Max(p.inAckAck, p.record[count - 1]),
         waiting := Max(p.waiting, h.Acked()))
    else p
  }

  /** WillSequenceFitInSequenceHistory */
  predicate Fits(p: Peer, seqNo: int) {
    seqNo >= p.inAckAck && seqNo - p.inAckAck <= HISTORY_SIZE
  }

  /** GetHasUnacknowledgedAcks */
  predicate HasUnacknowledged(p: Peer) {
    exists age: nat :: age < HistoryLength(p) && Recent(p.log, age)
  }

  /** The first step of InternalUpdate: a packet beyond the history starts a flush, or,
      when all that would be forgotten is losses, moves the history on. */
  function MakeRoom(p: Peer, seqNo: int): Peer {
    if p.IsWaiting() || Fits(p, seqNo) then p
    else if HasUnacknowledged(p) then p.(waiting := p.out)
    else p.(inAckAck := seqNo - 1)
  }

  /** How far the history may be filled while a flush is awaited. */
  function FlushTo(p: Peer, seqNo: int): int {
    if !Fits(p, seqNo) && HasUnacknowledged(p) then p.inAckAck + HISTORY_SIZE - HistoryLength(p) else seqNo
  }

  /** The second step: the packet is taken in, or, during a flush, counted as lost. */
  function TakeIn(p: Peer, seqNo: int): Peer {
    if !p.IsWaiting() then p.(inSeq := seqNo)
    else
      var to := FlushTo(p, seqNo);
      if to >= p.inSeq then p.(inSeq := to, log := AckSeq(p.log, to, false)) else p
  }

  /** ReceivedPacket, up to the queue of packets to be dispatched */
  function Receive(p: Peer, h: Header): Peer {
    if Readable(h) && Accepts(p, h) then TakeIn(MakeRoom(ProcessAcks(p, h), h.seqNo), h.seqNo) else p
  }

  /** AckSeq or NakSeq once the packet taken in last has been dispatched. */
  function Dispatched(p: Peer, isAck: bool): Peer {
    p.(log := AckSeq(p.log, p.inSeq, isAck))
  }
}
