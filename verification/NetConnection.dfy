/** NetConnection: packets are filled from the channels' queues, the ledger remembers which
    channels each packet carries, and acks and nacks travel back through it. */
module NetConnection {
  import opened BunchBuilder
  import opened ChannelRecord
  import opened NetChannel
  import opened PacketAssembly
  import opened PacketFilling
  import opened SendRuns
  import opened SequenceNumber
  import N = PacketNotify

  /** The channel that a round which starts at rr visits in turn i. */
  function Visited(rr: nat, i: nat, n: nat): nat
    requires n > 0
  {
    (rr + i) % n
  }

  lemma VisitedIs(rr: nat, i: nat, n: nat)
    requires rr < n && i < n
    ensures Visited(rr, i, n) == if rr + i < n then rr + i else rr + i - n
  {
  }

  /** One round visits every channel. */
  lemma VisitsAll(rr: nat, n: nat, c: nat) returns (i: nat)
    requires rr < n && c < n
    ensures i < n && Visited(rr, i, n) == c
  {
    i := if rr <= c then c - rr else c + n - rr;
    VisitedIs(rr, i, n);
  }

  function Statuses(reports: seq<N.Report>): seq<bool> {
    seq(|reports|, i requires 0 <= i < |reports| => reports[i].delivered)
  }

  /** A channel after the reports on the packets from the given one on. */
  function NotifyAll(out: Outbox, from: nat, reports: seq<bool>): Outbox {
    if reports == [] then out
    else
      var n := |reports| - 1;
      Notify(NotifyAll(out, from, reports[..n]), from + n, reports[n])
  }

  /** Nothing is left waiting for a packet reported on; all else waits as before. */
  lemma {:induction false} NotifyAllUnacked(out: Outbox, from: nat, reports: seq<bool>)
    ensures var z := NotifyAll(out, from, reports);
            forall p: nat :: && (p in z.unacked <==> p in out.unacked && !(from <= p < from + |reports|))
                             && (p in z.unacked ==> z.unacked[p] == out.unacked[p])
    decreases |reports|
  {
    if reports != [] {
      NotifyAllUnacked(out, from, reports[..|reports| - 1]);
    }
  }

  lemma NotifyMoves(out: Outbox, packetId: nat, delivered: bool)
    ensures var z := Notify(out, packetId, delivered);
            multiset(InOrder(z.unacked)) + multiset(z.queue) +
                (if delivered then multiset(BunchesOf(out, packetId)) else multiset{})
            == multiset(InOrder(out.unacked)) + multiset(out.queue)
  {
    hide InOrder;
    TakenOut(out.unacked, packetId);
  }

  /** A channel loses the bunches of exactly the packets reported delivered; those of the
      packets reported lost are queued again. */
  lemma {:induction false} ReportsConserve(out: Outbox, from: nat, reports: seq<bool>)
    ensures var z := NotifyAll(out, from, reports);
            multiset(InOrder(z.unacked)) + multiset(z.queue) + DeliveredBunches(out, from, reports)
            == multiset(InOrder(out.unacked)) + multiset(out.queue)
    decreases |reports|
  {
    hide InOrder, Notify;
    if reports != [] {
      var n := |reports| - 1;
      var mid := NotifyAll(out, from, reports[..n]);
      ReportsConserve(out, from, reports[..n]);
      NotifyAllUnacked(out, from, reports[..n]);
      assert BunchesOf(mid, from + n) == BunchesOf(out, from + n);
      NotifyMoves(mid, from + n, reports[n]);
    }
  }

  // ----- the order in which lost bunches are sent again -----

  /** What the channel had in a packet, if it is reported lost. */
  function LostIn(out: Outbox, packetId: nat, delivered: bool): seq<OutBunch> {
    if delivered then [] else BunchesOf(out, packetId)
  }

  /** The lost bunches in sending order. */
  function LostUp(out: Outbox, from: nat, reports: seq<bool>): seq<OutBunch> {
    if reports == [] then []
    else
      var n := |reports| - 1;
      LostUp(out, from, reports[..n]) + LostIn(out, from + n, reports[n])
  }

  /** The lost bunches, the packet reported last in front. */
  function LostDown(out: Outbox, from: nat, reports: seq<bool>): seq<OutBunch> {
    if reports == [] then []
    else
      var n := |reports| - 1;
      LostIn(out, from + n, reports[n]) + LostDown(out, from, reports[..n])
  }

  /** How many packets reported lost held bunches of the channel. */
  function LostPackets(out: Outbox, from: nat, reports: seq<bool>): nat {
    if reports == [] then 0
    else
      var n := |reports| - 1;
      LostPackets(out, from, reports[..n]) + (if !reports[n] && from + n in out.unacked then 1 else 0)
  }

  /** Acks and nacks in any mixture: the lost packets stand in front of the queue in reverse
      order. */
  lemma {:induction false} NotifyAllQueue(out: Outbox, from: nat, reports: seq<bool>)
    ensures NotifyAll(out, from, reports).queue == LostDown(out, from, reports) + out.queue
    decreases |reports|
  {
    if reports != [] {
      var n := |reports| - 1;
      NotifyAllQueue(out, from, reports[..n]);
      NotifyAllUnacked(out, from, reports[..n]);
      var mid := NotifyAll(out, from, reports[..n]);
      assert BunchesOf(mid, from + n) == BunchesOf(out, from + n);
      assert LostIn(out, from + n, reports[n]) + (LostDown(out, from, reports[..n]) + out.queue)
          == LostDown(out, from, reports) + out.queue;
    }
  }

  lemma {:induction false} NoneLost(out: Outbox, from: nat, reports: seq<bool>)
    requires LostPackets(out, from, reports) == 0
    ensures LostUp(out, from, reports) == LostDown(out, from, reports) == []
    decreases |reports|
  {
    if reports != [] {
      NoneLost(out, from, reports[..|reports| - 1]);
    }
  }

  lemma EntryNotEmpty(unacked: map<nat, seq<OutBunch>>, p: nat)
    requires Distinguishable(unacked) && p in unacked
    ensures unacked[p] != []
  {
  }

  lemma LostOrderNext(out: Outbox, from: nat, reports: seq<bool>, rest: seq<bool>, n: nat)
    requires reports != [] && n == |reports| - 1 && rest == reports[..n]
    ensures LostUp(out, from, reports) == LostUp(out, from, rest) + LostIn(out, from + n, reports[n])
    ensures LostDown(out, from, reports) == LostIn(out, from + n, reports[n]) + LostDown(out, from, rest)
  {
    hide LostIn;
  }

  lemma LostPacketsNext(out: Outbox, from: nat, reports: seq<bool>, rest: seq<bool>, n: nat)
    requires reports != [] && n == |reports| - 1 && rest == reports[..n]
    ensures var lost := !reports[n] && from + n in out.unacked;
            && LostIn(out, from + n, reports[n]) == (if lost then out.unacked[from + n] else [])
            && LostPackets(out, from, reports) == LostPackets(out, from, rest) + (if lost then 1 else 0)
  {
  }

  /** The packets whose bunches stand last in the two orders. */
  ghost predicate EndsAre(out: Outbox, up: seq<OutBunch>, down: seq<OutBunch>, lo: nat, hi: nat, count: nat) {
    && lo in out.unacked && hi in out.unacked && out.unacked[lo] != [] && out.unacked[hi] != []
    && up != [] && Last(up) == Last(out.unacked[hi]) && down != [] && Last(down) == Last(out.unacked[lo])
    && (if count == 1 then up == down && lo == hi else lo < hi)
  }

  lemma EndsFirst(out: Outbox, p: nat)
    requires p in out.unacked && out.unacked[p] != []
    ensures EndsAre(out, [] + out.unacked[p], out.unacked[p] + [], p, p, 1)
  {
    assert [] + out.unacked[p] == out.unacked[p] && out.unacked[p] + [] == out.unacked[p];
  }

  lemma EndsNext(out: Outbox, up: seq<OutBunch>, down: seq<OutBunch>, lo: nat, hi: nat, count: nat, p: nat)
    requires EndsAre(out, up, down, lo, hi, count) && count > 0 && hi < p && p in out.unacked && out.unacked[p] != []
    ensures EndsAre(out, up + out.unacked[p], out.unacked[p] + down, lo, p, count + 1)
  {
    hide Last;
    LastOfSum(up, out.unacked[p]);
    LastOfSum(out.unacked[p], down);
  }

  lemma EndsSame(out: Outbox, up: seq<OutBunch>, down: seq<OutBunch>, lo: nat, hi: nat, count: nat)
    requires EndsAre(out, up, down, lo, hi, count)
    ensures EndsAre(out, up + [], [] + down, lo, hi, count)
  {
    assert up + [] == up && [] + down == down;
  }

  ghost predicate LostEndsAre(out: Outbox, from: nat, reports: seq<bool>, lo: nat, hi: nat) {
    && hi < from + |reports|
    && EndsAre(out, LostUp(out, from, reports), LostDown(out, from, reports), lo, hi, LostPackets(out, from, reports))
  }

  /** One more report. */
  lemma LostEndsNext(out: Outbox, from: nat, reports: seq<bool>, rest: seq<bool>, n: nat, lo: nat, hi: nat)
    requires Distinguishable(out.unacked) && reports != [] && n == |reports| - 1 && rest == reports[..n]
    requires LostPackets(out, from, rest) > 0 && LostEndsAre(out, from, rest, lo, hi)
    ensures LostEndsAre(out, from, reports, lo, if !reports[n] && from + n in out.unacked then from + n else hi)
  {
    hide Distinguishable, LostUp, LostDown, LostIn, LostPackets, EndsAre;
    LostOrderNext(out, from, reports, rest, n);
    LostPacketsNext(out, from, reports, rest, n);
    var up, down, count := LostUp(out, from, rest), LostDown(out, from, rest), LostPackets(out, from, rest);
    if !reports[n] && from + n in out.unacked {
      EntryNotEmpty(out.unacked, from + n);
      EndsNext(out, up, down, lo, hi, count, from + n);
    } else {
      EndsSame(out, up, down, lo, hi, count);
    }
  }

  /** The first packet lost. */
  lemma LostEndsFirst(out: Outbox, from: nat, reports: seq<bool>, rest: seq<bool>, n: nat)
    requires Distinguishable(out.unacked) && reports != [] && n == |reports| - 1 && rest == reports[..n]
    requires LostPackets(out, from, rest) == 0 && LostPackets(out, from, reports) > 0
    ensures LostEndsAre(out, from, reports, from + n, from + n)
  {
    hide Distinguishable, LostUp, LostDown, LostIn, LostPackets, EndsAre;
    LostOrderNext(out, from, reports, rest, n);
    LostPacketsNext(out, from, reports, rest, n);
    NoneLost(out, from, rest);
    EntryNotEmpty(out.unacked, from + n);
    EndsFirst(out, from + n);
  }

  lemma {:induction false} LostEnds(out: Outbox, from: nat, reports: seq<bool>) returns (lo: nat, hi: nat)
    requires Distinguishable(out.unacked) && LostPackets(out, from, reports) > 0
    ensures LostEndsAre(out, from, reports, lo, hi)
    decreases |reports|
  {
    assert reports != [];
    hide Distinguishable, LostPackets, LostEndsAre;
    var n := |reports| - 1;
    var rest := reports[..n];
    if LostPackets(out, from, rest) == 0 {
      LostEndsFirst(out, from, reports, rest, n);
      lo, hi := from + n, from + n;
    } else {
      lo, hi := LostEnds(out, from, rest);
      LostEndsNext(out, from, reports, rest, n, lo, hi);
      hi := if !reports[n] && from + n in out.unacked then from + n else hi;
    }
  }

  /** The notifications of one header leave a channel's lost bunches in sending order exactly
      when at most one of the packets reported lost held any. */
  lemma OrderKeptIff(out: Outbox, from: nat, reports: seq<bool>)
    requires Distinguishable(out.unacked)
    ensures NotifyAll(out, from, reports).queue == LostUp(out, from, reports) + out.queue
            <==> LostPackets(out, from, reports) <= 1
  {
    NotifyAllQueue(out, from, reports);
    if LostPackets(out, from, reports) == 0 {
      NoneLost(out, from, reports);
    } else {
      var lo, hi := LostEnds(out, from, reports);
      assert lo != hi ==> Last(out.unacked[lo]) != Last(out.unacked[hi]);
      if LostDown(out, from, reports) + out.queue == LostUp(out, from, reports) + out.queue {
        SameFront(LostDown(out, from, reports), LostUp(out, from, reports), out.queue);
      }
    }
  }

  /** What the channel had in the packets reported delivered. */
  ghost function DeliveredBunches(out: Outbox, from: nat, reports: seq<bool>): multiset<OutBunch> {
    if reports == [] then multiset{}
    else
      var n := |reports| - 1;
      DeliveredBunches(out, from, reports[..n]) +
          (if reports[n] then multiset(BunchesOf(out, from + n)) else multiset{})
  }

  /** How a packet assembly finds a connection. */
  datatype Start = Start(channels: seq<Outbox>, groups: seq<Group>, id: nat)

  class NetConnection {
    const Record: ConnectionChannelRecord
    var Channels: seq<Outbox>
    var ChannelOpen: seq<bool>
    var OutPacketId: nat
    var LastNotifiedSendPacketId: int
    var OutPacketQueue: seq<Packet>
    var Closed: bool

    ghost predicate Sane()
      reads this, Record
    {
      && Record.Valid() && Record.LastPacketId <= LastNotifiedSendPacketId + |Record.Groups|
      && |Channels| < VALUE_LIMIT && |ChannelOpen| == |Channels|
    }

    /** Between two calls, on a connection that has not closed. */
    ghost predicate Valid()
      reads this, Record
    {
      Sane() && Idle(Channels, Record.Groups, LastNotifiedSendPacketId, OutPacketId)
    }

    /** While packets are being filled. */
    ghost predicate Filled(current: Current, ready: seq<Packet>, firstId: nat)
      reads this, Record
    {
      && Sane()
      && Assembling(Channels, Record.Groups, LastNotifiedSendPacketId, OutPacketId, current, ready, firstId)
    }

    constructor (channelCount: nat, outgoingSequence: nat)
      requires channelCount < VALUE_LIMIT
      ensures Valid() && fresh(Record) && !Closed && OutPacketQueue == []
      ensures OutPacketId == outgoingSequence && LastNotifiedSendPacketId == outgoingSequence - 1
      ensures Channels == seq(channelCount, _ => Outbox([], map[]))
    {
      Record := new ConnectionChannelRecord();
      Channels, ChannelOpen := seq(channelCount, _ => Outbox([], map[])), seq(channelCount, _ => true);
      OutPacketId, LastNotifiedSendPacketId := outgoingSequence, outgoingSequence - 1;
      OutPacketQueue, Closed := [], false;
      new;
      NoneRecorded(Channels, |Channels|, OutPacketId);
    }

    // ----- acks and nacks -----

    /** A report on one packet.  When its number is the next in order, the ledger does not
        refuse, and reporting its channels, some of them more than once, amounts to acking or
        nacking that packet on every channel exactly once.  Otherwise it is counted and has
        no effect. */
    method HandlePacketNotification(ackedSequence: SequenceNumberT, delivered: bool)
      requires Valid()
      requires ackedSequence == Seq(LastNotifiedSendPacketId + 1) ==> LastNotifiedSendPacketId + 1 < OutPacketId
      modifies this`LastNotifiedSendPacketId, this`Channels, this`Closed, Record
      ensures LastNotifiedSendPacketId == old(LastNotifiedSendPacketId) + 1
      ensures |Channels| == |old(Channels)| && Closed == old(Closed)
      ensures if ackedSequence == Seq(LastNotifiedSendPacketId)
              then Valid() && forall c | 0 <= c < |Channels| ::
                     Channels[c] == Notify(old(Channels)[c], LastNotifiedSendPacketId, delivered)
              else Channels == old(Channels) && unchanged(Record)
    {
      hide Seq;
      LastNotifiedSendPacketId := LastNotifiedSendPacketId + 1;
      if Seq(LastNotifiedSendPacketId) != ackedSequence {
        return;
      }
      Received(delivered);
    }

    /** RecivedAck and RecivedNack, which differ in what they tell the channels. */
    method Received(delivered: bool)
      requires Sane() && 0 <= LastNotifiedSendPacketId < OutPacketId
      requires Record.LastPacketId < LastNotifiedSendPacketId + |Record.Groups|
      requires Idle(Channels, Record.Groups, LastNotifiedSendPacketId - 1, OutPacketId)
      modifies this`Channels, this`Closed, Record
      ensures Valid() && Closed == old(Closed) && |Channels| == |old(Channels)|
      ensures forall c | 0 <= c < |Channels| ::
                Channels[c] == Notify(old(Channels)[c], LastNotifiedSendPacketId, delivered)
    {
      hide Coupled, AllRecorded, Notify, Increasing, Flatten, Collapse, Outbox.Acked, Outbox.Nacked;
      ghost var groups, channels, last := Record.Groups, Channels, LastNotifiedSendPacketId - 1;
      FrontGroup(channels, groups, last, OutPacketId);
      var ok, calls := Record.Consume(LastNotifiedSendPacketId);
      CallsKnown(groups[0].channels, |Channels|);
      NotifyChannels(calls, LastNotifiedSendPacketId, delivered);
      forall c | 0 <= c < |channels|
        ensures Channels[c] == Notify(channels[c], last + 1, delivered)
      {
        if c !in calls {
          OnlyReported(channels, groups, last, OutPacketId, calls, c);
          NotifyTwice(channels[c], last + 1, delivered);
        }
      }
      NotifiedIdle(channels, Channels, groups, last, OutPacketId, delivered);
      Closed := Closed || !ok;
    }

    method NotifyChannels(calls: seq<nat>, packetId: nat, delivered: bool)
      requires forall c | c in calls :: c < |Channels|
      modifies this`Channels
      ensures |Channels| == |old(Channels)|
      ensures forall c | 0 <= c < |Channels| ::
                Channels[c] == if c in calls then Notify(old(Channels)[c], packetId, delivered) else old(Channels)[c]
    {
      hide Notify;
      var i := 0;
      while i < |calls|
        invariant i <= |calls| && |Channels| == |old(Channels)|
        invariant forall c | 0 <= c < |Channels| ::
                    Channels[c] == if c in calls[..i] then Notify(old(Channels)[c], packetId, delivered)
                        else old(Channels)[c]
      {
        var c := calls[i];
        assert c in calls;
        NotifyTwice(old(Channels)[c], packetId, delivered);
        Channels := Channels[c := Notify(Channels[c], packetId, delivered)];
        assert calls[..i + 1] == calls[..i] + [c];
        i := i + 1;
      }
      assert calls[..i] == calls;
    }

    lemma FromStart()
      requires Valid()
      ensures LastNotifiedSendPacketId >= -1
    {
    }

    /** The calls of the functor for one received header, in the order of the packets. */
    method HandleReports(reports: seq<N.Report>)
      requires Valid() && LastNotifiedSendPacketId + |reports| < OutPacketId
      requires forall i | 0 <= i < |reports| :: reports[i].seqNo == Seq(LastNotifiedSendPacketId + 1 + i)
      modifies this`LastNotifiedSendPacketId, this`Channels, this`Closed, Record
      ensures Valid() && Closed == old(Closed)
      ensures LastNotifiedSendPacketId == old(LastNotifiedSendPacketId) + |reports|
      ensures |Channels| == |old(Channels)|
      ensures forall c | 0 <= c < |Channels| ::
                Channels[c] == NotifyAll(old(Channels)[c], old(LastNotifiedSendPacketId) + 1, Statuses(reports))
    {
      hide Sane, Idle, Notify, Seq;
      FromStart();
      var i := 0;
      while i < |reports|
        invariant old(LastNotifiedSendPacketId) >= -1
        invariant i <= |reports| && Valid() && Closed == old(Closed) && |Channels| == |old(Channels)|
        invariant LastNotifiedSendPacketId == old(LastNotifiedSendPacketId) + i
        invariant forall c | 0 <= c < |Channels| ::
                    Channels[c] == NotifyAll(old(Channels)[c], old(LastNotifiedSendPacketId) + 1,
                        Statuses(reports)[..i])
      {
        HandlePacketNotification(reports[i].seqNo, reports[i].delivered);
        assert Statuses(reports)[..i + 1][..i] == Statuses(reports)[..i];
        i := i + 1;
      }
      assert Statuses(reports)[..i] == Statuses(reports);
    }

    /** Every unacknowledged bunch goes back to its queue in sending order. */
    method ForceRetransmitAll()
      requires Valid()
      modifies this`Channels
      ensures Valid() && FlowsKept(old(Channels), Channels)
      ensures forall c | 0 <= c < |Channels| :: Channels[c] == old(Channels)[c].ForceRetransmit()
    {
      hide Coupled, AllRecorded, Increasing, Flatten, Flow, Outbox.ForceRetransmit;
      var i := 0;
      while i < |Channels|
        invariant i <= |Channels| == |old(Channels)|
        invariant forall c | 0 <= c < |Channels| ::
                    Channels[c] == if c < i then old(Channels)[c].ForceRetransmit() else old(Channels)[c]
      {
        Channels := Channels[i := Channels[i].ForceRetransmit()];
        i := i + 1;
      }
      ForcedIdle(old(Channels), Channels, Record.Groups, LastNotifiedSendPacketId, OutPacketId);
      forall c | 0 <= c < |Channels|
        ensures Flow(Channels[c]) == Flow(old(Channels)[c])
      {
        ForceKeepsFlow(old(Channels)[c]);
      }
    }

    /** The channel's builder hands over what it has ready. */
    method TickFlush(c: nat, ready: seq<OutBunch>)
      requires Valid() && c < |Channels|
      modifies this`Channels
      ensures Valid() && Channels == old(Channels)[c := old(Channels)[c].(queue := old(Channels)[c].queue + ready)]
    {
      QueueChanges(Channels, Record.Groups, LastNotifiedSendPacketId, OutPacketId, NoPacket, [], OutPacketId,
                   c, Channels[c].queue + ready);
      Channels := Channels[c := Channels[c].(queue := Channels[c].queue + ready)];
    }

    // ----- the packet assembly -----

    /** What has been taken off the queues, what the channels and the ledger hold, and what
        the packets carry, are as the log says. */
    ghost predicate Tracks(start: Start, log: seq<Sent>, current: Current, ready: seq<Packet>)
      reads this, Record
    {
      && HoldRecorded(start.channels, Channels, log) && TakenOff(start.channels, Channels, log)
      && OnLedgerToo(start.groups, Record.Groups, LastNotifiedSendPacketId, log)
      && Packed(log, start.id, OutPacketId, current, ready)
    }

    method CreatePacket(ghost ready: seq<Packet>, ghost firstId: nat) returns (packet: Packet)
      requires Filled(NoPacket, ready, firstId) && OutPacketId < VALUE_LIMIT
      modifies Record
      ensures packet == EmptyPacket(OutPacketId) && Filled(Filling(packet), ready, firstId)
      ensures OnLedgerToo(old(Record.Groups), Record.Groups, LastNotifiedSendPacketId, [])
    {
      hide Assembling, Flatten, OnLedgerToo;
      PacketOpens(Channels, Record.Groups, LastNotifiedSendPacketId, OutPacketId, Record.LastPacketId, ready, firstId);
      LedgerOpens(Record.Groups, Record.LastPacketId, OutPacketId, LastNotifiedSendPacketId);
      Record.PushPacketId(OutPacketId);
      packet := EmptyPacket(OutPacketId);
    }

    /** The packet to put a bunch of this size into: the open one when it has room, else the
        next one, and only then the open one is sealed. */
    method MakeRoom(current: Current, ready: seq<Packet>, requireSize: nat, ghost firstId: nat)
      returns (packet: Packet, readyPackets: seq<Packet>)
      requires Filled(current, ready, firstId) && OutPacketId + 1 < VALUE_LIMIT
      modifies this`OutPacketId, Record
      ensures Filled(Filling(packet), readyPackets, firstId)
      ensures var open := Open(current, old(OutPacketId));
              if open.totalSize + requireSize <= 1024
              then packet == open && readyPackets == ready && OutPacketId == old(OutPacketId)
              else packet == EmptyPacket(OutPacketId) && readyPackets == ready + [open]
                   && OutPacketId == old(OutPacketId) + 1
      ensures OnLedgerToo(old(Record.Groups), Record.Groups, LastNotifiedSendPacketId, [])
    {
      hide Assembling, Flatten, Increasing, OnLedgerToo;
      readyPackets := ready;
      LedgerSame(Record.Groups, LastNotifiedSendPacketId);
      if current.NoPacket? {
        packet := CreatePacket(ready, firstId);
      } else {
        packet := current.packet;
      }
      if packet.totalSize + requireSize > PACKET_MAX_SIZE {
        PacketSeals(Channels, Record.Groups, LastNotifiedSendPacketId, OutPacketId, packet, readyPackets, firstId);
        OutPacketId := OutPacketId + 1;
        readyPackets := readyPackets + [packet];
        ghost var groups := Record.Groups;
        packet := CreatePacket(readyPackets, firstId);
        LedgerJoins(old(Record.Groups), groups, Record.Groups, LastNotifiedSendPacketId, []);
      }
    }

    /** Records a bunch with the ledger and its channel, and puts it into the packet when it
        fits there; false when the reliable buffer is full, which closes the connection. */
    method Place(c: nat, b: OutBunch, packet: Packet, ghost ready: seq<Packet>, ghost firstId: nat)
      returns (ok: bool, filled: Packet)
      requires Filled(Filling(packet), ready, firstId) && c < |Channels| && OutPacketId < VALUE_LIMIT
      requires packet.totalSize + b.totalSize <= PACKET_MAX_SIZE || packet == EmptyPacket(OutPacketId)
      modifies this`Channels, this`Closed, Record
      ensures ok == (|old(Channels)[c].unacked| < 512)
      ensures ok ==> Filled(Filling(filled), ready, firstId) && Closed == old(Closed)
      ensures ok ==> Channels == old(Channels)[c := old(Channels)[c].AddUnAcked(OutPacketId, b)]
      ensures ok ==> filled == Append(packet, b)
      ensures OnLedgerToo(old(Record.Groups), Record.Groups, LastNotifiedSendPacketId, [Sent(c, b, OutPacketId)])
      ensures !ok ==> Closed && Full(Channels)
    {
      hide Flatten, Increasing, Coupled, AllCarry, AllRecorded, Outbox.AddUnAcked, OnLedgerToo, Append;
      filled := packet;
      LastPushed(Record.Groups, Record.LastPacketId, LastNotifiedSendPacketId, OutPacketId, Channels);
      BunchAdds(Channels, Record.Groups, LastNotifiedSendPacketId, OutPacketId, packet, ready, firstId, c, b);
      LedgerAdds(Record.Groups, LastNotifiedSendPacketId, Sent(c, b, OutPacketId));
      Record.PushChannelRecord(packet.id, c);
      ok := Channels[c].HasRoom();
      if !ok {
        Closed := true;
        return;
      }
      Channels := Channels[c := Channels[c].AddUnAcked(packet.id, b)];
      filled := Append(packet, b);
    }

    /** One bunch off the channel's queue.  One without messages or above 1024 bytes is
        thrown away, and nothing else happens.  Any other is recorded, last of its channel
        and last on the ledger, under the id of the open packet when that has room for it,
        else under the next. */
    method SendNext(c: nat, current: Current, ready: seq<Packet>, ghost start: Start, ghost log: seq<Sent>)
      returns (ok: bool, next: Current, readyPackets: seq<Packet>, ghost more: seq<Sent>)
      requires Filled(current, ready, start.id) && Tracks(start, log, current, ready)
      requires c < |Channels| && Channels[c].queue != [] && OutPacketId + 1 < VALUE_LIMIT
      modifies this`Channels, this`Closed, this`OutPacketId, Record
      ensures ok ==> Filled(next, readyPackets, start.id) && Tracks(start, more, next, readyPackets)
      ensures ok ==> Closed == old(Closed) && Channels == old(Channels)[c := Channels[c]]
      ensures ok ==> Channels[c].queue == old(Channels)[c].queue[1..] && Flow(Channels[c]) == Flow(old(Channels)[c])
      ensures var b := old(Channels)[c].queue[0];
              if b.headerSize < b.totalSize <= 1024
              then ok == (|old(Channels)[c].unacked| < 512) && more == log + [Sent(c, b, OutPacketId)]
              else ok && more == log && next == current && readyPackets == ready && OutPacketId == old(OutPacketId)
                   && unchanged(Record) && Channels[c].unacked == old(Channels)[c].unacked
      ensures old(OutPacketId) <= OutPacketId <= old(OutPacketId) + 1
      ensures !ok ==> Closed && Full(Channels)
    {
      hide Flatten, Increasing, Assembling, Flow, FitsPacket, HoldRecorded, TakenOff, OnLedgerToo, Packed, Append;
      ghost var channels, groups := Channels, Record.Groups;
      ghost var out := Channels[c];
      var b := Channels[c].queue[0];
      QueueChanges(Channels, Record.Groups, LastNotifiedSendPacketId, OutPacketId, current, ready, start.id, c,
          out.queue[1..]);
      Channels := Channels[c := Channels[c].(queue := Channels[c].queue[1..])];
      next, readyPackets, ok, more := current, ready, true, log;
      if b.totalSize <= b.headerSize || b.totalSize > PACKET_MAX_SIZE {
        DropKeepsFlow(out);
        HoldQueue(start.channels, channels, log, c, out.queue[1..]);
        HeadTaken(start.channels, channels, log, c, Channels[c], OutPacketId);
        return;
      }
      var packet;
      packet, readyPackets := MakeRoom(current, ready, b.totalSize, start.id);
      KeysUpToNext(Channels, Record.Groups, LastNotifiedSendPacketId, OutPacketId, Filling(packet), readyPackets,
          start.id, c);
      SendKeepsFlow(out, OutPacketId);
      ghost var e, ledger := Sent(c, b, OutPacketId), Record.Groups;
      ok, packet := Place(c, b, packet, readyPackets, start.id);
      next, more := Filling(packet), log + [e];
      if !ok {
        return;
      }
      assert Channels == channels[c := out.(queue := out.queue[1..]).AddUnAcked(OutPacketId, b)];
      PackedNext(log, start.id, old(OutPacketId), current, ready, c, b);
      HoldNext(start.channels, channels, log, e, out.queue[1..]);
      HeadTaken(start.channels, channels, log, c, Channels[c], OutPacketId);
      LedgerJoins(groups, ledger, Record.Groups, LastNotifiedSendPacketId, [e]);
      LedgerNext(start.groups, groups, Record.Groups, LastNotifiedSendPacketId, log, e);
    }

    /** Everything in one channel's queue. */
    method SendChannel(c: nat, current: Current, ready: seq<Packet>, ghost start: Start, ghost log: seq<Sent>)
      returns (ok: bool, next: Current, readyPackets: seq<Packet>, ghost more: seq<Sent>)
      requires Filled(current, ready, start.id) && Tracks(start, log, current, ready)
      requires c < |Channels| && OutPacketId + Queued(Channels) + 1 < VALUE_LIMIT
      requires FlowsKept(start.channels, Channels)
      modifies this`Channels, this`Closed, this`OutPacketId, Record
      ensures ok ==> Filled(next, readyPackets, start.id) && Tracks(start, more, next, readyPackets)
      ensures ok ==> Closed == old(Closed) && FlowsKept(start.channels, Channels) && |Channels| == |old(Channels)|
      ensures ok ==> Channels == old(Channels)[c := Channels[c]] && Channels[c].queue == []
      ensures ok ==> old(OutPacketId) <= OutPacketId && OutPacketId + Queued(Channels) + 1 < VALUE_LIMIT
      ensures ok ==> Queued(Channels) == old(Queued(Channels)) - |old(Channels)[c].queue|
      ensures ok && Before(log, c + 1) ==> Before(more, c + 1)
      ensures ok && old(Channels)[c].queue == [] ==> more == log
      ensures !ok ==> Closed && Full(Channels)
    {
      hide Flatten, Increasing, Assembling, Flow, Queued, FlowsKept, HoldRecorded, TakenOff, OnLedgerToo, Packed,
           Before;
      ok, next, readyPackets, more := true, current, ready, log;
      while Channels[c].queue != []
        invariant Filled(next, readyPackets, start.id) && Closed == old(Closed) && ok
        invariant Tracks(start, more, next, readyPackets)
        invariant FlowsKept(start.channels, Channels) && |Channels| == |old(Channels)|
        invariant Channels == old(Channels)[c := Channels[c]]
        invariant old(OutPacketId) <= OutPacketId && OutPacketId + Queued(Channels) + 1 < VALUE_LIMIT
        invariant Queued(Channels) - |Channels[c].queue| == old(Queued(Channels)) - |old(Channels)[c].queue|
        invariant Before(log, c + 1) ==> Before(more, c + 1)
        invariant old(Channels)[c].queue == [] ==> more == log && Channels[c].queue == []
        decreases |Channels[c].queue|
      {
        ghost var channels, before := Channels, more;
        QueuedUpdate(channels, c, channels[c]);
        ok, next, readyPackets, more := SendNext(c, next, readyPackets, start, more);
        if !ok {
          return;
        }
        QueuedUpdate(channels, c, Channels[c]);
        FlowsUpdate(start.channels, channels, c, Channels[c]);
        if Before(before, c + 1) {
          BeforeNext(before, Sent(c, channels[c].queue[0], OutPacketId));
        }
      }
    }

    /** Every channel once, starting at channel rr and wrapping around. */
    method SendRound(rr: nat, current: Current, ready: seq<Packet>, ghost start: Start, ghost log: seq<Sent>)
      returns (ok: bool, progress: bool, next: Current, readyPackets: seq<Packet>, ghost more: seq<Sent>)
      requires Filled(current, ready, start.id) && Tracks(start, log, current, ready)
      requires rr < |Channels| && OutPacketId + Queued(Channels) + 1 < VALUE_LIMIT
      requires FlowsKept(start.channels, Channels) && ByChannel(log)
      requires (rr == 0 && log == []) || AllEmpty(Channels)
      modifies this`Channels, this`Closed, this`OutPacketId, Record
      ensures ok ==> Filled(next, readyPackets, start.id) && Tracks(start, more, next, readyPackets) && ByChannel(more)
      ensures ok ==> Closed == old(Closed)
      ensures ok ==> FlowsKept(start.channels, Channels) && |Channels| == |old(Channels)| && AllEmpty(Channels)
      ensures ok ==> old(OutPacketId) <= OutPacketId && OutPacketId + Queued(Channels) + 1 < VALUE_LIMIT
      ensures ok ==> if progress then Queued(Channels) < old(Queued(Channels))
              else Queued(Channels) == old(Queued(Channels))
      ensures !ok ==> Closed && Full(Channels)
    {
      hide Flatten, Increasing, Assembling, Flow, Queued, FlowsKept, Visited, HoldRecorded, TakenOff, OnLedgerToo,
           Packed, ByChannel;
      ok, progress, next, readyPackets, more := true, false, current, ready, log;
      var i := 0;
      while i < |Channels|
        invariant i <= |Channels| == |old(Channels)|
        invariant Filled(next, readyPackets, start.id) && Closed == old(Closed) && ok
        invariant Tracks(start, more, next, readyPackets) && FlowsKept(start.channels, Channels)
        invariant AllEmpty(old(Channels)) ==> AllEmpty(Channels) && more == log
        invariant !AllEmpty(old(Channels)) ==> Before(more, i)
        invariant forall j | 0 <= j < i ::
                  Visited(rr, j, |Channels|) < |Channels| && Channels[Visited(rr, j, |Channels|)].queue == []
        invariant old(OutPacketId) <= OutPacketId && OutPacketId + Queued(Channels) + 1 < VALUE_LIMIT
        invariant if progress then Queued(Channels) < old(Queued(Channels))
                  else Queued(Channels) == old(Queued(Channels))
      {
        VisitedIs(rr, i, |Channels|);
        var c := Visited(rr, i, |Channels|);
        progress := progress || Channels[c].queue != [];
        ok, next, readyPackets, more := SendChannel(c, next, readyPackets, start, more);
        if !ok {
          return;
        }
        i := i + 1;
      }
      forall c | 0 <= c < |Channels|
        ensures Channels[c].queue == []
      {
        var _ := VisitsAll(rr, |Channels|, c);
      }
    }

    /** Rounds over all channels until one finds nothing to send. */
    method SendRounds(ghost start: Start)
      returns (ok: bool, current: Current, readyPackets: seq<Packet>, ghost log: seq<Sent>)
      requires Filled(NoPacket, [], start.id) && start == Start(Channels, Record.Groups, OutPacketId)
      requires Channels != [] && OutPacketId + Queued(Channels) + 1 < VALUE_LIMIT
      modifies this`Channels, this`Closed, this`OutPacketId, Record
      ensures ok ==> Filled(current, readyPackets, start.id) && Tracks(start, log, current, readyPackets)
      ensures ok ==> ByChannel(log)
      ensures ok ==> Closed == old(Closed) && OutPacketId + 1 < VALUE_LIMIT
      ensures ok ==> FlowsKept(old(Channels), Channels) && AllEmpty(Channels)
      ensures !ok ==> Closed && Full(Channels)
    {
      NothingSent(start, LastNotifiedSendPacketId);
      hide Flatten, Increasing, Assembling, Flow, Queued, AllEmpty, HoldRecorded, TakenOff, OnLedgerToo, Packed;
      ok, current, readyPackets, log := true, NoPacket, [], [];
      var rr: nat, progress := 0, true;
      while progress
        invariant Filled(current, readyPackets, start.id) && Closed == old(Closed) && ok
        invariant Tracks(start, log, current, readyPackets) && ByChannel(log)
        invariant (rr == 0 && log == []) || AllEmpty(Channels)
        invariant FlowsKept(old(Channels), Channels) && rr < |Channels| == |old(Channels)|
        invariant OutPacketId + Queued(Channels) + 1 < VALUE_LIMIT
        invariant !progress ==> AllEmpty(Channels)
        decreases Queued(Channels), progress
      {
        ok, progress, current, readyPackets, log := SendRound(rr, current, readyPackets, start, log);
        if !ok {
          return;
        }
        rr := (rr + 1) % |Channels|;
      }
    }

    /** The last packet is sealed unless nothing was put into it. */
    method SealLast(current: Current, ready: seq<Packet>, ghost firstId: nat) returns (readyPackets: seq<Packet>)
      requires Filled(current, ready, firstId)
      modifies this`OutPacketId
      ensures Filled(NoPacket, readyPackets, firstId)
      ensures if current.Filling? && current.packet.bunches != []
              then OutPacketId == old(OutPacketId) + 1 && readyPackets == ready + [current.packet]
              else OutPacketId == old(OutPacketId) && readyPackets == ready
    {
      hide Flatten, Increasing, Coupled, AllRecorded;
      readyPackets := ready;
      if current.Filling? && current.packet.bunches != [] {
        PacketSeals(Channels, Record.Groups, LastNotifiedSendPacketId, OutPacketId, current.packet, ready, firstId);
        OutPacketId := OutPacketId + 1;
        readyPackets := readyPackets + [current.packet];
      }
    }

    /** A packet with nothing but its header. */
    method SendKeepAlive()
      requires Valid() && OutPacketId < VALUE_LIMIT
      modifies this`OutPacketId, this`OutPacketQueue, Record
      ensures Valid() && OutPacketId == old(OutPacketId) + 1
      ensures OutPacketQueue == old(OutPacketQueue) + [EmptyPacket(old(OutPacketId))]
      ensures Carries(EmptyPacket(old(OutPacketId)), Channels)
      ensures OnLedgerToo(old(Record.Groups), Record.Groups, LastNotifiedSendPacketId, [])
    {
      hide Flatten, Increasing, Coupled, AllRecorded, OnLedgerToo;
      var packet := CreatePacket([], OutPacketId);
      PacketSeals(Channels, Record.Groups, LastNotifiedSendPacketId, OutPacketId, packet, [], OutPacketId);
      OutPacketId := OutPacketId + 1;
      OutPacketQueue := OutPacketQueue + [packet];
    }

    /** Whether an open channel has anything queued. */
    method IsRequireAssembleBunch() returns (required: bool)
      requires |ChannelOpen| == |Channels|
      ensures required <==> exists c :: 0 <= c < |Channels| && ChannelOpen[c] && Channels[c].queue != []
    {
      var c := 0;
      while c < |Channels|
        invariant c <= |Channels| && forall d | 0 <= d < c :: !(ChannelOpen[d] && Channels[d].queue != [])
      {
        if ChannelOpen[c] && Channels[c].queue != [] {
          return true;
        }
        c := c + 1;
      }
      required := false;
    }

    /** With something queued on an open channel, everything queued anywhere is sent, closed
        channels' bunches too: what is not thrown away is recorded, channel by channel and
        packet after packet, with its channel and the ledger, and the new packets are those
        of the log: each as full as the next bunch leaves it.  Every channel keeps the order
        of what it still has to get across, and nothing stays queued.  A full reliable buffer
        closes the connection and sends nothing. */
    method AssembleOutgoingPackets(keepAliveDue: bool) returns (ghost log: seq<Sent>)
      requires Valid() && !Closed && OutPacketId + Queued(Channels) + 1 < VALUE_LIMIT
      modifies this`Channels, this`Closed, this`OutPacketId, this`OutPacketQueue, Record
      ensures Closed ==> OutPacketQueue == old(OutPacketQueue) && Full(Channels)
      ensures !Closed ==> Valid() && FlowsKept(old(Channels), Channels) && old(OutPacketQueue) <= OutPacketQueue
      ensures !Closed ==> AllCarry(OutPacketQueue[|old(OutPacketQueue)|..], Channels, old(OutPacketId))
      ensures !Closed ==> OutPacketId == old(OutPacketId) + |OutPacketQueue| - |old(OutPacketQueue)|
      ensures !Closed ==> HoldRecorded(old(Channels), Channels, log) && TakenOff(old(Channels), Channels, log)
      ensures !Closed ==> OnLedgerToo(old(Record.Groups), Record.Groups, LastNotifiedSendPacketId, log)
      ensures !Closed ==>
                ByChannel(log) && Complete(log, old(OutPacketId), OutPacketQueue[|old(OutPacketQueue)|..])
      ensures if exists c :: 0 <= c < |old(Channels)| && ChannelOpen[c] && old(Channels)[c].queue != []
              then !Closed ==> (forall c | 0 <= c < |Channels| :: Channels[c].queue == [])
                               && (log == [] ==> OutPacketQueue == old(OutPacketQueue))
              else !Closed && log == [] && Channels == old(Channels)
                   && OutPacketQueue == old(OutPacketQueue)
                                        + (if keepAliveDue then [EmptyPacket(old(OutPacketId))] else [])
    {
      hide Flatten, Increasing, Coupled, AllRecorded, Flow, Queued, Carries, HoldRecorded, TakenOff, OnLedgerToo,
           Packed, Greedy, AllPacked, ByChannel, CarriedUnder;
      log := [];
      ghost var start := Start(Channels, Record.Groups, OutPacketId);
      NothingSent(start, LastNotifiedSendPacketId);
      NothingRecorded(OutPacketId);
      var required := IsRequireAssembleBunch();
      if !required {
        if keepAliveDue {
          SendKeepAlive();
        }
        assert OutPacketQueue[|old(OutPacketQueue)|..] == if keepAliveDue then [EmptyPacket(start.id)] else [];
        return;
      }
      var ok, current, readyPackets;
      ok, current, readyPackets, log := SendRounds(start);
      if !ok {
        return;
      }
      LastSealed(log, old(OutPacketId), OutPacketId, current, readyPackets);
      readyPackets := SealLast(current, readyPackets, old(OutPacketId));
      OutPacketQueue := OutPacketQueue + readyPackets;
      assert OutPacketQueue[|old(OutPacketQueue)|..] == readyPackets;
    }
  }

  lemma NothingSent(start: Start, last: int)
    ensures HoldRecorded(start.channels, start.channels, []) && TakenOff(start.channels, start.channels, [])
    ensures OnLedgerToo(start.groups, start.groups, last, []) && Packed([], start.id, start.id, NoPacket, [])
    ensures ByChannel([])
  {
  }

  /** Some channel waits for RELIABLE_BUFFER packets already. */
  ghost predicate Full(channels: seq<Outbox>) {
    exists c :: 0 <= c < |channels| && !channels[c].HasRoom()
  }

  ghost predicate AllEmpty(channels: seq<Outbox>) {
    forall c | 0 <= c < |channels| :: channels[c].queue == []
  }

  lemma KeysUpToNext(channels: seq<Outbox>, groups: seq<Group>, last: int, nextId: nat, current: Current,
                     ready: seq<Packet>, firstId: nat, c: nat)
    requires Assembling(channels, groups, last, nextId, current, ready, firstId) && c < |channels|
    ensures forall q | q in channels[c].unacked :: q <= nextId
  {
    forall q | q in channels[c].unacked
      ensures q <= nextId
    {
      UpToNext(channels, groups, last, nextId, c, q);
    }
  }

  lemma LastPushed(groups: seq<Group>, lastPushed: int, last: int, nextId: nat, channels: seq<Outbox>)
    requires Increasing(groups, lastPushed) && Coupled(channels, groups, last, nextId) && |groups| == nextId - last
    ensures groups != [] && lastPushed == nextId
  {
  }

  // ----- which recorded bunches travel -----

  lemma {:induction false} FittingIs(bunches: seq<OutBunch>, b: OutBunch)
    ensures b in Fitting(bunches) <==> b in bunches && FitsPacket(b)
    decreases |bunches|
  {
    if bunches != [] {
      FittingIs(bunches[..|bunches| - 1], b);
      assert bunches == bunches[..|bunches| - 1] + [bunches[|bunches| - 1]];
    }
  }

  lemma {:induction false} RecordedFits(channels: seq<Outbox>, n: nat, p: nat, b: OutBunch)
    requires n <= |channels|
    ensures b in Recorded(channels, n, p) ==> FitsPacket(b)
    decreases n
  {
    hide FitsPacket, Fitting;
    if n > 0 {
      RecordedFits(channels, n - 1, p, b);
      FittingIs(BunchesOf(channels[n - 1], p), b);
    }
  }

  lemma {:induction false} RecordedHas(channels: seq<Outbox>, n: nat, p: nat, c: nat, b: OutBunch)
    requires c < n <= |channels| && b in BunchesOf(channels[c], p) && FitsPacket(b)
    ensures b in Recorded(channels, n, p)
    decreases n
  {
    hide FitsPacket, Fitting, BunchesOf;
    if c == n - 1 {
      FittingIs(BunchesOf(channels[c], p), b);
    } else {
      RecordedHas(channels, n - 1, p, c, b);
    }
  }

  /** A bunch recorded under a packet travels in it exactly when it leaves room for the
      packet header.  The assembly also records bunches of 1015 to 1024 bytes: no packet
      carries those, and the ack for the packet makes the channel forget them. */
  lemma CarriedIff(channels: seq<Outbox>, packet: Packet, c: nat, b: OutBunch)
    requires Carries(packet, channels) && c < |channels| && b in BunchesOf(channels[c], packet.id)
    ensures b in packet.bunches <==> b.totalSize <= PACKET_MAX_SIZE - PACKET_HEADER_SIZE
    ensures BunchesOf(Notify(channels[c], packet.id, true), packet.id) == []
  {
    RecordedFits(channels, |channels|, packet.id, b);
    if FitsPacket(b) {
      RecordedHas(channels, |channels|, packet.id, c, b);
    }
    assert b in packet.bunches <==> b in multiset(packet.bunches);
  }

  /** A bunch above 1014 and up to 1024 bytes that nothing else travels with: sent under a
      packet, it is in flight, the packet is empty, and the ack for it leaves nothing of the
      bunch. */
  lemma LargeBunchLost(b: OutBunch, packetId: nat)
    requires PACKET_MAX_SIZE - PACKET_HEADER_SIZE < b.totalSize <= PACKET_MAX_SIZE && b.headerSize < b.totalSize
    ensures var out, packet := Outbox([b], map[]), EmptyPacket(packetId);
            var sent := Outbox([], map[]).AddUnAcked(packetId, b);
            && Sendable(b) && Append(packet, b) == packet && Carries(packet, [sent])
            && Flow(out) == Flow(sent) == [b] && Flow(Notify(sent, packetId, true)) == []
  {
    var out := Outbox([b], map[]);
    var sent := Outbox([], map[]).AddUnAcked(packetId, b);
    SendKeepsFlow(out, packetId);
    assert out.(queue := out.queue[1..]).AddUnAcked(packetId, b) == sent;
    InOrderNone();
    assert [] + [b] == [b] && [b][1..] == [];
    assert SendableOf([b]) == [b] + SendableOf([]);
    assert BunchesOf(sent, packetId) == [b] && [b][..0] == [] && Fitting([b]) == Fitting([]) + [];
    assert AllRecorded([sent], packetId) == Recorded([sent], 0, packetId) + RecordedIn(sent, packetId);
    assert sent.unacked - {packetId} == map[];
  }
}
