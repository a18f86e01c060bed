/** How packets, channels and the ledger fit together: the invariants of a connection's send
    side, and what each action of the packet assembly does to them. */
module PacketAssembly {
  import opened BunchBuilder
  import opened ChannelRecord
  import opened NetChannel
  import opened OrderedMap

  const PACKET_MAX_SIZE := 1024

  const PACKET_HEADER_SIZE := 10

  datatype Packet = Packet(id: nat, bunches: seq<OutBunch>, totalSize: nat)

  datatype Current = NoPacket | Filling(packet: Packet)

  /** The bunches that fit a packet next to its header. */
  predicate FitsPacket(b: OutBunch) {
    PACKET_HEADER_SIZE + b.totalSize <= PACKET_MAX_SIZE
  }

  /** What the assembly does not throw away: bunches with messages, up to a packet's size. */
  predicate Sendable(b: OutBunch) {
    b.headerSize < b.totalSize <= PACKET_MAX_SIZE
  }

  function EmptyPacket(id: nat): Packet {
    Packet(id, [], PACKET_HEADER_SIZE)
  }

  /** ConnectionPacketBuilder::Append */
  function Append(packet: Packet, b: OutBunch): Packet {
    if packet.totalSize + b.totalSize > PACKET_MAX_SIZE then packet
    else packet.(bunches := packet.bunches + [b], totalSize := packet.totalSize + b.totalSize)
  }

  function SizeOf(bunches: seq<OutBunch>): nat {
    if bunches == [] then 0 else SizeOf(bunches[..|bunches| - 1]) + bunches[|bunches| - 1].totalSize
  }

  // ----- what the channels have recorded for a packet -----

  function Fitting(bunches: seq<OutBunch>): seq<OutBunch> {
    if bunches == [] then []
    else
      var n := |bunches| - 1;
      Fitting(bunches[..n]) + (if FitsPacket(bunches[n]) then [bunches[n]] else [])
  }

  ghost function RecordedIn(out: Outbox, packetId: nat): multiset<OutBunch> {
    multiset(Fitting(BunchesOf(out, packetId)))
  }

  /** The fitting bunches that the first n channels hold as unacknowledged for a packet. */
  ghost function Recorded(channels: seq<Outbox>, n: nat, packetId: nat): multiset<OutBunch>
    requires n <= |channels|
  {
    if n == 0 then multiset{}
    else Recorded(channels, n - 1, packetId) + RecordedIn(channels[n - 1], packetId)
  }

  ghost function AllRecorded(channels: seq<Outbox>, packetId: nat): multiset<OutBunch> {
    Recorded(channels, |channels|, packetId)
  }

  lemma FittingNext(bunches: seq<OutBunch>, b: OutBunch)
    ensures Fitting(bunches + [b]) == Fitting(bunches) + (if FitsPacket(b) then [b] else [])
  {
    assert (bunches + [b])[..|bunches|] == bunches;
  }

  lemma {:induction false} RecordedUpdate(channels: seq<Outbox>, n: nat, c: nat, out: Outbox, packetId: nat,
                                          more: multiset<OutBunch>)
    requires c < |channels| && n <= |channels|
    requires RecordedIn(out, packetId) == RecordedIn(channels[c], packetId) + more
    ensures Recorded(channels[c := out], n, packetId) == Recorded(channels, n, packetId) +
            (if c < n then more else multiset{})
    decreases n
  {
    hide RecordedIn;
    if n > 0 {
      RecordedUpdate(channels, n - 1, c, out, packetId, more);
    }
  }

  lemma RecordedAdd(channels: seq<Outbox>, c: nat, packetId: nat, b: OutBunch, q: nat)
    requires c < |channels|
    ensures AllRecorded(channels[c := channels[c].AddUnAcked(packetId, b)], q)
         == AllRecorded(channels, q) + (if q == packetId && FitsPacket(b) then multiset{b} else multiset{})
  {
    hide FitsPacket;
    FittingNext(BunchesOf(channels[c], packetId), b);
    RecordedUpdate(channels, |channels|, c, channels[c].AddUnAcked(packetId, b), q,
                   if q == packetId && FitsPacket(b) then multiset{b} else multiset{});
  }

  lemma RecordedQueue(channels: seq<Outbox>, c: nat, queue: seq<OutBunch>, q: nat)
    requires c < |channels|
    ensures AllRecorded(channels[c := channels[c].(queue := queue)], q) == AllRecorded(channels, q)
  {
    RecordedUpdate(channels, |channels|, c, channels[c].(queue := queue), q, multiset{});
  }

  lemma {:induction false} NoneRecorded(channels: seq<Outbox>, n: nat, p: nat)
    requires n <= |channels| && forall c | 0 <= c < n :: p !in channels[c].unacked
    ensures Recorded(channels, n, p) == multiset{}
    decreases n
  {
    if n > 0 {
      NoneRecorded(channels, n - 1, p);
    }
  }

  lemma {:induction false} RecordedSame(channels: seq<Outbox>, after: seq<Outbox>, n: nat, p: nat)
    requires n <= |channels| == |after| && forall c | 0 <= c < n :: BunchesOf(after[c], p) == BunchesOf(channels[c], p)
    ensures Recorded(after, n, p) == Recorded(channels, n, p)
    decreases n
  {
    if n > 0 {
      RecordedSame(channels, after, n - 1, p);
    }
  }

  // ----- the ledger -----

  /** The ledger's packets are numbered on from the last one notified. */
  ghost predicate Numbered(groups: seq<Group>, last: int) {
    last >= -1 && forall i | 0 <= i < |groups| :: groups[i].packetId == last + 1 + i
  }

  ghost predicate OnLedger(groups: seq<Group>, last: int, c: nat, p: nat) {
    0 <= p - last - 1 < |groups| && c in groups[p - last - 1].channels
  }

  /** Every unacknowledged entry of every channel is on the ledger under its packet. */
  ghost predicate Covered(channels: seq<Outbox>, groups: seq<Group>, last: int) {
    forall c, p: nat | 0 <= c < |channels| && p in channels[c].unacked :: OnLedger(groups, last, c, p)
  }

  ghost predicate Known(groups: seq<Group>, n: nat) {
    forall i, c | 0 <= i < |groups| && c in groups[i].channels :: c < n
  }

  /** The packets before nextId are in flight or notified.  The ledger may hold nextId
      itself already: the last assembly may have recorded bunches there without sending. */
  ghost predicate Coupled(channels: seq<Outbox>, groups: seq<Group>, last: int, nextId: nat) {
    && Numbered(groups, last) && Covered(channels, groups, last) && Known(groups, |channels|)
    && last < nextId && nextId - last - 1 <= |groups| <= nextId - last
  }

  /** A packet carries exactly the fitting bunches recorded under its id, within bounds. */
  ghost predicate Carries(packet: Packet, channels: seq<Outbox>) {
    && multiset(packet.bunches) == AllRecorded(channels, packet.id)
    && packet.totalSize == PACKET_HEADER_SIZE + SizeOf(packet.bunches) <= PACKET_MAX_SIZE
  }

  /** Packets numbered from firstId on, each carrying what is recorded for it. */
  ghost predicate AllCarry(ready: seq<Packet>, channels: seq<Outbox>, firstId: nat) {
    forall i | 0 <= i < |ready| :: ready[i].id == firstId + i && Carries(ready[i], channels)
  }

  ghost predicate CurrentOk(channels: seq<Outbox>, groups: seq<Group>, last: int, nextId: nat, current: Current) {
    match current
    case NoPacket => AllRecorded(channels, nextId) == multiset{}
    case Filling(packet) => packet.id == nextId && |groups| == nextId - last && Carries(packet, channels)
  }

  /** What the assembly keeps from bunch to bunch. */
  ghost predicate Assembling(channels: seq<Outbox>, groups: seq<Group>, last: int, nextId: nat,
                             current: Current, ready: seq<Packet>, firstId: nat)
  {
    && Coupled(channels, groups, last, nextId)
    && |ready| == nextId - firstId && AllCarry(ready, channels, firstId)
    && CurrentOk(channels, groups, last, nextId, current)
  }

  lemma CoveredPush(channels: seq<Outbox>, groups: seq<Group>, last: int, packetId: nat)
    requires Numbered(groups, last) && Covered(channels, groups, last) && Known(groups, |channels|)
             && packetId == last + 1 + |groups|
    ensures var more := groups + [Group(packetId, [])];
            Numbered(more, last) && Covered(channels, more, last) && Known(more, |channels|)
  {
    var more := groups + [Group(packetId, [])];
    forall c, p: nat | 0 <= c < |channels| && p in channels[c].unacked
      ensures OnLedger(more, last, c, p)
    {
      assert OnLedger(groups, last, c, p);
    }
  }

  lemma CoveredAdd(channels: seq<Outbox>, groups: seq<Group>, last: int, c: nat, b: OutBunch)
    requires Numbered(groups, last) && Covered(channels, groups, last) && Known(groups, |channels|) && groups != []
             && c < |channels|
    ensures var more := AddChannel(groups, c);
            && Numbered(more, last) && Known(more, |channels|)
            && Covered(channels[c := channels[c].AddUnAcked(groups[|groups| - 1].packetId, b)], more, last)
  {
    var p := groups[|groups| - 1].packetId;
    var more, after := AddChannel(groups, c), channels[c := channels[c].AddUnAcked(p, b)];
    forall d, q: nat | 0 <= d < |after| && q in after[d].unacked
      ensures OnLedger(more, last, d, q)
    {
      if d == c && q == p {
        assert more[|groups| - 1].channels == groups[|groups| - 1].channels + [c];
      } else {
        assert q in channels[d].unacked;
        assert OnLedger(groups, last, d, q);
      }
    }
  }

  lemma CoveredQueue(channels: seq<Outbox>, groups: seq<Group>, last: int, c: nat, queue: seq<OutBunch>)
    requires Covered(channels, groups, last) && c < |channels|
    ensures Covered(channels[c := channels[c].(queue := queue)], groups, last)
  {
    var after := channels[c := channels[c].(queue := queue)];
    forall d, q: nat | 0 <= d < |after| && q in after[d].unacked
      ensures OnLedger(groups, last, d, q)
    {
      assert q in channels[d].unacked;
    }
  }

  /** Beyond the ledger nothing is recorded. */
  lemma BeyondLedger(channels: seq<Outbox>, groups: seq<Group>, last: int, p: nat)
    requires Covered(channels, groups, last) && p > last + |groups|
    ensures AllRecorded(channels, p) == multiset{}
  {
    forall c | 0 <= c < |channels|
      ensures p !in channels[c].unacked
    {
      assert !OnLedger(groups, last, c, p);
    }
    NoneRecorded(channels, |channels|, p);
  }

  // ----- the actions of the assembly -----

  /** The ledger up to the packet being opened. */
  lemma PacketOpens(channels: seq<Outbox>, groups: seq<Group>, last: int, nextId: nat, lastPushed: int,
                    ready: seq<Packet>, firstId: nat)
    requires Assembling(channels, groups, last, nextId, NoPacket, ready, firstId)
    requires lastPushed <= last + |groups| && (groups != [] ==> lastPushed == groups[|groups| - 1].packetId)
    ensures Assembling(channels, PushPacket(groups, lastPushed, nextId), last, nextId, Filling(EmptyPacket(nextId)),
            ready, firstId)
    ensures last + |PushPacket(groups, lastPushed, nextId)| == nextId && lastPushed <= nextId
  {
    if lastPushed != nextId {
      CoveredPush(channels, groups, last, nextId);
    }
  }

  /** The filled packet is sealed and the next id is free. */
  lemma PacketSeals(channels: seq<Outbox>, groups: seq<Group>, last: int, nextId: nat, packet: Packet,
                    ready: seq<Packet>, firstId: nat)
    requires Assembling(channels, groups, last, nextId, Filling(packet), ready, firstId)
    ensures Assembling(channels, groups, last, nextId + 1, NoPacket, ready + [packet], firstId)
  {
    BeyondLedger(channels, groups, last, nextId + 1);
  }

  /** Taking a bunch off a queue, or throwing it away, records nothing. */
  lemma QueueChanges(channels: seq<Outbox>, groups: seq<Group>, last: int, nextId: nat, current: Current,
                     ready: seq<Packet>, firstId: nat, c: nat, queue: seq<OutBunch>)
    requires Assembling(channels, groups, last, nextId, current, ready, firstId) && c < |channels|
    ensures Assembling(channels[c := channels[c].(queue := queue)], groups, last, nextId, current, ready, firstId)
  {
    hide Recorded, Covered, OnLedger, SizeOf;
    var after := channels[c := channels[c].(queue := queue)];
    CoveredQueue(channels, groups, last, c, queue);
    forall q: nat
      ensures AllRecorded(after, q) == AllRecorded(channels, q)
    {
      RecordedQueue(channels, c, queue, q);
    }
    CarriesOn(channels, after, ready, firstId);
  }

  lemma CarriesOn(channels: seq<Outbox>, after: seq<Outbox>, ready: seq<Packet>, firstId: nat)
    requires AllCarry(ready, channels, firstId)
    requires forall q: nat | firstId <= q < firstId + |ready| :: AllRecorded(after, q) == AllRecorded(channels, q)
    ensures AllCarry(ready, after, firstId)
  {
    hide AllRecorded, SizeOf;
    forall i | 0 <= i < |ready|
      ensures ready[i].id == firstId + i && Carries(ready[i], after)
    {
      assert Carries(ready[i], channels);
    }
  }

  lemma SizeNext(bunches: seq<OutBunch>, b: OutBunch)
    ensures SizeOf(bunches + [b]) == SizeOf(bunches) + b.totalSize
  {
    assert (bunches + [b])[..|bunches|] == bunches;
  }

  /** A packet with room, or an empty one, takes a bunch exactly when the bunch fits. */
  lemma AppendCarries(channels: seq<Outbox>, packet: Packet, c: nat, b: OutBunch)
    requires Carries(packet, channels) && c < |channels|
    requires packet.totalSize + b.totalSize <= PACKET_MAX_SIZE || packet == EmptyPacket(packet.id)
    ensures Carries(Append(packet, b), channels[c := channels[c].AddUnAcked(packet.id, b)])
    ensures Append(packet, b) == packet <==> !FitsPacket(b)
  {
    hide AllRecorded, SizeOf;
    assert EmptyPacket(packet.id).bunches == [];
    RecordedAdd(channels, c, packet.id, b, packet.id);
    SizeNext(packet.bunches, b);
    assert Append(packet, b) != packet ==> |Append(packet, b).bunches| == |packet.bunches| + 1;
  }

  lemma BunchAdds(channels: seq<Outbox>, groups: seq<Group>, last: int, nextId: nat, packet: Packet, ready: seq<Packet>,
                  firstId: nat, c: nat, b: OutBunch)
    requires Assembling(channels, groups, last, nextId, Filling(packet), ready, firstId) && c < |channels|
    requires packet.totalSize + b.totalSize <= PACKET_MAX_SIZE || packet == EmptyPacket(nextId)
    ensures groups != []
    ensures Assembling(channels[c := channels[c].AddUnAcked(nextId, b)], AddChannel(groups, c), last, nextId,
                       Filling(Append(packet, b)), ready, firstId)
  {
    hide AllRecorded, Covered, Known, OnLedger, Carries, AllCarry;
    var after := channels[c := channels[c].AddUnAcked(nextId, b)];
    assert |groups| == nextId - last;
    CoveredAdd(channels, groups, last, c, b);
    AppendCarries(channels, packet, c, b);
    forall q: nat | firstId <= q < firstId + |ready|
      ensures AllRecorded(after, q) == AllRecorded(channels, q)
    {
      RecordedAdd(channels, c, nextId, b, q);
    }
    CarriesOn(channels, after, ready, firstId);
  }

  // ----- acks, nacks and forced retransmission -----

  /** What an ack or a nack does to one channel. */
  function Notify(out: Outbox, packetId: nat, delivered: bool): Outbox {
    if delivered then out.Acked(packetId) else out.Nacked(packetId)
  }

  /** A channel that holds nothing for the packet does not notice, so reporting a channel
      twice changes nothing. */
  lemma NotifyTwice(out: Outbox, packetId: nat, delivered: bool)
    ensures Notify(Notify(out, packetId, delivered), packetId, delivered) == Notify(out, packetId, delivered)
    ensures packetId !in out.unacked ==> Notify(out, packetId, delivered) == out
    ensures packetId !in Notify(out, packetId, delivered).unacked
    ensures forall q | q in Notify(out, packetId, delivered).unacked :: q in out.unacked
    ensures forall q: nat | q != packetId :: BunchesOf(Notify(out, packetId, delivered), q) == BunchesOf(out, q)
  {
    assert (out.unacked - {packetId}) - {packetId} == out.unacked - {packetId};
    assert packetId !in out.unacked ==> out.unacked - {packetId} == out.unacked;
  }

  /** Between assemblies a ledger entry for nextId stands for bunches that fit no packet. */
  ghost predicate Idle(channels: seq<Outbox>, groups: seq<Group>, last: int, nextId: nat) {
    Coupled(channels, groups, last, nextId) && AllRecorded(channels, nextId) == multiset{}
  }

  lemma FrontGroup(channels: seq<Outbox>, groups: seq<Group>, last: int, nextId: nat)
    requires Coupled(channels, groups, last, nextId) && last + 1 < nextId
    ensures groups != [] && groups[0].packetId == last + 1
    ensures forall c | c in groups[0].channels :: c < |channels|
  {
  }

  /** Only the channels reported for the front packet hold anything for it. */
  lemma OnlyReported(channels: seq<Outbox>, groups: seq<Group>, last: int, nextId: nat, calls: seq<nat>, c: nat)
    requires Coupled(channels, groups, last, nextId) && last + 1 < nextId && c < |channels| < VALUE_LIMIT
    requires groups != [] && calls == Collapse(groups[0].channels, UINT32_MAX) && c !in calls
    ensures last + 1 !in channels[c].unacked
  {
    CollapseCovers(groups[0].channels, UINT32_MAX, c);
    var p: nat := last + 1;
    assert !OnLedger(groups, last, c, p);
  }

  lemma CallsKnown(channels: seq<nat>, n: nat)
    requires forall c | c in channels :: c < n
    ensures forall c | c in Collapse(channels, UINT32_MAX) :: c < n
  {
    forall c | c in Collapse(channels, UINT32_MAX)
      ensures c < n
    {
      CollapseCovers(channels, UINT32_MAX, c);
    }
  }

  lemma NotifiedCovered(channels: seq<Outbox>, after: seq<Outbox>, groups: seq<Group>, last: int, delivered: bool)
    requires Covered(channels, groups, last) && groups != [] && |after| == |channels| && last >= -1
    requires forall c | 0 <= c < |channels| :: after[c] == Notify(channels[c], last + 1, delivered)
    ensures Covered(after, groups[1..], last + 1)
  {
    hide Notify;
    forall c, q: nat | 0 <= c < |after| && q in after[c].unacked
      ensures OnLedger(groups[1..], last + 1, c, q)
    {
      NotifyTwice(channels[c], last + 1, delivered);
      assert OnLedger(groups, last, c, q);
    }
  }

  /** Once every channel is notified of the front packet, it comes off the ledger. */
  lemma NotifiedIdle(channels: seq<Outbox>, after: seq<Outbox>, groups: seq<Group>, last: int, nextId: nat,
                     delivered: bool)
    requires Idle(channels, groups, last, nextId) && groups != [] && |after| == |channels| && last + 1 < nextId
    requires forall c | 0 <= c < |channels| :: after[c] == Notify(channels[c], last + 1, delivered)
    ensures Idle(after, groups[1..], last + 1, nextId)
  {
    hide Notify, Covered, Recorded, BunchesOf;
    NotifiedCovered(channels, after, groups, last, delivered);
    forall c | 0 <= c < |channels|
      ensures BunchesOf(after[c], nextId) == BunchesOf(channels[c], nextId)
    {
      NotifyTwice(channels[c], last + 1, delivered);
    }
    RecordedSame(channels, after, |channels|, nextId);
  }

  /** After a forced retransmission no channel holds anything; the ledger may stay. */
  lemma ForcedIdle(channels: seq<Outbox>, after: seq<Outbox>, groups: seq<Group>, last: int, nextId: nat)
    requires Idle(channels, groups, last, nextId) && |after| == |channels|
    requires forall c | 0 <= c < |channels| :: after[c] == channels[c].ForceRetransmit()
    ensures Idle(after, groups, last, nextId)
  {
    NoneRecorded(after, |after|, nextId);
  }

  // ----- the order in which a channel's bunches stand -----

  function SendableOf(bunches: seq<OutBunch>): seq<OutBunch> {
    if bunches == [] then []
    else (if Sendable(bunches[0]) then [bunches[0]] else []) + SendableOf(bunches[1..])
  }

  /** Everything a channel still has to get across, in sending order: what is in flight,
      packet by packet, then what is queued. */
  function Flow(out: Outbox): seq<OutBunch> {
    SendableOf(InOrder(out.unacked) + out.queue)
  }

  lemma {:induction false} SendableConcat(a: seq<OutBunch>, b: seq<OutBunch>)
    ensures SendableOf(a + b) == SendableOf(a) + SendableOf(b)
    decreases |a|
  {
    hide Sendable;
    if a == [] {
      assert a + b == b;
    } else {
      var head := if Sendable(a[0]) then [a[0]] else [];
      assert (a + b)[0] == a[0] && (a + b)[1..] == a[1..] + b;
      SendableConcat(a[1..], b);
      assert SendableOf(a) == head + SendableOf(a[1..]);
      assert SendableOf(a + b) == head + SendableOf(a[1..] + b);
    }
  }

  lemma InOrderTop(unacked: map<nat, seq<OutBunch>>, p: nat, b: OutBunch)
    requires forall q | q in unacked :: q <= p
    ensures InOrder(unacked[p := (if p in unacked then unacked[p] else []) + [b]]) == InOrder(unacked) + [b]
  {
    var before := if p in unacked then unacked[p] else [];
    var after := unacked[p := before + [b]];
    assert p in after;
    assert MaxKey(after) == p && after - {p} == unacked - {p};
    if p in unacked {
      assert MaxKey(unacked) == p;
    } else {
      assert unacked - {p} == unacked;
    }
  }

  /** Sending the head of the queue under the newest packet keeps the order. */
  lemma SendKeepsFlow(out: Outbox, p: nat)
    requires out.queue != [] && forall q | q in out.unacked :: q <= p
    ensures Flow(out.(queue := out.queue[1..]).AddUnAcked(p, out.queue[0])) == Flow(out)
  {
    hide InOrder;
    InOrderTop(out.unacked, p, out.queue[0]);
    assert InOrder(out.unacked) + [out.queue[0]] + out.queue[1..] == InOrder(out.unacked) + out.queue;
  }

  /** A bunch that is thrown away was not among those still to get across, though the peer
      waits for its sequence. */
  lemma DropKeepsFlow(out: Outbox)
    requires out.queue != [] && !Sendable(out.queue[0])
    ensures Flow(out.(queue := out.queue[1..])) == Flow(out)
  {
    SendableConcat(InOrder(out.unacked), out.queue);
    SendableConcat(InOrder(out.unacked), out.queue[1..]);
  }

  lemma ForceKeepsFlow(out: Outbox)
    ensures Flow(out.ForceRetransmit()) == Flow(out)
  {
    hide InOrder;
    InOrderNone();
    assert [] + (InOrder(out.unacked) + out.queue) == InOrder(out.unacked) + out.queue;
  }

  ghost predicate FlowsKept(before: seq<Outbox>, channels: seq<Outbox>) {
    |channels| == |before| && forall c | 0 <= c < |channels| :: Flow(channels[c]) == Flow(before[c])
  }

  lemma FlowsUpdate(before: seq<Outbox>, channels: seq<Outbox>, c: nat, out: Outbox)
    requires FlowsKept(before, channels) && c < |channels| && Flow(out) == Flow(channels[c])
    ensures FlowsKept(before, channels[c := out])
  {
    hide Flow;
  }

  /** No channel holds a packet newer than the one being filled. */
  lemma UpToNext(channels: seq<Outbox>, groups: seq<Group>, last: int, nextId: nat, c: nat, q: nat)
    requires Coupled(channels, groups, last, nextId) && c < |channels| && q in channels[c].unacked
    ensures q <= nextId
  {
    assert OnLedger(groups, last, c, q);
  }

  // ----- how much is queued -----

  function Queued(channels: seq<Outbox>): nat {
    if channels == [] then 0 else |channels[0].queue| + Queued(channels[1..])
  }

  lemma {:induction false} QueuedUpdate(channels: seq<Outbox>, c: nat, out: Outbox)
    requires c < |channels|
    ensures Queued(channels[c := out]) == Queued(channels) - |channels[c].queue| + |out.queue|
    ensures |channels[c].queue| <= Queued(channels)
    decreases |channels|
  {
    if c > 0 {
      assert channels[c := out][1..] == channels[1..][c - 1 := out];
      QueuedUpdate(channels[1..], c - 1, out);
    } else {
      assert channels[c := out][1..] == channels[1..];
    }
  }
}
