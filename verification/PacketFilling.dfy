/** What one packet assembly sends: every bunch it records, under which packet, and which
    bunches the packets carry. */
module PacketFilling {
  import opened BunchBuilder
  import opened ChannelRecord
  import opened NetChannel
  import opened PacketAssembly
  import BunchRuns

  /** A bunch of a channel, recorded under a packet id. */
  datatype Sent = Sent(channel: nat, bunch: OutBunch, id: nat)

  /** The bunches of a channel recorded under an id. */
  function RecordedFor(log: seq<Sent>, c: nat, id: nat): seq<OutBunch> {
    if log == [] then []
    else
      var n := |log| - 1;
      RecordedFor(log[..n], c, id) + (if log[n].channel == c && log[n].id == id then [log[n].bunch] else [])
  }

  /** All that is recorded of a channel. */
  function OfChannel(log: seq<Sent>, c: nat): seq<OutBunch> {
    if log == [] then []
    else
      var n := |log| - 1;
      OfChannel(log[..n], c) + (if log[n].channel == c then [log[n].bunch] else [])
  }

  /** The channels recorded under an id. */
  function ChannelsFor(log: seq<Sent>, id: nat): seq<nat> {
    if log == [] then []
    else
      var n := |log| - 1;
      ChannelsFor(log[..n], id) + (if log[n].id == id then [log[n].channel] else [])
  }

  /** The bunches recorded under an id that leave room for the packet header. */
  function CarriedUnder(log: seq<Sent>, id: nat): seq<OutBunch> {
    if log == [] then []
    else
      var n := |log| - 1;
      CarriedUnder(log[..n], id) + (if log[n].id == id && log[n].bunch.totalSize <= 1014 then [log[n].bunch] else [])
  }

  /** The size of the packet they make. */
  function Load(log: seq<Sent>, id: nat): nat {
    10 + SizeOf(CarriedUnder(log, id))
  }

  /** The id recorded last. */
  function LastId(log: seq<Sent>, first: nat): nat {
    if log == [] then first else log[|log| - 1].id
  }

  /** A bunch goes under the id before it when that packet takes it, else under the next. */
  ghost predicate InTurn(log: seq<Sent>, first: nat, i: nat)
    requires i < |log|
  {
    var id := LastId(log[..i], first);
    log[i].id == if Load(log[..i], id) + log[i].bunch.totalSize <= 1024 then id else id + 1
  }

  /** Packets are filled one after the other, each until the next bunch does not fit. */
  ghost predicate Greedy(log: seq<Sent>, first: nat) {
    forall i | 0 <= i < |log| :: InTurn(log, first, i)
  }

  /** Channel by channel. */
  ghost predicate ByChannel(log: seq<Sent>) {
    forall i, j | 0 <= i < j < |log| :: log[i].channel <= log[j].channel
  }

  // ----- one bunch more -----

  lemma NextIs(log: seq<Sent>, e: Sent)
    ensures (log + [e])[..|log|] == log
    ensures forall c, id :: RecordedFor(log + [e], c, id)
                         == RecordedFor(log, c, id) + (if e.channel == c && e.id == id then [e.bunch] else [])
    ensures forall c :: OfChannel(log + [e], c) == OfChannel(log, c) + (if e.channel == c then [e.bunch] else [])
    ensures forall id :: ChannelsFor(log + [e], id) == ChannelsFor(log, id) + (if e.id == id then [e.channel] else [])
    ensures forall id :: CarriedUnder(log + [e], id)
                      == CarriedUnder(log, id) + (if e.id == id && e.bunch.totalSize <= 1014 then [e.bunch] else [])
  {
    assert (log + [e])[..|log|] == log;
  }

  lemma GreedyNext(log: seq<Sent>, first: nat, e: Sent)
    requires Greedy(log, first)
    requires var id := LastId(log, first);
             e.id == if Load(log, id) + e.bunch.totalSize <= 1024 then id else id + 1
    ensures Greedy(log + [e], first)
  {
    hide Load, LastId;
    var more := log + [e];
    forall i | 0 <= i < |more|
      ensures InTurn(more, first, i)
    {
      if i < |log| {
        assert InTurn(log, first, i) && more[..i] == log[..i];
      } else {
        assert more[..i] == log;
      }
    }
  }

  lemma GreedyFront(log: seq<Sent>, first: nat, n: nat)
    requires Greedy(log, first) && n <= |log|
    ensures Greedy(log[..n], first)
  {
    hide Load, LastId;
    forall i | 0 <= i < n
      ensures InTurn(log[..n], first, i)
    {
      assert InTurn(log, first, i) && log[..n][..i] == log[..i];
    }
  }

  /** The ids only go up, by one at most. */
  lemma {:induction false} IdsUpTo(log: seq<Sent>, first: nat)
    requires Greedy(log, first)
    ensures first <= LastId(log, first)
    ensures forall i | 0 <= i < |log| :: first <= log[i].id <= LastId(log, first)
    decreases |log|
  {
    hide Load;
    if log != [] {
      var n := |log| - 1;
      GreedyFront(log, first, n);
      IdsUpTo(log[..n], first);
      assert InTurn(log, first, n);
      assert forall i | 0 <= i < n :: log[..n][i] == log[i];
    }
  }

  lemma {:induction false} NoneUnder(log: seq<Sent>, id: nat)
    requires forall i | 0 <= i < |log| :: log[i].id != id
    ensures CarriedUnder(log, id) == [] && ChannelsFor(log, id) == []
    ensures forall c :: RecordedFor(log, c, id) == []
    decreases |log|
  {
    if log != [] {
      NoneUnder(log[..|log| - 1], id);
    }
  }

  // ----- no two neighbouring packets could have been one -----

  /** The first bunch under the next id did not fit the packet before it. */
  lemma {:induction false} FilledUp(log: seq<Sent>, first: nat, id: nat) returns (i: nat)
    requires Greedy(log, first) && first <= id < LastId(log, first)
    ensures i < |log| && log[i].id == id + 1 && (forall j | 0 <= j < i :: log[j].id <= id)
    ensures Load(log, id) + log[i].bunch.totalSize > 1024
    decreases |log|
  {
    assert log != [];
    hide Load;
    var n := |log| - 1;
    var front := log[..n];
    GreedyFront(log, first, n);
    IdsUpTo(front, first);
    assert InTurn(log, first, n);
    assert front + [log[n]] == log;
    NextIs(front, log[n]);
    assert forall j | 0 <= j < n :: front[j] == log[j];
    if id < LastId(front, first) {
      i := FilledUp(front, first, id);
    } else {
      i := n;
    }
    LoadSame(front, log, id);
  }

  lemma LoadSame(log: seq<Sent>, more: seq<Sent>, id: nat)
    ensures CarriedUnder(more, id) == CarriedUnder(log, id) ==> Load(more, id) == Load(log, id)
  {
  }

  // ----- the packets carry all that fits, once and in order -----

  function CarriedOf(log: seq<Sent>): seq<OutBunch> {
    if log == [] then []
    else
      var n := |log| - 1;
      CarriedOf(log[..n]) + (if log[n].bunch.totalSize <= 1014 then [log[n].bunch] else [])
  }

  /** What the packets from one id up to another carry, one packet after the other. */
  function CarriedBetween(log: seq<Sent>, low: nat, high: nat): seq<OutBunch>
    decreases high
  {
    if high <= low then [] else CarriedBetween(log, low, high - 1) + CarriedUnder(log, high - 1)
  }

  lemma {:induction false} BetweenSame(log: seq<Sent>, e: Sent, low: nat, high: nat)
    requires high <= e.id
    ensures CarriedBetween(log + [e], low, high) == CarriedBetween(log, low, high)
    decreases high
  {
    NextIs(log, e);
    if low < high {
      BetweenSame(log, e, low, high - 1);
    }
  }

  lemma {:induction false} NothingBeyond(log: seq<Sent>, low: nat, mid: nat, high: nat)
    requires low <= mid <= high && forall i | 0 <= i < |log| :: log[i].id < mid
    ensures CarriedBetween(log, low, high) == CarriedBetween(log, low, mid)
    decreases high
  {
    if mid < high {
      NothingBeyond(log, low, mid, high - 1);
      NoneUnder(log, high - 1);
    }
  }

  /** Together they carry every bunch recorded that leaves room for the header, in the order
      in which they were recorded. */
  lemma {:induction false} AllCarried(log: seq<Sent>, first: nat, high: nat)
    requires Greedy(log, first) && high > LastId(log, first)
    ensures CarriedBetween(log, first, high) == CarriedOf(log)
    decreases |log|
  {
    hide Load, CarriedUnder;
    IdsUpTo(log, first);
    NothingBeyond(log, first, LastId(log, first) + 1, high);
    var id := LastId(log, first);
    if log == [] {
      NoneUnder([], first);
      assert CarriedBetween([], first, first) + CarriedUnder([], first) == [];
    } else {
      var n := |log| - 1;
      var front, e := log[..n], log[n];
      assert front + [e] == log;
      GreedyFront(log, first, n);
      IdsUpTo(front, first);
      assert InTurn(log, first, n);
      AllCarried(front, first, id + 1);
      NextIs(front, e);
      BetweenSame(front, e, first, id);
      assert CarriedBetween(log, first, id + 1) == CarriedBetween(log, first, id) + CarriedUnder(log, id);
      assert CarriedBetween(front, first, id + 1) == CarriedBetween(front, first, id) + CarriedUnder(front, id);
    }
  }

  // ----- what the log says of channels, ledger and packets -----

  /** Every channel holds what it held, and after it what the log has recorded. */
  ghost predicate HoldRecorded(before: seq<Outbox>, channels: seq<Outbox>, log: seq<Sent>) {
    && |channels| == |before|
    && forall c, id: nat | 0 <= c < |channels| :: Holds(before[c], channels[c], id, RecordedFor(log, c, id))
  }

  /** Under this id the channel has got these bunches more. */
  predicate Holds(before: Outbox, now: Outbox, id: nat, more: seq<OutBunch>) {
    && BunchesOf(now, id) == BunchesOf(before, id) + more
    && (id in now.unacked <==> id in before.unacked || more != [])
  }

  ghost predicate KnownChannels(log: seq<Sent>, n: nat) {
    forall i | 0 <= i < |log| :: log[i].channel < n
  }

  /** What was queued is on the log, in order, or still queued, but for what is thrown
      away. */
  ghost predicate TakenOff(before: seq<Outbox>, channels: seq<Outbox>, log: seq<Sent>) {
    && |channels| == |before| && KnownChannels(log, |channels|)
    && forall c | 0 <= c < |channels| ::
         SendableOf(before[c].queue) == OfChannel(log, c) + SendableOf(channels[c].queue)
  }

  /** The channels on the ledger under an id. */
  function Listed(groups: seq<Group>, last: int, id: nat): seq<nat> {
    if 0 <= id - last - 1 < |groups| then groups[id - last - 1].channels else []
  }

  ghost predicate OnLedgerToo(before: seq<Group>, groups: seq<Group>, last: int, log: seq<Sent>) {
    forall id: nat :: Listed(groups, last, id) == Listed(before, last, id) + ChannelsFor(log, id)
  }

  /** A packet as the log has it. */
  function PacketOf(log: seq<Sent>, id: nat): Packet {
    Packet(id, CarriedUnder(log, id), Load(log, id))
  }

  ghost predicate AllPacked(log: seq<Sent>, first: nat, ready: seq<Packet>) {
    forall k | 0 <= k < |ready| :: ready[k] == PacketOf(log, first + k)
  }

  /** The packets sealed are those of the ids before nextId, and the one being filled is
      nextId's. */
  ghost predicate Packed(log: seq<Sent>, first: nat, nextId: nat, current: Current, ready: seq<Packet>) {
    && Greedy(log, first) && LastId(log, first) == nextId
    && |ready| == nextId - first && AllPacked(log, first, ready)
    && match current
       case NoPacket => log == []
       case Filling(packet) => packet == PacketOf(log, nextId)
  }

  /** The packet that a bunch may join. */
  function Open(current: Current, nextId: nat): Packet {
    if current.NoPacket? then EmptyPacket(nextId) else current.packet
  }

  lemma OpenIs(log: seq<Sent>, first: nat, nextId: nat, current: Current, ready: seq<Packet>)
    requires Packed(log, first, nextId, current, ready)
    ensures Open(current, nextId) == PacketOf(log, nextId)
  {
  }

  lemma PackedSame(log: seq<Sent>, first: nat, e: Sent, id: nat)
    requires id < e.id
    ensures PacketOf(log + [e], id) == PacketOf(log, id)
  {
    NextIs(log, e);
  }

  /** A bunch joins the open packet when that has room, and starts the next one otherwise. */
  lemma PackedNext(log: seq<Sent>, first: nat, nextId: nat, current: Current, ready: seq<Packet>, c: nat, b: OutBunch)
    requires Packed(log, first, nextId, current, ready)
    ensures var open := Open(current, nextId);
            if open.totalSize + b.totalSize <= 1024
            then Packed(log + [Sent(c, b, nextId)], first, nextId, Filling(Append(open, b)), ready)
            else Packed(log + [Sent(c, b, nextId + 1)], first, nextId + 1, Filling(Append(EmptyPacket(nextId + 1), b)),
                        ready + [open])
  {
    hide SizeOf, CarriedUnder, Greedy, InTurn;
    var open := Open(current, nextId);
    OpenIs(log, first, nextId, current, ready);
    var id := if open.totalSize + b.totalSize <= 1024 then nextId else nextId + 1;
    var e := Sent(c, b, id);
    NextIs(log, e);
    GreedyNext(log, first, e);
    IdsUpTo(log, first);
    NoneUnder(log, nextId + 1);
    SizeNext(CarriedUnder(log, id), b);
    EmptySize();
    var sealed := if id == nextId then ready else ready + [open];
    forall k | 0 <= k < |sealed|
      ensures sealed[k] == PacketOf(log + [e], first + k)
    {
      PackedSame(log, first, e, first + k);
    }
  }

  /** The last packet counts when it carries anything. */
  lemma LastSealed(log: seq<Sent>, first: nat, nextId: nat, current: Current, ready: seq<Packet>)
    requires Packed(log, first, nextId, current, ready)
    ensures Greedy(log, first) && LastId(log, first) == nextId && (log == [] ==> ready == [])
    ensures log == [] ==> CarriedUnder(log, nextId) == []
    ensures current.NoPacket? ==> log == []
    ensures current.Filling? ==> current.packet.bunches == CarriedUnder(log, nextId)
    ensures AllPacked(log, first,
                      if current.Filling? && current.packet.bunches != [] then ready + [current.packet] else ready)
  {
    hide Load, Greedy, InTurn;
  }

  lemma EmptySize()
    ensures SizeOf([]) == 0
  {
  }

  lemma HoldsMore(before: Outbox, now: Outbox, id: nat, more: seq<OutBunch>, queue: seq<OutBunch>, p: nat, b: OutBunch)
    requires Holds(before, now, id, more)
    ensures Holds(before, now.(queue := queue).AddUnAcked(p, b), id, more + (if id == p then [b] else []))
  {
  }

  lemma HoldNext(before: seq<Outbox>, channels: seq<Outbox>, log: seq<Sent>, e: Sent, queue: seq<OutBunch>)
    requires HoldRecorded(before, channels, log) && e.channel < |channels|
    ensures HoldRecorded(before,
                         channels[e.channel := channels[e.channel].(queue := queue).AddUnAcked(e.id, e.bunch)],
                         log + [e])
  {
    hide RecordedFor, Holds, Outbox.AddUnAcked;
    NextIs(log, e);
    var after := channels[e.channel := channels[e.channel].(queue := queue).AddUnAcked(e.id, e.bunch)];
    forall c, id: nat | 0 <= c < |after|
      ensures Holds(before[c], after[c], id, RecordedFor(log + [e], c, id))
    {
      assert Holds(before[c], channels[c], id, RecordedFor(log, c, id));
      HoldsMore(before[c], channels[c], id, RecordedFor(log, c, id), queue, e.id, e.bunch);
      assert RecordedFor(log, c, id) + [] == RecordedFor(log, c, id);
    }
  }

  lemma HoldQueue(before: seq<Outbox>, channels: seq<Outbox>, log: seq<Sent>, c: nat, queue: seq<OutBunch>)
    requires HoldRecorded(before, channels, log) && c < |channels|
    ensures HoldRecorded(before, channels[c := channels[c].(queue := queue)], log)
  {
    var after := channels[c := channels[c].(queue := queue)];
    forall d, id: nat | 0 <= d < |after|
      ensures Holds(before[d], after[d], id, RecordedFor(log, d, id))
    {
      assert Holds(before[d], channels[d], id, RecordedFor(log, d, id));
    }
  }

  lemma SendableHead(queue: seq<OutBunch>)
    requires queue != []
    ensures SendableOf(queue) == (if Sendable(queue[0]) then [queue[0]] else []) + SendableOf(queue[1..])
  {
  }

  /** The head of a queue goes on the log exactly when it is not thrown away. */
  lemma HeadTaken(before: seq<Outbox>, channels: seq<Outbox>, log: seq<Sent>, c: nat, out: Outbox, id: nat)
    requires TakenOff(before, channels, log) && c < |channels| && channels[c].queue != []
    requires out.queue == channels[c].queue[1..]
    ensures TakenOff(before, channels[c := out],
                     if Sendable(channels[c].queue[0]) then log + [Sent(c, channels[c].queue[0], id)] else log)
  {
    hide Sendable, OfChannel, SendableOf;
    var b := channels[c].queue[0];
    NextIs(log, Sent(c, b, id));
    SendableHead(channels[c].queue);
    assert OfChannel(log, c) + ([b] + SendableOf(out.queue)) == OfChannel(log, c) + [b] + SendableOf(out.queue);
    assert [] + SendableOf(out.queue) == SendableOf(out.queue);
    assert forall d :: OfChannel(log, d) + [] == OfChannel(log, d);
  }

  lemma LedgerNext(before: seq<Group>, groups: seq<Group>, after: seq<Group>, last: int, log: seq<Sent>, e: Sent)
    requires OnLedgerToo(before, groups, last, log) && OnLedgerToo(groups, after, last, [e])
    ensures OnLedgerToo(before, after, last, log + [e])
  {
    hide Listed, ChannelsFor;
    NextIs(log, e);
    NextIs([], e);
    NoneUnder([], 0);
    forall id: nat
      ensures Listed(after, last, id) == Listed(before, last, id) + ChannelsFor(log + [e], id)
    {
      NoneUnder([], id);
      assert [] + [e] == [e];
      assert Listed(groups, last, id) == Listed(before, last, id) + ChannelsFor(log, id);
      assert Listed(after, last, id) == Listed(groups, last, id) + ChannelsFor([e], id);
    }
  }

  lemma LedgerJoins(before: seq<Group>, groups: seq<Group>, after: seq<Group>, last: int, log: seq<Sent>)
    requires OnLedgerToo(before, groups, last, []) && OnLedgerToo(groups, after, last, log)
    ensures OnLedgerToo(before, after, last, log)
  {
    hide Listed;
    forall id: nat
      ensures Listed(after, last, id) == Listed(before, last, id) + ChannelsFor(log, id)
    {
      assert Listed(groups, last, id) == Listed(before, last, id) + ChannelsFor([], id);
      assert Listed(before, last, id) + [] == Listed(before, last, id);
    }
  }

  lemma LedgerSame(groups: seq<Group>, last: int)
    ensures OnLedgerToo(groups, groups, last, [])
  {
  }

  /** Opening a packet lists no channel yet. */
  lemma LedgerOpens(groups: seq<Group>, lastPushed: int, id: nat, last: int)
    ensures OnLedgerToo(groups, PushPacket(groups, lastPushed, id), last, [])
  {
  }

  lemma LedgerAdds(groups: seq<Group>, last: int, e: Sent)
    requires groups != [] && e.id == last + |groups|
    ensures OnLedgerToo(groups, AddChannel(groups, e.channel), last, [e])
  {
    NextIs([], e);
    assert [] + [e] == [e];
    forall id: nat
      ensures Listed(AddChannel(groups, e.channel), last, id) == Listed(groups, last, id) + ChannelsFor([e], id)
    {
      assert ChannelsFor([e], id) == if e.id == id then [e.channel] else [];
    }
  }

  // ----- channel by channel -----

  ghost predicate Before(log: seq<Sent>, n: nat) {
    ByChannel(log) && forall i | 0 <= i < |log| :: log[i].channel < n
  }

  lemma BeforeNext(log: seq<Sent>, e: Sent)
    requires Before(log, e.channel + 1)
    ensures Before(log + [e], e.channel + 1)
  {
  }

  // ----- what travels -----

  /** What a list of packets carries, one packet after the other. */
  function Contents(ready: seq<Packet>): seq<OutBunch> {
    if ready == [] then []
    else
      var n := |ready| - 1;
      Contents(ready[..n]) + ready[n].bunches
  }

  lemma {:induction false} ContentsBetween(log: seq<Sent>, first: nat, ready: seq<Packet>)
    requires AllPacked(log, first, ready)
    ensures Contents(ready) == CarriedBetween(log, first, first + |ready|)
    decreases |ready|
  {
    hide PacketOf, CarriedUnder;
    if ready != [] {
      var n := |ready| - 1;
      assert AllPacked(log, first, ready[..n]) by {
        assert forall k | 0 <= k < n :: ready[..n][k] == ready[k];
      }
      ContentsBetween(log, first, ready[..n]);
      PacketHas(log, first + n);
    }
  }

  lemma PacketHas(log: seq<Sent>, id: nat)
    ensures PacketOf(log, id).bunches == CarriedUnder(log, id)
  {
  }

  /** How many packets the log makes: those up to the last id, that one only if it carries
      anything. */
  ghost predicate Complete(log: seq<Sent>, first: nat, ready: seq<Packet>) {
    && Greedy(log, first) && AllPacked(log, first, ready)
    && (log != [] ==> |ready| == LastId(log, first) - first
                               + (if CarriedUnder(log, LastId(log, first)) == [] then 0 else 1))
  }

  /** Nothing recorded makes no packet, or, to keep the connection alive, an empty one. */
  lemma NothingRecorded(first: nat)
    ensures Complete([], first, []) && Complete([], first, [EmptyPacket(first)])
  {
  }

  /** The packets of an assembly carry what the log has of up to 1014 bytes, each bunch once
      and in order. */
  lemma ContentsAre(log: seq<Sent>, first: nat, ready: seq<Packet>)
    requires Complete(log, first, ready) && log != []
    ensures Contents(ready) == CarriedOf(log)
  {
    hide CarriedUnder, Load;
    var id := LastId(log, first);
    IdsUpTo(log, first);
    ContentsBetween(log, first, ready);
    AllCarried(log, first, id + 1);
    assert CarriedBetween(log, first, id + 1) == CarriedBetween(log, first, id) + CarriedUnder(log, id);
  }

  lemma {:induction false} SendableIs(bunches: seq<OutBunch>, b: OutBunch)
    ensures b in SendableOf(bunches) <==> b in bunches && b.headerSize < b.totalSize <= 1024
    decreases |bunches|
  {
    if bunches != [] {
      SendableIs(bunches[1..], b);
      assert bunches == [bunches[0]] + bunches[1..];
    }
  }

  lemma {:induction false} CarriedIs(log: seq<Sent>, b: OutBunch)
    ensures b in CarriedOf(log) <==> b.totalSize <= 1014 && exists i :: 0 <= i < |log| && log[i].bunch == b
    decreases |log|
  {
    if log != [] {
      var n := |log| - 1;
      CarriedIs(log[..n], b);
      assert forall i | 0 <= i < n :: log[..n][i] == log[i];
    }
  }

  lemma {:induction false} OfChannelIs(log: seq<Sent>, c: nat, b: OutBunch)
    ensures b in OfChannel(log, c) <==> exists i :: 0 <= i < |log| && log[i].bunch == b && log[i].channel == c
    decreases |log|
  {
    if log != [] {
      var n := |log| - 1;
      OfChannelIs(log[..n], c, b);
      assert forall i | 0 <= i < n :: log[..n][i] == log[i];
    }
  }

  /** Of the bunches queued, an assembly that has emptied the queues carries exactly those that
      have messages and at most 1014 bytes. */
  lemma SentIff(before: seq<Outbox>, channels: seq<Outbox>, log: seq<Sent>, first: nat, ready: seq<Packet>, b: OutBunch)
    requires TakenOff(before, channels, log) && forall c | 0 <= c < |channels| :: channels[c].queue == []
    requires Complete(log, first, ready) && log != []
    ensures b in Contents(ready) <==> BunchRuns.Travels(b) && exists c :: 0 <= c < |before| && b in before[c].queue
    ensures BunchRuns.Travels(b) <==> b.headerSize < b.totalSize <= 1014
  {
    hide Complete;
    ContentsAre(log, first, ready);
    CarriedIs(log, b);
    forall c | 0 <= c < |before|
      ensures b in before[c].queue && b.headerSize < b.totalSize <= 1024
              <==> exists i :: 0 <= i < |log| && log[i].bunch == b && log[i].channel == c
    {
      assert OfChannel(log, c) + SendableOf([]) == OfChannel(log, c);
      SendableIs(before[c].queue, b);
      OfChannelIs(log, c, b);
    }
    if i :| 0 <= i < |log| && log[i].bunch == b {
      assert b in before[log[i].channel].queue;
    } else if c :| 0 <= c < |before| && b in before[c].queue {
      assert !(b.headerSize < b.totalSize <= 1024);
    }
  }

  // ----- one packet when one is enough -----

  /** The bytes recorded in all. */
  function Total(log: seq<Sent>): nat {
    if log == [] then 0 else Total(log[..|log| - 1]) + log[|log| - 1].bunch.totalSize
  }

  lemma {:induction false} LoadUpToTotal(log: seq<Sent>, id: nat)
    ensures Load(log, id) <= 10 + Total(log)
    decreases |log|
  {
    if log == [] {
      EmptySize();
    } else {
      var n := |log| - 1;
      var front, e := log[..n], log[n];
      assert front + [e] == log;
      LoadUpToTotal(front, id);
      NextIs(front, e);
      hide CarriedUnder, SizeOf;
      SizeNext(CarriedUnder(front, id), e.bunch);
      assert CarriedUnder(front, id) + [] == CarriedUnder(front, id);
    }
  }

  /** What fits one packet is sent in one. */
  lemma {:induction false} OneIsEnough(log: seq<Sent>, first: nat)
    requires Greedy(log, first) && 10 + Total(log) <= 1024
    ensures forall i | 0 <= i < |log| :: log[i].id == first
    ensures LastId(log, first) == first
    decreases |log|
  {
    hide Load;
    if log != [] {
      var n := |log| - 1;
      GreedyFront(log, first, n);
      OneIsEnough(log[..n], first);
      LoadUpToTotal(log[..n], first);
      assert InTurn(log, first, n);
      assert forall i | 0 <= i < n :: log[..n][i] == log[i];
    }
  }
}
