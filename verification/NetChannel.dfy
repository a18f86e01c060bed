/** NetChannel: the send queue with its unacknowledged packets, and the receive side with
    its reorder buffer. */
module NetChannel {
  import opened BufferReader
  import opened BunchBuilder
  import opened MathUtility
  import opened OrderedMap

  /** A received bunch: its bytes and how many messages it announces. */
  datatype InBunch = InBunch(data: seq<byte>, messageCount: nat)

  /** What ReceivedMessage gets. */
  datatype Delivery = Delivery(id: uint16, payload: seq<byte>)

  const RELIABLE_BUFFER := 512

  // ----- send side -----

  datatype Outbox = Outbox(queue: seq<OutBunch>, unacked: map<nat, seq<OutBunch>>) {

    predicate HasRoom() {
      |unacked| < RELIABLE_BUFFER
    }

    function AddUnAcked(packetId: nat, bunch: OutBunch): Outbox {
      this.(unacked := unacked[packetId := (if packetId in unacked then unacked[packetId] else []) + [bunch]])
    }

    function Acked(packetId: nat): Outbox {
      this.(unacked := unacked - {packetId})
    }

    /** The bunches of the packet go back to the front of the queue in their order. */
    function Nacked(packetId: nat): Outbox {
      Outbox((if packetId in unacked then unacked[packetId] else []) + queue, unacked - {packetId})
    }

    function ForceRetransmit(): Outbox {
      Outbox(InOrder(unacked) + queue, map[])
    }
  }

  /** What waits under a packet id. */
  function BunchesOf(out: Outbox, packetId: nat): seq<OutBunch> {
    if packetId in out.unacked then out.unacked[packetId] else []
  }

  /** All bunches of a map in ascending packet order, each packet's in their own order. */
  function InOrder(unacked: map<nat, seq<OutBunch>>): seq<OutBunch>
    decreases |unacked|
  {
    if unacked == map[] then []
    else
      var k := MaxKey(unacked);
      Shrinks(unacked, k);
      InOrder(unacked - {k}) + unacked[k]
  }

  /** The highest packet's bunches stand last. */
  lemma InOrderLast(unacked: map<nat, seq<OutBunch>>, queue: seq<OutBunch>)
    requires unacked != map[]
    ensures var k := MaxKey(unacked);
            && |unacked - {k}| < |unacked|
            && InOrder(unacked) + queue == InOrder(unacked - {k}) + (unacked[k] + queue)
  {
    Shrinks(unacked, MaxKey(unacked));
  }

  lemma InOrderNone()
    ensures InOrder(map[]) == []
  {
  }

  // ----- receive side -----

  datatype Inbox = Inbox(inReliable: nat, unread: map<nat, InBunch>, received: seq<Delivery>)

  function Deliveries(data: seq<byte>, messages: seq<Message>): seq<Delivery>
    requires forall m | m in messages :: m.from <= m.to <= |data|
  {
    seq(|messages|, i requires 0 <= i < |messages| => Delivery(messages[i].id, data[messages[i].from..messages[i].to]))
  }

  lemma {:induction false} FramesInside(data: seq<byte>, at: nat, count: nat)
    ensures forall m | m in Frames(data, at, count).0 :: m.from <= m.to <= |data|
    decreases count
  {
    if count > 0 && Readable(data, at) {
      FramesInside(data, MessageAt(data, at).to, count - 1);
    }
  }

  /** What dispatching a bunch hands out: its whole frames up to the first broken one. */
  function MessagesOf(b: InBunch): seq<Delivery> {
    FramesInside(b.data, 0, b.messageCount);
    Deliveries(b.data, Frames(b.data, 0, b.messageCount).0)
  }

  predicate Whole(b: InBunch) {
    Frames(b.data, 0, b.messageCount).1
  }

  /** Step 1: the bunch in turn; only a whole one advances InReliable. */
  function DispatchOne(box: Inbox, b: InBunch): Inbox {
    box.(received := box.received + MessagesOf(b),
         inReliable := if Whole(b) then box.inReliable + 1 else box.inReliable)
  }

  /** Step 2: buffered bunches while the lowest buffered sequence is the next one. */
  function Drain(box: Inbox): Inbox
    decreases |box.unread|
  {
    if box.unread != map[] && MinKey(box.unread) == box.inReliable + 1 then
      var k := MinKey(box.unread);
      var b := box.unread[k];
      Shrinks(box.unread, k);
      var next := DispatchOne(box.(unread := box.unread - {k}), b);
      if Whole(b) then Drain(next) else next
    else box
  }

  function Dispatch(box: Inbox, b: InBunch, reliable: bool): Inbox {
    if reliable then Drain(DispatchOne(box, b)) else DispatchOne(box, b)
  }

  function AddUnread(box: Inbox, sequence: nat, b: InBunch): Inbox {
    if sequence in box.unread then box else box.(unread := box.unread[sequence := b])
  }

  class NetChannel {
    const bReliable: bool
    var InReliable: nat
    var Received: seq<Delivery>
    var InUnreadBunchMap: map<nat, InBunch>
    const Builder: ChannelBunchBuilder
    var OutBunchQueue: seq<OutBunch>
    var OutUnAckedBunches: map<nat, seq<OutBunch>>
    var ConnectionClosed: bool

    function In(): Inbox
      reads this
    {
      Inbox(InReliable, InUnreadBunchMap, Received)
    }

    function Out(): Outbox
      reads this
    {
      Outbox(OutBunchQueue, OutUnAckedBunches)
    }

    constructor (reliable: bool, inReliable: nat, outReliable: uint32)
      ensures bReliable == reliable && In() == Inbox(inReliable, map[], []) && Out() == Outbox([], map[])
      ensures !ConnectionClosed && fresh(Builder) && Builder.Valid() && Builder.QueuedMessage == []
      ensures Builder.Now() == Building([], outReliable, [])
    {
      bReliable, InReliable, Received, InUnreadBunchMap := reliable, inReliable, [], map[];
      Builder := new ChannelBunchBuilder(outReliable);
      OutBunchQueue, OutUnAckedBunches, ConnectionClosed := [], map[], false;
    }

    /** Refused, closing the connection, when RELIABLE_BUFFER packets wait already. */
    method AddUnAckedOutBunch(packetId: nat, bunch: OutBunch) returns (ok: bool)
      modifies this`OutUnAckedBunches, this`ConnectionClosed
      ensures ok == (old(|OutUnAckedBunches|) < 512)
      ensures Out() == if ok then old(Out()).AddUnAcked(packetId, bunch) else old(Out())
      ensures ConnectionClosed == (old(ConnectionClosed) || !ok)
      ensures old(|OutUnAckedBunches|) <= RELIABLE_BUFFER ==> |OutUnAckedBunches| <= RELIABLE_BUFFER
    {
      if |OutUnAckedBunches| >= RELIABLE_BUFFER {
        ConnectionClosed := true;
        return false;
      }
      AddedSize(OutUnAckedBunches, packetId, []);
      var bunches := if packetId in OutUnAckedBunches then OutUnAckedBunches[packetId] else [];
      AddedSize(OutUnAckedBunches, packetId, bunches + [bunch]);
      OutUnAckedBunches := OutUnAckedBunches[packetId := bunches + [bunch]];
      ok := true;
    }

    method Acked(packetId: nat)
      modifies this`OutUnAckedBunches
      ensures Out() == old(Out()).Acked(packetId)
    {
      OutUnAckedBunches := OutUnAckedBunches - {packetId};
    }

    method Nacked(packetId: nat)
      modifies this`OutUnAckedBunches, this`OutBunchQueue
      ensures Out() == old(Out()).Nacked(packetId)
    {
      var resend := if packetId in OutUnAckedBunches then OutUnAckedBunches[packetId] else [];
      PushAllFront(resend);
      OutUnAckedBunches := OutUnAckedBunches - {packetId};
    }

    /** Pushes bunches to the front of the queue, the last one first, so that they end up in
        their own order. */
    method PushAllFront(bunches: seq<OutBunch>)
      modifies this`OutBunchQueue
      ensures OutBunchQueue == bunches + old(OutBunchQueue)
    {
      var i := |bunches|;
      while i > 0
        invariant 0 <= i <= |bunches|
        invariant OutBunchQueue == bunches[i..] + old(OutBunchQueue)
      {
        i := i - 1;
        OutBunchQueue := [bunches[i]] + OutBunchQueue;
      }
    }

    method ForceRetransmitAllUnAcked()
      modifies this`OutUnAckedBunches, this`OutBunchQueue
      ensures Out() == old(Out()).ForceRetransmit()
    {
      hide InOrder;
      if OutUnAckedBunches == map[] {
        InOrderNone();
        assert [] + OutBunchQueue == OutBunchQueue;
        return;
      }
      PushPacketsFront(OutUnAckedBunches);
      OutUnAckedBunches := map[];
    }

    /** From the highest packet id down, so that the lowest ends up in front. */
    method PushPacketsFront(unacked: map<nat, seq<OutBunch>>)
      modifies this`OutBunchQueue
      ensures OutBunchQueue == InOrder(unacked) + old(OutBunchQueue)
    {
      hide InOrder;
      var rest := unacked;
      ghost var all := InOrder(unacked) + OutBunchQueue;
      while rest != map[]
        invariant InOrder(rest) + OutBunchQueue == all
        decreases |rest|
      {
        var k := MaxKey(rest);
        InOrderLast(rest, OutBunchQueue);
        PushAllFront(rest[k]);
        rest := rest - {k};
      }
      InOrderNone();
      assert [] + OutBunchQueue == OutBunchQueue;
    }

    method DequeueReadyBunch() returns (bunch: seq<OutBunch>)
      modifies this`OutBunchQueue
      ensures bunch + OutBunchQueue == old(OutBunchQueue)
      ensures |bunch| == if old(OutBunchQueue) == [] then 0 else 1
    {
      bunch := [];
      if OutBunchQueue != [] {
        bunch := OutBunchQueue[..1];
        OutBunchQueue := OutBunchQueue[1..];
      }
    }

    method RegisterMessage(m: seq<byte>)
      modifies Builder`QueuedMessage
      ensures Builder.QueuedMessage == old(Builder.QueuedMessage) + [m]
    {
      Builder.Submit(m);
    }

    /** Up to 256 messages are pumped to the last one, and every bunch sealed moves to the
        end of the queue. */
    method TickFlush(due: bool)
      requires Builder.Valid()
      modifies this`OutBunchQueue, Builder
      ensures Builder.Valid()
      ensures var n := Min(256, |old(Builder.QueuedMessage)|);
              var g := Pumped(old(Builder.Now()), old(Builder.QueuedMessage)[..n]);
              && OutBunchQueue == old(OutBunchQueue) + g.ready
              && Builder.Now() == g.(ready := []) && Builder.QueuedMessage == old(Builder.QueuedMessage)[n..]
    {
      hide Pumped, PumpAll;
      Builder.Pump(256, true, due);
      ghost var sealed, messages := Builder.QueuedOutBunch, Builder.QueuedMessage;
      ghost var active, sequence := Builder.ActiveMsgs, Builder.OutReliable;
      var ready := Builder.TryDequeueReady();
      while ready != []
        invariant OutBunchQueue + ready + Builder.QueuedOutBunch == old(OutBunchQueue) + sealed
        invariant ready == [] ==> Builder.QueuedOutBunch == []
        invariant Builder.Valid() && Builder.QueuedMessage == messages
        invariant Builder.ActiveMsgs == active && Builder.OutReliable == sequence
        decreases |ready| + |Builder.QueuedOutBunch|
      {
        OutBunchQueue := OutBunchQueue + ready;
        ready := Builder.TryDequeueReady();
      }
    }

    method AddUnreadInCopyBunch(chSequence: nat, copyBunch: InBunch)
      modifies this`InUnreadBunchMap
      ensures In() == AddUnread(old(In()), chSequence, copyBunch)
    {
      if chSequence !in InUnreadBunchMap {
        InUnreadBunchMap := InUnreadBunchMap[chSequence := copyBunch];
      }
    }

    method DispatchRawBunch(b: InBunch)
      modifies this`InReliable, this`Received, this`InUnreadBunchMap
      ensures In() == Dispatch(old(In()), b, bReliable)
      ensures !bReliable ==>
                && Received == old(Received) + MessagesOf(b) && InUnreadBunchMap == old(InUnreadBunchMap)
                && InReliable == old(InReliable) + (if Whole(b) then 1 else 0)
    {
      var ok := DispatchInternal(b);
      if ok {
        InReliable := InReliable + 1;
      }
      while bReliable && InUnreadBunchMap != map[] && MinKey(InUnreadBunchMap) == InReliable + 1
        invariant bReliable ==> Drain(In()) == Dispatch(old(In()), b, bReliable)
        invariant !bReliable ==> In() == Dispatch(old(In()), b, bReliable)
        decreases |InUnreadBunchMap|
      {
        var k := MinKey(InUnreadBunchMap);
        var buffered := InUnreadBunchMap[k];
        Shrinks(InUnreadBunchMap, k);
        ok := DispatchInternal(buffered);
        if ok {
          InReliable := InReliable + 1;
          InUnreadBunchMap := InUnreadBunchMap - {k};
        } else {
          InUnreadBunchMap := InUnreadBunchMap - {k};
          return;
        }
      }
    }

    /** ReceivedMessage is called for each frame as soon as it is read. */
    method DispatchInternal(b: InBunch) returns (ok: bool)
      modifies this`Received
      ensures Received == old(Received) + MessagesOf(b) && ok == Whole(b)
    {
      var reader := new BufferReader(b.data);
      var messages;
      messages, ok := Parse(reader, b.messageCount);
      FramesInside(b.data, 0, b.messageCount);
      Received := Received + Deliveries(b.data, messages);
    }
  }

  lemma AddedSize<V>(m: map<nat, V>, k: nat, v: V)
    ensures |m[k := v]| <= |m| + 1
  {
    assert m[k := v].Keys == m.Keys + {k};
  }
}
