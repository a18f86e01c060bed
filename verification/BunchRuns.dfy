/** From the messages a channel is given to what its peer receives: which pumped bunches
    travel, and what becomes of the channel when one does not. */
module BunchRuns {
  import opened BufferReader
  import opened BunchBuilder
  import opened MathUtility
  import opened NetChannel
  import opened OrderedMap
  import opened PacketAssembly
  import opened ReceiveRuns

  /** Not thrown away by the assembly, and no larger than a packet next to its header. */
  predicate Travels(b: OutBunch) {
    Sendable(b) && FitsPacket(b)
  }

  ghost predicate AllTravel(bunches: seq<OutBunch>) {
    forall i | 0 <= i < |bunches| :: Travels(bunches[i])
  }

  /** A bunch as the peer gets it. */
  function InBunchOf(b: OutBunch): InBunch {
    InBunch(BytesOf(b.messages), |b.messages|)
  }

  function ArrivalOf(b: OutBunch): Arrival {
    Arrival(b.sequence, InBunchOf(b))
  }

  /** The bunches that travel, in the order in which they were sealed. */
  function Travelling(bunches: seq<OutBunch>): seq<Arrival> {
    if bunches == [] then []
    else
      var n := |bunches| - 1;
      Travelling(bunches[..n]) + (if Travels(bunches[n]) then [ArrivalOf(bunches[n])] else [])
  }

  // ----- messages that are frames -----

  predicate IsFrame(m: seq<byte>) {
    HEADER <= |m| <= 0xFFFF && Uint16At(m, 0) == |m|
  }

  ghost predicate AllFrames(messages: seq<seq<byte>>) {
    forall i | 0 <= i < |messages| :: IsFrame(messages[i])
  }

  function FrameOf(m: seq<byte>): Frame
    requires IsFrame(m)
  {
    Frame(Uint16At(m, 2), m[HEADER..])
  }

  function DeliveryOf(m: seq<byte>): Delivery
    requires IsFrame(m)
  {
    Delivery(Uint16At(m, 2), m[HEADER..])
  }

  ghost function DeliveriesOf(messages: seq<seq<byte>>): (r: seq<Delivery>)
    requires AllFrames(messages)
    ensures |r| == |messages|
  {
    seq(|messages|, i requires 0 <= i < |messages| => DeliveryOf(messages[i]))
  }

  ghost function FramesOf(messages: seq<seq<byte>>): (r: seq<Frame>)
    requires AllFrames(messages)
    ensures |r| == |messages|
  {
    seq(|messages|, i requires 0 <= i < |messages| => FrameOf(messages[i]))
  }

  lemma LittleEndianIs(x: uint16)
    ensures |LittleEndian(x)| == 2 && Uint16At(LittleEndian(x), 0) == x
  {
  }

  lemma LittleEndianBack(m: seq<byte>, at: nat)
    requires at + 2 <= |m|
    ensures LittleEndian(Uint16At(m, at)) == m[at..at + 2]
  {
    assert m[at] % 0x100 == m[at];
  }

  lemma FrameDecoded(m: seq<byte>)
    requires IsFrame(m)
    ensures Fits(FrameOf(m)) && EncodeFrame(FrameOf(m)) == m
  {
    var f := FrameOf(m);
    FitsWhole(f);
    LittleEndianBack(m, 0);
    LittleEndianBack(m, 2);
    assert m == m[0..2] + m[2..4] + m[4..];
  }

  lemma FrameEncoded(f: Frame)
    requires Fits(f)
    ensures IsFrame(EncodeFrame(f)) && FrameOf(EncodeFrame(f)) == f && |EncodeFrame(f)| == HEADER + |f.payload|
  {
    FitsWhole(f);
    LittleEndianIs(TotalSize(f));
    LittleEndianIs(f.id);
    hide LittleEndian, EncodeFrame;
    var code := WholeFrame(f);
    assert code[0..2] == LittleEndian(TotalSize(f)) && code[2..4] == LittleEndian(f.id);
    assert forall j | 0 <= j < 2 :: code[j] == LittleEndian(TotalSize(f))[j] && code[2 + j] == LittleEndian(f.id)[j];
  }

  lemma {:induction false} EncodesMessages(messages: seq<seq<byte>>)
    requires AllFrames(messages)
    ensures EncodeFrames(FramesOf(messages)) == BytesOf(messages)
    decreases |messages|
  {
    hide EncodeFrame, IsFrame;
    if messages != [] {
      var n := |messages| - 1;
      EncodesMessages(messages[..n]);
      FrameDecoded(messages[n]);
      assert FramesOf(messages) == FramesOf(messages[..n]) + [FrameOf(messages[n])];
      EncodeNext(FramesOf(messages[..n]), FrameOf(messages[n]));
    }
  }

  lemma {:induction false} EncodeNext(frames: seq<Frame>, f: Frame)
    ensures EncodeFrames(frames + [f]) == EncodeFrames(frames) + EncodeFrame(f)
    decreases |frames|
  {
    hide EncodeFrame;
    if frames == [] {
      assert [f][1..] == [];
    } else {
      EncodeNext(frames[1..], f);
      assert (frames + [f])[1..] == frames[1..] + [f];
    }
  }

  /** A bunch of frames is whole and hands out each of them. */
  lemma FramesDelivered(b: OutBunch)
    requires AllFrames(b.messages)
    ensures Whole(InBunchOf(b)) && MessagesOf(InBunchOf(b)) == DeliveriesOf(b.messages)
  {
    hide IsFrame, EncodeFrames, Frames, Laid;
    var frames := FramesOf(b.messages);
    forall i | 0 <= i < |frames|
      ensures Fits(frames[i])
    {
      FrameDecoded(b.messages[i]);
    }
    EncodesMessages(b.messages);
    var data := EncodeFrames(frames);
    assert [] + data + [] == data;
    FramingRoundTrip([], frames, []);
    LaidAll([], frames);
    assert DeliversAll(data, Laid(frames, 0), frames);
    FramesInside(data, 0, |frames|);
  }

  // ----- a pumped list, received -----

  lemma {:induction false} ArriveNext(box: Inbox, arrivals: seq<Arrival>, a: Arrival)
    ensures Arrive(box, arrivals + [a]) == Receive(Arrive(box, arrivals), a.wire, a.bunch)
    decreases |arrivals|
  {
    hide Receive;
    if arrivals == [] {
      assert [a][1..] == [];
    } else {
      ArriveNext(Receive(box, arrivals[0].wire, arrivals[0].bunch), arrivals[1..], a);
      assert (arrivals + [a])[1..] == arrivals[1..] + [a];
    }
  }

  lemma ReceiveInTurn(box: Inbox, b: OutBunch)
    requires AllFrames(b.messages) && box.unread == map[]
    requires b.sequence == box.inReliable + 1 < WORD
    ensures Receive(box, b.sequence, InBunchOf(b))
         == Inbox(b.sequence, map[], box.received + DeliveriesOf(b.messages))
  {
    hide RelativeSequence, Whole, MessagesOf, IsFrame;
    ExactInWindow(b.sequence, box.inReliable);
    FramesDelivered(b);
    NothingBuffered(DispatchOne(box, InBunchOf(b)));
  }

  /** Bunches of frames that all travel arrive as they were sealed. */
  lemma {:induction false} TravelledWhole(first: uint32, bunches: seq<OutBunch>)
    requires InSequence(bunches, first) && first + |bunches| < WORD && AllTravel(bunches)
    requires AllFrames(MessagesIn(bunches))
    ensures Arrive(Inbox(first, map[], []), Travelling(bunches))
         == Inbox(first + |bunches|, map[], DeliveriesOf(MessagesIn(bunches)))
    decreases |bunches|
  {
    hide Receive, Travels, IsFrame, DeliveryOf;
    if bunches != [] {
      var n := |bunches| - 1;
      var b, front := bunches[n], bunches[..n];
      SplitFrames(MessagesIn(front), b.messages);
      TravelledWhole(first, front);
      ArriveNext(Inbox(first, map[], []), Travelling(front), ArrivalOf(b));
      assert b.sequence == first + 1 + n;
      ReceiveInTurn(Arrive(Inbox(first, map[], []), Travelling(front)), b);
    }
  }

  lemma SplitFrames(front: seq<seq<byte>>, last: seq<seq<byte>>)
    requires AllFrames(front + last)
    ensures AllFrames(front) && AllFrames(last)
    ensures DeliveriesOf(front + last) == DeliveriesOf(front) + DeliveriesOf(last)
  {
    hide IsFrame, DeliveryOf;
    assert forall i | 0 <= i < |front| :: front[i] == (front + last)[i];
    assert forall i | 0 <= i < |last| :: last[i] == (front + last)[|front| + i];
  }

  // ----- how much can be received -----

  /** The messages announced by the bunches in a reorder buffer. */
  ghost function Buffered(unread: map<nat, InBunch>): nat
    decreases |unread|
  {
    if unread == map[] then 0
    else
      var k := MinKey(unread);
      Shrinks(unread, k);
      unread[k].messageCount + Buffered(unread - {k})
  }

  ghost function Announced(arrivals: seq<Arrival>): nat {
    if arrivals == [] then 0
    else Announced(arrivals[..|arrivals| - 1]) + arrivals[|arrivals| - 1].bunch.messageCount
  }

  lemma {:induction false} BufferedRemove(unread: map<nat, InBunch>, k: nat)
    requires k in unread
    ensures Buffered(unread) == unread[k].messageCount + Buffered(unread - {k})
    decreases |unread|
  {
    var x := MinKey(unread);
    Shrinks(unread, x);
    if k != x {
      var rest := unread - {k};
      assert rest[x] == unread[x] && x in rest;
      assert MinKey(rest) == x;
      assert rest - {x} == (unread - {x}) - {k};
      BufferedRemove(unread - {x}, k);
    }
  }

  lemma BufferedPut(unread: map<nat, InBunch>, k: nat, b: InBunch)
    requires k !in unread
    ensures Buffered(unread[k := b]) == Buffered(unread) + b.messageCount
  {
    BufferedRemove(unread[k := b], k);
    assert unread[k := b] - {k} == unread;
  }

  lemma HandsOutAtMost(b: InBunch)
    ensures |MessagesOf(b)| <= b.messageCount
  {
    FramesRun(b.data, 0, b.messageCount);
  }

  lemma {:induction false} DrainAtMost(box: Inbox)
    ensures |Drain(box).received| + Buffered(Drain(box).unread) <= |box.received| + Buffered(box.unread)
    decreases |box.unread|
  {
    hide Whole, MessagesOf;
    if box.unread != map[] && MinKey(box.unread) == box.inReliable + 1 {
      var k := MinKey(box.unread);
      Shrinks(box.unread, k);
      HandsOutAtMost(box.unread[k]);
      if Whole(box.unread[k]) {
        DrainAtMost(DispatchOne(box.(unread := box.unread - {k}), box.unread[k]));
      }
    }
  }

  lemma ReceivesAtMost(box: Inbox, wire: nat, b: InBunch)
    ensures var z := Receive(box, wire, b);
            |z.received| + Buffered(z.unread) <= |box.received| + Buffered(box.unread) + b.messageCount
  {
    hide Whole, MessagesOf, RelativeSequence, Drain, Buffered;
    var s := RelativeSequence(wire, box.inReliable);
    if s == box.inReliable + 1 {
      HandsOutAtMost(b);
      DrainAtMost(DispatchOne(box, b));
    } else if s !in box.unread {
      BufferedPut(box.unread, s, b);
    }
  }

  /** Over any arrivals, no more is received than the bunches announce. */
  lemma {:induction false} ArrivesAtMost(box: Inbox, arrivals: seq<Arrival>)
    ensures var z := Arrive(box, arrivals);
            |z.received| + Buffered(z.unread) <= |box.received| + Buffered(box.unread) + Announced(arrivals)
    decreases |arrivals|
  {
    hide Receive, Buffered;
    if arrivals != [] {
      var n := |arrivals| - 1;
      ArrivesAtMost(box, arrivals[..n]);
      ArriveNext(box, arrivals[..n], arrivals[n]);
      assert arrivals[..n] + [arrivals[n]] == arrivals;
      ReceivesAtMost(Arrive(box, arrivals[..n]), arrivals[n].wire, arrivals[n].bunch);
    }
  }

  /** All that is received and buffered comes in bunches of at most n bytes. */
  ghost predicate Below(box: Inbox, n: nat) {
    && (forall i | 0 <= i < |box.received| :: |box.received[i].payload| <= n)
    && (forall k | k in box.unread :: |box.unread[k].data| <= n)
  }

  lemma HandsOutBelow(b: InBunch, n: nat)
    requires |b.data| <= n
    ensures forall i | 0 <= i < |MessagesOf(b)| :: |MessagesOf(b)[i].payload| <= n
  {
    FramesInside(b.data, 0, b.messageCount);
    var messages := Frames(b.data, 0, b.messageCount).0;
    assert forall i | 0 <= i < |messages| :: messages[i] in messages;
  }

  lemma {:induction false} DrainBelow(box: Inbox, n: nat)
    requires Below(box, n)
    ensures Below(Drain(box), n)
    decreases |box.unread|
  {
    hide Whole, MessagesOf;
    if box.unread != map[] && MinKey(box.unread) == box.inReliable + 1 {
      var k := MinKey(box.unread);
      Shrinks(box.unread, k);
      HandsOutBelow(box.unread[k], n);
      if Whole(box.unread[k]) {
        DrainBelow(DispatchOne(box.(unread := box.unread - {k}), box.unread[k]), n);
      }
    }
  }

  lemma {:induction false} ArrivesBelow(box: Inbox, arrivals: seq<Arrival>, n: nat)
    requires Below(box, n) && forall i | 0 <= i < |arrivals| :: |arrivals[i].bunch.data| <= n
    ensures Below(Arrive(box, arrivals), n)
    decreases |arrivals|
  {
    hide Whole, MessagesOf, RelativeSequence, Drain;
    if arrivals != [] {
      var a := arrivals[0];
      if RelativeSequence(a.wire, box.inReliable) == box.inReliable + 1 {
        HandsOutBelow(a.bunch, n);
        DrainBelow(DispatchOne(box, a.bunch), n);
      }
      ArrivesBelow(Receive(box, a.wire, a.bunch), arrivals[1..], n);
    }
  }

  // ----- when a pumped list arrives -----

  ghost function Encoded(frames: seq<Frame>): (messages: seq<seq<byte>>)
    ensures |messages| == |frames|
  {
    seq(|frames|, i requires 0 <= i < |frames| => EncodeFrame(frames[i]))
  }

  /** What the peer is to receive. */
  ghost function Expected(frames: seq<Frame>): (r: seq<Delivery>)
    ensures |r| == |frames|
  {
    seq(|frames|, i requires 0 <= i < |frames| => Delivery(frames[i].id, frames[i].payload))
  }

  /** The bunches that a fresh builder makes of a list. */
  ghost function Bunches(first: uint32, messages: seq<seq<byte>>): seq<OutBunch> {
    Pumped(Building([], first, []), messages).ready
  }

  lemma BunchesAre(first: uint32, messages: seq<seq<byte>>)
    ensures forall i | 0 <= i < |Bunches(first, messages)| :: Built(Bunches(first, messages)[i])
    ensures InSequence(Bunches(first, messages), first)
    ensures MessagesIn(Bunches(first, messages)) == Insertable(messages)
    ensures AllInsertable(messages) ==> NonEmpty(Bunches(first, messages))
  {
    hide Pumped, PumpAll, Insertable, BytesOf, AllInsertable;
    var g := Building([], first, []);
    NothingGathered();
    PumpKeeps(g, messages, first);
    PumpGathers(g, messages, first);
    assert Gathered(g) == [] && [] + Insertable(messages) == Insertable(messages);
    if AllInsertable(messages) {
      PumpNonEmpty(g, messages);
    }
  }

  lemma AnnouncedNext(arrivals: seq<Arrival>, a: Arrival)
    ensures Announced(arrivals + [a]) == Announced(arrivals) + a.bunch.messageCount
  {
    assert (arrivals + [a])[..|arrivals|] == arrivals;
  }

  /** No more messages travel than there are, and all of them only if all bunches do. */
  lemma {:induction false} TravellingAnnounces(bunches: seq<OutBunch>)
    ensures Announced(Travelling(bunches)) <= |MessagesIn(bunches)|
    ensures Announced(Travelling(bunches)) == |MessagesIn(bunches)| && NonEmpty(bunches) ==> AllTravel(bunches)
    decreases |bunches|
  {
    hide Travels;
    if bunches != [] {
      var n := |bunches| - 1;
      TravellingAnnounces(bunches[..n]);
      AnnouncedNext(Travelling(bunches[..n]), ArrivalOf(bunches[n]));
      assert Travelling(bunches[..n]) + [] == Travelling(bunches[..n]);
    }
  }

  lemma {:induction false} TravellingBelow(bunches: seq<OutBunch>, n: nat)
    requires forall i | 0 <= i < |bunches| :: Payload(bunches[i].messages) <= n
    ensures forall i | 0 <= i < |Travelling(bunches)| :: |Travelling(bunches)[i].bunch.data| <= n
    decreases |bunches|
  {
    hide Travels, BytesOf;
    if bunches != [] {
      TravellingBelow(bunches[..|bunches| - 1], n);
    }
  }

  ghost predicate AllShort(frames: seq<Frame>) {
    forall i | 0 <= i < |frames| :: |frames[i].payload| <= MAX_BUNCH_PAYLOAD - HEADER
  }

  lemma ShortIs(frames: seq<Frame>)
    requires AllShort(frames)
    ensures AllInsertable(Encoded(frames)) && AllFrames(Encoded(frames))
    ensures DeliveriesOf(Encoded(frames)) == Expected(frames)
  {
    hide EncodeFrame, IsFrame;
    forall i | 0 <= i < |frames|
      ensures IsFrame(Encoded(frames)[i]) && DeliveryOf(Encoded(frames)[i]) == Expected(frames)[i]
      ensures |Encoded(frames)[i]| <= MAX_BUNCH_PAYLOAD
    {
      FrameEncoded(frames[i]);
    }
  }

  /** What one tick after the other pumps of a list: 256 messages, as long as there are. */
  function Ticks<T>(list: seq<T>): seq<seq<T>>
    decreases |list|
  {
    if |list| <= 256 then [list] else [list[..256]] + Ticks(list[256..])
  }

  lemma {:induction false} TicksAreAll<T>(list: seq<T>)
    ensures Flat(Ticks(list)) == list
    decreases |list|
  {
    if |list| <= 256 {
      assert [list][1..] == [] && list + [] == list;
    } else {
      TicksAreAll(list[256..]);
      assert ([list[..256]] + Ticks(list[256..]))[1..] == Ticks(list[256..]);
      assert list[..256] + list[256..] == list;
    }
  }

  /** The bunches that those ticks make of a list, from a builder with nothing active. */
  ghost function TickBunches(first: uint32, messages: seq<seq<byte>>): seq<OutBunch> {
    Ticked(Building([], first, []), Ticks(messages)).ready
  }

  lemma TickBunchesAre(first: uint32, messages: seq<seq<byte>>)
    ensures forall i | 0 <= i < |TickBunches(first, messages)| :: Built(TickBunches(first, messages)[i])
    ensures InSequence(TickBunches(first, messages), first)
    ensures MessagesIn(TickBunches(first, messages)) == Insertable(messages)
    ensures AllInsertable(messages) ==> NonEmpty(TickBunches(first, messages))
    ensures |messages| <= 256 ==> TickBunches(first, messages) == Bunches(first, messages)
  {
    hide Pumped, Insertable, BytesOf, AllInsertable;
    var g := Building([], first, []);
    NothingGathered();
    TicksAreAll(messages);
    TickedKeeps(g, Ticks(messages), first);
    assert [] + Insertable(messages) == Insertable(messages);
    if |messages| <= 256 {
      assert Ticks(messages)[1..] == [];
      assert Ticked(g, Ticks(messages)) == Ticked(Pumped(g, messages), []);
    }
  }

  /** A list of messages that a channel pumps, tick by tick, is received as it was sent, its
      bunches arriving in order and once, exactly when no payload is above 1172 bytes and
      every bunch sealed travels, that is, holds 1 to 1004 bytes. */
  lemma PumpedArrivesIff(first: uint32, frames: seq<Frame>)
    requires Serializable(frames) && first + |TickBunches(first, Encoded(frames))| < WORD
    ensures var ready := TickBunches(first, Encoded(frames));
            Arrive(Inbox(first, map[], []), Travelling(ready)).received == Expected(frames)
            <==> AllTravel(ready) && AllShort(frames)
  {
    hide TickBunches, Travelling, Arrive, AllTravel, MessagesIn, IsFrame, DeliveryOf, BytesOf, Insertable;
    var messages, start := Encoded(frames), Inbox(first, map[], []);
    var ready := TickBunches(first, messages);
    var z := Arrive(start, Travelling(ready));
    TickBunchesAre(first, messages);
    InsertableIs(messages);
    if AllTravel(ready) && AllShort(frames) {
      ShortIs(frames);
      TravelledWhole(first, ready);
    }
    if z.received == Expected(frames) {
      ArrivesAtMost(start, Travelling(ready));
      TravellingAnnounces(ready);
      TravellingBelow(ready, MAX_BUNCH_PAYLOAD);
      ArrivesBelow(start, Travelling(ready), MAX_BUNCH_PAYLOAD);
      assert Buffered(map[]) == 0;
      forall i | 0 <= i < |frames|
        ensures |frames[i].payload| <= MAX_BUNCH_PAYLOAD - HEADER
      {
        assert z.received[i].payload == frames[i].payload && |messages[i]| == TotalSize(frames[i]);
      }
    }
  }

  // ----- when one does not -----

  /** The bunch that arrives is one that travels, less than 1024 away from bunch k. */
  ghost predicate Carried(bunches: seq<OutBunch>, a: Arrival, k: nat) {
    exists j :: 0 <= j < |bunches| && -MAX_CHSEQUENCE < j - k < MAX_CHSEQUENCE
                && Travels(bunches[j]) && a == ArrivalOf(bunches[j])
  }

  lemma DifferentRemainders(x: nat, y: nat)
    requires x != y && -MAX_CHSEQUENCE < x - y < MAX_CHSEQUENCE
    ensures x % MAX_CHSEQUENCE != y % MAX_CHSEQUENCE
  {
  }

  lemma CarriedAt(bunches: seq<OutBunch>, a: Arrival, k: nat) returns (j: nat)
    requires Carried(bunches, a, k)
    ensures j < |bunches| && -MAX_CHSEQUENCE < j - k < MAX_CHSEQUENCE
    ensures Travels(bunches[j]) && a == ArrivalOf(bunches[j])
  {
    hide Travels, ArrivalOf;
    j :| 0 <= j < |bunches| && -MAX_CHSEQUENCE < j - k < MAX_CHSEQUENCE
         && Travels(bunches[j]) && a == ArrivalOf(bunches[j]);
  }

  /** A bunch that does not travel has its sequence all the same: a channel that waits for it
      never gets past it, whatever else arrives, in any order and repeatedly, out of the 1024
      sequences around it. */
  lemma HeldByLostBunch(box: Inbox, first: uint32, bunches: seq<OutBunch>, k: nat, arrivals: seq<Arrival>)
    requires InSequence(bunches, first) && first + |bunches| < WORD
    requires k < |bunches| && !Travels(bunches[k])
    requires box.inReliable < bunches[k].sequence && bunches[k].sequence !in box.unread
    requires forall i | 0 <= i < |arrivals| :: Carried(bunches, arrivals[i], k)
    ensures Arrive(box, arrivals).inReliable < bunches[k].sequence
  {
    hide Travels, InBunchOf, Arrive, InSequence, Carried;
    var s := bunches[k].sequence;
    SequenceAt(bunches, first, k);
    forall i | 0 <= i < |arrivals|
      ensures arrivals[i].wire % MAX_CHSEQUENCE != s % MAX_CHSEQUENCE
    {
      var j := CarriedAt(bunches, arrivals[i], k);
      SequenceAt(bunches, first, j);
      DifferentRemainders(first + 1 + j, first + 1 + k);
    }
    HeldBehind(box, s, arrivals);
  }

  // ----- short lists of small messages -----

  ghost predicate AllSmall(messages: seq<seq<byte>>) {
    forall i | 0 <= i < |messages| :: 0 < |messages[i]| <= SMALL
  }

  /** The room that a packet leaves of a bunch's. */
  const SMALL := MAX_BUNCH_PAYLOAD - (PACKET_MAX_SIZE - PACKET_HEADER_SIZE - BUNCH_HEADER_SIZE)

  lemma TravelsIff(b: OutBunch)
    requires Built(b)
    ensures Travels(b) <==> 0 < Payload(b.messages) <= PACKET_MAX_SIZE - PACKET_HEADER_SIZE - BUNCH_HEADER_SIZE
  {
  }

  ghost predicate SomeStays(bunches: seq<OutBunch>) {
    exists i :: 0 <= i < |bunches| && !Travels(bunches[i])
  }

  /** As long as every message is small, a bunch that is sealed for the next one is too large
      for a packet. */
  lemma {:induction false} SmallPumped(g: Building, messages: seq<seq<byte>>, first: uint32)
    requires WellBuilt(g, first) && AllSmall(messages) && |g.active| + |messages| < MAX_MSGS_PER_BUNCH
    ensures var z := PumpAll(g, messages);
            if Payload(g.active) + |BytesOf(messages)| < MAX_BUNCH_PAYLOAD
            then z == g.(active := g.active + messages) else SomeStays(z.ready)
    decreases |messages|
  {
    hide WellBuilt, BytesOf, Travels, Built;
    if messages == [] {
      assert g.active + [] == g.active;
      NothingGathered();
      SomeRoom(g, first);
    } else {
      var m, rest := messages[0], messages[1..];
      BytesFront(messages);
      BytesNext(g.active, m);
      assert forall i | 0 <= i < |rest| :: rest[i] == messages[i + 1];
      PumpOneKeeps(g, m, first);
      var x := PumpOne(g, m);
      if Payload(g.active) + |m| < MAX_BUNCH_PAYLOAD {
        SmallPumped(x, rest, first);
        assert (g.active + [m]) + rest == g.active + messages;
      } else {
        SealedTooLarge(g, m, first);
        StaysThere(x, rest);
      }
    }
  }

  lemma SomeRoom(g: Building, first: uint32)
    requires WellBuilt(g, first)
    ensures Payload(g.active) < MAX_BUNCH_PAYLOAD
  {
  }

  lemma BytesLast(messages: seq<seq<byte>>)
    requires messages != []
    ensures BytesOf(messages) == BytesOf(messages[..|messages| - 1]) + messages[|messages| - 1]
  {
  }

  lemma {:induction false} BytesFront(messages: seq<seq<byte>>)
    requires messages != []
    ensures BytesOf(messages) == messages[0] + BytesOf(messages[1..])
    decreases |messages|
  {
    var n := |messages| - 1;
    if n == 0 {
      assert messages[..0] == [] && messages[1..] == [];
    } else {
      var front, rest := messages[..n], messages[1..];
      BytesFront(front);
      assert front[1..] == rest[..n - 1] && rest[n - 1] == messages[n] && |rest| == n;
      BytesLast(messages);
      BytesLast(rest);
    }
  }

  lemma SealedTooLarge(g: Building, m: seq<byte>, first: uint32)
    requires WellBuilt(g, first) && 0 < |m| <= SMALL && |g.active| + 1 < MAX_MSGS_PER_BUNCH
    requires Payload(g.active) + |m| >= MAX_BUNCH_PAYLOAD
    ensures SomeStays(PumpOne(g, m).ready)
  {
    hide BytesOf;
    BytesNext(g.active, m);
    BytesNext([], m);
    NothingGathered();
    var x, n := PumpOne(g, m), |g.ready|;
    assert !Travels(x.ready[n]);
  }

  lemma {:induction false} StaysThere(g: Building, messages: seq<seq<byte>>)
    requires SomeStays(g.ready)
    ensures SomeStays(PumpAll(g, messages).ready)
    decreases |messages|
  {
    hide Travels, BytesOf, CanInsert, IsFull;
    if messages != [] {
      var i :| 0 <= i < |g.ready| && !Travels(g.ready[i]);
      assert PumpOne(g, messages[0]).ready[i] == g.ready[i];
      StaysThere(PumpOne(g, messages[0]), messages[1..]);
    }
  }

  /** Fewer than 255 messages of at most 172 bytes, pumped together, all travel exactly when
      together they have at most 1004 bytes. */
  lemma SmallListTravelsIff(first: uint32, messages: seq<seq<byte>>)
    requires AllSmall(messages) && |messages| < MAX_MSGS_PER_BUNCH
    ensures AllTravel(Bunches(first, messages))
            <==> |BytesOf(messages)| <= PACKET_MAX_SIZE - PACKET_HEADER_SIZE - BUNCH_HEADER_SIZE
  {
    hide PumpAll, BytesOf;
    var g := Building([], first, []);
    NothingGathered();
    SmallPumped(g, messages, first);
    BunchesAre(first, messages);
    var z := PumpAll(g, messages);
    if |BytesOf(messages)| < MAX_BUNCH_PAYLOAD {
      assert [] + messages == messages;
      if messages != [] {
        BytesFront(messages);
        TravelsIff(Bunches(first, messages)[0]);
      }
    } else {
      var i :| 0 <= i < |z.ready| && !Travels(z.ready[i]);
      assert SealTail(z).ready[i] == z.ready[i];
    }
  }

  // ----- three inputs -----

  /** Twenty messages of 51 bytes make one bunch of 1110 bytes, which is thrown away. */
  lemma TwentyLost(first: uint32, frames: seq<Frame>)
    requires |frames| == 20 && forall i | 0 <= i < 20 :: |frames[i].payload| == 51
    ensures AllFit(frames)
    ensures exists b :: Bunches(first, Encoded(frames)) == [b] && b.totalSize == 1110 && !Sendable(b)
  {
    hide PumpAll, BytesOf;
    var messages, g := Encoded(frames), Building([], first, []);
    EqualSizes(messages, 55);
    NothingGathered();
    BunchesAre(first, []);
    assert WellBuilt(g, first);
    SmallPumped(g, messages, first);
    assert [] + messages == messages;
    assert Bunches(first, messages) == [Seal(PumpAll(g, messages)).ready[0]];
  }

  lemma {:induction false} EqualSizes(messages: seq<seq<byte>>, size: nat)
    requires forall i | 0 <= i < |messages| :: |messages[i]| == size
    ensures |BytesOf(messages)| == size * |messages|
    decreases |messages|
  {
    if messages != [] {
      EqualSizes(messages[..|messages| - 1], size);
    }
  }

  /** A message above 1176 bytes is dropped, and while nothing else is gathered a bunch without
      messages takes a sequence for it. */
  lemma LargeDropped(first: uint32, m: seq<byte>)
    requires |m| > MAX_BUNCH_PAYLOAD
    ensures var b := OutBunch((first + 1) % WORD, BUNCH_HEADER_SIZE, BUNCH_HEADER_SIZE, []);
            Bunches(first, [m]) == [b] && !Sendable(b)
  {
    NothingGathered();
    assert [m][1..] == [];
    var g := Building([], first, []);
    assert PumpAll(g, [m]) == PumpAll(PumpOne(g, m), []);
  }

  /** A payload of 65532 bytes wraps its frame's size to 0: its bunch has a message and no
      bytes, and is thrown away. */
  lemma LongestLost(first: uint32, f: Frame)
    requires |f.payload| == 65532
    ensures EncodeFrame(f) == []
    ensures exists b :: Bunches(first, Encoded([f])) == [b] && b.messages == [[]] && !Sendable(b)
  {
    NothingGathered();
    var g, messages: seq<seq<byte>> := Building([], first, []), [[]];
    assert Encoded([f]) == messages && messages[1..] == [];
    assert BytesOf(messages) == [] by {
      BytesNext([], []);
    }
    assert PumpAll(g, messages) == PumpAll(PumpOne(g, []), []);
    assert PumpOne(g, []) == Building(messages, first, []);
    assert Bunches(first, messages) == [OutBunch((first + 1) % WORD, BUNCH_HEADER_SIZE, BUNCH_HEADER_SIZE, messages)];
  }
}
