/** How far a channel's order holds whatever the network does: for 1023 bunches, and not for
    one more. */
module PrefixRuns {
  import opened AckRuns
  import opened BufferReader
  import opened BunchBuilder
  import opened BunchRuns
  import opened ChannelRuns
  import opened DeliveryRuns
  import opened MathUtility
  import opened NetChannel
  import opened OrderedMap
  import opened PacketAssembly
  import AckProtocol
  import PendingPackets
  import R = ReceiveRuns

  /** Sequences that MakeRelative keeps apart. */
  const LIMIT := R.MAX_CHSEQUENCE - 1

  /** Delivered is the concatenation up to InReliable, and what is buffered within 1024
      sequences of the start is what was sent under its sequence.  What has been mistaken for
      another sequence lies outside. */
  ghost predicate Safe(script: seq<OutBunch>, first: nat, n: nat, box: Inbox) {
    && first <= box.inReliable <= first + n
    && box.received == R.Concatenation(Scripted(script, first), first, box.inReliable)
    && forall k | k in box.unread && first < k <= first + R.MAX_CHSEQUENCE ::
         k <= first + n && box.unread[k] == Scripted(script, first)(k)
  }

  lemma SafeMore(script: seq<OutBunch>, first: nat, n: nat, m: nat, box: Inbox)
    requires Safe(script, first, n, box) && n <= m
    ensures Safe(script, first, m, box)
  {
    hide R.Concatenation, Scripted;
  }

  lemma NextSafe(script: seq<OutBunch>, first: nat, n: nat, box: Inbox, b: InBunch)
    requires Playable(script, first) && Safe(script, first, n, box) && box.inReliable < first + n
    requires b == Scripted(script, first)(box.inReliable + 1)
    ensures Safe(script, first, n, DispatchOne(box, b)) && Whole(b)
  {
    ScriptWhole(script, first);
    hide Playable, Scripted, Whole, MessagesOf;
  }

  lemma {:induction false} DrainSafe(script: seq<OutBunch>, first: nat, n: nat, box: Inbox)
    requires Playable(script, first) && Safe(script, first, n, box) && n <= LIMIT
    ensures Safe(script, first, n, Drain(box))
    decreases |box.unread|
  {
    hide Playable, Scripted, Whole, MessagesOf, R.Concatenation;
    if box.unread != map[] && MinKey(box.unread) == box.inReliable + 1 {
      var k := MinKey(box.unread);
      Shrinks(box.unread, k);
      var rest := box.(unread := box.unread - {k});
      assert Safe(script, first, n, rest);
      NextSafe(script, first, n, rest, box.unread[k]);
      DrainSafe(script, first, n, DispatchOne(rest, box.unread[k]));
    }
  }

  lemma ReceiveSafe(script: seq<OutBunch>, first: nat, n: nat, box: Inbox, b: OutBunch)
    requires Playable(script, first) && Safe(script, first, n, box) && n <= LIMIT && n <= |script|
    requires OneOf(script, n, b)
    ensures Safe(script, first, n, R.Receive(box, b.sequence, InBunchOf(b)))
  {
    var s := b.sequence;
    var r := R.RelativeSequence(s, box.inReliable);
    AllOfMore(script, n, |script|, [b]);
    assert OneOf(script, |script|, [b][0]);
    ScriptedIs(script, first, b);
    HandedSequence(script, first, n, b);
    Below32(script, first);
    R.RelativeRemainder(s, box.inReliable);
    if first < r <= first + R.MAX_CHSEQUENCE && r != s {
      DifferentRemainders(r, s);
    }
    hide Playable, Scripted, Whole, MessagesOf, R.Concatenation, InBunchOf, R.RelativeSequence, Drain, OneOf;
    if r == box.inReliable + 1 {
      NextSafe(script, first, n, box, InBunchOf(b));
      DrainSafe(script, first, n, DispatchOne(box, InBunchOf(b)));
    }
  }

  lemma {:induction false} ReceiveAllSafe(script: seq<OutBunch>, first: nat, n: nat, box: Inbox, bunches: seq<OutBunch>)
    requires Playable(script, first) && Safe(script, first, n, box) && n <= LIMIT && n <= |script|
    requires AllOf(script, n, bunches)
    ensures Safe(script, first, n, ReceiveAll(box, bunches))
    decreases |bunches|
  {
    hide Playable, Safe, R.Receive, InBunchOf, OneOf;
    if bunches != [] {
      var i := |bunches| - 1;
      ReceiveAllSafe(script, first, n, box, bunches[..i]);
      ReceiveSafe(script, first, n, ReceiveAll(box, bunches[..i]), bunches[i]);
    }
  }

  // ----- every run of up to 1023 bunches -----

  ghost predicate LaneSafe(script: seq<OutBunch>, first: nat, l: Lane) {
    NetOk(l) && BunchesOk(script, l) && Safe(script, first, l.handed, l.box)
  }

  lemma NetworkSafe(script: seq<OutBunch>, first: nat, l: Lane, act: AckRuns.Action)
    requires Playable(script, first) && LaneSafe(script, first, l) && |script| <= LIMIT && CanNet(l.net, act)
    ensures Safe(script, first, l.handed, Networked(l, act).box)
  {
    hide Playable, Safe, OutOf, NetOk, NetDo, CanNet, Notified, ReceiveAll, CarriedIn, BodiesOf, UnackedIs;
    if act.AtB? && act.e.Dispatch? {
      CarriedInOf(script, l.handed, l.bodies, l.net.b.pending);
      ReceiveAllSafe(script, first, l.handed, l.box, CarriedIn(l.bodies, l.net.b.pending));
    }
  }

  lemma DidSafe(script: seq<OutBunch>, first: nat, l: Lane, d: Deed)
    requires Playable(script, first) && LaneSafe(script, first, l) && |script| <= LIMIT && CanDeed(script, l, d)
    ensures LaneSafe(script, first, Did(script, l, d))
  {
    hide Playable, NetOk, BunchesOk, Networked, Safe;
    match d
    case Hand(n) =>
      HandBunchesOk(script, l, n);
      NetSame(l, Handed(script, l, n));
      SafeMore(script, first, l.handed, l.handed + n, l.box);
    case Assemble(n) =>
      AssembleBunchesOk(script, l, n);
      NetSame(l, Assembled(l, n));
    case Network(act) =>
      NetworkNetOk(l, act);
      NetworkBunchesOk(script, l, act);
      NetworkSafe(script, first, l, act);
      NetworkHanded(l, act);
  }

  lemma NetworkHanded(l: Lane, act: AckRuns.Action)
    requires CanNet(l.net, act)
    ensures Networked(l, act).handed == l.handed
  {
    hide NetDo, CanNet, Notified, ReceiveAll;
  }

  lemma {:induction false} RunSafe(script: seq<OutBunch>, first: nat, l: Lane, deeds: seq<Deed>)
    requires Playable(script, first) && LaneSafe(script, first, l) && |script| <= LIMIT
    requires LanePossible(script, l, deeds)
    ensures LaneSafe(script, first, LaneRun(script, l, deeds))
    decreases |deeds|
  {
    hide Playable, LaneSafe, Did, CanDeed;
    if deeds != [] {
      DidSafe(script, first, l, deeds[0]);
      RunSafe(script, first, Did(script, l, deeds[0]), deeds[1..]);
    }
  }

  lemma NewLaneSafe(script: seq<OutBunch>, first: nat)
    ensures LaneSafe(script, first, NewLane(first))
  {
    NewLaneOk(script, first);
    hide NetOk, BunchesOk, Scripted;
  }

  /** In every run of up to 1023 bunches, however late and often packets arrive, what b's
      channel has received are the messages of the bunches up to InReliable, each once and in
      order. */
  lemma PrefixUpTo1023(script: seq<OutBunch>, first: nat, deeds: seq<Deed>)
    requires Playable(script, first) && |script| <= LIMIT && LanePossible(script, NewLane(first), deeds)
    ensures var l := LaneRun(script, NewLane(first), deeds);
            && first <= l.box.inReliable <= first + l.handed && l.handed <= |script|
            && AllFrames(MessagesIn(script[..l.box.inReliable - first]))
            && l.box.received == DeliveriesOf(MessagesIn(script[..l.box.inReliable - first]))
  {
    hide LaneRun, LanePossible, Playable, NetOk, OutOf, BodiesOf, R.Concatenation, Scripted;
    NewLaneSafe(script, first);
    RunSafe(script, first, NewLane(first), deeds);
    var l := LaneRun(script, NewLane(first), deeds);
    ConcatenationIs(script, first, l.box.inReliable - first);
  }

  /** In particular for a list of messages that a channel pumps, tick by tick, into up to 1023
      bunches: b's channel has at all times received a prefix of that list. */
  lemma ListReceived(first: uint32, frames: seq<Frame>, deeds: seq<Deed>)
    requires AllShort(frames)
    requires |TickBunches(first, Encoded(frames))| <= LIMIT && first + |TickBunches(first, Encoded(frames))| < WORD
    requires LanePossible(TickBunches(first, Encoded(frames)), NewLane(first), deeds)
    ensures LaneRun(TickBunches(first, Encoded(frames)), NewLane(first), deeds).box.received <= Expected(frames)
  {
    hide TickBunches, LaneRun, LanePossible, AllShort, InSequence, MessagesIn, IsFrame, DeliveryOf;
    var script := TickBunches(first, Encoded(frames));
    TickBunchesAre(first, Encoded(frames));
    ShortIs(frames);
    InsertableIs(Encoded(frames));
    FramesIn(script);
    PrefixUpTo1023(script, first, deeds);
    var l := LaneRun(script, NewLane(first), deeds);
    PrefixOf(script, l.box.inReliable - first);
  }

  // ----- one bunch more -----

  /** Bunches that arrive in turn, while what is buffered lies behind them. */
  lemma {:induction false} InTurnAll(script: seq<OutBunch>, first: nat, box: Inbox, n: nat, m: nat)
    requires Playable(script, first) && n <= m <= |script| && box.inReliable == first + n
    requires forall k | k in box.unread :: k > first + m + 1
    ensures AllFrames(MessagesIn(script[n..m]))
    ensures ReceiveAll(box, script[n..m])
         == Inbox(first + m, box.unread, box.received + DeliveriesOf(MessagesIn(script[n..m])))
    decreases m
  {
    hide Playable, R.Receive, InBunchOf, DeliveryOf, IsFrame;
    FramesBetween(script, first, n, m);
    if n == m {
      assert script[n..m] == [];
      assert box.received + DeliveriesOf([]) == box.received;
    } else {
      var front, b := script[n..m - 1], script[m - 1];
      assert script[n..m] == front + [b] && (front + [b])[..|front|] == front;
      InTurnAll(script, first, box, n, m - 1);
      FramesBetween(script, first, n, m - 1);
      OneInTurn(script, first, ReceiveAll(box, front), m);
      SplitFrames(MessagesIn(front), b.messages);
      assert box.received + DeliveriesOf(MessagesIn(front)) + DeliveriesOf(b.messages)
          == box.received + (DeliveriesOf(MessagesIn(front)) + DeliveriesOf(b.messages));
    }
  }

  lemma {:induction false} FramesBetween(script: seq<OutBunch>, first: nat, n: nat, m: nat)
    requires Playable(script, first) && n <= m <= |script|
    ensures AllFrames(MessagesIn(script[n..m]))
    decreases m
  {
    hide IsFrame, InSequence;
    if n < m {
      FramesBetween(script, first, n, m - 1);
      assert script[n..m][..m - n - 1] == script[n..m - 1];
      JoinFrames(MessagesIn(script[n..m - 1]), script[m - 1].messages);
    }
  }

  /** The bunch in turn, before what is buffered. */
  lemma OneInTurn(script: seq<OutBunch>, first: nat, box: Inbox, m: nat)
    requires Playable(script, first) && 0 < m <= |script| && box.inReliable == first + m - 1
    requires forall k | k in box.unread :: k > first + m + 1
    ensures AllFrames(script[m - 1].messages)
    ensures R.Receive(box, script[m - 1].sequence, InBunchOf(script[m - 1]))
         == Inbox(first + m, box.unread, box.received + DeliveriesOf(script[m - 1].messages))
  {
    var b := script[m - 1];
    SequenceAt(script, first, m - 1);
    R.ExactInWindow(b.sequence, box.inReliable);
    FramesDelivered(b);
    hide Whole, MessagesOf, R.RelativeSequence, IsFrame, InSequence;
    assert Drain(DispatchOne(box, InBunchOf(b))) == DispatchOne(box, InBunchOf(b));
  }

  /** A repeat of the first bunch that arrives more than 512 bunches late is taken for the
      one 1024 later. */
  lemma TakenForLater(script: seq<OutBunch>, first: nat, box: Inbox)
    requires Playable(script, first) && |script| == R.MAX_CHSEQUENCE && first + 1025 < WORD
    requires first + 513 < box.inReliable <= first + 1023 && box.unread == map[]
    ensures R.Receive(box, script[0].sequence, InBunchOf(script[0]))
         == box.(unread := map[first + 1025 := InBunchOf(script[0])])
  {
    SequenceAt(script, first, 0);
    var d := first + 1 - box.inReliable + 512;
    assert d % 1024 == d + 1024;
    assert R.RelativeSequence(first + 1, box.inReliable) == first + 1025;
  }

  /** When bunch 1024 has arrived, it is delivered a second time. */
  lemma LastAndFirst(script: seq<OutBunch>, first: nat, box: Inbox)
    requires Playable(script, first) && |script| == R.MAX_CHSEQUENCE
    requires box.inReliable == first + 1023 && box.unread == map[first + 1025 := InBunchOf(script[0])]
    ensures AllFrames(script[0].messages) && AllFrames(script[1023].messages)
    ensures R.Receive(box, script[1023].sequence, InBunchOf(script[1023])).received
         == box.received + DeliveriesOf(script[1023].messages) + DeliveriesOf(script[0].messages)
  {
    var b, again := script[1023], InBunchOf(script[0]);
    SequenceAt(script, first, 1023);
    R.ExactInWindow(b.sequence, box.inReliable);
    FramesDelivered(b);
    FramesDelivered(script[0]);
    hide Whole, MessagesOf, R.RelativeSequence, IsFrame, InSequence, InBunchOf;
    var next := DispatchOne(box, InBunchOf(b));
    assert first + 1025 in next.unread && MinKey(next.unread) == next.inReliable + 1;
    assert next.unread - {first + 1025} == map[];
    var z := DispatchOne(next.(unread := map[]), again);
    assert Drain(z) == z;
    Shrinks(next.unread, first + 1025);
    assert Drain(next) == Drain(z);
  }

  // ----- the run -----

  ghost predicate LaneReaches(script: seq<OutBunch>, first: nat, z: Lane) {
    exists deeds :: LanePossible(script, NewLane(first), deeds) && LaneRun(script, NewLane(first), deeds) == z
  }

  lemma {:induction false} LaneRunOn(script: seq<OutBunch>, l: Lane, deeds: seq<Deed>, d: Deed)
    requires LanePossible(script, l, deeds) && CanDeed(script, LaneRun(script, l, deeds), d)
    ensures LanePossible(script, l, deeds + [d])
    ensures LaneRun(script, l, deeds + [d]) == Did(script, LaneRun(script, l, deeds), d)
    decreases |deeds|
  {
    hide Did, CanDeed;
    if deeds == [] {
      assert deeds + [d] == [d] && [d][1..] == [];
    } else {
      LaneRunOn(script, Did(script, l, deeds[0]), deeds[1..], d);
      assert (deeds + [d])[1..] == deeds[1..] + [d];
    }
  }

  lemma LaneNext(script: seq<OutBunch>, first: nat, l: Lane, d: Deed)
    requires LaneReaches(script, first, l) && CanDeed(script, l, d)
    ensures LaneReaches(script, first, Did(script, l, d))
  {
    hide Did, CanDeed, LanePossible, LaneRun;
    var deeds :| LanePossible(script, NewLane(first), deeds) && LaneRun(script, NewLane(first), deeds) == l;
    LaneRunOn(script, NewLane(first), deeds, d);
  }

  /** k packets have been sent, received and dispatched one after the other, with the first n
      bunches, and b has sent none. */
  ghost predicate At(script: seq<OutBunch>, l: Lane, k: nat, n: nat) {
    && l.net.link == OneSided(k) && l.net.b.pending == [] && l.out.queue == [] && |l.out.unacked| <= k
    && |l.bodies| == k && l.handed == n <= |script|
  }

  lemma {:induction false} AllSendable(bunches: seq<OutBunch>)
    requires AllTravel(bunches)
    ensures SendableOf(bunches) == bunches && Fitting(bunches) == bunches
    decreases |bunches|
  {
    hide FitsPacket, Sendable;
    if bunches != [] {
      var n := |bunches| - 1;
      AllFitting(bunches);
      AllSendable(bunches[1..]);
      assert Travels(bunches[0]);
    }
  }

  lemma {:induction false} AllFitting(bunches: seq<OutBunch>)
    requires AllTravel(bunches)
    ensures Fitting(bunches) == bunches
    decreases |bunches|
  {
    hide FitsPacket, Sendable;
    if bunches != [] {
      var n := |bunches| - 1;
      AllFitting(bunches[..n]);
      assert Travels(bunches[n]) && bunches[..n] + [bunches[n]] == bunches;
    }
  }

  lemma OneMore(unacked: map<nat, seq<OutBunch>>, k: nat, bunches: seq<OutBunch>)
    ensures |unacked[k := bunches]| <= |unacked| + 1
  {
    AddedSize(unacked, k, bunches);
  }

  /** The bunches n to m are handed over and assembled into packet k. */
  lemma PacketFilled(script: seq<OutBunch>, first: nat, l: Lane, k: nat, n: nat, m: nat) returns (z: Lane)
    requires LaneReaches(script, first, l) && At(script, l, k, n) && k < RELIABLE_BUFFER
    requires n < m <= |script| && AllTravel(script[n..m])
    ensures LaneReaches(script, first, z) && z.net == l.net && z.box == l.box && z.out.queue == []
    ensures |z.out.unacked| <= k + 1 && z.handed == m
    ensures z.bodies == l.bodies + [Body(script[n..m], script[n..m])]
  {
    hide LaneReaches, AllTravel, SendableOf, Fitting, OneSided;
    var more := script[n..m];
    var h := Handed(script, l, m - n);
    LaneNext(script, first, l, Hand(m - n));
    assert h.out.queue == more by {
      assert script[n..n + (m - n)] == more && [] + more == more;
    }
    assert more[..|more|] == more && more[|more|..] == [];
    AllSendable(more);
    LaneNext(script, first, h, Assemble(|more|));
    OneMore(l.out.unacked, k, more);
    z := Assembled(h, |more|);
  }

  /** Packet k is sent, received and dispatched. */
  lemma NetThrough(n: Net, k: nat)
    requires n.link == OneSided(k) && k < 256 && n.b.pending == []
    ensures CanNet(n, AtA(Send))
    ensures var s := NetDo(n, AtA(Send));
            && CanNet(s, AtB(Arrive(k)))
            && var r := NetDo(s, AtB(Arrive(k)));
            && r.b.pending == [k] && CanNet(r, AtB(Dispatch(true)))
            && var z := NetDo(r, AtB(Dispatch(true)));
            && z.link == OneSided(k + 1) && z.b.pending == []
  {
    OneSidedSend(k);
    OneSidedTaken(k);
    var s := NetDo(n, AtA(Send));
    assert s.link.fromA[k] == AckProtocol.Header(k, 1, []) && s.link.b == OneSided(k).b;
    hide OneSided, AckProtocol.Receive, AckProtocol.Dispatched, PendingPackets.Queued;
  }

  lemma PacketThrough(script: seq<OutBunch>, first: nat, l: Lane, k: nat) returns (z: Lane)
    requires LaneReaches(script, first, l) && l.net.link == OneSided(k) && k < 256 && l.net.b.pending == []
    requires |l.bodies| == k + 1
    ensures LaneReaches(script, first, z) && z.net.link == OneSided(k + 1) && z.net.b.pending == []
    ensures z.out == l.out && z.bodies == l.bodies && z.handed == l.handed
    ensures z.box == ReceiveAll(l.box, l.bodies[k].carried)
  {
    assert |l.net.link.fromA| == k;
    NetThrough(l.net, k);
    hide LaneReaches, ReceiveAll, NetDo, CanNet, OneSided;
    LaneNext(script, first, l, Network(AtA(Send)));
    var s := Networked(l, AtA(Send));
    LaneNext(script, first, s, Network(AtB(Arrive(k))));
    var r := Networked(s, AtB(Arrive(k)));
    LaneNext(script, first, r, Network(AtB(Dispatch(true))));
    z := Networked(r, AtB(Dispatch(true)));
    CarriedInOne(l.bodies, k);
  }

  lemma CarriedInOne(bodies: seq<Body>, k: nat)
    requires k < |bodies|
    ensures CarriedIn(bodies, [k]) == bodies[k].carried
  {
    assert [k][..0] == [] && CarriedIn(bodies, [k]) == [] + bodies[k].carried;
  }

  lemma OneSidedTaken(k: nat)
    requires k < 256
    ensures var b, h := OneSided(k).b, AckProtocol.Header(k, 1, []);
            && PendingPackets.Queued(b, h)
            && AckProtocol.Dispatched(AckProtocol.Receive(b, h), true) == OneSided(k + 1).b
  {
    OneSidedReceive(k);
    var b, h := OneSided(k).b, AckProtocol.Header(k, 1, []);
    assert AckProtocol.ProcessAcks(b, h) == b && AckProtocol.Fits(b, k) && !b.IsWaiting();
  }

  lemma MessagesLast(bunches: seq<OutBunch>)
    requires bunches != []
    ensures MessagesIn(bunches) == MessagesIn(bunches[..|bunches| - 1]) + bunches[|bunches| - 1].messages
  {
  }

  lemma {:induction false} MessagesSum(a: seq<OutBunch>, b: seq<OutBunch>)
    ensures MessagesIn(a + b) == MessagesIn(a) + MessagesIn(b)
    decreases |b|
  {
    if b == [] {
      assert a + b == a;
    } else {
      hide MessagesIn;
      var front, whole := b[..|b| - 1], a + b;
      MessagesSum(a, front);
      MessagesLast(b);
      MessagesLast(whole);
      assert whole[..|whole| - 1] == a + front && whole[|whole| - 1] == b[|b| - 1];
    }
  }

  /** What the bunches n to m deliver. */
  ghost function Between(script: seq<OutBunch>, first: nat, n: nat, m: nat): seq<Delivery>
    requires Playable(script, first) && n <= m <= |script|
  {
    FramesBetween(script, first, n, m);
    DeliveriesOf(MessagesIn(script[n..m]))
  }

  lemma Joined(script: seq<OutBunch>, first: nat, n: nat, m: nat, p: nat)
    requires Playable(script, first) && n <= m <= p <= |script|
    ensures Between(script, first, n, p) == Between(script, first, n, m) + Between(script, first, m, p)
  {
    hide Playable, IsFrame, DeliveryOf, MessagesIn;
    FramesBetween(script, first, n, m);
    FramesBetween(script, first, m, p);
    FramesBetween(script, first, n, p);
    assert script[n..m] + script[m..p] == script[n..p];
    MessagesSum(script[n..m], script[m..p]);
    SplitFrames(MessagesIn(script[n..m]), MessagesIn(script[m..p]));
  }

  lemma NothingBetween(script: seq<OutBunch>, first: nat, n: nat)
    requires Playable(script, first) && n <= |script|
    ensures Between(script, first, n, n) == []
  {
    assert script[n..n] == [];
  }

  /** The two together, in turn. */
  lemma OnePacket(script: seq<OutBunch>, first: nat, l: Lane, k: nat, n: nat, m: nat) returns (z: Lane)
    requires Playable(script, first) && AllTravel(script) && n < m <= |script| && k < 256
    requires LaneReaches(script, first, l) && At(script, l, k, n) && l.box.inReliable == first + n
    requires forall j | j in l.box.unread :: j > first + m + 1
    ensures LaneReaches(script, first, z) && At(script, z, k + 1, m)
    ensures z.box == Inbox(first + m, l.box.unread, l.box.received + Between(script, first, n, m))
    ensures z.bodies == l.bodies + [Body(script[n..m], script[n..m])]
  {
    hide LaneReaches, Playable, OneSided, ReceiveAll, DeliveryOf, IsFrame, Travels, MessagesIn;
    var y := PacketFilled(script, first, l, k, n, m);
    z := PacketThrough(script, first, y, k);
    InTurnAll(script, first, l.box, n, m);
  }

  /** A number of packets with 64 bunches each. */
  lemma {:induction false} Packets(script: seq<OutBunch>, first: nat, l: Lane, k: nat, n: nat, count: nat)
    returns (z: Lane)
    requires Playable(script, first) && AllTravel(script) && n + 64 * count <= |script| && k + count <= 256
    requires LaneReaches(script, first, l) && At(script, l, k, n) && l.box.inReliable == first + n
    requires forall j | j in l.box.unread :: j > first + n + 64 * count + 1
    ensures LaneReaches(script, first, z) && At(script, z, k + count, n + 64 * count) && l.bodies <= z.bodies
    ensures z.box == Inbox(first + n + 64 * count, l.box.unread,
                           l.box.received + Between(script, first, n, n + 64 * count))
    decreases count
  {
    hide LaneReaches, Playable, At, AllTravel, Between;
    if count == 0 {
      z := l;
      NothingBetween(script, first, n);
    } else {
      var m := n + 64 * (count - 1);
      var y := Packets(script, first, l, k, n, count - 1);
      z := OnePacket(script, first, y, k + (count - 1), m, m + 64);
      Joined(script, first, n, m, m + 64);
    }
  }

  /** Packet 0 arrives and is dispatched again. */
  lemma FirstAgain(script: seq<OutBunch>, first: nat, l: Lane, k: nat) returns (z: Lane)
    requires LaneReaches(script, first, l) && l.net.link == OneSided(k) && 0 < k <= 256 && l.net.b.pending == []
    requires |l.bodies| == k
    ensures LaneReaches(script, first, z) && z.net.link == OneSided(k) && z.net.b.pending == []
    ensures z.out == l.out && z.bodies == l.bodies && z.handed == l.handed
    ensures z.box == ReceiveAll(l.box, l.bodies[0].carried)
  {
    hide LaneReaches, ReceiveAll;
    var b, h := OneSided(k).b, l.net.link.fromA[0];
    assert !AckProtocol.Accepts(b, h) && AckProtocol.Readable(h);
    NotTaken(b, h);
    LaneNext(script, first, l, Network(AtB(Arrive(0))));
    var r := Networked(l, AtB(Arrive(0)));
    assert r.net.b.pending == [0] && r.net.link == l.net.link;
    LaneNext(script, first, r, Network(AtB(Dispatch(true))));
    z := Networked(r, AtB(Dispatch(true)));
    assert AckProtocol.Dispatched(b, true) == b;
    assert [0][..0] == [] && CarriedIn(l.bodies, [0]) == [] + l.bodies[0].carried == l.bodies[0].carried;
    assert z.box == ReceiveAll(r.box, CarriedIn(r.bodies, r.net.b.pending));
  }

  lemma JustOne(box: Inbox, b: OutBunch)
    ensures ReceiveAll(box, [b]) == R.Receive(box, b.sequence, InBunchOf(b))
  {
    hide R.Receive;
    assert [b][..0] == [];
  }

  /** Up to the repeat: 577 bunches in ten packets, and the first of them once more. */
  lemma ThenRepeated(script: seq<OutBunch>, first: nat) returns (z: Lane)
    requires Playable(script, first) && AllTravel(script) && |script| == R.MAX_CHSEQUENCE && first + 1025 < WORD
    ensures LaneReaches(script, first, z) && At(script, z, 10, 577)
    ensures z.box == Inbox(first + 577, map[first + 1025 := InBunchOf(script[0])], Between(script, first, 0, 577))
  {
    hide Playable, AllTravel, Between, R.Receive, InBunchOf, LanePossible, LaneRun;
    var l := NewLane(first);
    assert LanePossible(script, l, []) && LaneRun(script, l, []) == l by {
      NothingDone(script, l);
    }
    assert LaneReaches(script, first, l);
    assert OneSided(0) == NEW_LINK;
    hide OneSided, LaneReaches, ReceiveAll;
    var x := OnePacket(script, first, l, 0, 0, 1);
    var y := Packets(script, first, x, 1, 1, 9);
    Joined(script, first, 0, 1, 577);
    assert y.bodies[0] == x.bodies[0] == Body(script[0..1], script[0..1]) && script[0..1] == [script[0]];
    z := FirstAgain(script, first, y, 10);
    JustOne(y.box, script[0]);
    TakenForLater(script, first, y.box);
  }

  lemma NothingDone(script: seq<OutBunch>, l: Lane)
    ensures LanePossible(script, l, []) && LaneRun(script, l, []) == l
  {
  }

  /** A run of 1024 bunches, 64 of them in a packet at most, which have room there when each takes
      no more than 15 bytes.  Packet 0 arrives once more after the tenth: when the last bunch is dispatched, the
      first is delivered a second time. */
  lemma DeliveredTwice(script: seq<OutBunch>, first: nat) returns (z: Lane)
    requires Playable(script, first) && AllTravel(script) && |script| == R.MAX_CHSEQUENCE && first + 1025 < WORD
    ensures LaneReaches(script, first, z) && AllFrames(MessagesIn(script)) && AllFrames(script[0].messages)
    ensures z.box.received == DeliveriesOf(MessagesIn(script)) + DeliveriesOf(script[0].messages)
  {
    hide Playable, AllTravel, Between, R.Receive, InBunchOf, OneSided, LaneReaches, DeliveryOf, IsFrame, MessagesIn;
    var x := ThenRepeated(script, first);
    var y := Packets(script, first, x, 10, 577, 6);
    var w := OnePacket(script, first, y, 16, 961, 1023);
    hide ReceiveAll;
    LastTravels(script);
    var v := PacketFilled(script, first, w, 17, 1023, 1024);
    z := PacketThrough(script, first, v, 17);
    assert script[1023..1024] == [script[1023]];
    JustOne(w.box, script[1023]);
    LastAndFirst(script, first, w.box);
    Joined(script, first, 0, 577, 961);
    Joined(script, first, 0, 961, 1023);
    Joined(script, first, 0, 1023, 1024);
    AllBetween(script, first);
  }

  lemma LastTravels(script: seq<OutBunch>)
    requires AllTravel(script) && |script| == 1024
    ensures AllTravel(script[1023..1024])
  {
    hide Travels;
  }

  lemma AllBetween(script: seq<OutBunch>, first: nat)
    requires Playable(script, first) && |script| == 1024
    ensures AllFrames(MessagesIn(script)) && AllFrames(script[1023].messages)
    ensures Between(script, first, 0, 1024) == DeliveriesOf(MessagesIn(script))
    ensures Between(script, first, 1023, 1024) == DeliveriesOf(script[1023].messages)
  {
    hide InSequence, IsFrame, DeliveryOf;
    FramesBetween(script, first, 0, 1024);
    assert script[0..1024] == script;
    var last := script[1023..1024];
    assert last == [script[1023]] && last[..0] == [];
    assert MessagesIn(last) == [] + script[1023].messages == script[1023].messages;
  }
}
