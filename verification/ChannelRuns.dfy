/** One reliable channel over two connections: what the bunches that a seals hand out at b,
    over every run of a network that loses, repeats and reorders packets. */
module ChannelRuns {
  import opened AckProtocol
  import opened AckRuns
  import opened BunchBuilder
  import opened BunchRuns
  import opened BufferReader
  import opened DeliveryRuns
  import opened MathUtility
  import opened NetChannel
  import opened OrderedMap
  import opened PacketAssembly
  import NetConnection
  import PendingPackets
  import R = ReceiveRuns

  /** What the channel had recorded under a packet, and what the packet carries of that. */
  datatype Body = Body(recorded: seq<OutBunch>, carried: seq<OutBunch>)

  /** The two connections, the channel's outbox at a, a's packets as they were assembled, how
      many bunches the builder has handed over, and the channel's inbox at b. */
  datatype Lane = Lane(net: Net, out: Outbox, bodies: seq<Body>, handed: nat, box: Inbox)

  datatype Deed = Hand(n: nat) | Assemble(n: nat) | Network(act: Action)

  /** The builder hands over its next bunches; the assembly takes some from the queue into the
      next packet, for which the reliable buffer has room; a packet is sent once it has been
      assembled. */
  predicate CanDeed(script: seq<OutBunch>, l: Lane, d: Deed) {
    match d
    case Hand(n) => l.handed + n <= |script|
    case Assemble(n) => n <= |l.out.queue| && l.out.HasRoom()
    case Network(act) => CanNet(l.net, act) && (act == AtA(Send) ==> |l.net.link.fromA| < |l.bodies|)
  }

  function Handed(script: seq<OutBunch>, l: Lane, n: nat): Lane
    requires CanDeed(script, l, Hand(n))
  {
    l.(out := l.out.(queue := l.out.queue + script[l.handed..l.handed + n]), handed := l.handed + n)
  }

  /** Recorded under a packet, if there are any. */
  function RecordAll(out: Outbox, packetId: nat, bunches: seq<OutBunch>): Outbox {
    if bunches == [] then out else out.(unacked := out.unacked[packetId := bunches])
  }

  function Assembled(l: Lane, n: nat): Lane
    requires n <= |l.out.queue|
  {
    var bunches := SendableOf(l.out.queue[..n]);
    l.(out := RecordAll(l.out.(queue := l.out.queue[n..]), |l.bodies|, bunches),
       bodies := l.bodies + [Body(bunches, Fitting(bunches))])
  }

  /** The notifications that a header brings, and the forced retransmission of a flush. */
  function Notified(out: Outbox, before: Peer, after: Peer, h: Header): Outbox
    requires |before.reports| <= |after.reports|
  {
    var z := NetConnection.NotifyAll(out, |before.reports|, after.reports[|before.reports|..]);
    if AckProtocol.Readable(h) && Accepts(before, h) && after.IsWaiting() then z.ForceRetransmit() else z
  }

  function ReceiveAll(box: Inbox, bunches: seq<OutBunch>): Inbox {
    if bunches == [] then box
    else
      var n := |bunches| - 1;
      R.Receive(ReceiveAll(box, bunches[..n]), bunches[n].sequence, InBunchOf(bunches[n]))
  }

  function CarriedBy(bodies: seq<Body>, k: nat): seq<OutBunch> {
    if k < |bodies| then bodies[k].carried else []
  }

  /** The bunches in the packets of a queue, in order. */
  function CarriedIn(bodies: seq<Body>, packets: seq<nat>): seq<OutBunch> {
    if packets == [] then []
    else
      var n := |packets| - 1;
      CarriedIn(bodies, packets[..n]) + CarriedBy(bodies, packets[n])
  }

  lemma ReportsGrow(p: Peer, h: Header)
    ensures |p.reports| <= |AckProtocol.Receive(p, h).reports|
    ensures AckProtocol.Receive(p, h).reports[..|p.reports|] == p.reports
  {
    TakenInReports(ProcessAcks(p, h), h.seqNo);
  }

  function Did(script: seq<OutBunch>, l: Lane, d: Deed): Lane
    requires CanDeed(script, l, d)
  {
    match d
    case Hand(n) => Handed(script, l, n)
    case Assemble(n) => Assembled(l, n)
    case Network(act) => Networked(l, act)
  }

  function Networked(l: Lane, act: Action): Lane
    requires CanNet(l.net, act)
  {
    var x := l.(net := NetDo(l.net, act));
    if act.AtA? && act.e.Arrive? then
      var h := l.net.link.fromB[act.e.seqNo];
      ReportsGrow(l.net.link.a, h);
      x.(out := Notified(l.out, l.net.link.a, x.net.link.a, h))
    else if act.AtB? && act.e.Dispatch? then
      x.(box := ReceiveAll(l.box, CarriedIn(l.bodies, l.net.b.pending)))
    else x
  }

  // ----- runs -----

  predicate LanePossible(script: seq<OutBunch>, l: Lane, deeds: seq<Deed>)
    decreases |deeds|
  {
    deeds == [] ||
    (CanDeed(script, l, deeds[0]) && LanePossible(script, Did(script, l, deeds[0]), deeds[1..]))
  }

  function LaneRun(script: seq<OutBunch>, l: Lane, deeds: seq<Deed>): Lane
    requires LanePossible(script, l, deeds)
    decreases |deeds|
  {
    if deeds == [] then l else LaneRun(script, Did(script, l, deeds[0]), deeds[1..])
  }

  function NewLane(first: nat): Lane {
    Lane(NEW_NET, Outbox([], map[]), [], 0, Inbox(first, map[], []))
  }

  // ----- the packets -----

  /** What has been received has been sent, and what has been sent was assembled. */
  ghost predicate PendingSent(n: Net) {
    && (forall i | 0 <= i < |n.b.pending| :: n.b.pending[i] < |n.link.fromA|)
    && (forall i | 0 <= i < |n.b.dispatched| :: n.b.dispatched[i] < |n.link.fromA|)
  }

  lemma NetAKeepsSent(n: Net, e: Event)
    requires CanNetA(n, e) && PendingSent(n) && PendingSent(n.Swapped())
    ensures PendingSent(NetA(n, e)) && PendingSent(NetA(n, e).Swapped())
  {
    hide AckProtocol.Receive, Queued;
  }

  lemma NetKeepsSent(n: Net, act: Action)
    requires CanNet(n, act) && PendingSent(n) && PendingSent(n.Swapped())
    ensures PendingSent(NetDo(n, act)) && PendingSent(NetDo(n, act).Swapped())
  {
    hide NetA, CanNetA, PendingSent;
    if act.AtA? {
      NetAKeepsSent(n, act.e);
    } else {
      NetAKeepsSent(n.Swapped(), act.e);
    }
  }

  // ----- where every bunch comes from -----

  /** One of the first n bunches. */
  ghost predicate OneOf(script: seq<OutBunch>, n: nat, b: OutBunch) {
    exists i :: 0 <= i < n <= |script| && script[i] == b
  }

  ghost predicate AllOf(script: seq<OutBunch>, n: nat, bunches: seq<OutBunch>) {
    forall i | 0 <= i < |bunches| :: OneOf(script, n, bunches[i])
  }

  ghost predicate OutOf(script: seq<OutBunch>, n: nat, out: Outbox) {
    AllOf(script, n, out.queue) && forall p | p in out.unacked :: AllOf(script, n, out.unacked[p])
  }

  ghost predicate BodyOf(script: seq<OutBunch>, n: nat, body: Body) {
    AllOf(script, n, body.recorded) && body.carried == Fitting(body.recorded)
  }

  ghost predicate BodiesOf(script: seq<OutBunch>, n: nat, bodies: seq<Body>) {
    forall i | 0 <= i < |bodies| :: BodyOf(script, n, bodies[i])
  }

  lemma AllOfMore(script: seq<OutBunch>, n: nat, m: nat, bunches: seq<OutBunch>)
    requires AllOf(script, n, bunches) && n <= m <= |script|
    ensures AllOf(script, m, bunches)
  {
    forall i | 0 <= i < |bunches|
      ensures OneOf(script, m, bunches[i])
    {
      assert OneOf(script, n, bunches[i]);
    }
  }

  lemma AllOfSum(script: seq<OutBunch>, n: nat, a: seq<OutBunch>, b: seq<OutBunch>)
    requires AllOf(script, n, a) && AllOf(script, n, b)
    ensures AllOf(script, n, a + b)
  {
    hide OneOf;
  }

  lemma {:induction false} InOrderOf(script: seq<OutBunch>, n: nat, unacked: map<nat, seq<OutBunch>>)
    requires forall p | p in unacked :: AllOf(script, n, unacked[p])
    ensures AllOf(script, n, InOrder(unacked))
    decreases |unacked|
  {
    hide AllOf;
    if unacked == map[] {
      NoneOf(script, n);
    } else {
      var k := MaxKey(unacked);
      Shrinks(unacked, k);
      InOrderOf(script, n, unacked - {k});
      AllOfSum(script, n, InOrder(unacked - {k}), unacked[k]);
    }
  }

  lemma NoneOf(script: seq<OutBunch>, n: nat)
    ensures AllOf(script, n, [])
  {
  }

  lemma NotifyOf(script: seq<OutBunch>, n: nat, out: Outbox, packetId: nat, delivered: bool)
    requires OutOf(script, n, out)
    ensures OutOf(script, n, Notify(out, packetId, delivered))
  {
    hide AllOf;
    NoneOf(script, n);
    AllOfSum(script, n, BunchesOf(out, packetId), out.queue);
  }

  lemma {:induction false} NotifyAllOf(script: seq<OutBunch>, n: nat, out: Outbox, from: nat, reports: seq<bool>)
    requires OutOf(script, n, out)
    ensures OutOf(script, n, NetConnection.NotifyAll(out, from, reports))
    decreases |reports|
  {
    hide OutOf, Notify;
    if reports != [] {
      var i := |reports| - 1;
      NotifyAllOf(script, n, out, from, reports[..i]);
      NotifyOf(script, n, NetConnection.NotifyAll(out, from, reports[..i]), from + i, reports[i]);
    }
  }

  lemma ForcedOf(script: seq<OutBunch>, n: nat, out: Outbox)
    requires OutOf(script, n, out)
    ensures OutOf(script, n, out.ForceRetransmit())
  {
    hide AllOf, InOrder;
    InOrderOf(script, n, out.unacked);
    AllOfSum(script, n, InOrder(out.unacked), out.queue);
  }

  lemma {:induction false} SendableAre(script: seq<OutBunch>, n: nat, bunches: seq<OutBunch>)
    requires AllOf(script, n, bunches)
    ensures AllOf(script, n, SendableOf(bunches))
    ensures forall i | 0 <= i < |SendableOf(bunches)| :: Sendable(SendableOf(bunches)[i])
    decreases |bunches|
  {
    hide OneOf, Sendable;
    if bunches != [] {
      SendableAre(script, n, bunches[1..]);
    }
  }

  lemma {:induction false} CarriedInIs(bodies: seq<Body>, packets: seq<nat>, b: OutBunch)
    ensures b in CarriedIn(bodies, packets) <==> exists i :: 0 <= i < |packets| && b in CarriedBy(bodies, packets[i])
    decreases |packets|
  {
    hide CarriedBy;
    if packets != [] {
      var n := |packets| - 1;
      CarriedInIs(bodies, packets[..n], b);
      assert packets[..n] + [packets[n]] == packets;
    }
  }

  // ----- what b's channel gets -----

  /** The bunch with a sequence. */
  function Scripted(script: seq<OutBunch>, first: nat): nat -> InBunch {
    (s: nat) => if first < s <= first + |script| then InBunchOf(script[s - first - 1]) else InBunch([], 0)
  }

  /** Numbered bunches of whole messages, below the wrap of 32 bits. */
  ghost predicate Playable(script: seq<OutBunch>, first: nat) {
    && first + |script| < WORD && InSequence(script, first)
    && forall i | 0 <= i < |script| :: AllFrames(script[i].messages)
  }

  lemma ScriptWhole(script: seq<OutBunch>, first: nat)
    requires Playable(script, first)
    ensures R.AllWhole(Scripted(script, first))
  {
    hide Whole, InBunchOf, AllFrames;
    forall s: nat
      ensures Whole(Scripted(script, first)(s))
    {
      if first < s <= first + |script| {
        FramesDelivered(script[s - first - 1]);
      } else {
        NothingWhole();
      }
    }
  }

  lemma NothingWhole()
    ensures Whole(InBunch([], 0))
  {
  }

  lemma ScriptedIs(script: seq<OutBunch>, first: nat, b: OutBunch)
    requires Playable(script, first) && OneOf(script, |script|, b)
    ensures first < b.sequence <= first + |script| && Scripted(script, first)(b.sequence) == InBunchOf(b)
    ensures script[b.sequence - first - 1] == b
  {
    var i :| 0 <= i < |script| && script[i] == b;
    SequenceAt(script, first, i);
  }

  /** Each bunch meets an inbox within 512 of its sequence. */
  ghost predicate Near(box: Inbox, bunches: seq<OutBunch>) {
    bunches == [] ||
    (var n := |bunches| - 1;
     var z := ReceiveAll(box, bunches[..n]);
     Near(box, bunches[..n]) && z.inReliable < WORD && R.InWindow(z, bunches[n].sequence))
  }

  ghost function Sequences(bunches: seq<OutBunch>): set<nat> {
    set b | b in bunches :: b.sequence
  }

  lemma SequencesNext(bunches: seq<OutBunch>, b: OutBunch)
    ensures Sequences(bunches + [b]) == Sequences(bunches) + {b.sequence}
  {
  }

  lemma SequencesSum(a: seq<OutBunch>, b: seq<OutBunch>)
    ensures Sequences(a + b) == Sequences(a) + Sequences(b)
  {
  }

  lemma {:induction false} ReceiveAllFaithful(script: seq<OutBunch>, first: nat, box: Inbox, bunches: seq<OutBunch>,
                                              seen: set<nat>)
    requires Playable(script, first) && AllOf(script, |script|, bunches) && Near(box, bunches)
    requires R.Faithful(box, Scripted(script, first), first) && R.Accounts(box, first, seen)
    ensures var z := ReceiveAll(box, bunches);
            R.Faithful(z, Scripted(script, first), first) && R.Accounts(z, first, seen + Sequences(bunches))
    decreases |bunches|
  {
    hide Playable, OneOf, R.Faithful, R.Accounts, R.AllWhole, R.Receive, R.RelativeSequence, InBunchOf, Scripted;
    if bunches == [] {
      assert seen + Sequences([]) == seen;
    } else {
      var n := |bunches| - 1;
      var b, sent, mid := bunches[n], Scripted(script, first), ReceiveAll(box, bunches[..n]);
      assert forall i | 0 <= i < n :: OneOf(script, |script|, bunches[..n][i]);
      ReceiveAllFaithful(script, first, box, bunches[..n], seen);
      ScriptWhole(script, first);
      ScriptedIs(script, first, b);
      Below32(script, first);
      R.ExactInWindow(b.sequence, mid.inReliable);
      R.ReceiveFaithful(mid, sent, first, seen + Sequences(bunches[..n]), b.sequence);
      SequencesNext(bunches[..n], b);
      assert bunches[..n] + [b] == bunches;
      assert seen + Sequences(bunches[..n]) + {b.sequence} == seen + Sequences(bunches);
    }
  }

  lemma Below32(script: seq<OutBunch>, first: nat)
    requires Playable(script, first)
    ensures first + |script| < WORD
  {
  }

  lemma {:induction false} CarriedInSum(bodies: seq<Body>, a: seq<nat>, b: seq<nat>)
    ensures CarriedIn(bodies, a + b) == CarriedIn(bodies, a) + CarriedIn(bodies, b)
    decreases |b|
  {
    hide CarriedBy;
    if b == [] {
      assert a + b == a;
    } else {
      var n := |b| - 1;
      CarriedInSum(bodies, a, b[..n]);
      assert (a + b)[..|a + b| - 1] == a + b[..n];
    }
  }

  lemma {:induction false} CarriedInSame(bodies: seq<Body>, body: Body, packets: seq<nat>)
    requires forall i | 0 <= i < |packets| :: packets[i] < |bodies|
    ensures CarriedIn(bodies + [body], packets) == CarriedIn(bodies, packets)
    decreases |packets|
  {
    if packets != [] {
      CarriedInSame(bodies, body, packets[..|packets| - 1]);
    }
  }

  lemma {:induction false} CarriedInOf(script: seq<OutBunch>, n: nat, bodies: seq<Body>, packets: seq<nat>)
    requires BodiesOf(script, n, bodies)
    ensures AllOf(script, n, CarriedIn(bodies, packets))
    decreases |packets|
  {
    hide AllOf, Fitting;
    if packets == [] {
      NoneOf(script, n);
    } else {
      var i := |packets| - 1;
      CarriedInOf(script, n, bodies, packets[..i]);
      CarriedOf(script, n, bodies, packets[i]);
      AllOfSum(script, n, CarriedIn(bodies, packets[..i]), CarriedBy(bodies, packets[i]));
    }
  }

  lemma CarriedOf(script: seq<OutBunch>, n: nat, bodies: seq<Body>, k: nat)
    requires BodiesOf(script, n, bodies)
    ensures AllOf(script, n, CarriedBy(bodies, k))
  {
    hide OneOf, Fitting;
    if k < |bodies| {
      forall i | 0 <= i < |bodies[k].carried|
        ensures OneOf(script, n, bodies[k].carried[i])
      {
        NetConnection.FittingIs(bodies[k].recorded, bodies[k].carried[i]);
      }
    }
  }

  // ----- what every deed keeps -----

  /** What the channel still waits for is what it recorded, for packets not reported yet. */
  ghost predicate UnackedIs(l: Lane) {
    forall p | p in l.out.unacked ::
      |l.net.link.a.reports| <= p < |l.bodies| && l.out.unacked[p] == l.bodies[p].recorded
  }

  ghost predicate NetOk(l: Lane) {
    && NetInv(l.net) && PendingSent(l.net) && PendingSent(l.net.Swapped())
    && |l.net.link.fromA| <= |l.bodies|
  }

  ghost predicate BunchesOk(script: seq<OutBunch>, l: Lane) {
    && l.handed <= |script| && OutOf(script, l.handed, l.out) && BodiesOf(script, l.handed, l.bodies)
    && UnackedIs(l)
  }

  ghost predicate BoxOk(script: seq<OutBunch>, first: nat, l: Lane) {
    && R.Faithful(l.box, Scripted(script, first), first)
    && R.Accounts(l.box, first, Sequences(CarriedIn(l.bodies, l.net.b.dispatched)))
  }

  ghost predicate LaneInv(script: seq<OutBunch>, first: nat, l: Lane) {
    NetOk(l) && BunchesOk(script, l) && BoxOk(script, first, l)
  }

  lemma HandKeeps(script: seq<OutBunch>, first: nat, l: Lane, n: nat)
    requires LaneInv(script, first, l) && CanDeed(script, l, Hand(n))
    ensures LaneInv(script, first, Handed(script, l, n))
  {
    hide NetOk, BoxOk, BunchesOk;
    var z := Handed(script, l, n);
    NetSame(l, z);
    BoxSame(script, first, l, z);
    HandBunchesOk(script, l, n);
  }

  lemma HandBunchesOk(script: seq<OutBunch>, l: Lane, n: nat)
    requires BunchesOk(script, l) && CanDeed(script, l, Hand(n))
    ensures BunchesOk(script, Handed(script, l, n))
  {
    hide OneOf, Fitting;
    var m, more := l.handed + n, script[l.handed..l.handed + n];
    forall i | 0 <= i < |more|
      ensures OneOf(script, m, more[i])
    {
      assert more[i] == script[l.handed + i];
      OneOfAt(script, m, l.handed + i);
    }
    AllOfMore(script, l.handed, m, l.out.queue);
    AllOfSum(script, m, l.out.queue, more);
    forall p | p in l.out.unacked
      ensures AllOf(script, m, l.out.unacked[p])
    {
      AllOfMore(script, l.handed, m, l.out.unacked[p]);
    }
    forall i | 0 <= i < |l.bodies|
      ensures BodyOf(script, m, l.bodies[i])
    {
      assert BodyOf(script, l.handed, l.bodies[i]);
      AllOfMore(script, l.handed, m, l.bodies[i].recorded);
    }
  }

  lemma OneOfAt(script: seq<OutBunch>, n: nat, i: nat)
    requires i < n <= |script|
    ensures OneOf(script, n, script[i])
  {
  }

  lemma NetSame(l: Lane, z: Lane)
    requires NetOk(l) && z.net == l.net && |z.bodies| >= |l.bodies|
    ensures NetOk(z)
  {
    hide NetInv, PendingSent;
  }

  lemma BoxSame(script: seq<OutBunch>, first: nat, l: Lane, z: Lane)
    requires BoxOk(script, first, l) && z.box == l.box && z.bodies == l.bodies
    requires z.net.b.dispatched == l.net.b.dispatched
    ensures BoxOk(script, first, z)
  {
    hide R.Faithful, R.Accounts, Sequences, CarriedIn, Scripted;
  }

  /** What the invariants of the two ends say of a's packets. */
  lemma NetParts(l: Lane)
    requires NetOk(l)
    ensures |l.net.link.a.reports| <= |l.net.link.fromA| <= |l.bodies|
    ensures forall i | 0 <= i < |l.net.b.dispatched| :: l.net.b.dispatched[i] < |l.bodies|
  {
  }

  lemma AssembleKeeps(script: seq<OutBunch>, first: nat, l: Lane, n: nat)
    requires LaneInv(script, first, l) && CanDeed(script, l, Assemble(n))
    ensures LaneInv(script, first, Assembled(l, n))
  {
    hide NetOk, BunchesOk, Fitting, R.Faithful, R.Accounts, Sequences, CarriedIn, Scripted, SendableOf;
    NetSame(l, Assembled(l, n));
    NetParts(l);
    AssembleBunchesOk(script, l, n);
    var bunches := SendableOf(l.out.queue[..n]);
    CarriedInSame(l.bodies, Body(bunches, Fitting(bunches)), l.net.b.dispatched);
  }

  lemma AssembleBunchesOk(script: seq<OutBunch>, l: Lane, n: nat)
    requires NetOk(l) && BunchesOk(script, l) && CanDeed(script, l, Assemble(n))
    ensures BunchesOk(script, Assembled(l, n))
  {
    hide NetOk, OneOf, Fitting, SendableOf;
    NetParts(l);
    assert AllOf(script, l.handed, l.out.queue[..n]) && AllOf(script, l.handed, l.out.queue[n..]);
    SendableAre(script, l.handed, l.out.queue[..n]);
  }

  lemma NotifiedKeeps(script: seq<OutBunch>, n: nat, l: Lane, out: Outbox, p: Peer, after: Peer, h: Header)
    requires OutOf(script, n, out) && |p.reports| <= |after.reports|
    requires forall k | k in out.unacked ::
               |p.reports| <= k < |l.bodies| && out.unacked[k] == l.bodies[k].recorded
    ensures var z := Notified(out, p, after, h);
            && OutOf(script, n, z)
            && forall k | k in z.unacked ::
                 |after.reports| <= k < |l.bodies| && z.unacked[k] == l.bodies[k].recorded
  {
    hide OutOf, AckProtocol.Readable, Accepts, InOrder;
    var reports := after.reports[|p.reports|..];
    NotifyAllOf(script, n, out, |p.reports|, reports);
    NetConnection.NotifyAllUnacked(out, |p.reports|, reports);
    ForcedOf(script, n, NetConnection.NotifyAll(out, |p.reports|, reports));
  }

  /** What an action of the network leaves alone. */
  lemma NetworkFrame(n: Net, act: Action)
    requires CanNet(n, act)
    ensures var z := NetDo(n, act);
            && |n.link.fromA| <= |z.link.fromA| <= |n.link.fromA| + (if act == AtA(Send) then 1 else 0)
            && (!(act.AtA? && act.e.Arrive?) ==> z.link.a.reports == n.link.a.reports)
            && z.b.dispatched == n.b.dispatched + (if act.AtB? && act.e.Dispatch? then n.b.pending else [])
  {
    hide AckProtocol.Receive, Queued;
  }

  lemma ArriveNotifies(n: Net, act: Action)
    requires CanNet(n, act) && act.AtA? && act.e.Arrive?
    ensures NetDo(n, act).link.a == AckProtocol.Receive(n.link.a, n.link.fromB[act.e.seqNo])
  {
    hide AckProtocol.Receive, Queued;
  }

  lemma NetworkNetOk(l: Lane, act: Action)
    requires NetOk(l) && CanNet(l.net, act) && (act == AtA(Send) ==> |l.net.link.fromA| < |l.bodies|)
    ensures NetOk(Networked(l, act))
  {
    hide NetInv, NetDo, CanNet, PendingSent, Notified, ReceiveAll;
    NetKeeps(l.net, act);
    NetKeepsSent(l.net, act);
    NetworkFrame(l.net, act);
  }

  lemma NetworkBunchesOk(script: seq<OutBunch>, l: Lane, act: Action)
    requires BunchesOk(script, l) && CanNet(l.net, act)
    ensures BunchesOk(script, Networked(l, act))
  {
    hide OutOf, BodiesOf, NetDo, Notified, ReceiveAll, AckProtocol.Receive, Queued;
    NetworkFrame(l.net, act);
    if act.AtA? && act.e.Arrive? {
      var h := l.net.link.fromB[act.e.seqNo];
      ArriveNotifies(l.net, act);
      ReportsGrow(l.net.link.a, h);
      NotifiedKeeps(script, l.handed, l, l.out, l.net.link.a, NetDo(l.net, act).link.a, h);
    }
  }

  /** The bunches that a deed makes b's channel receive. */
  function Received(l: Lane, d: Deed): seq<OutBunch> {
    if d.Network? && d.act.AtB? && d.act.e.Dispatch? then CarriedIn(l.bodies, l.net.b.pending) else []
  }

  lemma NetworkBoxOk(script: seq<OutBunch>, first: nat, l: Lane, act: Action)
    requires Playable(script, first) && BoxOk(script, first, l) && BunchesOk(script, l) && CanNet(l.net, act)
    requires Near(l.box, Received(l, Network(act)))
    ensures BoxOk(script, first, Networked(l, act))
  {
    hide Playable, OutOf, NetDo, CanNet, Notified, ReceiveAll, R.Faithful, R.Accounts, Sequences, CarriedIn;
    hide Scripted, Near, BodiesOf, UnackedIs;
    NetworkFrame(l.net, act);
    var more := Received(l, Network(act));
    if act.AtB? && act.e.Dispatch? {
      CarriedInOf(script, l.handed, l.bodies, l.net.b.pending);
      AllOfMore(script, l.handed, |script|, more);
      CarriedInSum(l.bodies, l.net.b.dispatched, l.net.b.pending);
      SequencesSum(CarriedIn(l.bodies, l.net.b.dispatched), more);
      ReceiveAllFaithful(script, first, l.box, more, Sequences(CarriedIn(l.bodies, l.net.b.dispatched)));
    } else {
      assert l.net.b.dispatched + [] == l.net.b.dispatched;
    }
  }

  lemma DidKeeps(script: seq<OutBunch>, first: nat, l: Lane, d: Deed)
    requires Playable(script, first) && LaneInv(script, first, l) && CanDeed(script, l, d)
    requires Near(l.box, Received(l, d))
    ensures LaneInv(script, first, Did(script, l, d))
  {
    hide Playable, NetOk, BunchesOk, BoxOk, Networked, Handed, Assembled, Near;
    match d
    case Hand(n) => HandKeeps(script, first, l, n);
    case Assemble(n) => AssembleKeeps(script, first, l, n);
    case Network(act) =>
      NetworkNetOk(l, act);
      NetworkBunchesOk(script, l, act);
      NetworkBoxOk(script, first, l, act);
  }

  ghost predicate NearRun(script: seq<OutBunch>, l: Lane, deeds: seq<Deed>)
    requires LanePossible(script, l, deeds)
    decreases |deeds|
  {
    deeds == [] ||
    (Near(l.box, Received(l, deeds[0])) && NearRun(script, Did(script, l, deeds[0]), deeds[1..]))
  }

  lemma {:induction false} LaneRunKeeps(script: seq<OutBunch>, first: nat, l: Lane, deeds: seq<Deed>)
    requires Playable(script, first) && LaneInv(script, first, l)
    requires LanePossible(script, l, deeds) && NearRun(script, l, deeds)
    ensures LaneInv(script, first, LaneRun(script, l, deeds))
    decreases |deeds|
  {
    hide Playable, LaneInv, Did, CanDeed, Near, Received;
    if deeds != [] {
      DidKeeps(script, first, l, deeds[0]);
      LaneRunKeeps(script, first, Did(script, l, deeds[0]), deeds[1..]);
    }
  }

  lemma NewLaneOk(script: seq<OutBunch>, first: nat)
    ensures LaneInv(script, first, NewLane(first))
  {
    NewNetOk();
    assert Sequences([]) == {};
  }

  // ----- what holds of every run -----

  lemma {:induction false} ConcatenationIs(script: seq<OutBunch>, first: nat, n: nat)
    requires Playable(script, first) && n <= |script|
    ensures AllFrames(MessagesIn(script[..n]))
    ensures R.Concatenation(Scripted(script, first), first, first + n) == DeliveriesOf(MessagesIn(script[..n]))
    decreases n
  {
    hide InSequence, DeliveryOf, IsFrame, Whole, MessagesOf;
    if n > 0 {
      ConcatenationIs(script, first, n - 1);
      FramesDelivered(script[n - 1]);
      assert script[..n][..n - 1] == script[..n - 1];
      JoinFrames(MessagesIn(script[..n - 1]), script[n - 1].messages);
    }
  }

  lemma JoinFrames(front: seq<seq<byte>>, last: seq<seq<byte>>)
    requires AllFrames(front) && AllFrames(last)
    ensures AllFrames(front + last)
    ensures DeliveriesOf(front + last) == DeliveriesOf(front) + DeliveriesOf(last)
  {
    hide IsFrame, DeliveryOf;
    SplitFrames(front, last);
  }

  /** The sequences that have been received are among those handed over. */
  lemma ReceivedHanded(script: seq<OutBunch>, first: nat, box: Inbox, bunches: seq<OutBunch>, n: nat)
    requires Playable(script, first) && AllOf(script, n, bunches) && n <= |script|
    requires R.Faithful(box, Scripted(script, first), first) && R.Accounts(box, first, Sequences(bunches))
    ensures first <= box.inReliable <= first + n
  {
    hide Playable, Scripted, OneOf;
    if box.inReliable > first {
      assert box.inReliable in Sequences(bunches);
      var b :| b in bunches && b.sequence == box.inReliable;
      var i :| 0 <= i < |bunches| && bunches[i] == b;
      HandedSequence(script, first, n, b);
    }
  }

  lemma HandedSequence(script: seq<OutBunch>, first: nat, n: nat, b: OutBunch)
    requires Playable(script, first) && OneOf(script, n, b) && n <= |script|
    ensures first < b.sequence <= first + n
  {
    var i :| 0 <= i < n && script[i] == b;
    SequenceAt(script, first, i);
  }

  /** Over every run, what b's channel has received are the messages of the bunches sealed
      up to InReliable, each once and in order: a prefix of what a has submitted. */
  lemma ReceivedIsPrefix(script: seq<OutBunch>, first: nat, deeds: seq<Deed>)
    requires Playable(script, first) && LanePossible(script, NewLane(first), deeds)
    requires NearRun(script, NewLane(first), deeds)
    ensures var l := LaneRun(script, NewLane(first), deeds);
            && first <= l.box.inReliable <= first + l.handed && l.handed <= |script|
            && AllFrames(MessagesIn(script[..l.box.inReliable - first]))
            && l.box.received == DeliveriesOf(MessagesIn(script[..l.box.inReliable - first]))
  {
    hide LaneRun, LanePossible, NearRun, Playable, NetOk, OutOf, BodiesOf, R.Accounts, R.Concatenation, Scripted;
    NewLaneOk(script, first);
    LaneRunKeeps(script, first, NewLane(first), deeds);
    var l := LaneRun(script, NewLane(first), deeds);
    CarriedInOf(script, l.handed, l.bodies, l.net.b.dispatched);
    ReceivedHanded(script, first, l.box, CarriedIn(l.bodies, l.net.b.dispatched), l.handed);
    ConcatenationIs(script, first, l.box.inReliable - first);
  }

  /** Of the bunches recorded under a packet that is reported delivered, b's channel has got
      those, delivered or buffered, that left room for the packet header, and no other. */
  lemma AckedReceivedIff(script: seq<OutBunch>, first: nat, deeds: seq<Deed>, k: nat, b: OutBunch)
    requires Playable(script, first) && LanePossible(script, NewLane(first), deeds)
    requires NearRun(script, NewLane(first), deeds)
    requires var l := LaneRun(script, NewLane(first), deeds);
             && k < |l.net.link.a.reports| && l.net.link.a.reports[k]
             && k < |l.bodies| && b in l.bodies[k].recorded
    ensures var l := LaneRun(script, NewLane(first), deeds);
            b.sequence <= l.box.inReliable || b.sequence in l.box.unread <==> FitsPacket(b)
  {
    hide LaneRun, LanePossible, NearRun, Playable, OutOf, Scripted, FitsPacket, Fitting, CarriedIn;
    NewLaneOk(script, first);
    LaneRunKeeps(script, first, NewLane(first), deeds);
    var l := LaneRun(script, NewLane(first), deeds);
    var seen := CarriedIn(l.bodies, l.net.b.dispatched);
    DeliveredDispatched(l.net, k);
    CarriedInOf(script, l.handed, l.bodies, l.net.b.dispatched);
    AllOfMore(script, l.handed, |script|, seen);
    assert BodyOf(script, l.handed, l.bodies[k]);
    var i :| 0 <= i < |l.bodies[k].recorded| && l.bodies[k].recorded[i] == b;
    AllOfMore(script, l.handed, |script|, l.bodies[k].recorded);
    ScriptedIs(script, first, b);
    SeenIff(script, first, seen, b);
    NetConnection.FittingIs(l.bodies[k].recorded, b);
    CarriedInIs(l.bodies, l.net.b.dispatched, b);
    FittingOnly(script, l, b);
  }

  lemma DeliveredDispatched(n: Net, k: nat)
    requires NetInv(n) && k < |n.link.a.reports| && n.link.a.reports[k]
    ensures exists i :: 0 <= i < |n.b.dispatched| && n.b.dispatched[i] == k
  {
    ToldParts(n.link.a, n.link.b, n.link.fromB);
    assert PendingPackets.Arrived(n.link.b, k);
  }

  /** Sequences tell bunches apart. */
  lemma SeenIff(script: seq<OutBunch>, first: nat, bunches: seq<OutBunch>, b: OutBunch)
    requires Playable(script, first) && AllOf(script, |script|, bunches) && OneOf(script, |script|, b)
    ensures b.sequence in Sequences(bunches) <==> b in bunches
  {
    hide Playable, OneOf;
    ScriptedIs(script, first, b);
    forall i | 0 <= i < |bunches|
      ensures bunches[i].sequence == b.sequence ==> bunches[i] == b
    {
      ScriptedIs(script, first, bunches[i]);
    }
  }

  lemma FittingOnly(script: seq<OutBunch>, l: Lane, b: OutBunch)
    requires BodiesOf(script, l.handed, l.bodies)
    ensures b in CarriedIn(l.bodies, l.net.b.dispatched) ==> FitsPacket(b)
  {
    hide OneOf, FitsPacket, Fitting;
    CarriedInIs(l.bodies, l.net.b.dispatched, b);
    if b in CarriedIn(l.bodies, l.net.b.dispatched) {
      var i :| 0 <= i < |l.net.b.dispatched| && b in CarriedBy(l.bodies, l.net.b.dispatched[i]);
      assert BodyOf(script, l.handed, l.bodies[l.net.b.dispatched[i]]);
      NetConnection.FittingIs(l.bodies[l.net.b.dispatched[i]].recorded, b);
    }
  }

  // ----- short runs -----

  lemma {:induction false} NearShort(script: seq<OutBunch>, first: nat, box: Inbox, bunches: seq<OutBunch>,
                                     before: seq<OutBunch>)
    requires Playable(script, first) && |script| <= 511
    requires AllOf(script, |script|, bunches) && AllOf(script, |script|, before)
    requires R.Faithful(box, Scripted(script, first), first) && R.Accounts(box, first, Sequences(before))
    ensures Near(box, bunches)
    decreases |bunches|
  {
    hide Playable, OneOf, R.Faithful, R.Accounts, Scripted, ReceiveAll, Sequences;
    if bunches != [] {
      var n := |bunches| - 1;
      NearShort(script, first, box, bunches[..n], before);
      ReceiveAllFaithful(script, first, box, bunches[..n], Sequences(before));
      SequencesSum(before, bunches[..n]);
      AllOfSum(script, |script|, before, bunches[..n]);
      ReceivedHanded(script, first, ReceiveAll(box, bunches[..n]), before + bunches[..n], |script|);
      assert OneOf(script, |script|, bunches[n]);
      ScriptedIs(script, first, bunches[n]);
      Below32(script, first);
    }
  }

  /** While no more than 511 bunches have been sealed, every one meets an inbox near it. */
  lemma {:induction false} ShortRunIsNear(script: seq<OutBunch>, first: nat, l: Lane, deeds: seq<Deed>)
    requires Playable(script, first) && |script| <= 511
    requires LaneInv(script, first, l) && LanePossible(script, l, deeds)
    ensures NearRun(script, l, deeds)
    decreases |deeds|
  {
    hide Playable, Did, CanDeed, Near, NetOk, OutOf, BodiesOf, R.Faithful, R.Accounts, Scripted, Sequences, CarriedIn;
    if deeds != [] {
      var more, before := Received(l, deeds[0]), CarriedIn(l.bodies, l.net.b.dispatched);
      NoneOf(script, |script|);
      CarriedInOf(script, l.handed, l.bodies, l.net.b.pending);
      CarriedInOf(script, l.handed, l.bodies, l.net.b.dispatched);
      AllOfMore(script, l.handed, |script|, CarriedIn(l.bodies, l.net.b.pending));
      AllOfMore(script, l.handed, |script|, before);
      NearShort(script, first, l.box, more, before);
      DidKeeps(script, first, l, deeds[0]);
      ShortRunIsNear(script, first, Did(script, l, deeds[0]), deeds[1..]);
    }
  }

  lemma {:induction false} FramesIn(bunches: seq<OutBunch>)
    requires AllFrames(MessagesIn(bunches))
    ensures forall i | 0 <= i < |bunches| :: AllFrames(bunches[i].messages)
    decreases |bunches|
  {
    hide AllFrames;
    if bunches != [] {
      SplitFrames(MessagesIn(bunches[..|bunches| - 1]), bunches[|bunches| - 1].messages);
      FramesIn(bunches[..|bunches| - 1]);
    }
  }

  lemma {:induction false} PrefixOf(bunches: seq<OutBunch>, n: nat)
    requires AllFrames(MessagesIn(bunches)) && n <= |bunches|
    ensures AllFrames(MessagesIn(bunches[..n]))
    ensures DeliveriesOf(MessagesIn(bunches[..n])) <= DeliveriesOf(MessagesIn(bunches))
    decreases |bunches|
  {
    hide AllFrames, DeliveriesOf;
    if n < |bunches| {
      var m := |bunches| - 1;
      SplitFrames(MessagesIn(bunches[..m]), bunches[m].messages);
      PrefixOf(bunches[..m], n);
      assert bunches[..m][..n] == bunches[..n];
    } else {
      assert bunches[..n] == bunches;
    }
  }

  // ----- one short run -----

  const ONE_BUNCH := [Hand(1), Assemble(1), Network(AtA(Send)), Network(AtB(Arrive(0))), Network(AtB(Dispatch(true)))]

  const ONE_SENT := Net(Link(START.(out := 1, record := [-1]), START, [Header(0, 1, [])], []), Inlet([], []),
      Inlet([], []))

  lemma FirstPacket()
    ensures CanNet(NEW_NET, AtA(Send)) && NetDo(NEW_NET, AtA(Send)) == ONE_SENT
    ensures CanNet(ONE_SENT, AtB(Arrive(0)))
    ensures var n := NetDo(ONE_SENT, AtB(Arrive(0)));
            && n.b.pending == [0] && n.b.dispatched == [] && CanNet(n, AtB(Dispatch(true)))
            && NetDo(n, AtB(Dispatch(true))).b == Inlet([], [0])
  {
    assert HeaderOf(START) == Header(0, 1, []);
    var h := ONE_SENT.link.fromA[0];
    assert h.Acked() == -1 && AckProtocol.Readable(h) && ProcessAcks(START, h) == START;
    assert !START.IsWaiting() && AckProtocol.Fits(START, 0);
  }

  /** The lane once the bunch is in its packet. */
  function OneAssembled(b: OutBunch, first: nat, n: Net): Lane {
    Lane(n, Outbox([], map[0 := [b]]), [Body([b], [b])], 1, Inbox(first, map[], []))
  }

  lemma OneBunch(b: OutBunch)
    requires Travels(b)
    ensures SendableOf([b]) == [b] && Fitting([b]) == [b]
  {
    assert [b][1..] == [] && [b][..0] == [];
    assert SendableOf([b]) == [b] + SendableOf([]) && Fitting([b]) == Fitting([]) + [b];
  }

  lemma OneCarried(b: OutBunch, box: Inbox)
    ensures CarriedIn([Body([b], [b])], [0]) == [b]
    ensures ReceiveAll(box, [b]) == R.Receive(box, b.sequence, InBunchOf(b))
  {
    hide R.Receive;
    assert [0][..0] == [] && [b][..0] == [];
    assert CarriedIn([Body([b], [b])], [0]) == CarriedIn([Body([b], [b])], []) + [b];
  }

  lemma HandOne(b: OutBunch, first: nat)
    ensures CanDeed([b], NewLane(first), Hand(1))
    ensures Handed([b], NewLane(first), 1) == NewLane(first).(out := Outbox([b], map[]), handed := 1)
  {
    assert [b][0..1] == [b] && [] + [b] == [b];
  }

  lemma AssembleOne(b: OutBunch, first: nat)
    requires Travels(b)
    ensures Assembled(NewLane(first).(out := Outbox([b], map[]), handed := 1), 1) == OneAssembled(b, first, NEW_NET)
  {
    hide SendableOf, Fitting, Travels;
    OneBunch(b);
    assert [b][..1] == [b] && [b][1..] == [];
  }

  lemma SendOne(b: OutBunch, first: nat)
    ensures CanDeed([b], OneAssembled(b, first, NEW_NET), Network(AtA(Send)))
    ensures Did([b], OneAssembled(b, first, NEW_NET), Network(AtA(Send))) == OneAssembled(b, first, ONE_SENT)
    ensures CanDeed([b], OneAssembled(b, first, ONE_SENT), Network(AtB(Arrive(0))))
    ensures Did([b], OneAssembled(b, first, ONE_SENT), Network(AtB(Arrive(0))))
         == OneAssembled(b, first, NetDo(ONE_SENT, AtB(Arrive(0))))
  {
    hide NetDo, CanNet;
    FirstPacket();
  }

  lemma DispatchedOne(b: OutBunch, first: nat, n: Net)
    requires Playable([b], first) && n.b.pending == [0] && CanNet(n, AtB(Dispatch(true)))
    ensures Networked(OneAssembled(b, first, n), AtB(Dispatch(true))).box.received == DeliveriesOf(b.messages)
  {
    hide NetDo, CanNet, R.Receive, InSequence, CarriedIn, ReceiveAll;
    SequenceAt([b], first, 0);
    assert [b][0] == b;
    ReceiveInTurn(Inbox(first, map[], []), b);
    OneCarried(b, Inbox(first, map[], []));
    assert [] + DeliveriesOf(b.messages) == DeliveriesOf(b.messages);
  }

  /** The first bunch in the first packet: its messages are received when it is dispatched. */
  lemma OneDelivered(b: OutBunch, first: nat)
    requires Playable([b], first) && Travels(b)
    ensures LanePossible([b], NewLane(first), ONE_BUNCH)
    ensures LaneRun([b], NewLane(first), ONE_BUNCH).box.received == DeliveriesOf(b.messages)
  {
    hide NetDo, CanNet, Handed, Assembled, Networked, Playable, Travels;
    FirstPacket();
    HandOne(b, first);
    AssembleOne(b, first);
    SendOne(b, first);
    var n := NetDo(ONE_SENT, AtB(Arrive(0)));
    DispatchedOne(b, first, n);
    FiveDeeds([b], NewLane(first), Networked(OneAssembled(b, first, n), AtB(Dispatch(true))));
  }

  lemma FiveDeeds(script: seq<OutBunch>, l: Lane, z: Lane)
    requires CanDeed(script, l, ONE_BUNCH[0])
    requires var l1 := Did(script, l, ONE_BUNCH[0]);
             && CanDeed(script, l1, ONE_BUNCH[1])
             && var l2 := Did(script, l1, ONE_BUNCH[1]);
             && CanDeed(script, l2, ONE_BUNCH[2])
             && var l3 := Did(script, l2, ONE_BUNCH[2]);
             && CanDeed(script, l3, ONE_BUNCH[3])
             && var l4 := Did(script, l3, ONE_BUNCH[3]);
             && CanDeed(script, l4, ONE_BUNCH[4]) && z == Did(script, l4, ONE_BUNCH[4])
    ensures LanePossible(script, l, ONE_BUNCH) && LaneRun(script, l, ONE_BUNCH) == z
  {
    hide Did, CanDeed;
    var l1 := Did(script, l, ONE_BUNCH[0]);
    var l2 := Did(script, l1, ONE_BUNCH[1]);
    var l3 := Did(script, l2, ONE_BUNCH[2]);
    var l4 := Did(script, l3, ONE_BUNCH[3]);
    var d := ONE_BUNCH;
    assert d[1..][1..] == d[2..] && d[2..][1..] == d[3..] && d[3..][1..] == d[4..] && d[4..][1..] == [];
    assert LanePossible(script, z, []) && LaneRun(script, z, []) == z;
    assert LanePossible(script, l4, d[4..]) && LaneRun(script, l4, d[4..]) == z;
    assert LanePossible(script, l3, d[3..]) && LaneRun(script, l3, d[3..]) == z;
    assert LanePossible(script, l2, d[2..]) && LaneRun(script, l2, d[2..]) == z;
    assert LanePossible(script, l1, d[1..]) && LaneRun(script, l1, d[1..]) == z;
  }
}
