/** Two connections with their queues of packets to be dispatched: how what was dispatched,
    what was recorded and what is reported hang together over every run. */
module DeliveryRuns {
  import opened AckProtocol
  import opened AckRuns
  import opened PendingPackets

  /** The packets waiting for dispatch, and those dispatched so far. */
  datatype Inlet = Inlet(pending: seq<nat>, dispatched: seq<nat>)

  datatype Net = Net(link: Link, a: Inlet, b: Inlet) {
    function Swapped(): Net {
      Net(link.Swapped(), b, a)
    }
  }

  const NEW_NET := Net(NEW_LINK, Inlet([], []), Inlet([], []))

  /** Dispatching is something that happens to a queue, and is always acknowledged. */
  predicate CanNetA(n: Net, e: Event) {
    Enabled(n.link, e) && (e.Dispatch? ==> e.isAck && n.a.pending != [])
  }

  function NetA(n: Net, e: Event): Net
    requires CanNetA(n, e)
  {
    var link := StepA(n.link, e);
    match e
    case Send => n.(link := link)
    case Arrive(seqNo) =>
      Net(link, n.a.(pending := n.a.pending + (if Queued(n.link.a, n.link.fromB[seqNo]) then [seqNo] else [])), n.b)
    case Dispatch(_) => Net(link, Inlet([], n.a.dispatched + n.a.pending), n.b)
  }

  predicate CanNet(n: Net, act: Action) {
    if act.AtA? then CanNetA(n, act.e) else CanNetA(n.Swapped(), act.e)
  }

  function NetDo(n: Net, act: Action): Net
    requires CanNet(n, act)
  {
    if act.AtA? then NetA(n, act.e) else NetA(n.Swapped(), act.e).Swapped()
  }

  predicate NetPossible(n: Net, actions: seq<Action>)
    decreases |actions|
  {
    actions == [] || (CanNet(n, actions[0]) && NetPossible(NetDo(n, actions[0]), actions[1..]))
  }

  function NetRun(n: Net, actions: seq<Action>): Net
    requires NetPossible(n, actions)
    decreases |actions|
  {
    if actions == [] then n else NetRun(NetDo(n, actions[0]), actions[1..])
  }

  /** A packet taken in and not recorded yet waits for dispatch; a packet recorded as
      arrived has been dispatched. */
  ghost predicate InletOk(p: Peer, q: Inlet) {
    && (p.InAck() < p.inSeq ==> p.inSeq in q.pending)
    && (forall k: nat | Arrived(p, k) :: k in q.dispatched)
  }

  ghost predicate NetInv(n: Net) {
    Inv(n.link) && InletOk(n.link.a, n.a) && InletOk(n.link.b, n.b)
  }

  lemma DispatchKeepsInlet(p: Peer, q: Inlet)
    requires InletOk(p, q) && Ordered(p)
    ensures InletOk(Dispatched(p, true), Inlet([], q.dispatched + q.pending))
  {
    forall k: nat | Arrived(Dispatched(p, true), k)
      ensures k in q.dispatched + q.pending
    {
      RecordedIff(p, k);
    }
  }

  lemma ArrivedSame(p: Peer, z: Peer, to: int)
    requires z.log == AckSeq(p.log, to, false) || z.log == p.log
    ensures forall k: nat | Arrived(z, k) :: Arrived(p, k)
  {
  }

  lemma ArriveKeepsInlet(p: Peer, q: Inlet, h: Header)
    requires InletOk(p, q)
    ensures InletOk(Receive(p, h), q.(pending := q.pending + (if Queued(p, h) then [h.seqNo] else [])))
  {
    hide AckSeq, HasUnacknowledged, Fits, FlushTo, Reported, Readable, HistoryLength;
    if Readable(h) && Accepts(p, h) {
      var x := MakeRoom(ProcessAcks(p, h), h.seqNo);
      var to := FlushTo(x, h.seqNo);
      ArrivedSame(p, Receive(p, h), to);
      AckSeqIs(p.log, to, false);
    }
  }

  lemma NetAKeeps(n: Net, e: Event)
    requires NetInv(n) && CanNetA(n, e)
    ensures NetInv(NetA(n, e))
  {
    hide Inv, InletOk, StepA;
    StepKeeps(n.link, e);
    match e
    case Send =>
      SendInlet(n);
    case Arrive(seqNo) =>
      ArriveInlet(n, seqNo);
    case Dispatch(_) =>
      DispatchInlet(n);
  }

  lemma SendInlet(n: Net)
    requires NetInv(n)
    ensures InletOk(StepA(n.link, Send).a, n.a) && StepA(n.link, Send).b == n.link.b
  {
  }

  lemma ArriveInlet(n: Net, seqNo: nat)
    requires NetInv(n) && CanNetA(n, Arrive(seqNo))
    ensures var link := StepA(n.link, Arrive(seqNo));
            InletOk(link.a, NetA(n, Arrive(seqNo)).a) && link.b == n.link.b
  {
    hide InletOk, Receive, Queued, Told;
    NumberIs(n.link.b, n.link.fromB, seqNo);
    ArriveKeepsInlet(n.link.a, n.a, n.link.fromB[seqNo]);
  }

  lemma DispatchInlet(n: Net)
    requires NetInv(n) && n.a.pending != []
    ensures var link := StepA(n.link, Dispatch(true));
            InletOk(link.a, Inlet([], n.a.dispatched + n.a.pending)) && link.b == n.link.b
  {
    hide InletOk, Told;
    DispatchKeepsInlet(n.link.a, n.a);
  }

  lemma NetKeeps(n: Net, act: Action)
    requires NetInv(n) && CanNet(n, act)
    ensures NetInv(NetDo(n, act))
  {
    hide InletOk, Inv, NetA;
    if act.AtA? {
      NetAKeeps(n, act.e);
    } else {
      SwapKeeps(n.link);
      NetAKeeps(n.Swapped(), act.e);
      SwapKeeps(NetA(n.Swapped(), act.e).link);
    }
  }

  lemma {:induction false} NetRunKeeps(n: Net, actions: seq<Action>)
    requires NetInv(n) && NetPossible(n, actions)
    ensures NetInv(NetRun(n, actions))
    decreases |actions|
  {
    hide NetInv, NetDo, CanNet;
    if actions != [] {
      NetKeeps(n, actions[0]);
      NetRunKeeps(NetDo(n, actions[0]), actions[1..]);
    }
  }

  lemma NewNetOk()
    ensures NetInv(NEW_NET)
  {
    NewLinkOk();
  }

  /** In every run, a packet reported delivered to its sender has been dispatched at the
      other end. */
  lemma DeliveredWasDispatched(actions: seq<Action>, k: nat)
    requires NetPossible(NEW_NET, actions)
    ensures var n := NetRun(NEW_NET, actions);
            && (k < |n.link.a.reports| && n.link.a.reports[k] ==> k in n.b.dispatched)
            && (k < |n.link.b.reports| && n.link.b.reports[k] ==> k in n.a.dispatched)
  {
    hide NetRun, NetPossible;
    NewNetOk();
    NetRunKeeps(NEW_NET, actions);
    var n := NetRun(NEW_NET, actions);
    ToldParts(n.link.a, n.link.b, n.link.fromB);
    ToldParts(n.link.b, n.link.a, n.link.fromA);
    assert k < |n.link.a.reports| && n.link.a.reports[k] ==> Arrived(n.link.b, k);
    assert k < |n.link.b.reports| && n.link.b.reports[k] ==> Arrived(n.link.a, k);
  }

  /** A readable packet that has been taken in before, or overtaken, is dispatched again each
      time it arrives, and nothing is recorded or reported for it. */
  lemma RepeatIsDispatched(n: Net, seqNo: nat)
    requires NetInv(n) && seqNo < |n.link.fromB| && seqNo <= n.link.a.inSeq && Readable(n.link.fromB[seqNo])
    ensures NetA(n, Arrive(seqNo)) == n.(a := n.a.(pending := n.a.pending + [seqNo]))
  {
    hide Told, Receive;
    NumberIs(n.link.b, n.link.fromB, seqNo);
    NotTaken(n.link.a, n.link.fromB[seqNo]);
  }

  lemma NotTaken(p: Peer, h: Header)
    requires !Accepts(p, h)
    ensures Receive(p, h) == p
  {
  }

  // ----- which packets are recorded as arrived -----

  ghost predicate NoDispatchAtA(actions: seq<Action>) {
    forall i | 0 <= i < |actions| :: !(actions[i].AtA? && actions[i].e.Dispatch?)
  }

  lemma ArriveGainsNothing(p: Peer, h: Header)
    ensures forall k: nat | Arrived(Receive(p, h), k) :: Arrived(p, k)
  {
    hide AckSeq, HasUnacknowledged, Fits, FlushTo, Reported, Readable, HistoryLength;
    ArrivedSame(p, Receive(p, h), FlushTo(MakeRoom(ProcessAcks(p, h), h.seqNo), h.seqNo));
  }

  lemma StepGainsNothing(n: Net, act: Action)
    requires CanNet(n, act) && !(act.AtA? && act.e.Dispatch?)
    ensures forall k: nat | Arrived(NetDo(n, act).link.a, k) :: Arrived(n.link.a, k)
  {
    hide Receive;
    if act.AtA? && act.e.Arrive? {
      ArriveGainsNothing(n.link.a, n.link.fromB[act.e.seqNo]);
    }
  }

  /** Until a queue is dispatched nothing is recorded as arrived. */
  lemma {:induction false} NothingArrives(n: Net, actions: seq<Action>)
    requires NetPossible(n, actions) && NoDispatchAtA(actions)
    ensures forall k: nat | Arrived(NetRun(n, actions).link.a, k) :: Arrived(n.link.a, k)
    decreases |actions|
  {
    hide NetDo, CanNet, Arrived;
    if actions != [] {
      StepGainsNothing(n, actions[0]);
      NothingArrives(NetDo(n, actions[0]), actions[1..]);
    }
  }

  /** A packet just taken in waits for dispatch, whatever happens until then.  It is recorded
      as arrived exactly when by then no other packet has been taken in and no flush has
      recorded it as lost. */
  lemma TakenInRecordedIff(n: Net, actions: seq<Action>)
    requires NetInv(n) && n.link.a.InAck() < n.link.a.inSeq
    requires NetPossible(n, actions) && NoDispatchAtA(actions)
    ensures var k, z := n.link.a.inSeq, NetRun(n, actions);
            && k in z.a.pending && CanNet(z, AtA(Dispatch(true)))
            && k in NetDo(z, AtA(Dispatch(true))).a.dispatched
            && (Arrived(NetDo(z, AtA(Dispatch(true))).link.a, k) <==> z.link.a.inSeq == k && z.link.a.InAck() < k)
  {
    hide NetRun, NetPossible, NoDispatchAtA, Inv;
    var k, z := n.link.a.inSeq, NetRun(n, actions);
    NothingArrives(n, actions);
    StillPending(n, actions, k);
    RecordedIff(z.link.a, k);
  }

  lemma StepKeepsPending(n: Net, act: Action, k: nat)
    requires CanNet(n, act) && !(act.AtA? && act.e.Dispatch?) && k in n.a.pending
    ensures k in NetDo(n, act).a.pending
  {
    hide StepA, Queued;
  }

  lemma {:induction false} StillPending(n: Net, actions: seq<Action>, k: nat)
    requires NetPossible(n, actions) && NoDispatchAtA(actions) && k in n.a.pending
    ensures k in NetRun(n, actions).a.pending
    decreases |actions|
  {
    hide NetDo, CanNet;
    if actions != [] {
      StepKeepsPending(n, actions[0], k);
      StillPending(NetDo(n, actions[0]), actions[1..], k);
    }
  }

  // ----- three short runs -----

  predicate Goes(n: Net, act: Action, z: Net) {
    CanNet(n, act) && NetDo(n, act) == z
  }

  /** A run given by the states it passes through. */
  lemma {:induction false} RunThrough(states: seq<Net>, actions: seq<Action>)
    requires |states| == |actions| + 1
    requires forall i | 0 <= i < |actions| :: Goes(states[i], actions[i], states[i + 1])
    ensures NetPossible(states[0], actions) && NetRun(states[0], actions) == states[|actions|]
    decreases |actions|
  {
    hide NetDo, CanNet;
    if actions != [] {
      assert Goes(states[0], actions[0], states[1]);
      forall i | 0 <= i < |actions[1..]|
        ensures Goes(states[1..][i], actions[1..][i], states[1..][i + 1])
      {
        assert Goes(states[i + 1], actions[i + 1], states[i + 2]);
      }
      RunThrough(states[1..], actions[1..]);
    }
  }

  const ONE_SENT := Net(Link(START, START.(out := 1, record := [-1]), [], [Header(0, 1, [])]), Inlet([], []),
      Inlet([], []))

  /** b has sent its first two packets. */
  const TWO_SENT := Net(Link(START, START.(out := 2, record := [-1, -1]), [], [Header(0, 1, []), Header(1, 1, [])]),
                        Inlet([], []), Inlet([], []))

  lemma TwoSent()
    ensures Goes(NEW_NET, AtB(Send), ONE_SENT) && Goes(ONE_SENT, AtB(Send), TWO_SENT)
  {
    assert HeaderOf(START) == Header(0, 1, []);
    assert HeaderOf(START.(out := 1, record := [-1])) == Header(1, 1, []);
  }

  /** What a has become when packets have arrived and queues have been dispatched. */
  function AtTwo(inSeq: int, log: seq<bool>, pending: seq<nat>, dispatched: seq<nat>): Net {
    TWO_SENT.(link := TWO_SENT.link.(a := START.(inSeq := inSeq, log := log)), a := Inlet(pending, dispatched))
  }

  lemma ArriveTwo(inSeq: int, log: seq<bool>, seqNo: nat, pending: seq<nat>, done: seq<nat>)
    requires -1 <= inSeq <= 1 && seqNo <= 1 && |log| <= inSeq + 1
    ensures Goes(AtTwo(inSeq, log, pending, done), AtA(Arrive(seqNo)),
                 AtTwo(if seqNo > inSeq then seqNo else inSeq, log, pending + [seqNo], done))
  {
    var p := START.(inSeq := inSeq, log := log);
    var h := TWO_SENT.link.fromB[seqNo];
    assert h.Acked() == -1 && h.seqNo == seqNo && Readable(h);
    assert ProcessAcks(p, h) == p && !p.IsWaiting() && Fits(p, seqNo);
  }

  lemma DispatchTwo(inSeq: nat, before: seq<bool>, log: seq<bool>, pending: seq<nat>, done: seq<nat>)
    requires pending != [] && log == AckSeq(before, inSeq, true)
    ensures Goes(AtTwo(inSeq, before, pending, done), AtA(Dispatch(true)), AtTwo(inSeq, log, [], done + pending))
  {
  }

  lemma ReportTwo()
    ensures var n := NetDo(AtTwo(1, [false, true], [], [0, 1]), AtA(Send));
            CanNet(n, AtB(Arrive(0))) && NetDo(n, AtB(Arrive(0))).link.b.reports == [false, true]
  {
    var n := NetDo(AtTwo(1, [false, true], [], [0, 1]), AtA(Send));
    var b, h := TWO_SENT.link.b, n.link.fromA[0];
    assert h == HeaderOf(AtTwo(1, [false, true], [], [0, 1]).link.a) && h.words == 1 && h.log == [false, true];
    assert Accepts(b, h) && Readable(h);
    assert !Reported(h, 0) && Reported(h, 1);
    assert ReportsOf(h, 0, 2) == [false, true];
    assert ProcessAcks(b, h).reports == [] + [false, true];
  }

  const TOGETHER := [AtB(Send), AtB(Send), AtA(Arrive(0)), AtA(Arrive(1)), AtA(Dispatch(true)), AtA(Send),
      AtB(Arrive(0))]

  /** Packets 0 and 1 wait in one queue: both are dispatched, 0 is recorded, and then
      reported, as lost. */
  lemma TogetherLost()
    ensures NetPossible(NEW_NET, TOGETHER)
    ensures var z := NetRun(NEW_NET, TOGETHER);
            z.a.dispatched == [0, 1] && z.link.a.log == [false, true] && z.link.b.reports == [false, true]
  {
    TwoSent();
    ArriveTwo(-1, [], 0, [], []);
    ArriveTwo(0, [], 1, [0], []);
    DispatchTwo(1, [], [false, true], [0, 1], []);
    ReportTwo();
    var n := AtTwo(1, [false, true], [], [0, 1]);
    var sent := NetDo(n, AtA(Send));
    var states := [NEW_NET, ONE_SENT, TWO_SENT, AtTwo(0, [], [0], []), AtTwo(1, [], [0, 1], []), n, sent,
                   NetDo(sent, AtB(Arrive(0)))];
    assert TWO_SENT == AtTwo(-1, [], [], []);
    ThroughTwo(sent, [0, 1]);
    hide Goes, AtTwo;
    RunThrough(states, TOGETHER);
  }

  /** What the last two actions leave alone. */
  lemma ThroughTwo(sent: Net, done: seq<nat>)
    requires CanNet(sent, AtB(Arrive(0))) && sent == NetDo(AtTwo(1, [false, true], [], done), AtA(Send))
    ensures var z := NetDo(sent, AtB(Arrive(0)));
            z.a.dispatched == done && z.link.a.log == [false, true]
    ensures Goes(AtTwo(1, [false, true], [], done), AtA(Send), sent)
    ensures Goes(sent, AtB(Arrive(0)), NetDo(sent, AtB(Arrive(0))))
  {
    hide Receive, Queued;
  }

  const OVERTAKEN := [AtB(Send), AtB(Send), AtA(Arrive(1)), AtA(Dispatch(true)), AtA(Arrive(0)), AtA(Dispatch(true))]

  /** Packet 0 arrives after 1 has been dispatched: alone in the queue it is dispatched, and
      stays recorded as lost. */
  lemma OvertakenLost()
    ensures NetPossible(NEW_NET, OVERTAKEN[..5]) && NetRun(NEW_NET, OVERTAKEN[..5]).a.pending == [0]
    ensures NetPossible(NEW_NET, OVERTAKEN)
    ensures var z := NetRun(NEW_NET, OVERTAKEN);
            z.a.dispatched == [1, 0] && z.link.a.log == [false, true]
  {
    TwoSent();
    ArriveTwo(-1, [], 1, [], []);
    DispatchTwo(1, [], [false, true], [1], []);
    ArriveTwo(1, [false, true], 0, [], [1]);
    DispatchTwo(1, [false, true], [false, true], [0], [1]);
    var states := [NEW_NET, ONE_SENT, TWO_SENT, AtTwo(1, [], [1], []), AtTwo(1, [false, true], [], [1]),
                   AtTwo(1, [false, true], [0], [1]), AtTwo(1, [false, true], [], [1, 0])];
    assert TWO_SENT == AtTwo(-1, [], [], []);
    hide Goes;
    assert states[..6][5] == states[5];
    RunThrough(states[..6], OVERTAKEN[..5]);
    RunThrough(states, OVERTAKEN);
  }

  const REPEATED := [AtB(Send), AtB(Send), AtA(Arrive(0)), AtA(Arrive(0)), AtA(Dispatch(true))]

  /** Packet 0 arrives twice: both are dispatched, and the record is right. */
  lemma RepeatedRight()
    ensures NetPossible(NEW_NET, REPEATED)
    ensures var z := NetRun(NEW_NET, REPEATED);
            z.a.dispatched == [0, 0] && z.link.a.log == [true]
  {
    TwoSent();
    ArriveTwo(-1, [], 0, [], []);
    ArriveTwo(0, [], 0, [0], []);
    DispatchTwo(0, [], [true], [0, 0], []);
    var states := [NEW_NET, ONE_SENT, TWO_SENT, AtTwo(0, [], [0], []), AtTwo(0, [], [0, 0], []),
                   AtTwo(0, [true], [], [0, 0])];
    assert TWO_SENT == AtTwo(-1, [], [], []);
    hide Goes;
    RunThrough(states, REPEATED);
  }
}
