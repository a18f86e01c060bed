/** Two ends of a connection over a network that loses, repeats and reorders packets: what
    the notifications report is what the other end recorded. */
module AckRuns {
  import opened AckProtocol
  import opened MathUtility

  // ----- one end -----

  /** Every header sent so far, by number: the record repeats what they acknowledged. */
  ghost predicate Sent(x: Peer, wire: seq<Header>) {
    && |wire| == x.out && |x.reports| + |x.record| == x.out && x.OutAck() <= x.waiting <= x.out
    && (forall i | 0 <= i < |wire| :: wire[i].seqNo == i && wire[i].log <= x.log)
    && (forall i, j | 0 <= i <= j < |wire| :: wire[i].log <= wire[j].log)
    && (forall i | 0 <= i < |x.record| :: x.record[i] == wire[|x.reports| + i].Acked())
  }

  ghost predicate Ordered(x: Peer) {
    x.InAck() <= x.inSeq && -1 <= x.inAckAck <= x.inSeq
  }

  /** Recorded as lost, or not recorded. */
  ghost predicate LostAt(log: seq<bool>, k: nat) {
    k < |log| ==> !log[k]
  }

  ghost predicate AllLost(x: Peer) {
    forall k: nat | x.inAckAck < k :: LostAt(x.log, k)
  }

  /** The history reaches back to the last status known to be known, or nothing that it
      does not reach has arrived. */
  ghost predicate InHistory(x: Peer) {
    x.inSeq - x.inAckAck <= HISTORY_SIZE || (x.InAck() == x.inSeq && AllLost(x))
  }

  ghost predicate PeerOk(x: Peer, wire: seq<Header>) {
    Sent(x, wire) && Ordered(x) && InHistory(x)
  }

  // ----- what s has been told of its packets, and r has recorded of them -----

  /** s has been told all that r's headers up to the last one taken in acknowledge. */
  ghost predicate Heard(s: Peer, back: seq<Header>) {
    s.inSeq < |back| && forall i: nat | i <= s.inSeq :: |back[i].log| <= |s.reports|
  }

  /** What r takes for known and s has not been told is, or will be, recorded as lost. */
  ghost predicate Claimed(s: Peer, r: Peer) {
    forall k: nat | |s.reports| <= k <= r.inAckAck :: k < r.inSeq && LostAt(r.log, k)
  }

  /** What a header leaves out and s has not been told is lost. */
  ghost predicate Faithful(told: nat, h: Header) {
    forall k: nat | told <= k && h.Acked() - k >= BITS_PER_WORD * h.words :: LostAt(h.log, k)
  }

  ghost predicate AllFaithful(told: nat, back: seq<Header>) {
    forall i | 0 <= i < |back| :: Faithful(told, back[i])
  }

  ghost predicate Told(s: Peer, r: Peer, back: seq<Header>) {
    s.reports <= r.log && Heard(s, back) && Claimed(s, r) && AllFaithful(|s.reports|, back)
  }

  // ----- sending -----

  lemma SendKeepsOwn(x: Peer, wire: seq<Header>)
    requires PeerOk(x, wire)
    ensures PeerOk(Commit(x), wire + [HeaderOf(x)])
  {
    hide Words;
    assert AllLost(Commit(x)) == AllLost(x);
  }

  /** The history written reaches all that the peer has not been told. */
  lemma WordsSuffice(s: Peer, r: Peer)
    requires InHistory(r) && Ordered(r) && Claimed(s, r)
    ensures Faithful(|s.reports|, HeaderOf(r))
  {
    hide LostAt;
    var h := HeaderOf(r);
    forall k: nat | |s.reports| <= k && h.Acked() - k >= BITS_PER_WORD * h.words
      ensures LostAt(h.log, k)
    {
      assert BITS_PER_WORD * Words(r) >= HistoryLength(r);
    }
  }

  lemma ClaimedSame(s: Peer, r: Peer, z: Peer)
    requires Claimed(s, r) && (z.inAckAck == r.inAckAck || z.inAckAck < |s.reports|) && z.log == r.log
             && r.inSeq <= z.inSeq
    ensures Claimed(s, z)
  {
    forall k: nat | |s.reports| <= k <= z.inAckAck
      ensures k < z.inSeq && LostAt(z.log, k)
    {
      assert LostAt(r.log, k);
    }
  }

  lemma SendKeepsTold(s: Peer, r: Peer, back: seq<Header>)
    requires Told(s, r, back) && InHistory(r) && Ordered(r)
    ensures Told(s, Commit(r), back + [HeaderOf(r)])
  {
    hide Claimed, Faithful, LostAt, Words;
    WordsSuffice(s, r);
    ClaimedSame(s, r, Commit(r));
  }

  // ----- dispatching -----

  lemma AckSeqIs(log: seq<bool>, seqNo: int, isAck: bool)
    ensures log <= AckSeq(log, seqNo, isAck) && |AckSeq(log, seqNo, isAck)| == Max(|log|, seqNo + 1)
    ensures forall k: nat | k < seqNo && LostAt(log, k) :: LostAt(AckSeq(log, seqNo, isAck), k)
    ensures forall k: nat | !isAck && LostAt(log, k) :: LostAt(AckSeq(log, seqNo, isAck), k)
    ensures |log| <= seqNo ==> AckSeq(log, seqNo, isAck)[seqNo] == isAck
  {
  }

  /** Recording packets up to inSeq, all but the last as lost. */
  lemma RecordKeepsTold(s: Peer, r: Peer, z: Peer, back: seq<Header>, to: int, isAck: bool)
    requires Told(s, r, back) && z.inAckAck == r.inAckAck && r.inSeq <= to == z.inSeq
             && z.log == AckSeq(r.log, to, isAck)
    ensures Told(s, z, back)
  {
    hide AckSeq, LostAt;
    AckSeqIs(r.log, to, isAck);
    forall k: nat | |s.reports| <= k <= z.inAckAck
      ensures k < z.inSeq && LostAt(z.log, k)
    {
      assert LostAt(r.log, k);
    }
  }

  lemma DispatchKeeps(x: Peer, wire: seq<Header>, y: Peer, isAck: bool)
    requires PeerOk(x, wire) && Told(y, x, wire)
    ensures PeerOk(Dispatched(x, isAck), wire) && Told(y, Dispatched(x, isAck), wire)
  {
    hide AckSeq, LostAt, Told;
    AckSeqIs(x.log, x.inSeq, isAck);
    RecordKeepsTold(y, x, Dispatched(x, isAck), wire, x.inSeq, isAck);
    var z := Dispatched(x, isAck);
    assert x.InAck() == x.inSeq ==> z == x;
  }

  // ----- receiving -----

  lemma ReportsPrefix(h: Header, told: nat, log: seq<bool>)
    requires Faithful(told, h) && h.log <= log && told <= |h.log|
    ensures ReportsOf(h, told, |h.log| - told) == log[told..|h.log|]
  {
    var reports, recorded := ReportsOf(h, told, |h.log| - told), log[told..|h.log|];
    forall i | 0 <= i < |reports|
      ensures reports[i] == recorded[i]
    {
      var k := told + i;
      assert h.log[k] == log[k] && h.Acked() - k < |h.log|;
      assert Recent(h.log, h.Acked() - k) == h.log[k];
      assert h.Acked() - k >= BITS_PER_WORD * h.words ==> LostAt(h.log, k);
      assert reports[i] == Reported(h, k) && recorded[i] == log[k];
    }
  }

  /** Being told more of the record keeps everything. */
  lemma ToldMore(s: Peer, z: Peer, r: Peer, back: seq<Header>)
    requires Told(s, r, back) && |s.reports| <= |z.reports| && z.reports <= r.log && z.inSeq == s.inSeq
    ensures Told(z, r, back)
  {
    hide LostAt;
    forall k: nat | |z.reports| <= k <= r.inAckAck
      ensures LostAt(r.log, k) && k < r.inSeq
    {
    }
    forall i | 0 <= i < |back|
      ensures Faithful(|z.reports|, back[i])
    {
      assert Faithful(|s.reports|, back[i]);
    }
  }

  /** The reports a header gives rise to continue the record they come from. */
  lemma ProcessKeepsTold(x: Peer, wire: seq<Header>, y: Peer, back: seq<Header>, h: Header)
    requires PeerOk(x, wire) && PeerOk(y, back) && Told(x, y, back) && h in back && Accepts(x, h)
    ensures Told(ProcessAcks(x, h), y, back) && ProcessAcks(x, h).OutAck() == h.Acked()
  {
    hide LostAt, ReportsOf, InHistory, Ordered;
    var told := |x.reports|;
    var i :| 0 <= i < |back| && back[i] == h;
    assert Faithful(told, back[i]);
    ReportsPrefix(h, told, y.log);
    var z := ProcessAcks(x, h);
    assert x.reports + y.log[told..|h.log|] == y.log[..|h.log|];
    assert z.reports == y.log[..|h.log|];
    ToldMore(x, z, y, back);
  }

  lemma ProcessKeepsSent(x: Peer, wire: seq<Header>, h: Header)
    requires Sent(x, wire) && h.Acked() >= x.OutAck() && x.out > h.Acked()
    ensures Sent(ProcessAcks(x, h), wire)
  {
    hide ReportsOf;
    var count := h.Acked() - x.OutAck();
    var z := ProcessAcks(x, h);
    forall i | 0 <= i < |z.record|
      ensures z.record[i] == wire[|z.reports| + i].Acked()
    {
      assert z.record[i] == x.record[count + i];
    }
  }

  /** What x newly takes for known, y has been told. */
  lemma NewlyKnown(x: Peer, wire: seq<Header>, y: Peer, back: seq<Header>, h: Header)
    requires Sent(x, wire) && PeerOk(y, back) && Heard(y, wire) && h in back && Accepts(x, h) && h.Acked() > x.OutAck()
    ensures h.Acked() - x.OutAck() <= |x.record|
    ensures x.record[h.Acked() - x.OutAck() - 1] < |y.reports| && x.record[h.Acked() - x.OutAck() - 1] <= x.InAck()
    ensures x.record[h.Acked() - x.OutAck() - 1] >= -1
  {
    var i :| 0 <= i < |back| && back[i] == h;
    var q := h.Acked();
    assert q <= y.InAck() <= y.inSeq;
    assert x.record[q - x.OutAck() - 1] == wire[q].Acked();
    assert |wire[q].log| <= |y.reports| && wire[q].log <= x.log;
  }

  lemma ProcessKeepsOwn(x: Peer, wire: seq<Header>, y: Peer, back: seq<Header>, h: Header)
    requires PeerOk(x, wire) && PeerOk(y, back) && Told(y, x, wire) && h in back && Accepts(x, h)
    ensures PeerOk(ProcessAcks(x, h), wire) && Told(y, ProcessAcks(x, h), wire)
  {
    hide ReportsOf, LostAt, Sent, Claimed, Faithful;
    ProcessKeepsSent(x, wire, h);
    if h.Acked() > x.OutAck() {
      NewlyKnown(x, wire, y, back, h);
    }
    ClaimedSame(y, x, ProcessAcks(x, h));
  }

  lemma NothingUnacknowledged(p: Peer)
    requires InHistory(p) && Ordered(p) && !HasUnacknowledged(p)
    ensures AllLost(p)
  {
    if p.inSeq - p.inAckAck <= HISTORY_SIZE {
      forall k: nat | p.inAckAck < k
        ensures LostAt(p.log, k)
      {
        assert k < |p.log| ==> p.InAck() - k < HistoryLength(p);
        assert k < |p.log| ==> !Recent(p.log, p.InAck() - k);
      }
    }
  }

  lemma FlushToIs(p: Peer, seqNo: int)
    requires Ordered(p) && InHistory(p) && seqNo > p.inSeq
    ensures FlushTo(p, seqNo) <= seqNo
    ensures FlushTo(p, seqNo) - p.inAckAck <= HISTORY_SIZE || AllLost(p)
  {
    hide HasUnacknowledged;
    if !HasUnacknowledged(p) {
      NothingUnacknowledged(p);
    }
  }

  /** During a flush the packet, and any before it, are recorded as lost. */
  lemma FlushKeeps(x: Peer, wire: seq<Header>, y: Peer, seqNo: int)
    requires PeerOk(x, wire) && Told(y, x, wire) && seqNo > x.inSeq && x.IsWaiting()
    ensures PeerOk(TakeIn(x, seqNo), wire) && Told(y, TakeIn(x, seqNo), wire)
  {
    hide AckSeq, LostAt, Told, FlushTo;
    var to := FlushTo(x, seqNo);
    FlushToIs(x, seqNo);
    AckSeqIs(x.log, to, false);
    if to >= x.inSeq {
      RecordKeepsTold(y, x, TakeIn(x, seqNo), wire, to, false);
    }
  }

  /** Otherwise it is taken in; when the history moves on, only losses are forgotten. */
  lemma AcceptKeeps(x: Peer, wire: seq<Header>, y: Peer, seqNo: int)
    requires PeerOk(x, wire) && Told(y, x, wire) && seqNo > x.inSeq && !MakeRoom(x, seqNo).IsWaiting()
    ensures PeerOk(TakeIn(MakeRoom(x, seqNo), seqNo), wire) && Told(y, TakeIn(MakeRoom(x, seqNo), seqNo), wire)
  {
    hide LostAt, HasUnacknowledged;
    if !Fits(x, seqNo) && !HasUnacknowledged(x) {
      NothingUnacknowledged(x);
    }
  }

  lemma WaitKeeps(x: Peer, wire: seq<Header>, y: Peer, waiting: int)
    requires PeerOk(x, wire) && Told(y, x, wire) && x.OutAck() <= waiting <= x.out
    ensures PeerOk(x.(waiting := waiting), wire) && Told(y, x.(waiting := waiting), wire)
  {
    assert AllLost(x) == AllLost(x.(waiting := waiting));
    ClaimedSame(y, x, x.(waiting := waiting));
  }

  lemma WaitingBetween(x: Peer, wire: seq<Header>)
    requires PeerOk(x, wire)
    ensures x.OutAck() <= x.waiting <= x.out && x.OutAck() <= x.out
  {
  }

  lemma TakeInKeeps(x: Peer, wire: seq<Header>, y: Peer, seqNo: int)
    requires PeerOk(x, wire) && Told(y, x, wire) && seqNo > x.inSeq
    ensures PeerOk(TakeIn(MakeRoom(x, seqNo), seqNo), wire) && Told(y, TakeIn(MakeRoom(x, seqNo), seqNo), wire)
  {
    hide PeerOk, Told, TakeIn, HasUnacknowledged, Fits;
    WaitingBetween(x, wire);
    if MakeRoom(x, seqNo).IsWaiting() {
      WaitKeeps(x, wire, y, MakeRoom(x, seqNo).waiting);
      assert MakeRoom(x, seqNo) == x.(waiting := MakeRoom(x, seqNo).waiting);
      FlushKeeps(MakeRoom(x, seqNo), wire, y, seqNo);
    } else {
      AcceptKeeps(x, wire, y, seqNo);
    }
  }

  lemma TakenInBetween(x: Peer, seqNo: int)
    requires Ordered(x) && InHistory(x) && seqNo > x.inSeq
    ensures x.inSeq <= TakeIn(MakeRoom(x, seqNo), seqNo).inSeq <= seqNo
    ensures TakeIn(MakeRoom(x, seqNo), seqNo).reports == x.reports
  {
    hide HasUnacknowledged;
    FlushToIs(x, seqNo);
  }

  // ----- both ends -----

  /** The two ends, and every header each has ever sent: what is lost is never received,
      what is repeated is received again. */
  datatype Link = Link(a: Peer, b: Peer, fromA: seq<Header>, fromB: seq<Header>) {
    function Swapped(): Link {
      Link(b, a, fromB, fromA)
    }
  }

  /** What the end a does: sends a packet, receives the peer's packet with a number, or is
      done dispatching the packet taken in last. */
  datatype Event = Send | Arrive(seqNo: nat) | Dispatch(isAck: bool)

  datatype Action = AtA(e: Event) | AtB(e: Event)

  predicate Enabled(l: Link, e: Event) {
    e.Arrive? ==> e.seqNo < |l.fromB|
  }

  function StepA(l: Link, e: Event): Link
    requires Enabled(l, e)
  {
    match e
    case Send => l.(a := Commit(l.a), fromA := l.fromA + [HeaderOf(l.a)])
    case Arrive(seqNo) => l.(a := Receive(l.a, l.fromB[seqNo]))
    case Dispatch(isAck) => l.(a := Dispatched(l.a, isAck))
  }

  ghost predicate Inv(l: Link) {
    && PeerOk(l.a, l.fromA) && PeerOk(l.b, l.fromB)
    && Told(l.a, l.b, l.fromB) && Told(l.b, l.a, l.fromA)
  }

  lemma ToldSame(s: Peer, z: Peer, r: Peer, back: seq<Header>)
    requires Told(s, r, back) && z.reports == s.reports && z.inSeq == s.inSeq
    ensures Told(z, r, back)
  {
    hide LostAt, Faithful;
  }

  lemma SendKeeps(l: Link)
    requires Inv(l)
    ensures Inv(StepA(l, Send))
  {
    hide Words, Told, PeerOk;
    OwnParts(l.a, l.fromA);
    ToldSame(l.a, Commit(l.a), l.b, l.fromB);
    SendKeepsOwn(l.a, l.fromA);
    SendKeepsTold(l.b, l.a, l.fromA);
  }

  lemma DispatchStepKeeps(l: Link, isAck: bool)
    requires Inv(l)
    ensures Inv(StepA(l, Dispatch(isAck)))
  {
    hide Told, PeerOk;
    ToldSame(l.a, Dispatched(l.a, isAck), l.b, l.fromB);
    DispatchKeeps(l.a, l.fromA, l.b, isAck);
  }

  /** The headers up to the one received acknowledge nothing beyond it. */
  lemma HeardUpTo(x: Peer, z: Peer, y: Peer, back: seq<Header>, seqNo: nat)
    requires Told(x, y, back) && PeerOk(y, back) && seqNo < |back| && |x.reports| == |back[seqNo].log|
    requires z.reports == x.reports && z.inSeq <= seqNo
    ensures Told(z, y, back)
  {
    hide LostAt, InHistory, Ordered;
    forall i: nat | i <= z.inSeq
      ensures |back[i].log| <= |z.reports|
    {
      assert back[i].log <= back[seqNo].log;
    }
  }

  lemma ArriveKeeps(l: Link, seqNo: nat)
    requires Inv(l) && seqNo < |l.fromB|
    ensures Inv(StepA(l, Arrive(seqNo)))
  {
    hide PeerOk, Told, TakeIn, MakeRoom, ProcessAcks;
    var h := l.fromB[seqNo];
    if Readable(h) && Accepts(l.a, h) {
      var x := ProcessAcks(l.a, h);
      ProcessKeepsTold(l.a, l.fromA, l.b, l.fromB, h);
      ProcessKeepsOwn(l.a, l.fromA, l.b, l.fromB, h);
      ProcessedInSeq(l.a, h);
      NumberIs(l.b, l.fromB, seqNo);
      TakeInKeeps(x, l.fromA, l.b, seqNo);
      OwnParts(x, l.fromA);
      TakenInBetween(x, seqNo);
      HeardUpTo(x, TakeIn(MakeRoom(x, seqNo), seqNo), l.b, l.fromB, seqNo);
    }
  }

  lemma ProcessedInSeq(x: Peer, h: Header)
    ensures ProcessAcks(x, h).inSeq == x.inSeq
  {
  }

  lemma NumberIs(y: Peer, back: seq<Header>, seqNo: nat)
    requires PeerOk(y, back) && seqNo < |back|
    ensures back[seqNo].seqNo == seqNo
  {
  }

  lemma OwnParts(x: Peer, wire: seq<Header>)
    requires PeerOk(x, wire)
    ensures Ordered(x) && InHistory(x)
  {
  }

  lemma StepKeeps(l: Link, e: Event)
    requires Inv(l) && Enabled(l, e)
    ensures Inv(StepA(l, e))
  {
    hide Inv, StepA;
    match e
    case Send => SendKeeps(l);
    case Arrive(seqNo) => ArriveKeeps(l, seqNo);
    case Dispatch(isAck) => DispatchStepKeeps(l, isAck);
  }

  lemma SwapKeeps(l: Link)
    requires Inv(l)
    ensures Inv(l.Swapped())
  {
    hide PeerOk, Told;
  }

  predicate Possible(l: Link, actions: seq<Action>)
    decreases |actions|
  {
    actions == [] || (CanDo(l, actions[0]) && Possible(Do(l, actions[0]), actions[1..]))
  }

  predicate CanDo(l: Link, act: Action) {
    if act.AtA? then Enabled(l, act.e) else Enabled(l.Swapped(), act.e)
  }

  function Do(l: Link, act: Action): Link
    requires CanDo(l, act)
  {
    if act.AtA? then StepA(l, act.e) else StepA(l.Swapped(), act.e).Swapped()
  }

  function Run(l: Link, actions: seq<Action>): Link
    requires Possible(l, actions)
    decreases |actions|
  {
    if actions == [] then l else Run(Do(l, actions[0]), actions[1..])
  }

  lemma {:induction false} RunKeeps(l: Link, actions: seq<Action>)
    requires Inv(l) && Possible(l, actions)
    ensures Inv(Run(l, actions))
    decreases |actions|
  {
    hide Inv, StepA;
    if actions != [] {
      if actions[0].AtA? {
        StepKeeps(l, actions[0].e);
      } else {
        SwapKeeps(l);
        StepKeeps(l.Swapped(), actions[0].e);
        SwapKeeps(StepA(l.Swapped(), actions[0].e));
      }
      RunKeeps(Do(l, actions[0]), actions[1..]);
    }
  }

  const NEW_LINK := Link(START, START, [], [])

  lemma NewLinkOk()
    ensures Inv(NEW_LINK)
  {
  }

  /** In every run over such a network, flushes included, what the notifications have
      reported to an end, each own packet once and in order, is what the other end has
      recorded. */
  lemma ReportsAreRecorded(actions: seq<Action>)
    requires Possible(NEW_LINK, actions)
    ensures var l := Run(NEW_LINK, actions);
            l.a.reports <= l.b.log && l.b.reports <= l.a.log
  {
    hide Run, Possible;
    NewLinkOk();
    RunKeeps(NEW_LINK, actions);
  }

  // ----- a history that no header holds -----

  /** A header is readable exactly while no more than 32 packets wait to be confirmed. */
  lemma ReadableIff(p: Peer)
    ensures Readable(HeaderOf(p)) <==> HistoryLength(p) <= BITS_PER_WORD
  {
  }

  ghost predicate ArrivedAt(x: Peer, k: nat) {
    x.inAckAck < k < |x.log| && x.log[k]
  }

  /** The end b has recorded more than 32 packets that a does not know of, at least one of
      which arrived, and no readable header that could tell a is left. */
  ghost predicate DeadEnd(l: Link, k: nat) {
    && ArrivedAt(l.b, k) && l.b.InAck() - l.b.inAckAck > BITS_PER_WORD && l.b.inSeq - l.b.inAckAck <= HISTORY_SIZE
    && (forall i: nat | l.a.inSeq < i < |l.fromB| :: !Readable(l.fromB[i]))
    && l.a.inSeq <= l.b.OutAck()
  }

  /** What does not change any more. */
  ghost predicate SameNews(l: Link, z: Link) {
    z.a.inSeq == l.a.inSeq && z.a.reports == l.a.reports && z.b.reports == l.b.reports && z.b.inAckAck == l.b.inAckAck
  }

  lemma DeadAtA(l: Link, k: nat, e: Event)
    requires Inv(l) && DeadEnd(l, k) && Enabled(l, e)
    ensures DeadEnd(StepA(l, e), k) && SameNews(l, StepA(l, e))
  {
    hide ProcessAcks, TakeIn, MakeRoom, AckSeq, Told;
    if e.Arrive? {
      NumberIs(l.b, l.fromB, e.seqNo);
      assert !(Readable(l.fromB[e.seqNo]) && Accepts(l.a, l.fromB[e.seqNo]));
    }
  }

  lemma StillUnacknowledged(p: Peer, k: nat)
    requires ArrivedAt(p, k) && Ordered(p) && p.inSeq - p.inAckAck <= HISTORY_SIZE
    ensures HasUnacknowledged(p) && HistoryLength(p) == p.InAck() - p.inAckAck
  {
    assert Recent(p.log, p.InAck() - k);
  }

  /** The history cannot move on past a packet that arrived. */
  lemma DeadTakesIn(p: Peer, k: nat, seqNo: nat)
    requires ArrivedAt(p, k) && Ordered(p) && p.inSeq - p.inAckAck <= HISTORY_SIZE && seqNo > p.inSeq
             && p.out > p.OutAck()
    ensures var z := TakeIn(MakeRoom(p, seqNo), seqNo);
            && ArrivedAt(z, k) && z.InAck() >= p.InAck() && z.inSeq - z.inAckAck <= HISTORY_SIZE
            && z.inAckAck == p.inAckAck && z.reports == p.reports
  {
    hide AckSeq, HasUnacknowledged, HistoryLength;
    StillUnacknowledged(p, k);
    var r := MakeRoom(p, seqNo);
    StillUnacknowledged(r, k);
    AckSeqIs(r.log, FlushTo(r, seqNo), false);
  }

  lemma DeadAtB(l: Link, k: nat, e: Event)
    requires Inv(l) && DeadEnd(l, k) && Enabled(l.Swapped(), e)
    ensures DeadEnd(StepA(l.Swapped(), e).Swapped(), k) && SameNews(l, StepA(l.Swapped(), e).Swapped())
  {
    hide AckSeq, TakeIn, MakeRoom, HistoryLength, Told, InHistory;
    StillUnacknowledged(l.b, k);
    match e
    case Send =>
      ReadableIff(l.b);
    case Dispatch(isAck) =>
      AckSeqIs(l.b.log, l.b.inSeq, isAck);
    case Arrive(seqNo) =>
      var h := l.fromA[seqNo];
      assert h.log <= l.a.log && h.Acked() <= l.b.OutAck();
      if Accepts(l.b, h) {
        NumberIs(l.a, l.fromA, seqNo);
        assert ProcessAcks(l.b, h) == l.b;
        DeadTakesIn(l.b, k, seqNo);
      }
  }

  /** From such a state on, whatever happens, a takes in no packet of b, and neither end
      hears of its own packets again. */
  lemma {:induction false} DeadForever(l: Link, k: nat, actions: seq<Action>)
    requires Inv(l) && DeadEnd(l, k) && Possible(l, actions)
    ensures SameNews(l, Run(l, actions))
    decreases |actions|
  {
    hide Inv, StepA, DeadEnd;
    if actions != [] {
      if actions[0].AtA? {
        DeadAtA(l, k, actions[0].e);
        StepKeeps(l, actions[0].e);
      } else {
        DeadAtB(l, k, actions[0].e);
        SwapKeeps(l);
        StepKeeps(l.Swapped(), actions[0].e);
        SwapKeeps(StepA(l.Swapped(), actions[0].e));
      }
      DeadForever(Do(l, actions[0]), k, actions[1..]);
    }
  }

  lemma {:induction false} RunOn(l: Link, actions: seq<Action>, act: Action)
    requires Possible(l, actions) && CanDo(Run(l, actions), act)
    ensures Possible(l, actions + [act]) && Run(l, actions + [act]) == Do(Run(l, actions), act)
    decreases |actions|
  {
    hide Do, CanDo;
    if actions == [] {
      assert actions + [act] == [act] && [act][1..] == [];
    } else {
      RunOn(Do(l, actions[0]), actions[1..], act);
      assert (actions + [act])[1..] == actions[1..] + [act];
    }
  }

  /** a has sent n packets one after the other, each of which b has received and dispatched,
      and b has sent none itself.  From the 257th packet on b waits for a flush. */
  function OneSided(n: nat): Link {
    var m := Min(n, HISTORY_SIZE);
    Link(START.(out := n, record := seq(n, _ => -1)),
         START.(inSeq := m - 1, log := seq(m, _ => true), waiting := if n > HISTORY_SIZE then 0 else -1),
         seq(n, i requires 0 <= i < n => Header(i, 1, [])), [])
  }

  /** The n times three actions. */
  function Rounds(n: nat): seq<Action> {
    if n == 0 then [] else Rounds(n - 1) + [AtA(Send)] + [AtB(Arrive(n - 1))] + [AtB(Dispatch(true))]
  }

  lemma OneSidedSend(n: nat)
    ensures var sent := Do(OneSided(n), AtA(Send));
            sent == OneSided(n).(a := OneSided(n + 1).a, fromA := OneSided(n + 1).fromA)
  {
    var sent := Do(OneSided(n), AtA(Send));
    assert sent.a.record == OneSided(n + 1).a.record && sent.fromA == OneSided(n + 1).fromA;
  }

  lemma OneSidedReceive(n: nat)
    ensures var h := Header(n, 1, []);
            Dispatched(Receive(OneSided(n).b, h), true) == OneSided(n + 1).b
  {
    var b, h := OneSided(n).b, Header(n, 1, []);
    assert ProcessAcks(b, h) == b && Readable(h) && Accepts(b, h);
    if n < HISTORY_SIZE {
      assert !b.IsWaiting() && Fits(b, n);
      assert AckSeq(b.log, n, true) == OneSided(n + 1).b.log;
    } else {
      assert Recent(b.log, 0) && HistoryLength(b) == HISTORY_SIZE && !Fits(b, n);
      var r := MakeRoom(b, n);
      assert r == b.(waiting := 0) && r.IsWaiting();
      assert HasUnacknowledged(r) && FlushTo(r, n) == -1;
    }
  }

  lemma OneSidedRound(n: nat)
    ensures var sent := Do(OneSided(n), AtA(Send));
            && CanDo(sent, AtB(Arrive(n)))
            && Do(Do(sent, AtB(Arrive(n))), AtB(Dispatch(true))) == OneSided(n + 1)
  {
    hide Receive, Dispatched;
    OneSidedSend(n);
    OneSidedReceive(n);
    assert OneSided(n + 1).fromA[n] == Header(n, 1, []);
  }

  /** That state is reached from the start. */
  lemma {:induction false} OneSidedRun(n: nat)
    ensures Possible(NEW_LINK, Rounds(n)) && Run(NEW_LINK, Rounds(n)) == OneSided(n)
    decreases n
  {
    if n == 0 {
      assert OneSided(0) == NEW_LINK;
    } else {
      hide Do, OneSided, Run, Possible;
      var actions := Rounds(n - 1);
      OneSidedRun(n - 1);
      OneSidedRound(n - 1);
      assert CanDo(OneSided(n - 1), AtA(Send));
      RunOn(NEW_LINK, actions, AtA(Send));
      RunOn(NEW_LINK, actions + [AtA(Send)], AtB(Arrive(n - 1)));
      RunOn(NEW_LINK, actions + [AtA(Send)] + [AtB(Arrive(n - 1))], AtB(Dispatch(true)));
    }
  }

  /** A packet of b reaches a with nothing in between: it tells a all that b has recorded
      exactly when the history is at most 32 packets long, or a knew already. */
  lemma RecoversIff(l: Link)
    requires Inv(l)
    ensures var z := Do(Do(l, AtB(Send)), AtA(Arrive(|l.fromB|)));
            z.a.reports == l.b.log <==> HistoryLength(l.b) <= BITS_PER_WORD || l.a.reports == l.b.log
  {
    hide Words, Told, TakeIn, MakeRoom, HistoryLength, HeaderBits;
    var sent := Do(l, AtB(Send));
    var h := HeaderOf(l.b);
    var n := |l.fromB|;
    SwapKeeps(l);
    SendKeeps(l.Swapped());
    SwapKeeps(StepA(l.Swapped(), Send));
    assert sent.fromB[n] == h;
    ReadableIff(l.b);
    if Readable(h) {
      NewsIsAcceptable(l);
      ProcessKeepsTold(sent.a, sent.fromA, sent.b, sent.fromB, h);
      ToldParts(ProcessAcks(sent.a, h), sent.b, sent.fromB);
      assert ProcessAcks(sent.a, h).reports == l.b.log;
      ProcessedInSeq(sent.a, h);
      TakenInReports(ProcessAcks(sent.a, h), n);
    }
  }

  lemma ToldParts(s: Peer, r: Peer, back: seq<Header>)
    requires Told(s, r, back)
    ensures s.reports <= r.log
  {
  }

  lemma TakenInReports(p: Peer, seqNo: int)
    ensures TakeIn(MakeRoom(p, seqNo), seqNo).reports == p.reports
  {
  }

  lemma NewsIsAcceptable(l: Link)
    requires Inv(l)
    ensures Accepts(l.a, HeaderOf(l.b))
  {
  }

  lemma OneSidedOk(n: nat)
    ensures Inv(OneSided(n))
  {
    hide Inv, Run, Possible, OneSided, Rounds;
    OneSidedRun(n);
    NewLinkOk();
    RunKeeps(NEW_LINK, Rounds(n));
  }

  /** Of n packets that one end sends before the other sends its first, all taken in and
      dispatched, the sender never hears anything, whatever happens from then on, exactly
      when n is more than 32. */
  lemma OneSidedIff(n: nat)
    requires n > 0
    ensures (forall actions | Possible(OneSided(n), actions) :: Run(OneSided(n), actions).a.reports == [])
            <==> n > BITS_PER_WORD
  {
    var l := OneSided(n);
    OneSidedOk(n);
    assert HistoryLength(l.b) == Min(n, HISTORY_SIZE) == |l.b.log| && l.a.reports == [];
    assert n > BITS_PER_WORD ==> DeadEnd(l, 0) by {
      assert ArrivedAt(l.b, 0);
    }
    hide Inv, DeadEnd, OneSided, Run, Possible, Do;
    if n > BITS_PER_WORD {
      forall actions | Possible(l, actions)
        ensures Run(l, actions).a.reports == []
      {
        DeadForever(l, 0, actions);
      }
    } else {
      RecoversIff(l);
      TwoActions(l);
    }
  }

  lemma TwoActions(l: Link)
    ensures var actions := [AtB(Send), AtA(Arrive(|l.fromB|))];
            && Possible(l, actions)
            && Run(l, actions) == Do(Do(l, AtB(Send)), AtA(Arrive(|l.fromB|)))
  {
    var one := Do(l, AtB(Send));
    assert |one.fromB| == |l.fromB| + 1;
    assert CanDo(l, AtB(Send)) && CanDo(one, AtA(Arrive(|l.fromB|)));
    assert Possible(l, []) && Run(l, []) == l;
    hide Do, CanDo, Run, Possible;
    RunOn(l, [], AtB(Send));
    assert [] + [AtB(Send)] == [AtB(Send)];
    RunOn(l, [AtB(Send)], AtA(Arrive(|l.fromB|)));
    assert [AtB(Send)] + [AtA(Arrive(|l.fromB|))] == [AtB(Send), AtA(Arrive(|l.fromB|))];
  }
}
