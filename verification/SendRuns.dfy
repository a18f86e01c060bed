/** The send side over whole runs: where every bunch is, and in which order bunches go
    back to the queue. */
module SendRuns {
  import opened BunchBuilder
  import opened MathUtility
  import opened NetChannel
  import opened OrderedMap

  /** A channel's outbox together with what has left it: the bunches ever taken from the
      builder, those in the hands of the packet assembly, those acknowledged, and those
      refused by a full reliable buffer, which closes the connection. */
  datatype SendState = SendState(out: Outbox, taken: multiset<OutBunch>, hands: multiset<OutBunch>,
                                 acked: multiset<OutBunch>, refused: multiset<OutBunch>, closed: bool)

  datatype Event =
    | Flush(ready: seq<OutBunch>)
    | Dequeue
    | AddUnAcked(packetId: nat, bunch: OutBunch)
    | Ack(packetId: nat)
    | Nack(packetId: nat)
    | ForceRetransmit

  const EMPTY := SendState(Outbox([], map[]), multiset{}, multiset{}, multiset{}, multiset{}, false)

  /** The assembly only records bunches it has dequeued. */
  ghost predicate Enabled(s: SendState, e: Event) {
    e.AddUnAcked? ==> e.bunch in s.hands
  }

  ghost function Step(s: SendState, e: Event): SendState
    requires Enabled(s, e)
  {
    match e
    case Flush(ready) =>
      s.(out := s.out.(queue := s.out.queue + ready), taken := s.taken + multiset(ready))
    case Dequeue =>
      if s.out.queue == [] then s
      else s.(out := s.out.(queue := s.out.queue[1..]), hands := s.hands + multiset{s.out.queue[0]})
    case AddUnAcked(packetId, bunch) =>
      var left := s.(hands := s.hands - multiset{bunch});
      if s.out.HasRoom() then left.(out := s.out.AddUnAcked(packetId, bunch))
      else left.(refused := s.refused + multiset{bunch}, closed := true)
    case Ack(packetId) =>
      s.(out := s.out.Acked(packetId), acked := s.acked + multiset(BunchesOf(s.out, packetId)))
    case Nack(packetId) =>
      s.(out := s.out.Nacked(packetId))
    case ForceRetransmit =>
      s.(out := s.out.ForceRetransmit())
  }

  /** Each bunch taken from the builder is in exactly one place, as often as it was taken. */
  ghost predicate Conserved(s: SendState) {
    && s.taken == multiset(s.out.queue) + s.hands + multiset(InOrder(s.out.unacked)) + s.acked + s.refused
    && |s.out.unacked| <= RELIABLE_BUFFER
  }

  lemma {:induction false} InOrderRemove(m: map<nat, seq<OutBunch>>, k: nat)
    requires k in m
    ensures multiset(InOrder(m)) == multiset(InOrder(m - {k})) + multiset(m[k])
    decreases |m|
  {
    var x := MaxKey(m);
    Shrinks(m, x);
    if k != x {
      var rest := m - {k};
      assert rest[x] == m[x] && x in rest;
      assert MaxKey(rest) == x;
      assert rest - {x} == (m - {x}) - {k};
      InOrderRemove(m - {x}, k);
      assert multiset(InOrder(rest)) == multiset(InOrder(rest - {x})) + multiset(m[x]);
    }
  }

  lemma InOrderPut(m: map<nat, seq<OutBunch>>, k: nat, b: OutBunch)
    ensures var before := if k in m then m[k] else [];
            multiset(InOrder(m[k := before + [b]])) == multiset(InOrder(m)) + multiset{b}
  {
    var before := if k in m then m[k] else [];
    var after := m[k := before + [b]];
    InOrderRemove(after, k);
    assert after - {k} == m - {k};
    if k in m {
      InOrderRemove(m, k);
    } else {
      assert m - {k} == m;
    }
  }

  lemma FlushConserves(s: SendState, ready: seq<OutBunch>)
    requires Conserved(s)
    ensures Conserved(Step(s, Flush(ready)))
  {
    hide InOrder;
  }

  lemma DequeueConserves(s: SendState)
    requires Conserved(s)
    ensures Conserved(Step(s, Dequeue))
  {
    hide InOrder;
    if s.out.queue != [] {
      assert s.out.queue == [s.out.queue[0]] + s.out.queue[1..];
    }
  }

  lemma AddConserves(s: SendState, packetId: nat, bunch: OutBunch)
    requires Conserved(s) && bunch in s.hands
    ensures Conserved(Step(s, AddUnAcked(packetId, bunch)))
  {
    hide InOrder;
    InOrderPut(s.out.unacked, packetId, bunch);
    AddedSize(s.out.unacked, packetId, BunchesOf(s.out, packetId) + [bunch]);
  }

  lemma AckConserves(s: SendState, packetId: nat)
    requires Conserved(s)
    ensures Conserved(Step(s, Ack(packetId)))
  {
    hide InOrder;
    TakenOut(s.out.unacked, packetId);
  }

  lemma NackConserves(s: SendState, packetId: nat)
    requires Conserved(s)
    ensures Conserved(Step(s, Nack(packetId)))
  {
    hide InOrder;
    TakenOut(s.out.unacked, packetId);
  }

  lemma ForceConserves(s: SendState)
    requires Conserved(s)
    ensures Conserved(Step(s, ForceRetransmit))
  {
    hide InOrder;
    InOrderNone();
  }

  lemma StepConserves(s: SendState, e: Event)
    requires Conserved(s) && Enabled(s, e)
    ensures Conserved(Step(s, e))
  {
    hide Step, Conserved;
    match e
    case Flush(ready) => FlushConserves(s, ready);
    case Dequeue => DequeueConserves(s);
    case AddUnAcked(packetId, bunch) => AddConserves(s, packetId, bunch);
    case Ack(packetId) => AckConserves(s, packetId);
    case Nack(packetId) => NackConserves(s, packetId);
    case ForceRetransmit => ForceConserves(s);
  }

  lemma TakenOut(m: map<nat, seq<OutBunch>>, k: nat)
    ensures |m - {k}| <= |m|
    ensures multiset(InOrder(m)) == multiset(InOrder(m - {k})) + multiset(if k in m then m[k] else [])
  {
    if k in m {
      InOrderRemove(m, k);
      Shrinks(m, k);
    } else {
      assert m - {k} == m;
    }
  }

  ghost predicate Possible(s: SendState, events: seq<Event>)
    decreases |events|
  {
    events == [] || (Enabled(s, events[0]) && Possible(Step(s, events[0]), events[1..]))
  }

  ghost function Run(s: SendState, events: seq<Event>): SendState
    requires Possible(s, events)
    decreases |events|
  {
    if events == [] then s else Run(Step(s, events[0]), events[1..])
  }

  /** Conservation over every run: no sequence of flushes, dequeues, sends, acks, nacks and
      forced retransmissions loses or duplicates a bunch, and at most RELIABLE_BUFFER
      packets ever wait. */
  lemma {:induction false} RunConserves(s: SendState, events: seq<Event>)
    requires Conserved(s) && Possible(s, events)
    ensures Conserved(Run(s, events))
    decreases |events|
  {
    if events != [] {
      StepConserves(s, events[0]);
      RunConserves(Step(s, events[0]), events[1..]);
    }
  }

  lemma EmptyConserved()
    ensures Conserved(EMPTY)
  {
    InOrderNone();
  }

  // ----- the order of retransmission -----

  /** Nacked for every packet outstanding, highest id first. */
  ghost function NackDown(out: Outbox): Outbox
    decreases |out.unacked|
  {
    if out.unacked == map[] then out
    else
      var k := MaxKey(out.unacked);
      Shrinks(out.unacked, k);
      NackDown(out.Nacked(k))
  }

  /** Nacked for every packet outstanding, lowest id first: the order in which the
      notifications of a lost stretch arrive. */
  ghost function NackUp(out: Outbox): Outbox
    decreases |out.unacked|
  {
    if out.unacked == map[] then out
    else
      var k := MinKey(out.unacked);
      Shrinks(out.unacked, k);
      NackUp(out.Nacked(k))
  }

  /** The packets in descending order, each packet's bunches in their own. */
  ghost function Descending(unacked: map<nat, seq<OutBunch>>): seq<OutBunch>
    decreases |unacked|
  {
    if unacked == map[] then []
    else
      var k := MinKey(unacked);
      Shrinks(unacked, k);
      Descending(unacked - {k}) + unacked[k]
  }

  /** ForceRetransmitAllUnAcked does what Nacked does packet by packet from the highest
      id down. */
  lemma {:induction false} ForceIsNackDown(out: Outbox)
    ensures NackDown(out) == out.ForceRetransmit()
    decreases |out.unacked|
  {
    if out.unacked == map[] {
      InOrderNone();
    } else {
      var k := MaxKey(out.unacked);
      InOrderLast(out.unacked, out.queue);
      ForceIsNackDown(out.Nacked(k));
    }
  }

  /** Nacks in ascending order leave the packets in reverse: the last packet nacked is
      sent again first. */
  lemma {:induction false} NackUpReverses(out: Outbox)
    ensures NackUp(out) == Outbox(Descending(out.unacked) + out.queue, map[])
    decreases |out.unacked|
  {
    if out.unacked != map[] {
      var k := MinKey(out.unacked);
      Shrinks(out.unacked, k);
      NackUpReverses(out.Nacked(k));
      assert Descending(out.unacked - {k}) + (out.unacked[k] + out.queue) == Descending(out.unacked) + out.queue;
    }
  }

  /** Every entry holds bunches, and the packets can be told apart by their last bunch. */
  ghost predicate Distinguishable(unacked: map<nat, seq<OutBunch>>) {
    && (forall p | p in unacked :: unacked[p] != [])
    && (forall p, q | p in unacked && q in unacked && p != q :: Last(unacked[p]) != Last(unacked[q]))
  }

  ghost function Last(bunches: seq<OutBunch>): OutBunch
    requires bunches != []
  {
    bunches[|bunches| - 1]
  }

  /** Nacks in ascending order keep the sending order, as forced retransmission does, exactly
      when no more than one packet is outstanding. */
  lemma NackUpKeepsOrderIff(out: Outbox)
    requires Distinguishable(out.unacked)
    ensures NackUp(out) == out.ForceRetransmit() <==> |out.unacked| <= 1
  {
    var m := out.unacked;
    NackUpReverses(out);
    if m == map[] {
      InOrderNone();
      assert [] + out.queue == out.queue;
    } else {
      var lo, hi := MinKey(m), MaxKey(m);
      Shrinks(m, lo);
      Shrinks(m, hi);
      if |m| == 1 {
        OneKey(m, lo);
        InOrderNone();
        assert Descending(m) == [] + m[lo] && InOrder(m) == [] + m[lo];
      } else {
        if lo == hi {
          OnlyKey(m, lo);
        }
        assert Last(Descending(m)) == Last(m[lo]) && Last(InOrder(m)) == Last(m[hi]);
        if Descending(m) + out.queue == InOrder(m) + out.queue {
          SameFront(Descending(m), InOrder(m), out.queue);
        }
      }
    }
  }

  lemma OneKey(m: map<nat, seq<OutBunch>>, k: nat)
    requires k in m && |m| == 1
    ensures m - {k} == map[] && MaxKey(m) == k
  {
    Shrinks(m, k);
    assert |m - {k}| == 0;
    assert forall j | j in m && j != k :: j in m - {k};
  }

  lemma OnlyKey(m: map<nat, seq<OutBunch>>, k: nat)
    requires k in m && forall j | j in m :: j == k
    ensures |m| == 1
  {
    assert m.Keys == {k};
  }

  lemma LastOfSum(a: seq<OutBunch>, b: seq<OutBunch>)
    requires b != []
    ensures Last(a + b) == Last(b)
  {
  }

  lemma SameFront(a: seq<OutBunch>, b: seq<OutBunch>, tail: seq<OutBunch>)
    requires a + tail == b + tail
    ensures a == b
  {
    assert |a + tail| == |b + tail|;
    assert a == (a + tail)[..|a|] && b == (b + tail)[..|b|];
  }

  lemma OneOfTwo(m: map<nat, seq<OutBunch>>, p: nat, q: nat, b: OutBunch)
    requires p in m && q in m && p != q && b in m[p] && b in m[q]
    ensures multiset(InOrder(m))[b] >= 2
  {
    hide InOrder;
    InOrderRemove(m, p);
    InOrderRemove(m - {p}, q);
    assert b in multiset(m[p]) && b in multiset((m - {p})[q]);
  }

  ghost predicate NoneEmpty(s: SendState) {
    forall p | p in s.out.unacked :: s.out.unacked[p] != []
  }

  lemma StepNoneEmpty(s: SendState, e: Event)
    requires NoneEmpty(s) && Enabled(s, e)
    ensures NoneEmpty(Step(s, e))
  {
    hide InOrder;
  }

  lemma {:induction false} RunNoneEmpty(s: SendState, events: seq<Event>)
    requires NoneEmpty(s) && Possible(s, events)
    ensures NoneEmpty(Run(s, events))
    decreases |events|
  {
    hide Step, NoneEmpty;
    if events != [] {
      StepNoneEmpty(s, events[0]);
      RunNoneEmpty(Step(s, events[0]), events[1..]);
    }
  }

  /** What the builder hands over in a run. */
  ghost function Flushed(events: seq<Event>): seq<OutBunch>
    decreases |events|
  {
    if events == [] then []
    else (if events[0].Flush? then events[0].ready else []) + Flushed(events[1..])
  }

  lemma TakenNext(s: SendState, e: Event)
    requires Enabled(s, e)
    ensures Step(s, e).taken == s.taken + multiset(if e.Flush? then e.ready else [])
  {
    hide InOrder;
  }

  lemma {:induction false} TakenIs(s: SendState, events: seq<Event>)
    requires Possible(s, events)
    ensures Run(s, events).taken == s.taken + multiset(Flushed(events))
    decreases |events|
  {
    hide Step;
    if events != [] {
      TakenNext(s, events[0]);
      TakenIs(Step(s, events[0]), events[1..]);
    }
  }

  /** In every run, since the builder numbers its bunches, the packets outstanding can be told
      apart, for as long as the numbers do not come round. */
  lemma RunDistinguishable(first: uint32, events: seq<Event>)
    requires Possible(EMPTY, events) && InSequence(Flushed(events), first) && |Flushed(events)| <= WORD
    ensures Distinguishable(Run(EMPTY, events).out.unacked)
  {
    hide Run, Possible, InOrder, InSequence;
    TakenIs(EMPTY, events);
    forall b
      ensures Run(EMPTY, events).taken[b] <= 1
    {
      EachOnce(Flushed(events), first, b);
    }
    EmptyConserved();
    RunConserves(EMPTY, events);
    RunNoneEmpty(EMPTY, events);
    var s := Run(EMPTY, events);
    var m := s.out.unacked;
    forall p, q | p in m && q in m && p != q
      ensures Last(m[p]) != Last(m[q])
    {
      var b := Last(m[p]);
      assert s.taken[b] >= multiset(InOrder(m))[b];
      if b == Last(m[q]) {
        OneOfTwo(m, p, q, b);
      }
    }
  }

  /** Two lost packets: forced retransmission keeps the order in which they were sent, two
      nacks reverse it. */
  lemma TwoLostPackets(a: OutBunch, b: OutBunch, queue: seq<OutBunch>)
    ensures var out := Outbox(queue, map[1 := [a], 2 := [b]]);
            && out.ForceRetransmit().queue == [a, b] + queue
            && out.Nacked(1).Nacked(2).queue == [b, a] + queue
  {
    var unacked: map<nat, seq<OutBunch>> := map[1 := [a], 2 := [b]];
    assert 2 in unacked && 1 in unacked;
    assert MaxKey(unacked) == 2 && unacked - {2} == map[1 := [a]];
    var one: map<nat, seq<OutBunch>> := map[1 := [a]];
    assert 1 in one;
    assert MaxKey(one) == 1 && one - {1} == map[];
    InOrderNone();
    assert InOrder(one) == [] + [a];
    assert InOrder(unacked) == [a] + [b];
  }

  /** A second nack for the same packet changes nothing. */
  lemma NackTwice(out: Outbox, packetId: nat)
    ensures out.Nacked(packetId).Nacked(packetId) == out.Nacked(packetId)
  {
    assert (out.unacked - {packetId}) - {packetId} == out.unacked - {packetId};
  }
}
