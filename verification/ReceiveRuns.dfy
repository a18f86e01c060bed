/** The receive side over whole runs: what a reliable channel has delivered and buffered
    after any sequence of arriving bunches. */
module ReceiveRuns {
  import opened BufferReader
  import opened NetChannel
  import opened OrderedMap
  import opened SequenceNumber

  const MAX_CHSEQUENCE := 1024

  /** The number nearest to the reference with the same remainder as the value.  Masking is the
      remainder, also of a negative difference, for a power of two. */
  function MakeRelative(value: int, reference: int, max: nat): int
    requires max > 0
  {
    reference + (value - reference + max / 2) % max - max / 2
  }

  /** The sequence the connection takes a received one for, as a uint32_t. */
  function RelativeSequence(wire: nat, inReliable: nat): nat {
    MakeRelative(wire, inReliable, MAX_CHSEQUENCE) % 0x1_0000_0000
  }

  predicate InWindow(box: Inbox, sequence: nat) {
    -512 <= sequence - box.inReliable <= 511
  }

  /** A 32-bit sequence number survives MakeRelative exactly when it is within half of
      MAX_CHSEQUENCE of InReliable, around the wrap of the 32 bits as well. */
  lemma RelativeExactIff(sequence: nat, inReliable: nat)
    requires sequence < 0x1_0000_0000 && inReliable < 0x1_0000_0000
    ensures RelativeSequence(sequence, inReliable) == sequence <==> -512 <= ToInt32(sequence - inReliable) <= 511
  {
    var d := sequence - inReliable + 512;
    assert d == 1024 * (d / 1024) + d % 1024;
    var r := MakeRelative(sequence, inReliable, MAX_CHSEQUENCE);
    assert r == inReliable + d % 1024 - 512;
  }

  lemma ExactInWindow(sequence: nat, inReliable: nat)
    requires sequence < 0x1_0000_0000 && inReliable < 0x1_0000_0000 && -512 <= sequence - inReliable <= 511
    ensures RelativeSequence(sequence, inReliable) == sequence
  {
    hide RelativeSequence;
    RelativeExactIff(sequence, inReliable);
  }

  /** Outside that window the order is lost: the bunch 1024 ahead of the next one is taken
      for the next one. */
  lemma AliasIsDispatched(box: Inbox, b: InBunch)
    requires box.inReliable < 0xFFFF_0000
    ensures Receive(box, box.inReliable + 1 + MAX_CHSEQUENCE, b) == Dispatch(box, b, true)
  {
    hide Drain, Whole, MessagesOf;
    var d := 1 + MAX_CHSEQUENCE + 512;
    assert RelativeSequence(box.inReliable + 1 + MAX_CHSEQUENCE, box.inReliable) == box.inReliable + 1;
  }

  /** DispatchPacket for a reliable bunch: the next one is dispatched, every other one is
      put into the reorder buffer, those already delivered included. */
  function Receive(box: Inbox, wire: nat, b: InBunch): Inbox {
    var sequence := RelativeSequence(wire, box.inReliable);
    if sequence != box.inReliable + 1 then AddUnread(box, sequence, b) else Dispatch(box, b, true)
  }

  /** The step on the channel object.  A bunch that is not flagged reliable is dispatched
      whatever its sequence; a channel that is not reliable does not drain. */
  method ReceiveBunch(channel: NetChannel, wire: nat, b: InBunch, reliable: bool)
    modifies channel
    ensures reliable && channel.bReliable ==> channel.In() == Receive(old(channel.In()), wire, b)
    ensures reliable && RelativeSequence(wire, old(channel.InReliable)) != old(channel.InReliable) + 1 ==>
              channel.In() == AddUnread(old(channel.In()), RelativeSequence(wire, old(channel.InReliable)), b)
    ensures !reliable || RelativeSequence(wire, old(channel.InReliable)) == old(channel.InReliable) + 1 ==>
              channel.In() == Dispatch(old(channel.In()), b, channel.bReliable)
  {
    var chSequence := if reliable then RelativeSequence(wire, channel.InReliable) else wire;
    if reliable && chSequence != channel.InReliable + 1 {
      channel.AddUnreadInCopyBunch(chSequence, b);
    } else {
      channel.DispatchRawBunch(b);
    }
  }

  /** The bunches arrive in any order, any number of times: `sent(s)` is the bunch with
      sequence s. */
  ghost function Run(start: Inbox, sent: nat -> InBunch, arrivals: seq<nat>): Inbox {
    if arrivals == [] then start
    else
      var last := arrivals[|arrivals| - 1];
      Receive(Run(start, sent, arrivals[..|arrivals| - 1]), last, sent(last))
  }

  /** Every arrival is within the window of the state it meets, and the sequences stay within
      their 32 bits. */
  ghost predicate Windowed(start: Inbox, sent: nat -> InBunch, arrivals: seq<nat>) {
    arrivals == [] ||
    (var n := |arrivals| - 1;
     var box := Run(start, sent, arrivals[..n]);
     Windowed(start, sent, arrivals[..n]) && InWindow(box, arrivals[n])
     && arrivals[n] < 0x1_0000_0000 && box.inReliable < 0x1_0000_0000)
  }

  ghost predicate AllWhole(sent: nat -> InBunch) {
    forall s: nat :: Whole(sent(s))
  }

  /** The messages of the bunches first + 1, ..., last. */
  ghost function Concatenation(sent: nat -> InBunch, first: nat, last: nat): seq<Delivery>
    decreases last
  {
    if last <= first then [] else Concatenation(sent, first, last - 1) + MessagesOf(sent(last))
  }

  /** Delivered so far is the concatenation up to InReliable; the buffer holds the bunches
      as they were sent. */
  ghost predicate Faithful(box: Inbox, sent: nat -> InBunch, first: nat) {
    && first <= box.inReliable
    && box.received == Concatenation(sent, first, box.inReliable)
    && forall k | k in box.unread :: box.unread[k] == sent(k)
  }

  /** Every sequence above `first` is delivered or buffered exactly when `seen` holds it. */
  ghost predicate Accounts(box: Inbox, first: nat, seen: set<nat>) {
    forall s: nat | s > first :: s in seen <==> (s <= box.inReliable || s in box.unread)
  }

  lemma DispatchOneFaithful(box: Inbox, sent: nat -> InBunch, first: nat)
    requires Faithful(box, sent, first) && AllWhole(sent)
    ensures Faithful(DispatchOne(box, sent(box.inReliable + 1)), sent, first)
  {
    hide Whole, MessagesOf;
  }

  lemma {:induction false} DrainFaithful(box: Inbox, sent: nat -> InBunch, first: nat, seen: set<nat>)
    requires Faithful(box, sent, first) && AllWhole(sent) && Accounts(box, first, seen)
    ensures Faithful(Drain(box), sent, first) && Accounts(Drain(box), first, seen)
    decreases |box.unread|
  {
    hide Whole, MessagesOf;
    if box.unread != map[] && MinKey(box.unread) == box.inReliable + 1 {
      var k := MinKey(box.unread);
      Shrinks(box.unread, k);
      var rest := box.(unread := box.unread - {k});
      var next := DispatchOne(rest, sent(k));
      DispatchOneFaithful(rest, sent, first);
      assert Whole(sent(k));
      DrainFaithful(next, sent, first, seen);
    }
  }

  lemma ReceiveFaithful(box: Inbox, sent: nat -> InBunch, first: nat, seen: set<nat>, s: nat)
    requires Faithful(box, sent, first) && AllWhole(sent) && Accounts(box, first, seen)
    requires RelativeSequence(s, box.inReliable) == s
    ensures var next := Receive(box, s, sent(s));
            Faithful(next, sent, first) && Accounts(next, first, seen + {s})
  {
    hide Whole, MessagesOf, Drain, RelativeSequence;
    if s == box.inReliable + 1 {
      var next := DispatchOne(box, sent(s));
      DispatchOneFaithful(box, sent, first);
      assert Whole(sent(s));
      DrainFaithful(next, sent, first, seen + {s});
    }
  }

  ghost function Seen(arrivals: seq<nat>): set<nat> {
    set s | s in arrivals
  }

  /** In-order exactly-once delivery over every run: with well-formed bunches arriving in
      any order, repeated and late ones included, the messages handed out are at all times
      exactly those of the bunches first + 1 .. InReliable, each once and in order; and a
      bunch has arrived exactly if it is delivered or buffered. */
  lemma {:induction false} InOrderExactlyOnce(sent: nat -> InBunch, first: nat, arrivals: seq<nat>)
    requires AllWhole(sent) && Windowed(Inbox(first, map[], []), sent, arrivals)
    ensures var box := Run(Inbox(first, map[], []), sent, arrivals);
            Faithful(box, sent, first) && Accounts(box, first, Seen(arrivals))
    decreases |arrivals|
  {
    if arrivals != [] {
      var n := |arrivals| - 1;
      var box := Run(Inbox(first, map[], []), sent, arrivals[..n]);
      InOrderExactlyOnce(sent, first, arrivals[..n]);
      ExactInWindow(arrivals[n], box.inReliable);
      ReceiveFaithful(box, sent, first, Seen(arrivals[..n]), arrivals[n]);
      assert Seen(arrivals) == Seen(arrivals[..n]) + {arrivals[n]} by {
        assert arrivals == arrivals[..n] + [arrivals[n]];
      }
    }
  }

  // ----- the reorder buffer -----

  /** No buffered sequence has been delivered already. */
  ghost predicate NoStale(box: Inbox) {
    forall k | k in box.unread :: k > box.inReliable
  }

  /** The next bunch is not waiting in the buffer. */
  ghost predicate Drained(box: Inbox) {
    box.inReliable + 1 !in box.unread
  }

  /** What draining takes out: the whole bunches that follow InReliable without a gap, and
      the malformed one that ends them, if any. */
  ghost predicate TakesRun(box: Inbox, z: Inbox) {
    && box.inReliable <= z.inReliable
    && (forall k: nat | box.inReliable < k <= z.inReliable :: k in box.unread && Whole(box.unread[k]))
    && (z.inReliable + 1 in box.unread ==> !Whole(box.unread[z.inReliable + 1]))
    && (forall k: nat :: k in z.unread <==> k in box.unread && k > z.inReliable + 1)
    && (forall k | k in z.unread :: z.unread[k] == box.unread[k])
  }

  /** Draining takes out the maximal contiguous run and nothing else, whether or not it meets
      a malformed bunch. */
  lemma {:induction false} DrainMaximal(box: Inbox)
    requires NoStale(box)
    ensures TakesRun(box, Drain(box)) && NoStale(Drain(box)) && Drained(Drain(box))
    decreases |box.unread|
  {
    hide Whole, MessagesOf;
    if box.unread != map[] && MinKey(box.unread) == box.inReliable + 1 {
      var k := MinKey(box.unread);
      Shrinks(box.unread, k);
      var next := DispatchOne(box.(unread := box.unread - {k}), box.unread[k]);
      if Whole(box.unread[k]) {
        DrainMaximal(next);
        RunJoins(box, next, Drain(next), k);
      } else {
        assert Drain(box) == next;
      }
    } else {
      assert box.inReliable + 1 !in box.unread;
    }
  }

  lemma RunJoins(box: Inbox, next: Inbox, z: Inbox, k: nat)
    requires k in box.unread && k == box.inReliable + 1 && Whole(box.unread[k]) && NoStale(box)
    requires next.inReliable == k && next.unread == box.unread - {k} && TakesRun(next, z)
    ensures TakesRun(box, z)
  {
    hide Whole;
    forall j: nat | box.inReliable < j <= z.inReliable
      ensures j in box.unread && Whole(box.unread[j])
    {
      assert j > k ==> j in next.unread && Whole(next.unread[j]);
    }
    if z.inReliable + 1 in box.unread {
      assert z.inReliable + 1 in next.unread;
    }
    forall j: nat
      ensures j in z.unread <==> j in box.unread && j > z.inReliable + 1
    {
      assert j in next.unread <==> j in box.unread && j != k;
    }
  }

  /** What waits under a sequence, and an empty bunch where nothing does. */
  ghost function Waiting(box: Inbox): nat -> InBunch {
    (s: nat) => if s in box.unread then box.unread[s] else InBunch([], 0)
  }

  lemma {:induction false} SameConcatenation(sent: nat -> InBunch, other: nat -> InBunch, first: nat, last: nat)
    requires forall s: nat | first < s <= last :: sent(s) == other(s)
    ensures Concatenation(sent, first, last) == Concatenation(other, first, last)
    decreases last
  {
    if last > first {
      SameConcatenation(sent, other, first, last - 1);
    }
  }

  lemma ConcatenationEnds(sent: nat -> InBunch, first: nat, last: nat)
    ensures last <= first ==> Concatenation(sent, first, last) == []
    ensures last > first ==>
              Concatenation(sent, first, last) == Concatenation(sent, first, last - 1) + MessagesOf(sent(last))
  {
  }

  lemma {:induction false} ConcatenationFront(sent: nat -> InBunch, first: nat, last: nat)
    requires first < last
    ensures Concatenation(sent, first, last) == MessagesOf(sent(first + 1)) + Concatenation(sent, first + 1, last)
    decreases last
  {
    hide MessagesOf, Concatenation;
    ConcatenationEnds(sent, first, last);
    ConcatenationEnds(sent, first + 1, last);
    if last == first + 1 {
      ConcatenationEnds(sent, first, first);
      assert [] + MessagesOf(sent(last)) == MessagesOf(sent(last)) + [];
    } else {
      ConcatenationFront(sent, first, last - 1);
      var a, b, c := MessagesOf(sent(first + 1)), Concatenation(sent, first + 1, last - 1), MessagesOf(sent(last));
      assert (a + b) + c == a + (b + c);
    }
  }

  /** What ends the run hands out. */
  ghost function LastHanded(box: Inbox, last: nat): seq<Delivery> {
    if last + 1 in box.unread then MessagesOf(box.unread[last + 1]) else []
  }

  /** One bunch more in front. */
  lemma HandsOutFront(box: Inbox, next: Inbox, z: Inbox, n: nat)
    requires n == box.inReliable && n + 1 in box.unread && next.inReliable == n + 1 <= z.inReliable
    requires next.unread == box.unread - {n + 1}
    requires next.received == box.received + MessagesOf(box.unread[n + 1])
    requires z.received == next.received + Concatenation(Waiting(next), n + 1, z.inReliable)
                                         + LastHanded(next, z.inReliable)
    ensures z.received == box.received + Concatenation(Waiting(box), n, z.inReliable) + LastHanded(box, z.inReliable)
  {
    hide MessagesOf, Concatenation;
    SameConcatenation(Waiting(next), Waiting(box), n + 1, z.inReliable);
    ConcatenationFront(Waiting(box), n, z.inReliable);
    var a, b, c := box.received, MessagesOf(box.unread[n + 1]), Concatenation(Waiting(box), n + 1, z.inReliable);
    assert (a + b) + c == a + (b + c);
    assert LastHanded(next, z.inReliable) == LastHanded(box, z.inReliable);
  }

  /** Draining hands out the messages of the bunches that it passes, in order, and then the
      whole frames of the malformed one that ends them, if any. */
  lemma {:induction false} DrainHandsOut(box: Inbox)
    requires NoStale(box)
    ensures var z := Drain(box);
            z.received == box.received + Concatenation(Waiting(box), box.inReliable, z.inReliable)
                          + (if z.inReliable + 1 in box.unread then MessagesOf(box.unread[z.inReliable + 1]) else [])
    decreases |box.unread|
  {
    hide Whole, MessagesOf, Concatenation, Waiting;
    var n, z := box.inReliable, Drain(box);
    ConcatenationEnds(Waiting(box), n, n);
    if box.unread != map[] && MinKey(box.unread) == n + 1 {
      var b := box.unread[n + 1];
      Shrinks(box.unread, n + 1);
      var next := DispatchOne(box.(unread := box.unread - {n + 1}), b);
      if Whole(b) {
        DrainHandsOut(next);
        DrainGrows(next);
        HandsOutFront(box, next, z, n);
      } else {
        assert z == next;
        assert box.received + [] == box.received;
      }
    } else {
      assert n + 1 !in box.unread;
      assert box.received + [] + [] == box.received;
    }
  }

  /** Reorder-buffer invariant: as long as no bunch arrives late, every buffered sequence
      stays above InReliable + 1, malformed bunches included. */
  lemma BufferAhead(box: Inbox, s: nat, b: InBunch)
    requires NoStale(box) && Drained(box) && RelativeSequence(s, box.inReliable) == s && s > box.inReliable
    ensures NoStale(Receive(box, s, b)) && Drained(Receive(box, s, b))
  {
    hide Whole, MessagesOf, Drain, RelativeSequence;
    if s == box.inReliable + 1 {
      DrainMaximal(DispatchOne(box, b));
    }
  }

  lemma {:induction false} DrainLeaves(box: Inbox)
    ensures forall k | k in Drain(box).unread :: k in box.unread && Drain(box).unread[k] == box.unread[k]
    decreases |box.unread|
  {
    hide Whole, MessagesOf;
    if box.unread != map[] && MinKey(box.unread) == box.inReliable + 1 {
      var k := MinKey(box.unread);
      Shrinks(box.unread, k);
      if Whole(box.unread[k]) {
        DrainLeaves(DispatchOne(box.(unread := box.unread - {k}), box.unread[k]));
      }
    }
  }

  /** Of several copies of a bunch the first one that is buffered stays. */
  lemma FirstCopyKept(box: Inbox, s: nat, b: InBunch)
    ensures forall k | k in box.unread && k in Receive(box, s, b).unread ::
              Receive(box, s, b).unread[k] == box.unread[k]
  {
    hide Whole, MessagesOf, Drain, RelativeSequence;
    DrainLeaves(DispatchOne(box, b));
  }

  /** An arrival makes the buffer stale exactly when it is late. */
  lemma LateIff(box: Inbox, s: nat, b: InBunch)
    requires NoStale(box) && Drained(box) && RelativeSequence(s, box.inReliable) == s
    ensures NoStale(Receive(box, s, b)) <==> s > box.inReliable
  {
    hide Whole, MessagesOf, Drain, RelativeSequence;
    if s > box.inReliable {
      BufferAhead(box, s, b);
    } else {
      assert s in AddUnread(box, s, b).unread;
    }
  }

  /** A delivered sequence at the front of the buffer stops the drain loop at once. */
  lemma StaleStops(box: Inbox)
    requires !NoStale(box)
    ensures Drain(box) == box
  {
    var k :| k in box.unread && k <= box.inReliable;
    assert MinKey(box.unread) <= k;
  }

  /** Dispatching the bunch in turn leaves the next one undelivered in the buffer exactly
      when it was buffered and a late bunch is in the buffer too. */
  lemma DispatchDrainsIff(box: Inbox, b: InBunch)
    requires Drained(box) && Whole(b)
    ensures Drained(Dispatch(box, b, true)) <==> NoStale(box) || box.inReliable + 2 !in box.unread
  {
    hide Whole, MessagesOf, Drain;
    var next := DispatchOne(box, b);
    if NoStale(box) {
      DrainMaximal(next);
    } else {
      StaleStops(next);
    }
  }

  /** A late bunch never leaves the buffer again, so from then on bunches are delivered
      only by arriving in turn themselves. */
  lemma StaleForever(box: Inbox, s: nat, b: InBunch)
    requires !NoStale(box)
    ensures var next := Receive(box, s, b);
            && !NoStale(next)
            && next.inReliable ==
               if RelativeSequence(s, box.inReliable) == box.inReliable + 1 && Whole(b) then box.inReliable + 1
               else box.inReliable
  {
    hide Whole, MessagesOf, Drain, RelativeSequence;
    var sequence := RelativeSequence(s, box.inReliable);
    var k :| k in box.unread && k <= box.inReliable;
    if sequence == box.inReliable + 1 {
      var next := DispatchOne(box, b);
      assert k in next.unread && k <= next.inReliable;
      StaleStops(next);
    } else {
      assert k in AddUnread(box, sequence, b).unread;
    }
  }

  /** No arrival is at or below the InReliable it meets. */
  ghost predicate NoneLate(start: Inbox, sent: nat -> InBunch, arrivals: seq<nat>) {
    arrivals == [] ||
    (var n := |arrivals| - 1;
     NoneLate(start, sent, arrivals[..n]) && arrivals[n] > Run(start, sent, arrivals[..n]).inReliable)
  }

  /** Without late arrivals everything contiguous that has arrived has been delivered. */
  lemma {:induction false} NoneLateDrained(start: Inbox, sent: nat -> InBunch, arrivals: seq<nat>)
    requires Windowed(start, sent, arrivals) && NoneLate(start, sent, arrivals)
    requires NoStale(start) && Drained(start)
    ensures NoStale(Run(start, sent, arrivals)) && Drained(Run(start, sent, arrivals))
    decreases |arrivals|
  {
    if arrivals != [] {
      var n := |arrivals| - 1;
      var box := Run(start, sent, arrivals[..n]);
      NoneLateDrained(start, sent, arrivals[..n]);
      ExactInWindow(arrivals[n], box.inReliable);
      BufferAhead(box, arrivals[n], sent(arrivals[n]));
    }
  }

  /** A state delivers everything contiguous in every continuation without late arrivals
      exactly when no late bunch is in its buffer: otherwise the two next bunches arriving
      in reverse order leave the second one stuck. */
  lemma NeverStuckIff(start: Inbox, sent: nat -> InBunch)
    requires Drained(start) && AllWhole(sent) && start.inReliable < 0xFFFF_FFF0
    ensures NoStale(start) <==>
            (forall arrivals | Windowed(start, sent, arrivals) && NoneLate(start, sent, arrivals) ::
                Drained(Run(start, sent, arrivals)))
  {
    hide Whole, MessagesOf, Drain, RelativeSequence;
    if NoStale(start) {
      forall arrivals | Windowed(start, sent, arrivals) && NoneLate(start, sent, arrivals)
        ensures Drained(Run(start, sent, arrivals))
      {
        NoneLateDrained(start, sent, arrivals);
      }
    } else {
      StuckRun(start, sent);
    }
  }

  lemma StuckRun(start: Inbox, sent: nat -> InBunch)
    requires !NoStale(start) && Drained(start) && AllWhole(sent) && start.inReliable < 0xFFFF_FFF0
    ensures var arrivals := [start.inReliable + 2, start.inReliable + 1];
            Windowed(start, sent, arrivals) && NoneLate(start, sent, arrivals) && !Drained(Run(start, sent, arrivals))
  {
    hide Whole, MessagesOf, Drain, RelativeSequence;
    var n := start.inReliable;
    var arrivals := [n + 2, n + 1];
    assert arrivals[..1] == [n + 2] && [n + 2][..0] == [];
    ExactInWindow(n + 2, n);
    ExactInWindow(n + 1, n);
    var mid := Receive(start, n + 2, sent(n + 2));
    assert Run(start, sent, []) == start && Run(start, sent, [n + 2]) == mid;
    assert Windowed(start, sent, []) && NoneLate(start, sent, []);
    assert Windowed(start, sent, [n + 2]) && NoneLate(start, sent, [n + 2]);
    StaleForever(start, n + 2, sent(n + 2));
    assert n + 2 in mid.unread && mid.inReliable == n;
    assert Whole(sent(n + 1));
    DispatchDrainsIff(mid, sent(n + 1));
  }

  lemma RunNext(start: Inbox, sent: nat -> InBunch, arrivals: seq<nat>, s: nat)
    ensures Run(start, sent, arrivals + [s]) == Receive(Run(start, sent, arrivals), s, sent(s))
  {
    assert (arrivals + [s])[..|arrivals|] == arrivals;
  }

  /** One late repeat is enough: of the arrivals 1, 1, 3, 2 the third bunch has arrived,
      is next in turn, and stays in the buffer. */
  lemma LateRepeatSticks(sent: nat -> InBunch)
    requires AllWhole(sent)
    ensures var box := Run(Inbox(0, map[], []), sent, [1, 1, 3, 2]);
            box.inReliable == 2 && 3 in box.unread
  {
    var start := Inbox(0, map[], []);
    assert Run(start, sent, []) == start && [] + [1] == [1] && [1] + [1] == [1, 1] && [1, 1] + [3] == [1, 1, 3]
           && [1, 1, 3] + [2] == [1, 1, 3, 2];
    assert Whole(sent(1)) && Whole(sent(2));
    hide Run, Whole, MessagesOf, Drain, RelativeSequence;
    RunNext(start, sent, [], 1);
    RunNext(start, sent, [1], 1);
    RunNext(start, sent, [1, 1], 3);
    RunNext(start, sent, [1, 1, 3], 2);
    ExactInWindow(1, 0);
    NothingBuffered(DispatchOne(start, sent(1)));
    var one := DispatchOne(start, sent(1));
    ExactInWindow(1, 1);
    var two := AddUnread(one, 1, sent(1));
    ExactInWindow(3, 1);
    var three := AddUnread(two, 3, sent(3));
    ExactInWindow(2, 1);
    StaleStops(DispatchOne(three, sent(2)));
  }

  lemma NothingBuffered(box: Inbox)
    requires box.unread == map[]
    ensures Drain(box) == box
  {
  }

  // ----- malformed bunches -----

  /** The comment on the dispatch loop promises all or nothing.  A bunch that fails has
      delivered nothing exactly when its very first frame is broken. */
  lemma FailedDeliversNothingIff(b: InBunch)
    requires !Whole(b)
    ensures MessagesOf(b) == [] <==> !Readable(b.data, 0)
  {
  }

  /** A bunch that announces two messages and holds one: the one is delivered. */
  lemma HalfDelivered()
    ensures var b := InBunch([5, 0, 1, 0, 7], 2);
            !Whole(b) && MessagesOf(b) == [Delivery(1, [7])]
  {
    var b := InBunch([5, 0, 1, 0, 7], 2);
    assert Uint16At(b.data, 0) == 5 && Uint16At(b.data, 2) == 1;
    assert Readable(b.data, 0) && MessageAt(b.data, 0) == Message(1, 4, 5);
    assert !Readable(b.data, 5);
    assert Frames(b.data, 5, 1) == ([], false);
    assert [Message(1, 4, 5)] + [] == [Message(1, 4, 5)];
    assert Frames(b.data, 0, 2) == ([MessageAt(b.data, 0)] + Frames(b.data, 5, 1).0, false);
    assert b.data[4..5] == [7];
  }

  /** A bunch as it arrives. */
  datatype Arrival = Arrival(wire: nat, bunch: InBunch)

  ghost function Arrive(box: Inbox, arrivals: seq<Arrival>): Inbox
    decreases |arrivals|
  {
    if arrivals == [] then box else Arrive(Receive(box, arrivals[0].wire, arrivals[0].bunch), arrivals[1..])
  }

  /** The arrival is taken for the bunch in turn. */
  predicate InTurn(box: Inbox, arrival: Arrival) {
    RelativeSequence(arrival.wire, box.inReliable) == box.inReliable + 1
  }

  lemma RelativeRemainder(wire: nat, inReliable: nat)
    ensures RelativeSequence(wire, inReliable) % MAX_CHSEQUENCE == wire % MAX_CHSEQUENCE
  {
    var d := wire - inReliable + 512;
    assert d == 1024 * (d / 1024) + d % 1024;
    var r := MakeRelative(wire, inReliable, MAX_CHSEQUENCE);
    assert r == wire - 1024 * (d / 1024);
    var q := r / 0x1_0000_0000;
    assert r % 0x1_0000_0000 == r - 0x1_0000_0000 * q == wire - 1024 * (d / 1024 + 4194304 * q);
  }

  /** Those whose sequence agrees with the next one in its last ten bits. */
  lemma InTurnIff(box: Inbox, arrival: Arrival)
    requires box.inReliable < 0xFFFF_FFFF
    ensures InTurn(box, arrival) <==> arrival.wire % MAX_CHSEQUENCE == (box.inReliable + 1) % MAX_CHSEQUENCE
  {
    hide RelativeSequence;
    RelativeRemainder(arrival.wire, box.inReliable);
    if arrival.wire % MAX_CHSEQUENCE == (box.inReliable + 1) % MAX_CHSEQUENCE {
      SameRemainder(arrival.wire, box.inReliable);
    }
  }

  lemma SameRemainder(wire: nat, inReliable: nat)
    requires inReliable < 0xFFFF_FFFF && wire % MAX_CHSEQUENCE == (inReliable + 1) % MAX_CHSEQUENCE
    ensures RelativeSequence(wire, inReliable) == inReliable + 1
  {
    var q := wire / 1024 - (inReliable + 1) / 1024;
    assert wire - inReliable + 512 == 1024 * q + 513;
  }

  /** The messages that the arrivals taken for the bunch in turn hand out. */
  ghost function HandedOut(box: Inbox, arrivals: seq<Arrival>): seq<Delivery>
    decreases |arrivals|
  {
    if arrivals == [] then []
    else (if InTurn(box, arrivals[0]) then MessagesOf(arrivals[0].bunch) else []) + HandedOut(box, arrivals[1..])
  }

  lemma InReliableGrows(box: Inbox, wire: nat, b: InBunch)
    ensures box.inReliable <= Receive(box, wire, b).inReliable
  {
    hide Whole, MessagesOf, RelativeSequence;
    if RelativeSequence(wire, box.inReliable) == box.inReliable + 1 {
      DrainGrows(DispatchOne(box, b));
    }
  }

  lemma {:induction false} DrainGrows(box: Inbox)
    ensures box.inReliable <= Drain(box).inReliable
    decreases |box.unread|
  {
    hide Whole, MessagesOf;
    if box.unread != map[] && MinKey(box.unread) == box.inReliable + 1 {
      var k := MinKey(box.unread);
      Shrinks(box.unread, k);
      if Whole(box.unread[k]) {
        DrainGrows(DispatchOne(box.(unread := box.unread - {k}), box.unread[k]));
      }
    }
  }

  lemma {:induction false} ArriveGrows(box: Inbox, arrivals: seq<Arrival>)
    ensures box.inReliable <= Arrive(box, arrivals).inReliable
    decreases |arrivals|
  {
    hide Receive;
    if arrivals != [] {
      InReliableGrows(box, arrivals[0].wire, arrivals[0].bunch);
      ArriveGrows(Receive(box, arrivals[0].wire, arrivals[0].bunch), arrivals[1..]);
    }
  }

  /** One arrival while the bunch in turn is not in the buffer. */
  lemma ReceiveHolds(box: Inbox, a: Arrival)
    requires Drained(box)
    ensures var z := Receive(box, a.wire, a.bunch);
            if InTurn(box, a) && Whole(a.bunch) then z.inReliable > box.inReliable
            else Drained(z) && z.inReliable == box.inReliable
                 && z.received == box.received + (if InTurn(box, a) then MessagesOf(a.bunch) else [])
  {
    hide Whole, MessagesOf, RelativeSequence;
    if InTurn(box, a) {
      DrainGrows(DispatchOne(box, a.bunch));
    }
  }

  /** A channel whose next bunch is not buffered stands still exactly until that sequence
      arrives whole: malformed arrivals of it hand out their whole frames, each time again,
      and everything later only fills the buffer. */
  lemma {:induction false} HeldUntilWhole(box: Inbox, arrivals: seq<Arrival>)
    requires Drained(box)
    ensures Arrive(box, arrivals).inReliable > box.inReliable
            <==> exists i :: 0 <= i < |arrivals| && InTurn(box, arrivals[i]) && Whole(arrivals[i].bunch)
    ensures Arrive(box, arrivals).inReliable == box.inReliable ==>
              Arrive(box, arrivals).received == box.received + HandedOut(box, arrivals)
    decreases |arrivals|
  {
    hide Whole, MessagesOf, Receive, RelativeSequence, Drained;
    if arrivals != [] {
      var a, rest := arrivals[0], arrivals[1..];
      var next := Receive(box, a.wire, a.bunch);
      ReceiveHolds(box, a);
      ArriveGrows(next, rest);
      assert forall i | 0 <= i < |rest| :: rest[i] == arrivals[i + 1];
      if !(InTurn(box, a) && Whole(a.bunch)) {
        HeldUntilWhole(next, rest);
        SameTurn(box, next, rest);
        assert forall i | 0 < i < |arrivals| :: arrivals[i] == rest[i - 1];
      }
    }
  }

  lemma {:induction false} SameTurn(box: Inbox, next: Inbox, arrivals: seq<Arrival>)
    requires next.inReliable == box.inReliable
    ensures HandedOut(next, arrivals) == HandedOut(box, arrivals)
    ensures forall i | 0 <= i < |arrivals| :: InTurn(next, arrivals[i]) == InTurn(box, arrivals[i])
    decreases |arrivals|
  {
    hide MessagesOf;
    if arrivals != [] {
      SameTurn(box, next, arrivals[1..]);
    }
  }

  // ----- a sequence that never comes -----

  lemma {:induction false} DrainBehind(box: Inbox, s: nat)
    requires box.inReliable < s && s !in box.unread
    ensures Drain(box).inReliable < s && s !in Drain(box).unread
    decreases |box.unread|
  {
    hide Whole, MessagesOf;
    if box.unread != map[] && MinKey(box.unread) == box.inReliable + 1 {
      var k := MinKey(box.unread);
      Shrinks(box.unread, k);
      if Whole(box.unread[k]) {
        DrainBehind(DispatchOne(box.(unread := box.unread - {k}), box.unread[k]), s);
      }
    }
  }

  /** A channel never gets past a sequence for which nothing arrives, whatever else does, as
      long as nothing is mistaken for it. */
  lemma {:induction false} HeldBehind(box: Inbox, s: nat, arrivals: seq<Arrival>)
    requires box.inReliable < s && s !in box.unread
    requires forall i | 0 <= i < |arrivals| :: arrivals[i].wire % MAX_CHSEQUENCE != s % MAX_CHSEQUENCE
    ensures Arrive(box, arrivals).inReliable < s && s !in Arrive(box, arrivals).unread
    decreases |arrivals|
  {
    hide Whole, MessagesOf, RelativeSequence, Drain;
    if arrivals != [] {
      var a := arrivals[0];
      RelativeRemainder(a.wire, box.inReliable);
      if InTurn(box, a) {
        DrainBehind(DispatchOne(box, a.bunch), s);
      }
      HeldBehind(Receive(box, a.wire, a.bunch), s, arrivals[1..]);
    }
  }
}
