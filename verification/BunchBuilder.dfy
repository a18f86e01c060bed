/** ChannelBunchBuilder: the messages of a channel, gathered into numbered bunches. */
module BunchBuilder {
  import opened BufferReader
  import opened MathUtility

  /** MaxPacketBytes - PacketHeaderBytes - BunchHeaderBytes, as both channels set them. */
  const MAX_BUNCH_PAYLOAD := 1200 - 16 - 8

  const MAX_MSGS_PER_BUNCH := 255

  /** The size of an encoded bunch header. */
  const BUNCH_HEADER_SIZE := 10

  /** An assembled bunch; the sequence number is what tells two bunches apart. */
  datatype OutBunch = OutBunch(sequence: nat, totalSize: nat, headerSize: nat, messages: seq<seq<byte>>)

  function BytesOf(messages: seq<seq<byte>>): seq<byte> {
    if messages == [] then [] else BytesOf(messages[..|messages| - 1]) + messages[|messages| - 1]
  }

  // ----- the builder on values -----

  /** The messages gathered so far, the sequence issued last, and the bunches sealed. */
  datatype Building = Building(active: seq<seq<byte>>, sequence: uint32, ready: seq<OutBunch>)

  function Payload(active: seq<seq<byte>>): nat {
    |BytesOf(active)|
  }

  predicate CanInsert(active: seq<seq<byte>>, m: seq<byte>) {
    |active| < MAX_MSGS_PER_BUNCH && Payload(active) + |m| <= MAX_BUNCH_PAYLOAD
  }

  predicate IsFull(active: seq<seq<byte>>) {
    |active| >= MAX_MSGS_PER_BUNCH || Payload(active) >= MAX_BUNCH_PAYLOAD
  }

  function Insert(g: Building, m: seq<byte>): Building {
    if CanInsert(g.active, m) then g.(active := g.active + [m]) else g
  }

  /** SealAndPush and ResetActive: the next sequence is issued, to a bunch without messages
      as well. */
  function Seal(g: Building): Building {
    var sequence := (g.sequence + 1) % WORD;
    Building([], sequence,
             g.ready + [OutBunch(sequence, Payload(g.active) + BUNCH_HEADER_SIZE, BUNCH_HEADER_SIZE, g.active)])
  }

  /** One message: into the active bunch, or after sealing that into a new one; a message
      that the new one refuses too is dropped. */
  function PumpOne(g: Building, m: seq<byte>): Building {
    var x := if CanInsert(g.active, m) then Insert(g, m) else Insert(Seal(g), m);
    if IsFull(x.active) then Seal(x) else x
  }

  function PumpAll(g: Building, messages: seq<seq<byte>>): Building
    decreases |messages|
  {
    if messages == [] then g else PumpAll(PumpOne(g, messages[0]), messages[1..])
  }

  /** The tail is sealed when it is due or asked for. */
  function SealTail(g: Building): Building {
    if g.active == [] then g else Seal(g)
  }

  function Pumped(g: Building, messages: seq<seq<byte>>): Building {
    SealTail(PumpAll(g, messages))
  }

  class ChannelBunchBuilder {
    var ActiveMsgs: seq<seq<byte>>
    var ActivePayload: nat
    var QueuedMessage: seq<seq<byte>>
    var QueuedOutBunch: seq<OutBunch>
    /** OutReliable of the owning channel */
    var OutReliable: uint32

    ghost predicate Valid()
      reads this
    {
      ActivePayload == Payload(ActiveMsgs)
    }

    function Now(): Building
      reads this
    {
      Building(ActiveMsgs, OutReliable, QueuedOutBunch)
    }

    constructor (outReliable: uint32)
      ensures Valid() && Now() == Building([], outReliable, []) && QueuedMessage == []
    {
      ActiveMsgs, ActivePayload, QueuedMessage, QueuedOutBunch, OutReliable := [], 0, [], [], outReliable;
    }

    method Submit(m: seq<byte>)
      modifies this`QueuedMessage
      ensures QueuedMessage == old(QueuedMessage) + [m]
    {
      QueuedMessage := QueuedMessage + [m];
    }

    method TryInsert(m: seq<byte>) returns (ok: bool)
      requires Valid()
      modifies this`ActiveMsgs, this`ActivePayload
      ensures Valid() && ok == old(CanInsert(ActiveMsgs, m)) && Now() == Insert(old(Now()), m)
    {
      if |ActiveMsgs| >= MAX_MSGS_PER_BUNCH {
        return false;
      }
      if ActivePayload + |m| > MAX_BUNCH_PAYLOAD {
        return false;
      }
      BytesNext(ActiveMsgs, m);
      ActiveMsgs := ActiveMsgs + [m];
      ActivePayload := ActivePayload + |m|;
      ok := true;
    }

    method SealAndPush()
      requires Valid()
      modifies this`ActiveMsgs, this`ActivePayload, this`OutReliable, this`QueuedOutBunch
      ensures Valid() && Now() == Seal(old(Now()))
    {
      OutReliable := (OutReliable + 1) % WORD;
      QueuedOutBunch := QueuedOutBunch
                        + [OutBunch(OutReliable, ActivePayload + BUNCH_HEADER_SIZE, BUNCH_HEADER_SIZE, ActiveMsgs)];
      ActiveMsgs, ActivePayload := [], 0;
    }

    /** Takes up to batchLimit messages off the queue; afterwards the tail is sealed when its
        time has come or the caller asks for it. */
    method Pump(batchLimit: nat, flushTail: bool, due: bool)
      requires Valid()
      modifies this
      ensures Valid()
      ensures var n := Min(batchLimit, |old(QueuedMessage)|);
              && QueuedMessage == old(QueuedMessage)[n..]
              && Now() == if flushTail || due then Pumped(old(Now()), old(QueuedMessage)[..n])
                          else PumpAll(old(Now()), old(QueuedMessage)[..n])
    {
      hide CanInsert, IsFull, Insert, PumpOne;
      ghost var n := Min(batchLimit, |QueuedMessage|);
      ghost var take := QueuedMessage[..n];
      var taken := 0;
      while taken < batchLimit && QueuedMessage != []
        invariant taken <= n && Valid() && QueuedMessage == old(QueuedMessage)[taken..]
        invariant PumpAll(Now(), take[taken..]) == PumpAll(old(Now()), take)
      {
        var m := QueuedMessage[0];
        QueuedMessage := QueuedMessage[1..];
        assert take[taken..][0] == m && take[taken..][1..] == take[taken + 1..];
        taken := taken + 1;
        PumpMessage(m);
      }
      if ActiveMsgs != [] && due {
        SealAndPush();
      }
      if flushTail && ActiveMsgs != [] {
        SealAndPush();
      }
    }

    /** The body of the pump's loop. */
    method PumpMessage(m: seq<byte>)
      requires Valid()
      modifies this`ActiveMsgs, this`ActivePayload, this`OutReliable, this`QueuedOutBunch
      ensures Valid() && Now() == PumpOne(old(Now()), m)
    {
      hide CanInsert, Seal, BytesOf;
      var ok := TryInsert(m);
      if !ok {
        SealAndPush();
        ok := TryInsert(m);
      }
      if |ActiveMsgs| >= MAX_MSGS_PER_BUNCH || ActivePayload >= MAX_BUNCH_PAYLOAD {
        SealAndPush();
      }
    }

    method TryDequeueReady() returns (out: seq<OutBunch>)
      modifies this`QueuedOutBunch
      ensures out + QueuedOutBunch == old(QueuedOutBunch) && |out| == Min(1, |old(QueuedOutBunch)|)
    {
      out := [];
      if QueuedOutBunch != [] {
        out := QueuedOutBunch[..1];
        QueuedOutBunch := QueuedOutBunch[1..];
      }
    }
  }

  lemma BytesNext(messages: seq<seq<byte>>, m: seq<byte>)
    ensures BytesOf(messages + [m]) == BytesOf(messages) + m
  {
    assert (messages + [m])[..|messages|] == messages;
  }

  // ----- every bunch -----

  /** A bunch as SealAndPush makes it: at most 255 messages and 1176 bytes of them. */
  ghost predicate Built(b: OutBunch) {
    && |b.messages| <= MAX_MSGS_PER_BUNCH && Payload(b.messages) <= MAX_BUNCH_PAYLOAD
    && b.headerSize == BUNCH_HEADER_SIZE && b.totalSize == Payload(b.messages) + BUNCH_HEADER_SIZE
  }

  /** InSequence on from a sequence, around the wrap of 32 bits. */
  ghost predicate InSequence(bunches: seq<OutBunch>, first: uint32) {
    forall i | 0 <= i < |bunches| :: bunches[i].sequence == (first + 1 + i) % WORD
  }

  lemma SequenceAt(bunches: seq<OutBunch>, first: uint32, i: nat)
    requires InSequence(bunches, first) && first + |bunches| < WORD && i < |bunches|
    ensures bunches[i].sequence == first + 1 + i
  {
  }

  /** Up to 2^32 of them are all different. */
  lemma {:induction false} EachOnce(bunches: seq<OutBunch>, first: uint32, b: OutBunch)
    requires InSequence(bunches, first) && |bunches| <= WORD
    ensures multiset(bunches)[b] <= 1
    decreases |bunches|
  {
    if bunches != [] {
      var n := |bunches| - 1;
      EachOnce(bunches[..n], first, b);
      assert bunches == bunches[..n] + [bunches[n]];
      if b == bunches[n] && b in bunches[..n] {
        var i :| 0 <= i < n && bunches[i] == b;
        DifferentSequences(first, i, n);
      }
    }
  }

  lemma DifferentSequences(first: uint32, i: nat, n: nat)
    requires i < n < WORD
    ensures (first + 1 + i) % WORD != (first + 1 + n) % WORD
  {
  }

  /** What the builder keeps: the bunches sealed since sequence `first`, and an active bunch
      that has room. */
  ghost predicate WellBuilt(g: Building, first: uint32) {
    && (forall i | 0 <= i < |g.ready| :: Built(g.ready[i])) && InSequence(g.ready, first)
    && g.sequence == (first + |g.ready|) % WORD && !IsFull(g.active)
  }

  lemma SealKeeps(g: Building, first: uint32)
    requires WellBuilt(g.(active := []), first)
    requires |g.active| <= MAX_MSGS_PER_BUNCH && Payload(g.active) <= MAX_BUNCH_PAYLOAD
    ensures WellBuilt(Seal(g), first)
  {
    hide BytesOf;
    NextSequence(first, |g.ready|);
    NothingGathered();
  }

  lemma NothingGathered()
    ensures Payload([]) == 0
  {
  }

  lemma NextSequence(first: uint32, n: nat)
    ensures ((first + n) % WORD + 1) % WORD == (first + 1 + n) % WORD
  {
  }

  lemma PumpOneKeeps(g: Building, m: seq<byte>, first: uint32)
    requires WellBuilt(g, first)
    ensures WellBuilt(PumpOne(g, m), first)
  {
    hide WellBuilt, Seal, BytesOf;
    NothingGathered();
    SealActive(g, first);
    if CanInsert(g.active, m) {
      BytesNext(g.active, m);
      InsertActive(g, m, first);
    } else {
      BytesNext([], m);
      InsertActive(Seal(g), m, first);
    }
  }

  lemma SealActive(g: Building, first: uint32)
    requires WellBuilt(g, first)
    ensures WellBuilt(Seal(g), first)
  {
    hide BytesOf;
    NothingGathered();
    SealKeeps(g, first);
  }

  lemma InsertActive(g: Building, m: seq<byte>, first: uint32)
    requires WellBuilt(g, first)
    ensures WellBuilt(if IsFull(Insert(g, m).active) then Seal(Insert(g, m)) else Insert(g, m), first)
  {
    hide BytesOf, Seal;
    BytesNext(g.active, m);
    NothingGathered();
    if IsFull(Insert(g, m).active) {
      SealKeeps(Insert(g, m), first);
    }
  }

  /** Whatever is submitted and however it is pumped: at most 255 messages and 1176 bytes
      of them a bunch, and consecutive sequences. */
  lemma {:induction false} PumpKeeps(g: Building, messages: seq<seq<byte>>, first: uint32)
    requires WellBuilt(g, first)
    ensures WellBuilt(PumpAll(g, messages), first) && WellBuilt(Pumped(g, messages), first)
    decreases |messages|
  {
    hide WellBuilt, PumpOne, Seal;
    if messages == [] {
      SealActive(g, first);
    } else {
      PumpOneKeeps(g, messages[0], first);
      PumpKeeps(PumpOne(g, messages[0]), messages[1..], first);
    }
  }

  // ----- every message -----

  /** All messages in a list of bunches, in order. */
  function MessagesIn(bunches: seq<OutBunch>): seq<seq<byte>> {
    if bunches == [] then [] else MessagesIn(bunches[..|bunches| - 1]) + bunches[|bunches| - 1].messages
  }

  function Gathered(g: Building): seq<seq<byte>> {
    MessagesIn(g.ready) + g.active
  }

  /** The messages that fit a bunch. */
  function Insertable(messages: seq<seq<byte>>): seq<seq<byte>>
    decreases |messages|
  {
    if messages == [] then []
    else (if |messages[0]| <= MAX_BUNCH_PAYLOAD then [messages[0]] else []) + Insertable(messages[1..])
  }

  lemma SealGathers(g: Building)
    ensures Gathered(Seal(g)) == Gathered(g)
  {
    assert Seal(g).ready[..|g.ready|] == g.ready;
  }

  lemma PumpOneGathers(g: Building, m: seq<byte>)
    requires !IsFull(g.active)
    ensures Gathered(PumpOne(g, m)) == Gathered(g) + (if |m| <= MAX_BUNCH_PAYLOAD then [m] else [])
  {
    hide MessagesIn, Seal, BytesOf;
    NothingGathered();
    SealGathers(g);
    assert Seal(g).active == [] by {
      SealEmpties(g);
    }
    var x := if CanInsert(g.active, m) then Insert(g, m) else Insert(Seal(g), m);
    SealGathers(x);
    if CanInsert(g.active, m) {
      assert MessagesIn(g.ready) + (g.active + [m]) == Gathered(g) + [m];
    } else {
      assert MessagesIn(Seal(g).ready) + ([] + [m]) == Gathered(Seal(g)) + [m];
      assert Gathered(g) + [] == Gathered(g);
    }
  }

  lemma SealEmpties(g: Building)
    ensures Seal(g).active == []
  {
  }

  /** Every message of up to 1176 bytes goes into exactly one bunch, in order; every other
      one is dropped. */
  lemma {:induction false} PumpGathers(g: Building, messages: seq<seq<byte>>, first: uint32)
    requires WellBuilt(g, first)
    ensures Gathered(PumpAll(g, messages)) == Gathered(g) + Insertable(messages)
    ensures MessagesIn(Pumped(g, messages).ready) == Gathered(g) + Insertable(messages)
    decreases |messages|
  {
    hide MessagesIn, Seal, PumpOne, BytesOf;
    if messages == [] {
      SealGathers(g);
      SealEmpties(g);
      assert Gathered(g) + [] == Gathered(g) && MessagesIn(g.ready) + [] == MessagesIn(g.ready);
      assert MessagesIn(Seal(g).ready) + [] == MessagesIn(Seal(g).ready);
    } else {
      PumpOneKeeps(g, messages[0], first);
      PumpOneGathers(g, messages[0]);
      PumpGathers(PumpOne(g, messages[0]), messages[1..], first);
      var one := if |messages[0]| <= MAX_BUNCH_PAYLOAD then [messages[0]] else [];
      assert (Gathered(g) + one) + Insertable(messages[1..]) == Gathered(g) + (one + Insertable(messages[1..]));
    }
  }

  lemma {:induction false} InsertableIs(messages: seq<seq<byte>>)
    ensures |Insertable(messages)| <= |messages|
    ensures |Insertable(messages)| == |messages| <==> AllInsertable(messages)
    ensures AllInsertable(messages) ==> Insertable(messages) == messages
    decreases |messages|
  {
    if messages != [] {
      InsertableIs(messages[1..]);
      assert messages == [messages[0]] + messages[1..];
    }
  }

  ghost predicate AllInsertable(messages: seq<seq<byte>>) {
    forall i | 0 <= i < |messages| :: |messages[i]| <= MAX_BUNCH_PAYLOAD
  }

  // ----- bunches without messages -----

  ghost predicate NonEmpty(bunches: seq<OutBunch>) {
    forall i | 0 <= i < |bunches| :: bunches[i].messages != []
  }

  /** A sequence goes to a bunch without messages only for a message that does not fit. */
  lemma {:induction false} PumpNonEmpty(g: Building, messages: seq<seq<byte>>)
    requires NonEmpty(g.ready) && AllInsertable(messages)
    ensures NonEmpty(PumpAll(g, messages).ready) && NonEmpty(Pumped(g, messages).ready)
    decreases |messages|
  {
    hide BytesOf;
    if messages != [] {
      NothingGathered();
      assert forall i | 0 <= i < |messages[1..]| :: messages[1..][i] == messages[i + 1];
      PumpNonEmpty(PumpOne(g, messages[0]), messages[1..]);
    }
  }

  // ----- bunches are filled -----

  /** These messages leave no room for the first of the next ones, or for any at all. */
  predicate NoRoom(messages: seq<seq<byte>>, next: seq<seq<byte>>) {
    || |messages| == 255 || |BytesOf(messages)| == 1176
    || (next != [] && |BytesOf(messages)| + |next[0]| > 1176)
  }

  /** What follows a bunch: the next one, or what is being gathered. */
  function After(g: Building, i: nat): seq<seq<byte>> {
    if i + 1 < |g.ready| then g.ready[i + 1].messages else g.active
  }

  /** All bunches from the n-th on were sealed for want of room. */
  ghost predicate FilledFrom(g: Building, n: nat) {
    forall i | n <= i < |g.ready| :: NoRoom(g.ready[i].messages, After(g, i))
  }

  lemma SealFills(g: Building, n: nat, m: seq<byte>)
    requires FilledFrom(g, n) && NoRoom(g.active, [m])
    ensures FilledFrom(Seal(g).(active := [m]), n)
    ensures |g.active| == 255 || |BytesOf(g.active)| == 1176 ==> FilledFrom(Seal(g), n)
  {
    hide BytesOf;
    var z := Seal(g);
    assert forall i | 0 <= i < |g.ready| :: z.ready[i] == g.ready[i];
    forall i | n <= i < |z.ready|
      ensures NoRoom(z.ready[i].messages, After(z.(active := [m]), i))
      ensures |g.active| == 255 || |BytesOf(g.active)| == 1176 ==> NoRoom(z.ready[i].messages, After(z, i))
    {
      assert i < |g.ready| ==> NoRoom(g.ready[i].messages, After(g, i));
    }
  }

  /** Gathering one more does not change the first. */
  lemma InsertFills(g: Building, n: nat, m: seq<byte>)
    requires FilledFrom(g, n)
    ensures FilledFrom(g.(active := g.active + [m]), n)
  {
    hide BytesOf;
    forall i | n <= i < |g.ready|
      ensures NoRoom(g.ready[i].messages, After(g.(active := g.active + [m]), i))
    {
      assert NoRoom(g.ready[i].messages, After(g, i));
    }
  }

  lemma PumpOneFills(g: Building, n: nat, m: seq<byte>, first: uint32)
    requires WellBuilt(g, first) && FilledFrom(g, n) && |m| <= 1176
    ensures FilledFrom(PumpOne(g, m), n)
  {
    hide BytesOf, FilledFrom;
    NothingGathered();
    BytesNext(g.active, m);
    BytesNext([], m);
    InsertFills(g, n, m);
    var x := if CanInsert(g.active, m) then Insert(g, m) else Insert(Seal(g), m);
    if !CanInsert(g.active, m) {
      SealFills(g, n, m);
      assert [] + [m] == [m];
    }
    assert FilledFrom(x, n);
    if IsFull(x.active) {
      SealFills(x, n, m);
    }
  }

  lemma {:induction false} PumpAllFills(g: Building, n: nat, messages: seq<seq<byte>>, first: uint32)
    requires WellBuilt(g, first) && FilledFrom(g, n) && forall i | 0 <= i < |messages| :: |messages[i]| <= 1176
    ensures FilledFrom(PumpAll(g, messages), n)
    decreases |messages|
  {
    hide WellBuilt, FilledFrom, PumpOne;
    if messages != [] {
      PumpOneKeeps(g, messages[0], first);
      PumpOneFills(g, n, messages[0], first);
      PumpAllFills(PumpOne(g, messages[0]), n, messages[1..], first);
    }
  }

  /** Of two neighbouring bunches sealed by one pump the first has 255 messages, or 1176
      bytes, or more than that together with the first message of the second. */
  lemma PumpFills(g: Building, messages: seq<seq<byte>>, first: uint32, i: nat)
    requires WellBuilt(g, first) && forall j | 0 <= j < |messages| :: |messages[j]| <= 1176
    requires |g.ready| <= i && i + 1 < |Pumped(g, messages).ready|
    ensures var a, b := Pumped(g, messages).ready[i].messages, Pumped(g, messages).ready[i + 1].messages;
            |a| == 255 || |BytesOf(a)| == 1176 || (b != [] && |BytesOf(a)| + |b[0]| > 1176)
  {
    hide WellBuilt, BytesOf;
    PumpAllFills(g, |g.ready|, messages, first);
    var x := PumpAll(g, messages);
    assert NoRoom(x.ready[i].messages, After(x, i));
  }

  lemma {:induction false} BytesSum(a: seq<seq<byte>>, b: seq<seq<byte>>)
    ensures BytesOf(a + b) == BytesOf(a) + BytesOf(b)
    decreases |b|
  {
    if b == [] {
      assert a + b == a;
    } else {
      var n := |b| - 1;
      BytesSum(a, b[..n]);
      BytesNext(a + b[..n], b[n]);
      assert a + b == (a + b[..n]) + [b[n]];
      assert BytesOf(a) + (BytesOf(b[..n]) + b[n]) == BytesOf(a) + BytesOf(b[..n]) + b[n];
    }
  }

  /** The first two bunches hold the front of all messages. */
  lemma {:induction false} FrontOf(bunches: seq<OutBunch>) returns (rest: seq<seq<byte>>)
    requires |bunches| >= 2
    ensures MessagesIn(bunches) == bunches[0].messages + bunches[1].messages + rest
    decreases |bunches|
  {
    var n := |bunches| - 1;
    if n == 1 {
      assert bunches[..1][..0] == [] && MessagesIn([]) == [];
      assert MessagesIn(bunches[..1]) == [] + bunches[0].messages == bunches[0].messages;
      rest := [];
    } else {
      var less := FrontOf(bunches[..n]);
      rest := less + bunches[n].messages;
    }
  }

  /** Two bunches stand for more messages, or more bytes, than one holds. */
  lemma TwoHoldMore(bunches: seq<OutBunch>, messages: seq<seq<byte>>)
    requires |bunches| >= 2 && MessagesIn(bunches) == messages && bunches[1].messages != []
    requires NoRoom(bunches[0].messages, bunches[1].messages) && forall j | 0 <= j < |messages| :: 0 < |messages[j]|
    ensures |messages| > 255 || |BytesOf(messages)| > 1176
  {
    hide BytesOf, MessagesIn;
    var rest := FrontOf(bunches);
    var a, b := bunches[0].messages, bunches[1].messages;
    assert messages == a + [b[0]] + (b[1..] + rest);
    assert b[0] == messages[|a|];
    TooMany(a, b[0], b[1..] + rest);
  }

  /** What a pump makes of messages that fit, each for itself, from a builder with nothing
      gathered. */
  lemma PumpedFromNothing(first: uint32, messages: seq<seq<byte>>)
    requires forall j | 0 <= j < |messages| :: |messages[j]| <= 1176
    ensures var ready := Pumped(Building([], first, []), messages).ready;
            && MessagesIn(ready) == messages && NonEmpty(ready) && InSequence(ready, first)
            && (forall i | 0 <= i < |ready| :: Built(ready[i]))
            && forall i | 0 <= i < |ready| - 1 :: NoRoom(ready[i].messages, ready[i + 1].messages)
  {
    hide BytesOf, Pumped, MessagesIn;
    var g := Building([], first, []);
    StartsEmpty(first);
    PumpKeeps(g, messages, first);
    PumpGathers(g, messages, first);
    PumpNonEmpty(g, messages);
    InsertableIs(messages);
    assert [] + messages == messages;
    var ready := Pumped(g, messages).ready;
    forall i | 0 <= i < |ready| - 1
      ensures NoRoom(ready[i].messages, ready[i + 1].messages)
    {
      PumpFills(g, messages, first, i);
    }
  }

  /** Messages that are not empty and fit, each for itself, make a single bunch exactly when
      there are at most 255 and they have at most 1176 bytes together. */
  lemma OneBunchIff(first: uint32, messages: seq<seq<byte>>)
    requires messages != [] && forall j | 0 <= j < |messages| :: 0 < |messages[j]| <= 1176
    ensures |Pumped(Building([], first, []), messages).ready| == 1
            <==> |messages| <= 255 && |BytesOf(messages)| <= 1176
    ensures |Pumped(Building([], first, []), messages).ready| == 1 ==>
              Pumped(Building([], first, []), messages).ready[0]
              == OutBunch((first + 1) % WORD, |BytesOf(messages)| + 10, 10, messages)
  {
    hide BytesOf, Pumped, MessagesIn, NoRoom;
    PumpedFromNothing(first, messages);
    var ready := Pumped(Building([], first, []), messages).ready;
    if |ready| == 0 {
      NoneIn(ready);
    } else if |ready| == 1 {
      OneIn(ready);
      assert Built(ready[0]);
    } else {
      assert NoRoom(ready[0].messages, ready[1].messages);
      TwoHoldMore(ready, messages);
    }
  }

  lemma StartsEmpty(first: uint32)
    ensures WellBuilt(Building([], first, []), first) && Gathered(Building([], first, [])) == []
  {
  }

  lemma NoneIn(bunches: seq<OutBunch>)
    requires bunches == []
    ensures MessagesIn(bunches) == []
  {
  }

  lemma OneIn(bunches: seq<OutBunch>)
    requires |bunches| == 1
    ensures MessagesIn(bunches) == bunches[0].messages
  {
    assert bunches[..0] == [];
    assert MessagesIn([]) + bunches[0].messages == bunches[0].messages;
  }

  lemma TooMany(a: seq<seq<byte>>, m: seq<byte>, rest: seq<seq<byte>>)
    requires NoRoom(a, [m]) && |m| > 0
    ensures |a + [m] + rest| > 255 || |BytesOf(a + [m] + rest)| > 1176
  {
    hide BytesOf;
    BytesSum(a + [m], rest);
    BytesNext(a, m);
  }

  /** A message above 1176 bytes seals what has been gathered, be it nothing, and is
      dropped. */
  lemma LargeSeals(g: Building, m: seq<byte>)
    requires |m| > 1176
    ensures PumpOne(g, m)
         == Building([], (g.sequence + 1) % WORD,
                     g.ready + [OutBunch((g.sequence + 1) % WORD, |BytesOf(g.active)| + 10, 10, g.active)])
  {
    NothingGathered();
  }

  /** Two messages of 600 and 300 bytes share a bunch of 910 bytes, and two of 600 and 500
      one of 1110. */
  lemma TwoGathered(first: uint32, a: seq<byte>, b: seq<byte>)
    requires |a| == 600 && (|b| == 300 || |b| == 500)
    ensures Pumped(Building([], first, []), [a, b]).ready
         == [OutBunch((first + 1) % WORD, |b| + 610, 10, [a, b])]
  {
    hide BytesOf, Pumped;
    NothingGathered();
    BytesNext([], a);
    BytesNext([a], b);
    assert [] + [a] == [a] && [a] + [b] == [a, b];
    OneBunchIff(first, [a, b]);
  }

  // ----- several ticks -----

  /** One pump after the other, the tail sealed each time. */
  function Ticked(g: Building, batches: seq<seq<seq<byte>>>): Building
    decreases |batches|
  {
    if batches == [] then g else Ticked(Pumped(g, batches[0]), batches[1..])
  }

  function Flat<T>(lists: seq<seq<T>>): seq<T>
    decreases |lists|
  {
    if lists == [] then [] else lists[0] + Flat(lists[1..])
  }

  lemma {:induction false} InsertableSum(a: seq<seq<byte>>, b: seq<seq<byte>>)
    ensures Insertable(a + b) == Insertable(a) + Insertable(b)
    decreases |a|
  {
    if a == [] {
      assert a + b == b;
    } else {
      assert (a + b)[0] == a[0] && (a + b)[1..] == a[1..] + b;
      InsertableSum(a[1..], b);
    }
  }

  lemma PumpedEmpties(g: Building, messages: seq<seq<byte>>)
    ensures Pumped(g, messages).active == []
  {
  }

  /** What one pump keeps, every number of ticks keeps. */
  lemma {:induction false} TickedKeeps(g: Building, batches: seq<seq<seq<byte>>>, first: uint32)
    requires WellBuilt(g, first) && g.active == []
    ensures WellBuilt(Ticked(g, batches), first)
    ensures MessagesIn(Ticked(g, batches).ready) == MessagesIn(g.ready) + Insertable(Flat(batches))
    ensures NonEmpty(g.ready) && AllInsertable(Flat(batches)) ==> NonEmpty(Ticked(g, batches).ready)
    decreases |batches|
  {
    hide WellBuilt, Pumped, MessagesIn, Insertable, NonEmpty;
    if batches == [] {
      NothingInserted();
      assert MessagesIn(g.ready) + [] == MessagesIn(g.ready);
    } else {
      var z, rest := Pumped(g, batches[0]), batches[1..];
      PumpKeeps(g, batches[0], first);
      PumpGathers(g, batches[0], first);
      PumpedEmpties(g, batches[0]);
      InsertableSum(batches[0], Flat(rest));
      assert Gathered(g) == MessagesIn(g.ready);
      if NonEmpty(g.ready) && AllInsertable(Flat(batches)) {
        InsertableParts(batches[0], Flat(rest));
        PumpNonEmpty(g, batches[0]);
      }
      TickedKeeps(z, rest, first);
    }
  }

  lemma NothingInserted()
    ensures Insertable([]) == []
  {
  }

  lemma InsertableParts(a: seq<seq<byte>>, b: seq<seq<byte>>)
    requires AllInsertable(a + b)
    ensures AllInsertable(a) && AllInsertable(b)
  {
    assert forall i | 0 <= i < |a| :: a[i] == (a + b)[i];
    assert forall i | 0 <= i < |b| :: b[i] == (a + b)[|a| + i];
  }

  /** The same but for what was sealed before. */
  ghost predicate Apart(g: Building, z: Building, before: seq<OutBunch>) {
    g == z.(ready := before + z.ready)
  }

  lemma SealApart(g: Building, z: Building, before: seq<OutBunch>)
    requires Apart(g, z, before)
    ensures Apart(Seal(g), Seal(z), before)
  {
  }

  lemma OneApart(g: Building, m: seq<byte>)
    ensures Apart(PumpOne(g, m), PumpOne(g.(ready := []), m), g.ready)
  {
    hide CanInsert, IsFull, Seal;
    var z := g.(ready := []);
    assert Apart(g, z, g.ready) by {
      assert g.ready + [] == g.ready;
    }
    SealApart(g, z, g.ready);
    if CanInsert(g.active, m) {
      SealApart(Insert(g, m), Insert(z, m), g.ready);
    } else {
      SealApart(Insert(Seal(g), m), Insert(Seal(z), m), g.ready);
    }
  }

  lemma TailApart(g: Building, z: Building)
    ensures forall before | Apart(g, z, before) :: Apart(SealTail(g), SealTail(z), before)
  {
    hide Seal;
    forall before | Apart(g, z, before)
      ensures Apart(SealTail(g), SealTail(z), before)
    {
      SealApart(g, z, before);
    }
  }

  /** What has been sealed before makes no difference to a tick. */
  lemma {:induction false} ReadyApart(g: Building, messages: seq<seq<byte>>)
    ensures PumpAll(g, messages)
         == PumpAll(g.(ready := []), messages).(ready := g.ready + PumpAll(g.(ready := []), messages).ready)
    ensures Pumped(g, messages)
         == Pumped(g.(ready := []), messages).(ready := g.ready + Pumped(g.(ready := []), messages).ready)
    decreases |messages|
  {
    hide PumpOne;
    if messages == [] {
      TailApart(g, g.(ready := []));
    } else {
      hide Seal;
      var x, y := PumpOne(g, messages[0]), PumpOne(g.(ready := []), messages[0]);
      OneApart(g, messages[0]);
      ReadyApart(x, messages[1..]);
      ReadyApart(y, messages[1..]);
      var z := PumpAll(y.(ready := []), messages[1..]);
      assert g.ready + y.ready + z.ready == g.ready + (y.ready + z.ready);
      TailApart(PumpAll(x, messages[1..]), PumpAll(y, messages[1..]));
    }
  }

  /** What a channel's ticks append to its queue, one after the other. */
  function Appended(g: Building, batches: seq<seq<seq<byte>>>): seq<OutBunch>
    decreases |batches|
  {
    if batches == [] then []
    else
      var z := Pumped(g, batches[0]);
      z.ready + Appended(z.(ready := []), batches[1..])
  }

  /** Is what the pumps have sealed in all. */
  lemma {:induction false} AppendedIsSealed(g: Building, batches: seq<seq<seq<byte>>>)
    ensures Ticked(g, batches).ready == g.ready + Appended(g.(ready := []), batches)
    decreases |batches|
  {
    hide Pumped;
    if batches != [] {
      var z := Pumped(g, batches[0]);
      var y := Pumped(g.(ready := []), batches[0]);
      ReadyApart(g, batches[0]);
      AppendedIsSealed(z, batches[1..]);
      assert z.(ready := []) == y.(ready := []);
      assert g.ready + y.ready + Appended(y.(ready := []), batches[1..])
          == g.ready + (y.ready + Appended(y.(ready := []), batches[1..]));
    }
  }
}
