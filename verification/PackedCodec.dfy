/** SerializeIntPacked: 32-bit words in groups of seven bits, lowest group first, each
    group in a byte whose lowest bit says whether another group follows. */
module PackedCodec {
  import opened Bits

  /** One turn of the writer's loop: the byte for the low seven bits of value. */
  function GroupByte(value: bv32): bv8
  {
    var nextByteIndicator: bv32 := if value & !0x7F != 0 then 1 else 0;
    Low8(((value & 0x7F) << 1) | nextByteIndicator)
  }

  function Rest(value: bv32): bv32 {
    value >> 7
  }

  lemma Shrinks(value: bv32)
    requires Rest(value) != 0
    ensures Rest(value) < value
  {
  }

  /** The bytes of value; a zero value still takes one. */
  function Groups(value: bv32): (bytes: seq<bv8>)
    ensures bytes != []
    decreases value
  {
    if Rest(value) == 0 then
      [GroupByte(value)]
    else
      Shrinks(value);
      [GroupByte(value)] + Groups(Rest(value))
  }

  /** Two parts of a value joined, the groups after the first standing seven bits higher. */
  function Join(first: bv8, rest: bv32): bv32 {
    Or(ByteAsWord(first), Up7(rest))
  }

  function Or(x: bv32, y: bv32): bv32 {
    x | y
  }

  function Up7(w: bv32): bv32 {
    w << 7
  }

  function ByteAsWord(b: bv8): bv32 {
    (b >> 1) as bv32
  }

  predicate Continued(b: bv8) {
    b & 1 != 0
  }

  datatype GroupsRead = GroupsRead(value: bv32, used: nat, overflowed: bool)

  /** The reader's loop over whole bytes, from its turn `it` of five. */
  function ReadGroups(bytes: seq<bv8>, it: nat): GroupsRead
    decreases 5 - it
  {
    if it >= 5 then GroupsRead(0, 0, false)
    else if bytes == [] then GroupsRead(0, 0, true)
    else if !Continued(bytes[0]) then GroupsRead(Join(bytes[0], 0), 1, false)
    else
      var r := ReadGroups(bytes[1..], it + 1);
      GroupsRead(Join(bytes[0], r.value), 1 + r.used, r.overflowed)
  }

  /** One turn of that loop. */
  lemma ReadTurn(bytes: seq<bv8>, it: nat)
    requires it < 5 && bytes != []
    ensures var r := ReadGroups(bytes[1..], it + 1);
            ReadGroups(bytes, it)
            == if Continued(bytes[0]) then GroupsRead(Join(bytes[0], r.value), 1 + r.used, r.overflowed)
               else GroupsRead(Join(bytes[0], 0), 1, false)
  {
  }

  lemma LastGroupEmpty(it: nat)
    requires it < 5
    ensures ReadGroups([], it) == GroupsRead(0, 0, true) && ReadGroups([0], it) == GroupsRead(0, 1, false)
  {
  }

  /** Bytes that run out before the last group end like an empty group in their place. */
  lemma {:induction false} CutShort(bytes: seq<bv8>, it: nat)
    requires it + |bytes| < 5 && forall i | 0 <= i < |bytes| :: Continued(bytes[i])
    ensures var r := ReadGroups(bytes, it);
            r.overflowed && r.used == |bytes| && ReadGroups(bytes + [0], it) == GroupsRead(r.value, r.used + 1, false)
    decreases |bytes|
  {
    hide Continued, Join, ReadGroups;
    if bytes == [] {
      LastGroupEmpty(it);
      assert bytes + [0] == [0];
    } else {
      assert (bytes + [0])[1..] == bytes[1..] + [0];
      ReadTurn(bytes, it);
      ReadTurn(bytes + [0], it);
      CutShort(bytes[1..], it + 1);
    }
  }

  lemma {:induction false} ReadUpTo(bytes: seq<bv8>, it: nat, n: nat)
    requires it + n < 5 && n < |bytes| && (forall i | 0 <= i < n :: Continued(bytes[i]))
    requires !Continued(bytes[n]) || it + n == 4
    ensures ReadGroups(bytes, it).used == n + 1 && !ReadGroups(bytes, it).overflowed
    decreases n
  {
    hide Continued, Join;
    if n > 0 {
      ReadUpTo(bytes[1..], it + 1, n - 1);
    }
  }

  /** What the reader makes of any bytes: it takes them up to the first without the
      continuation bit, five at most, and it is an error exactly when they run out before
      that; then the value is the one that an empty group in their place would end. */
  lemma ReadGroupsIs(bytes: seq<bv8>, n: nat)
    requires n <= 4 && n <= |bytes| && forall i | 0 <= i < n :: Continued(bytes[i])
    requires n == |bytes| || n == 4 || !Continued(bytes[n])
    ensures var r := ReadGroups(bytes, 0);
            if n == |bytes|
            then r.overflowed && r.used == n && ReadGroups(bytes + [0], 0) == GroupsRead(r.value, n + 1, false)
            else !r.overflowed && r.used == n + 1
  {
    hide Continued, ReadGroups;
    if n == |bytes| {
      CutShort(bytes, 0);
    } else {
      ReadUpTo(bytes, 0, n);
    }
  }

  /** value has no bits left after `left` groups. */
  predicate Fits(value: bv32, left: nat)
  {
    if left == 0 then value == 0 else Fits(Rest(value), left - 1)
  }

  lemma FiveGroups(value: bv32)
    ensures Fits(value, 5)
  {
    assert value >> 7 >> 7 >> 7 >> 7 >> 7 == 0;
    assert Fits(value >> 7 >> 7 >> 7, 2);
  }

  lemma GroupWord(value: bv32)
    ensures Continued(GroupByte(value)) <==> Rest(value) != 0
    ensures Join(GroupByte(value), Rest(value)) == value
  {
  }

  /** Every word comes back from its groups, the reader using exactly the bytes written,
      at most five, whatever follows them. */
  lemma {:induction false} GroupsRoundTrip(value: bv32, it: nat, tail: seq<bv8>)
    requires it < 5 && Fits(value, 5 - it)
    ensures ReadGroups(Groups(value) + tail, it) == GroupsRead(value, |Groups(value)|, false)
    ensures it + |Groups(value)| <= 5
    decreases 5 - it
  {
    hide GroupByte, Join, Continued, Rest, ReadGroups;
    GroupWord(value);
    ReadTurn(Groups(value) + tail, it);
    if Rest(value) != 0 {
      GroupsRoundTrip(Rest(value), it + 1, tail);
      assert (Groups(value) + tail)[1..] == Groups(Rest(value)) + tail;
    }
  }

  /** A value takes one group, or as many as it has groups with bits set. */
  lemma {:induction false} GroupsLength(value: bv32, n: nat)
    requires n > 0
    ensures |Groups(value)| <= n <==> Fits(value, n)
    decreases n
  {
    hide GroupByte, Rest;
    if Rest(value) == 0 {
      ZeroFits(n - 1);
    } else if n > 1 {
      GroupsLength(Rest(value), n - 1);
    }
  }

  lemma ZeroFits(n: nat)
    ensures Fits(0, n)
  {
  }

  /** The bits SerializeIntPacked appends for value. */
  function PackedEncode(value: bv32): seq<bool> {
    BitsOf(Groups(value), 0, 8 * |Groups(value)|)
  }

  /** Reading groups of eight bits from a run of bits. */
  function ReadPacked(bits: seq<bool>): GroupsRead {
    ReadGroups(BytesOf(bits), 0)
  }

  /** SerializeIntPacked: every 32-bit word comes back from its bits whatever follows
      them, and takes eight bits a group, one to five groups. */
  lemma PackedRoundTrip(value: bv32, tail: seq<bool>)
    ensures ReadPacked(PackedEncode(value) + tail) == GroupsRead(value, |PackedEncode(value)| / 8, false)
    ensures |PackedEncode(value)| == 8 * |Groups(value)| && 1 <= |Groups(value)| <= 5
  {
    hide *;
    assert |PackedEncode(value)| == 8 * |Groups(value)|
      && ReadPacked(PackedEncode(value) + tail) == ReadGroups(BytesOf(PackedEncode(value) + tail), 0)
      && PackedEncode(value) == BitsOf(Groups(value), 0, 8 * |Groups(value)|) by {
      PackedUnfold(value, tail);
    }
    BytesOfBits(Groups(value), tail);
    FiveGroups(value);
    GroupsRoundTrip(value, 0, BytesOf(tail));
  }

  lemma PackedUnfold(value: bv32, tail: seq<bool>)
    ensures |PackedEncode(value)| == 8 * |Groups(value)|
    ensures PackedEncode(value) == BitsOf(Groups(value), 0, 8 * |Groups(value)|)
    ensures ReadPacked(PackedEncode(value) + tail) == ReadGroups(BytesOf(PackedEncode(value) + tail), 0)
  {
  }

  /** The first of the one or two buffer bytes a group is written to. */
  function LowPart(under: bv8, b: bv8, used: bv4): bv8
    requires used < 8
  {
    var destMaskByte0 := Low8(((1 as bv32) << used) - 1);
    (under & destMaskByte0) | Low8((b as bv32) << used)
  }

  /** The second one, when the write position is inside a byte. */
  function HighPart(under: bv8, b: bv8, used: bv4): bv8
    requires 0 < used < 8
  {
    var destMaskByte1 := 0xFF ^ Low8(((1 as bv32) << used) - 1);
    (under & destMaskByte1) | Low8((b as bv32) >> (8 - used))
  }

  lemma LowPartBlend(under: bv8, b: bv8, used: bv4)
    requires used < 8
    ensures LowPart(under, b, used) == Blend(Funnel(0, b, used), under, used)
  {
  }

  lemma HighPartBlend(under: bv8, b: bv8, used: bv4)
    requires 0 < used < 8
    ensures HighPart(under, b, used) == Blend(under, Funnel(b, 0, used), used)
  {
  }

  lemma LowPartBit(under: bv8, b: bv8, used: nat, i: nat)
    requires used < 8 && i < 8
    ensures Bit(LowPart(under, b, Count(used)), i) == if i < used then Bit(under, i) else Bit(b, i - used)
  {
    hide Bits.BitAt, Bits.Word, Bits.Funnel, Bits.Blend, LowPart;
    LowPartBlend(under, b, Count(used));
    WordOrder(i, used);
    BlendWord(Funnel(0, b, Count(used)), under, Count(used), Count(i));
    FunnelBit(0, b, used, i);
  }

  lemma HighPartBit(under: bv8, b: bv8, used: nat, i: nat)
    requires 0 < used < 8 && i < 8
    ensures Word(0) < Word(used)
    ensures Bit(HighPart(under, b, Count(used)), i) == if i < used then Bit(b, 8 - used + i) else Bit(under, i)
  {
    hide Bits.BitAt, Bits.Word, Bits.Funnel, Bits.Blend, HighPart;
    WordOrder(0, used);
    HighPartBlend(under, b, Count(used));
    WordOrder(i, used);
    BlendWord(under, Funnel(b, 0, Count(used)), Count(used), Count(i));
    FunnelBit(b, 0, used, i);
  }

  /** The reader's byte: eight bits cut from one or two buffer bytes. */
  function SourceByte(b0: bv8, b1: bv8, used: bv4): bv8
    requires used < 8
  {
    var srcMaskByte0 := Low8(((1 as bv32) << (8 - used)) - 1);
    var srcMaskByte1 := Low8(((1 as bv32) << used) - 1);
    ((b0 >> used) & srcMaskByte0) | Low8(((b1 & srcMaskByte1) as bv32) << ((8 - used) & 7))
  }

  lemma SourceFunnel(b0: bv8, b1: bv8, used: bv4)
    requires used < 8
    ensures SourceByte(b0, b1, used) == if used == 0 then b0 else Funnel(b0, b1, 8 - used)
  {
  }

  /** A group shifted to where it belongs in turn `it`, seven bits a turn. */
  function ShiftGroup(w: bv32, it: nat): bv32
    decreases it
  {
    if it == 0 then w else ShiftGroup(Up7(w), it - 1)
  }

  lemma UpOr(x: bv32, y: bv32)
    ensures Up7(Or(x, y)) == Or(Up7(x), Up7(y))
  {
  }

  lemma OrLaws(x: bv32, y: bv32, z: bv32)
    ensures Or(x, Or(y, z)) == Or(Or(y, x), z)
    ensures Or(x, 0) == x && Or(0, x) == x && Up7(0) == 0
  {
  }

  lemma {:induction false} ShiftOr(x: bv32, y: bv32, it: nat)
    ensures ShiftGroup(Or(x, y), it) == Or(ShiftGroup(x, it), ShiftGroup(y, it))
    decreases it
  {
    hide Or, Up7;
    if it > 0 {
      UpOr(x, y);
      ShiftOr(Up7(x), Up7(y), it - 1);
    }
  }

  lemma {:induction false} ShiftNothing(it: nat)
    ensures ShiftGroup(0, it) == 0
    decreases it
  {
    hide Or, Up7;
    OrLaws(0, 0, 0);
    if it > 0 {
      ShiftNothing(it - 1);
    }
  }

  /** Turn `it` adds one group to the value, leaving `rest` for the turns after it. */
  lemma AddGroup(value: bv32, b: bv8, rest: bv32, it: nat)
    ensures Or(value, ShiftGroup(Join(b, rest), it))
         == Or(Or(ShiftGroup(ByteAsWord(b), it), value), ShiftGroup(rest, it + 1))
  {
    hide Or, Up7, ByteAsWord;
    ShiftOr(ByteAsWord(b), Up7(rest), it);
    OrLaws(value, ShiftGroup(ByteAsWord(b), it), ShiftGroup(rest, it + 1));
  }

  lemma NothingMore(value: bv32, it: nat)
    ensures Or(value, ShiftGroup(0, it)) == value && Or(0, ShiftGroup(value, 0)) == value
  {
    ShiftNothing(it);
    OrLaws(value, 0, 0);
  }

  /** What the reader's loop keeps in turn `it`: `rest` is still to be read and `value`
      holds the groups before it. */
  ghost predicate InGroups(bytes: seq<bv8>, it: nat, rest: seq<bv8>, value: bv32)
  {
    && it <= 5
    && var r := ReadGroups(rest, it);
       ReadGroups(bytes, 0) == GroupsRead(Or(value, ShiftGroup(r.value, it)), it + r.used, r.overflowed)
  }

  lemma GroupsStart(bytes: seq<bv8>)
    ensures InGroups(bytes, 0, bytes, 0)
  {
    hide Or, ShiftGroup;
    NothingMore(ReadGroups(bytes, 0).value, 0);
  }

  lemma GroupsStep(bytes: seq<bv8>, it: nat, rest: seq<bv8>, value: bv32)
    requires InGroups(bytes, it, rest, value) && it < 5 && rest != []
    ensures var next := Or(ShiftGroup(ByteAsWord(rest[0]), it), value);
            && (Continued(rest[0]) ==> InGroups(bytes, it + 1, rest[1..], next))
            && (!Continued(rest[0]) ==> ReadGroups(bytes, 0) == GroupsRead(next, it + 1, false))
  {
    hide Or, ShiftGroup, Join, Continued, ByteAsWord;
    var later := if Continued(rest[0]) then ReadGroups(rest[1..], it + 1).value else 0;
    AddGroup(value, rest[0], later, it);
    NothingMore(Or(ShiftGroup(ByteAsWord(rest[0]), it), value), it + 1);
  }

  lemma GroupsEnd(bytes: seq<bv8>, it: nat, rest: seq<bv8>, value: bv32)
    requires InGroups(bytes, it, rest, value) && (it < 5 ==> rest == [])
    ensures ReadGroups(bytes, 0) == GroupsRead(value, it, it < 5)
  {
    hide Or, ShiftGroup;
    NothingMore(value, it);
  }
}
