/** BitWriter: appends bits to a fixed buffer whose unwritten bits are all zero. */
module BitWriter {
  import opened Bits
  import opened BitCodec
  import opened BitCopy
  import opened MathUtility
  import opened PackedCodec

  /** The buffer holds exactly `content`, followed by zero bits. */
  ghost predicate Holds(buffer: seq<bv8>, content: seq<bool>)
  {
    && |content| <= 8 * |buffer|
    && forall k: nat | k < 8 * |buffer| :: GetBit(buffer, k) == (k < |content| && content[k])
  }

  /** Copying n bits in right after the content appends them. */
  lemma HoldsCopied(before: seq<bv8>, after: seq<bv8>, content: seq<bool>, src: seq<bv8>, srcBit: nat, n: nat)
    requires Holds(before, content) && |content| + n <= 8 * |before| && srcBit + n <= 8 * |src|
    requires Copied(before, after, |content|, src, srcBit, n)
    ensures Holds(after, content + BitsOf(src, srcBit, n))
  {
    hide Bits.GetBit;
    forall k: nat | k < 8 * |after|
      ensures GetBit(after, k) == (k < |content| + n && (content + BitsOf(src, srcBit, n))[k])
    {
      assert GetBit(after, k) == if |content| <= k < |content| + n then GetBit(src, srcBit + k - |content|)
             else GetBit(before, k);
    }
  }

  /** GShift, the table of single-bit bytes. */
  function GShift(c: bv4): bv8
    requires c < 8
  {
    if c == 0 then 0x01 else if c == 1 then 0x02 else if c == 2 then 0x04 else if c == 3 then 0x08
    else if c == 4 then 0x10 else if c == 5 then 0x20 else if c == 6 then 0x40 else 0x80
  }

  /** What has been written determines every byte: an append that adds nothing to the
      content changes nothing in the buffer. */
  lemma SameContentSameBuffer(before: seq<bv8>, after: seq<bv8>, content: seq<bool>)
    requires |before| == |after| && Holds(before, content) && Holds(after, content)
    ensures before == after
  {
    hide GetBit;
    SameBitsSameBuffer(before, after);
  }

  lemma SetWord(b: bv8, c: bv4, i: bv4)
    requires c < 8 && i < 8
    ensures BitAt(b | GShift(c), i) == (i == c || BitAt(b, i))
    ensures !BitAt(b, c) ==> b + GShift(c) == b | GShift(c)
  {
  }

  lemma SetBit(b: bv8, c: nat, i: nat)
    requires c < 8 && i < 8
    ensures Bit(b | GShift(Count(c)), i) == (i == c || Bit(b, i))
    ensures !Bit(b, c) ==> b + GShift(Count(c)) == b | GShift(Count(c))
  {
    hide Bits.Word, Bits.BitAt, GShift;
    WordOrder(i, c);
    WordOrder(c, i);
    SetWord(b, Count(c), Count(i));
  }

  /** Setting the first free bit appends a one; the bit was zero, so or and add agree. */
  lemma HoldsSet(before: seq<bv8>, content: seq<bool>)
    requires Holds(before, content) && |content| < 8 * |before|
    ensures var m, c := |content| / 8, Count(|content| % 8);
            && before[m] + GShift(c) == before[m] | GShift(c)
            && Holds(before[m := before[m] | GShift(c)], content + [true])
  {
    hide Bits.Bit;
    var pos := |content|;
    var m, c := pos / 8, pos % 8;
    var after := before[m := before[m] | GShift(Count(c))];
    assert !GetBit(before, pos);
    SetBit(before[m], c, c);
    forall k: nat | k < 8 * |before|
      ensures GetBit(after, k) == (k < pos + 1 && (content + [true])[k])
    {
      assert GetBit(before, k) == (k < |content| && content[k]);
      SetBit(before[m], c, k % 8);
      assert k == 8 * (k / 8) + k % 8 && pos == 8 * m + c;
      if k / 8 != m {
        assert GetBit(after, k) == GetBit(before, k);
      }
    }
  }

  lemma HoldsZero(before: seq<bv8>, content: seq<bool>)
    requires Holds(before, content) && |content| < 8 * |before|
    ensures Holds(before, content + [false])
  {
    hide Bits.GetBit;
    forall k: nat | k < 8 * |before|
      ensures GetBit(before, k) == (k < |content| + 1 && (content + [false])[k])
    {
      assert GetBit(before, k) == (k < |content| && content[k]);
    }
  }

  class BitWriter {
    const Buffer: array<bv8>
    const Max: nat
    var Pos: nat
    ghost var Content: seq<bool>

    ghost predicate Valid()
      reads this, Buffer
    {
      && Pos == |Content| <= Max
      && Buffer.Length == (Max + 7) / 8
      && Holds(Buffer[..], Content)
    }

    constructor (inMaxBits: nat)
      ensures Valid() && Max == inMaxBits && Content == [] && fresh(Buffer)
    {
      Max := inMaxBits;
      Buffer := new bv8[(inMaxBits + 7) / 8](_ => 0);
      Pos := 0;
      Content := [];
      new;
      ZeroHolds(Buffer[..]);
    }

    method Reset()
      requires Valid()
      modifies this, Buffer
      ensures Valid() && Content == []
    {
      Pos := 0;
      Content := [];
      for i := 0 to Buffer.Length
        invariant Pos == 0 && Content == []
        invariant forall j | 0 <= j < i :: Buffer[j] == 0
      {
        Buffer[i] := 0;
      }
      ZeroHolds(Buffer[..]);
    }

    /** AllowAppend never grows the buffer, whatever bAllowResize says. */
    predicate AllowAppend(lengthBits: int)
      reads this
    {
      Pos + lengthBits <= Max
    }

    method SerializeBits(src: array<bv8>, lengthBits: nat)
      requires Valid() && src != Buffer && lengthBits <= 8 * src.Length
      modifies this, Buffer
      ensures Valid()
      ensures Content == if old(AllowAppend(lengthBits)) then old(Content) + BitsOf(src[..], 0, lengthBits)
              else old(Content)
    {
      if AllowAppend(lengthBits) {
        if lengthBits == 1 {
          PutBit(src[0] & 0x01 != 0);
          assert BitsOf(src[..], 0, 1) == [src[0] & 0x01 != 0];
        } else {
          CopyIn(src, 0, lengthBits);
        }
      }
    }

    method SerializeBitsWithOffset(src: array<bv8>, sourceBit: nat, lengthBits: nat)
      requires Valid() && src != Buffer && sourceBit + lengthBits <= 8 * src.Length
      modifies this, Buffer
      ensures Valid()
      ensures Content == if old(AllowAppend(lengthBits)) then old(Content) + BitsOf(src[..], sourceBit, lengthBits)
              else old(Content)
    {
      if AllowAppend(lengthBits) {
        CopyIn(src, sourceBit, lengthBits);
      }
    }

    method Serialize(src: array<bv8>, lengthBytes: nat)
      requires Valid() && src != Buffer && lengthBytes <= src.Length
      modifies this, Buffer
      ensures Valid()
      ensures Content == if old(AllowAppend(8 * lengthBytes)) then old(Content) + BitsOf(src[..], 0, 8 * lengthBytes)
              else old(Content)
    {
      if AllowAppend(8 * lengthBytes) {
        CopyIn(src, 0, 8 * lengthBytes);
      }
    }

    method WriteBit(bit: bool)
      requires Valid()
      modifies this, Buffer
      ensures Valid()
      ensures Content == if old(AllowAppend(1)) then old(Content) + [bit] else old(Content)
    {
      if AllowAppend(1) {
        PutBit(bit);
      }
    }

    /** Copies bits in at the position, which must leave room for them, and moves on. */
    method CopyIn(src: array<bv8>, srcBit: nat, n: nat)
      requires Valid() && src != Buffer && srcBit + n <= 8 * src.Length && AllowAppend(n)
      modifies this, Buffer
      ensures Valid()
      ensures Content == old(Content) + BitsOf(src[..], srcBit, n)
    {
      ghost var before := Buffer[..];
      AppBitsCpy(Buffer, Pos, src, srcBit, n);
      HoldsCopied(before, Buffer[..], Content, src[..], srcBit, n);
      Pos := Pos + n;
      Content := Content + BitsOf(src[..], srcBit, n);
    }

    /** Puts one bit at the position by or. */
    method PutBit(bit: bool)
      requires Valid() && AllowAppend(1)
      modifies this, Buffer
      ensures Valid()
      ensures Content == old(Content) + [bit]
    {
      ghost var before := Buffer[..];
      if bit {
        HoldsSet(before, Content);
        Buffer[Pos / 8] := Buffer[Pos / 8] | GShift(Count(Pos % 8));
        assert Buffer[..] == before[Pos / 8 := Buffer[Pos / 8]];
      } else {
        HoldsZero(before, Content);
      }
      Pos := Pos + 1;
      Content := Content + [bit];
    }

    /** Values from max up are written as max - 1; nothing is written for max below 2. */
    method SerializeInt(value: uint32, max: uint32)
      requires Valid()
      modifies this, Buffer
      ensures Valid()
      ensures Content == if max >= 2 && old(AllowAppend(CeilLogTwo(max))) then old(Content) + IntEncode(value, max)
              else old(Content)
    {
      if max < 2 {
        return;
      }
      var lengthBits := CeilLogTwo(max);
      var writeValue := if value >= max then max - 1 else value;
      if AllowAppend(lengthBits) {
        WriteMasked(writeValue, max);
      }
    }

    method WriteIntWrapped(value: uint32, valueMax: uint32)
      requires Valid()
      modifies this, Buffer
      ensures Valid()
      ensures Content == if old(AllowAppend(CeilLogTwo(valueMax))) then old(Content) + WrapEncode(value, valueMax)
              else old(Content)
    {
      var lengthBits := CeilLogTwo(valueMax);
      if AllowAppend(lengthBits) {
        WriteMasked(value, valueMax);
      }
    }

    /** Puts one bit at the position by addition, as the integer codecs do. */
    method AddBit(bit: bool)
      requires Valid() && AllowAppend(1)
      modifies this, Buffer
      ensures Valid()
      ensures Content == old(Content) + [bit]
    {
      ghost var before := Buffer[..];
      if bit {
        HoldsSet(before, Content);
        Buffer[Pos / 8] := Buffer[Pos / 8] + GShift(Count(Pos % 8));
        assert Buffer[..] == before[Pos / 8 := Buffer[Pos / 8]];
      } else {
        HoldsZero(before, Content);
      }
      Pos := Pos + 1;
      Content := Content + [bit];
    }

    /** One bit a round, from the lowest on, while the value written so far and the round's
        mask together stay below the bound; a set bit is added to the buffer's byte. */
    method WriteMasked(value: uint32, max: uint32)
      requires Valid() && AllowAppend(CeilLogTwo(max))
      modifies this, Buffer
      ensures Valid()
      ensures Content == old(Content) + IntBits(value, max, 0, 0)
    {
      assert Pow2(0) == 1;
      hide Holds, MathUtility.Pow2, BitCodec.IntBits, BitCodec.HasBit, BitCodec.TestMask, BitCodec.MaskGuard,
           BitCodec.MaskDouble, BitCodec.RoundMask, BitCodec.InRound, MathUtility.CeilLogTwo;
      var newValue: nat, mask: nat := 0, 1;
      ghost var k, start, done := 0, Content, [];
      FirstRound(value, max);
      while MaskGuard(newValue, mask, max)
        invariant k <= 32 && |done| == k && InRound(value, max, k, newValue, mask, done)
        invariant Valid() && |start| + CeilLogTwo(max) <= Max && Content == start + done
        decreases 32 - k
      {
        StepRound(value, max, k, newValue, mask, done);
        var bit := TestMask(value, mask);
        AddBit(bit);
        newValue := if bit then newValue + mask else newValue;
        mask := MaskDouble(mask);
        k, done := k + 1, done + [bit];
        assert start + done == Content;
      }
      LastRound(value, max, k, newValue, mask, done);
    }

    /** Eight bits a group: the groups are gathered first, and nothing is written unless
        all of them fit. */
    method SerializeIntPacked(inValue: bv32)
      requires Valid()
      modifies this, Buffer
      ensures Valid()
      ensures Content == if old(AllowAppend(|PackedEncode(inValue)|)) then old(Content) + PackedEncode(inValue)
              else old(Content)
    {
      var bytes := GatherGroups(inValue);
      if !AllowAppend(8 * |bytes|) {
        return;
      }
      ghost var start := Content;
      for j := 0 to |bytes|
        invariant Valid() && |start| + 8 * |bytes| <= Max
        invariant Content == start + BitsOf(bytes[..j], 0, 8 * j)
      {
        WriteGroup(bytes[j]);
        BitsOfNext(bytes, j);
        assert start + BitsOf(bytes[..j + 1], 0, 8 * (j + 1)) == (start + BitsOf(bytes[..j], 0, 8 * j)) +
               BitsOf([bytes[j]], 0, 8);
      }
      assert bytes[..|bytes|] == bytes;
    }

    /** One group, over two bytes when the position is inside a byte. */
    method WriteGroup(b: bv8)
      requires Valid() && AllowAppend(8)
      modifies this, Buffer
      ensures Valid()
      ensures Content == old(Content) + BitsOf([b], 0, 8)
    {
      hide Holds, Copied, Bits.Bit, Bits.GetBit, Bits.Word, PackedCodec.LowPart, PackedCodec.HighPart;
      ghost var before := Buffer[..];
      var used, dest := Pos % 8, Pos / 8;
      LowCopied(before, Pos, b);
      Buffer[dest] := LowPart(Buffer[dest], b, Count(used));
      ghost var mid := Buffer[..];
      assert mid == before[dest := LowPart(before[dest], b, Count(used))];
      if used != 0 {
        WordOrder(0, used);
        HighCopied(before, mid, Pos, b);
        Buffer[dest + 1] := HighPart(Buffer[dest + 1], b, Count(used));
        assert Buffer[..] == mid[dest + 1 := HighPart(before[dest + 1], b, Count(used))];
      }
      HoldsCopied(before, Buffer[..], Content, [b], 0, 8);
      Pos := Pos + 8;
      Content := Content + BitsOf([b], 0, 8);
    }
  }

  /** Collects the groups in a buffer of bytes: one at least, then until nothing is left. */
  method GatherGroups(inValue: bv32) returns (bytes: seq<bv8>)
    ensures bytes == Groups(inValue)
  {
    hide PackedCodec.GroupByte, PackedCodec.Rest, PackedCodec.Groups, Gathering;
    var value, first := inValue, true;
    bytes := [];
    GatheringStarts(inValue);
    while first || value != 0
      invariant Gathering(inValue, bytes, first, value)
      decreases GroupsToGo(first, value)
    {
      GatheringSteps(inValue, bytes, first, value);
      bytes := bytes + [GroupByte(value)];
      value := Rest(value);
      first := false;
    }
    GatheringEnds(inValue, bytes, first, value);
  }

  ghost predicate Gathering(inValue: bv32, bytes: seq<bv8>, first: bool, value: bv32) {
    if first || value != 0 then bytes + Groups(value) == Groups(inValue) else bytes == Groups(inValue)
  }

  ghost function GroupsToGo(first: bool, value: bv32): nat {
    if first || value != 0 then |Groups(value)| else 0
  }

  lemma GatheringStarts(inValue: bv32)
    ensures Gathering(inValue, [], true, inValue)
  {
    assert [] + Groups(inValue) == Groups(inValue);
  }

  lemma GatheringSteps(inValue: bv32, bytes: seq<bv8>, first: bool, value: bv32)
    requires Gathering(inValue, bytes, first, value) && (first || value != 0)
    ensures Gathering(inValue, bytes + [GroupByte(value)], false, Rest(value))
    ensures GroupsToGo(false, Rest(value)) < GroupsToGo(first, value)
  {
    hide PackedCodec.GroupByte, PackedCodec.Rest;
    if Rest(value) != 0 {
      assert bytes + ([GroupByte(value)] + Groups(Rest(value))) == (bytes + [GroupByte(value)]) + Groups(Rest(value));
    }
  }

  lemma GatheringEnds(inValue: bv32, bytes: seq<bv8>, first: bool, value: bv32)
    requires Gathering(inValue, bytes, first, value) && !first && value == 0
    ensures bytes == Groups(inValue)
  {
  }

  lemma BitsOfNext(bytes: seq<bv8>, j: nat)
    requires j < |bytes|
    ensures BitsOf(bytes[..j + 1], 0, 8 * (j + 1)) == BitsOf(bytes[..j], 0, 8 * j) + BitsOf([bytes[j]], 0, 8)
  {
    hide Bits.Bit;
    var all, front, last := BitsOf(bytes[..j + 1], 0, 8 * (j + 1)), BitsOf(bytes[..j], 0, 8 * j),
        BitsOf([bytes[j]], 0, 8);
    forall k: nat | k < 8 * (j + 1)
      ensures all[k] == (front + last)[k]
    {
      assert all[k] == GetBit(bytes[..j + 1], k);
      if k < 8 * j {
        assert front[k] == GetBit(bytes[..j], k);
      } else {
        assert last[k - 8 * j] == GetBit([bytes[j]], k - 8 * j);
        assert k / 8 == j && k % 8 == k - 8 * j;
      }
    }
  }

  lemma OneByteBits(b: bv8, k: nat)
    requires k < 8
    ensures GetBit([b], k) == Bit(b, k)
  {
  }

  lemma LowCopied(before: seq<bv8>, pos: nat, b: bv8)
    requires pos + 8 <= 8 * |before|
    ensures var dest := pos / 8;
            Copied(before, before[dest := LowPart(before[dest], b, Count(pos % 8))], pos, [b], 0, 8 * dest + 8 - pos)
  {
    hide Copied, Bits.Word, PackedCodec.LowPart, Bits.Bit, Bits.GetBit;
    var used, dest, src := pos % 8, pos / 8, [b];
    var low := LowPart(before[dest], b, Count(used));
    forall i: nat | i < 8
      ensures Bit(low, i) == if i < used then Bit(before[dest], i) else GetBit(src, 0 + 8 * dest + i - pos)
    {
      LowPartBit(before[dest], b, used, i);
      if used <= i {
        assert 0 + 8 * dest + i - pos == i - used;
        OneByteBits(b, i - used);
      }
    }
    NothingCopied(before, pos, src, 0);
    WriteByte(before, before, pos, src, 0, pos, 8 * dest + 8, dest, low);
  }

  lemma HighCopied(before: seq<bv8>, mid: seq<bv8>, pos: nat, b: bv8)
    requires pos + 8 <= 8 * |before| && pos % 8 != 0 && Word(0) < Word(pos % 8)
    requires Copied(before, mid, pos, [b], 0, 8 * (pos / 8) + 8 - pos) && |mid| == |before|
    ensures var next := pos / 8 + 1;
            Copied(before, mid[next := HighPart(before[next], b, Count(pos % 8))], pos, [b], 0, 8)
  {
    hide Copied, Bits.Word, PackedCodec.HighPart, Bits.Bit, Bits.GetBit;
    var used, next, src := pos % 8, pos / 8 + 1, [b];
    var high := HighPart(before[next], b, Count(used));
    forall i: nat | i < 8
      ensures Bit(high, i) == if i < used then GetBit(src, 0 + 8 * next + i - pos) else Bit(before[next], i)
    {
      HighPartBit(before[next], b, used, i);
      if i < used {
        assert 0 + 8 * next + i - pos == 8 - used + i;
        OneByteBits(b, 8 - used + i);
      }
    }
    WriteByte(before, mid, pos, src, 0, 8 * next, pos + 8, next, high);
  }

  lemma ZeroHolds(buffer: seq<bv8>)
    requires forall m | 0 <= m < |buffer| :: buffer[m] == 0
    ensures Holds(buffer, [])
  {
  }
}
