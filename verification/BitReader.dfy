/** BitReader: consumes bits from the front of a buffer, with a sticky error flag. */
module BitReader {
  import opened Bits
  import opened BitCodec
  import opened BitCopy
  import opened MathUtility
  import opened PackedCodec

  /** The first ceil(n / 8) bytes of `after` hold the n given bits padded with zeros,
      the bytes behind them are those of `before`. */
  ghost predicate Received(before: seq<bv8>, after: seq<bv8>, bits: seq<bool>)
    requires |bits| <= 8 * |before|
  {
    && |after| == |before|
    && forall k: nat | k < 8 * |before| ::
         GetBit(after, k) == if k < |bits| then bits[k] else k >= 8 * ((|bits| + 7) / 8) && GetBit(before, k)
  }

  function Zeros(n: nat): seq<bool> {
    seq(n, _ => false)
  }

  /** GMask, the table of low-bit masks. */
  function GMask(c: bv4): bv8
    requires c < 8
  {
    if c == 0 then 0x00 else if c == 1 then 0x01 else if c == 2 then 0x03 else if c == 3 then 0x07
    else if c == 4 then 0x0f else if c == 5 then 0x1f else if c == 6 then 0x3f else 0x7f
  }

  function Masked(b: bv8, c: bv4): bv8
    requires c < 8
  {
    b & GMask(c)
  }

  lemma MaskedWord(b: bv8, c: bv4, i: bv4)
    requires c < 8 && i < 8
    ensures BitAt(Masked(b, c), i) == (i < c && BitAt(b, i))
  {
  }

  lemma MaskedBit(b: bv8, c: nat, i: nat)
    requires c < 8 && i < 8
    ensures Bit(Masked(b, Count(c)), i) == (i < c && Bit(b, i))
  {
    hide Bits.Word, Bits.BitAt, Masked;
    WordOrder(i, c);
    MaskedWord(b, Count(c), Count(i));
  }

  /** src cut to its first n bits: ceil(n / 8) bytes, the last one masked. */
  ghost predicate CutTo(src: seq<bv8>, buffer: seq<bv8>, n: nat)
    requires n <= 8 * |src|
  {
    && |buffer| == (n + 7) / 8
    && forall k: nat | k < 8 * |buffer| :: GetBit(buffer, k) == (k < n && GetBit(src, k))
  }

  /** Copying ceil(n / 8) bytes and masking the last one cuts src to n bits. */
  lemma CutMasked(src: seq<bv8>, bytes: seq<bv8>, cut: seq<bv8>, n: nat)
    requires n <= 8 * |src| && bytes == src[..(n + 7) / 8]
    requires cut == if n % 8 != 0 then bytes[n / 8 := Masked(bytes[n / 8], Count(n % 8))] else bytes
    ensures CutTo(src, cut, n)
  {
    forall k: nat | k < 8 * |cut|
      ensures GetBit(cut, k) == (k < n && GetBit(src, k))
    {
      CutBit(src, bytes, cut, n, k);
    }
  }

  lemma CutBit(src: seq<bv8>, bytes: seq<bv8>, cut: seq<bv8>, n: nat, k: nat)
    requires n <= 8 * |src| && bytes == src[..(n + 7) / 8]
    requires cut == if n % 8 != 0 then bytes[n / 8 := Masked(bytes[n / 8], Count(n % 8))] else bytes
    requires k < 8 * |cut|
    ensures GetBit(cut, k) == (k < n && GetBit(src, k))
  {
    hide Bits.Bit, Bits.Count, Bits.Word, Masked;
    var m, e := n / 8, n % 8;
    assert k == 8 * (k / 8) + k % 8 && n == 8 * m + e;
    if k / 8 == m {
      MaskedBit(bytes[m], e, k % 8);
    }
  }

  lemma ReceivedCopy(before: seq<bv8>, cleared: seq<bv8>, after: seq<bv8>, src: seq<bv8>, pos: nat, n: nat)
    requires 0 < n <= 8 * |before| && pos + n <= 8 * |src|
    requires cleared == before[(n + 7) / 8 - 1 := 0]
    requires Copied(cleared, after, 0, src, pos, n)
    ensures Received(before, after, BitsOf(src, pos, n))
  {
    hide Bits.Bit;
    var last := (n + 7) / 8 - 1;
    forall k: nat | k < 8 * |before|
      ensures GetBit(after, k) == if k < n then BitsOf(src, pos, n)[k] else k >= 8 * ((n + 7) / 8) && GetBit(before, k)
    {
      assert GetBit(after, k) == if 0 <= k < 0 + n then GetBit(src, pos + k - 0) else GetBit(cleared, k);
      if k >= n {
        if k / 8 == last {
          assert GetBit(cleared, k) == Bit(0, k % 8);
          ZeroBit(k % 8);
        } else {
          assert GetBit(cleared, k) == GetBit(before, k);
        }
      }
    }
  }

  lemma ZeroBit(i: nat)
    requires i < 8
    ensures !Bit(0, i)
  {
  }

  class BitReader {
    var Buffer: array<bv8>
    var Max: nat
    var Pos: nat
    var Error: bool

    ghost predicate Valid()
      reads this
    {
      Pos <= Max && Buffer.Length == (Max + 7) / 8
    }

    /** The bits not yet read. */
    ghost function Remaining(): seq<bool>
      requires Valid()
      reads this, Buffer
    {
      BitsOf(Buffer[..], Pos, Max - Pos)
    }

    /** Without a source the buffer is all zero. */
    constructor (src: array?<bv8>, countBits: nat)
      requires src != null ==> countBits <= 8 * src.Length
      ensures Valid() && fresh(Buffer)
      ensures Max == countBits && Pos == 0 && !Error
      ensures src == null ==> forall k | 0 <= k < Buffer.Length :: Buffer[k] == 0
      ensures src != null ==> CutTo(src[..], Buffer[..], countBits)
    {
      var n := (countBits + 7) / 8;
      var buffer;
      if src == null {
        buffer := new bv8[n](_ => 0);
      } else {
        buffer := new bv8[n](i requires 0 <= i < n reads src => src[i]);
        ghost var bytes := buffer[..];
        assert bytes == src[..n];
        if countBits % 8 != 0 {
          buffer[countBits / 8] := Masked(buffer[countBits / 8], Count(countBits % 8));
          assert buffer[..] == bytes[countBits / 8 := Masked(bytes[countBits / 8], Count(countBits % 8))];
        }
        CutMasked(src[..], bytes, buffer[..], countBits);
      }
      Buffer, Max, Pos, Error := buffer, countBits, 0, false;
    }

    method SerializeBits(dest: array<bv8>, lengthBits: nat)
      requires Valid() && dest != Buffer && lengthBits <= 8 * dest.Length
      modifies this`Pos, this`Error, dest
      ensures Valid()
      ensures Error == (old(Error) || old(Pos) + lengthBits > Max)
      ensures Pos == if Error then old(Pos) else old(Pos) + lengthBits
      ensures Received(old(dest[..]), dest[..], if Error then Zeros(lengthBits) else old(Remaining())[..lengthBits])
    {
      ghost var before := dest[..];
      if Error || Pos + lengthBits > Max {
        Error := true;
        Clear(dest, lengthBits);
        return;
      }
      assert BitsOf(Buffer[..], Pos, lengthBits) == Remaining()[..lengthBits];
      if lengthBits == 1 {
        var bit := GetBit(Buffer[..], Pos);
        dest[0] := 0;
        ghost var cleared := dest[..];
        if bit {
          dest[0] := dest[0] | 0x01;
        }
        OneBitCopied(cleared, dest[..], Buffer[..], Pos);
        ReceivedCopy(before, cleared, dest[..], Buffer[..], Pos, 1);
        Pos := Pos + 1;
      } else if lengthBits != 0 {
        var last := (lengthBits + 7) / 8 - 1;
        dest[last] := 0;
        ghost var cleared := dest[..];
        assert cleared == before[last := 0];
        AppBitsCpy(dest, 0, Buffer, Pos, lengthBits);
        ReceivedCopy(before, cleared, dest[..], Buffer[..], Pos, lengthBits);
        Pos := Pos + lengthBits;
      }
    }

    /** Clears the bytes that a read of this length would fill. */
    method Clear(dest: array<bv8>, lengthBits: nat)
      requires lengthBits <= 8 * dest.Length
      modifies dest
      ensures Received(old(dest[..]), dest[..], Zeros(lengthBits))
    {
      var n := (lengthBits + 7) / 8;
      ghost var before := dest[..];
      for i := 0 to n
        invariant forall j | 0 <= j < i :: dest[j] == 0
        invariant forall j | i <= j < dest.Length :: dest[j] == before[j]
      {
        dest[i] := 0;
      }
      forall k: nat | k < 8 * dest.Length
        ensures GetBit(dest[..], k) == if k < lengthBits then Zeros(lengthBits)[k] else k >= 8 * n && GetBit(before, k)
      {
        if k / 8 < n {
          ZeroBit(k % 8);
        }
      }
    }

    method SerializeBitsWithOffset(dest: array<bv8>, destBit: nat, lengthBits: nat)
      requires Valid() && dest != Buffer && destBit + lengthBits <= 8 * dest.Length
      modifies this`Pos, this`Error, dest
      ensures Valid()
      ensures Error == (old(Error) || old(Pos) + lengthBits > Max)
      ensures if Error then Pos == old(Pos) && dest[..] == old(dest[..])
              else
                Pos == old(Pos) + lengthBits
                && Copied(old(dest[..]), dest[..], destBit, Buffer[..], old(Pos), lengthBits)
    {
      if Error || Pos + lengthBits > Max {
        Error := true;
        return;
      }
      NothingCopied(dest[..], destBit, Buffer[..], Pos);
      if lengthBits != 0 {
        AppBitsCpy(dest, destBit, Buffer, Pos, lengthBits);
        Pos := Pos + lengthBits;
      }
    }

    method Serialize(dest: array<bv8>, lengthBytes: nat)
      requires Valid() && dest != Buffer && lengthBytes <= dest.Length
      modifies this`Pos, this`Error, dest
      ensures Valid()
      ensures Error == (old(Error) || old(Pos) + 8 * lengthBytes > Max)
      ensures Pos == if Error then old(Pos) else old(Pos) + 8 * lengthBytes
      ensures Received(old(dest[..]), dest[..],
                       if Error then Zeros(8 * lengthBytes) else old(Remaining())[..8 * lengthBytes])
    {
      SerializeBits(dest, 8 * lengthBytes);
    }

    /** At the end of the data this returns 0 without setting the error flag. */
    method ReadBit() returns (bit: bool)
      requires Valid()
      modifies this`Pos
      ensures Valid()
      ensures var some := !Error && old(Remaining()) != [];
              bit == (some && old(Remaining())[0]) && Pos == if some then old(Pos) + 1 else old(Pos)
    {
      bit := false;
      if !Error && Pos < Max {
        bit := GetBit(Buffer[..], Pos);
        Pos := Pos + 1;
      }
    }

    /** The mask loop: a bit a round, while the next one cannot make the value reach the
        bound, the mask has not run out of the word, and there are bits. */
    method ReadMasked(valueMax: uint32) returns (value: nat, localPos: nat, overflowed: bool)
      requires Valid()
      ensures value < WORD && Pos <= localPos <= Max
      ensures IntRead(value, localPos - Pos, overflowed) == BitCodec.ReadInt(Remaining(), valueMax, 0, 0)
    {
      hide Bits.BitsOf, BitCodec.ReadInt, BitCodec.InReading, BitCodec.MaskGuard, BitCodec.MaskDouble, Bits.GetBit;
      ghost var bits := Remaining();
      var mask: nat;
      value, mask, localPos, overflowed := 0, 1, Pos, false;
      ReadingStarts(bits, valueMax);
      while MaskGuard(value, mask, valueMax) && !overflowed
        invariant Pos <= localPos <= Max && InReading(bits, valueMax, localPos - Pos, value, mask)
        invariant overflowed ==> localPos == Max && MaskGuard(value, mask, valueMax)
        decreases Max - localPos, !overflowed
      {
        if localPos >= Max {
          overflowed := true;
        } else {
          ReadingSteps(bits, valueMax, localPos - Pos, value, mask);
          BitsOfAt(Buffer[..], Pos, Max - Pos, localPos - Pos);
          value := if GetBit(Buffer[..], localPos) then value + mask else value;
          mask := MaskDouble(mask);
          localPos := localPos + 1;
        }
      }
      ReadingEnds(bits, valueMax, localPos - Pos, value, mask);
    }

    /** On an earlier error OutValue stays what it was; running out of bits sets the error
        flag and still hands out the bits read. */
    method SerializeInt(outValue: uint32, valueMax: uint32) returns (result: uint32)
      requires Valid()
      modifies this`Pos, this`Error
      ensures Valid()
      ensures old(Error) ==> result == outValue && Pos == old(Pos) && Error
      ensures !old(Error) ==> var r := BitCodec.ReadInt(old(Remaining()), valueMax, 0, 0);
                              result == r.value && Pos == old(Pos) + r.used && Error == r.overflowed
    {
      if Error {
        return outValue;
      }
      var value, localPos, overflowed := ReadMasked(valueMax);
      Error := overflowed;
      Pos := localPos;
      result := value;
    }

    method ReadInt(max: uint32) returns (value: uint32)
      requires Valid()
      modifies this`Pos, this`Error
      ensures Valid()
      ensures old(Error) ==> value == 0 && Pos == old(Pos) && Error
      ensures !old(Error) ==> var r := BitCodec.ReadInt(old(Remaining()), max, 0, 0);
                              value == r.value && Pos == old(Pos) + r.used && Error == r.overflowed
    {
      value := SerializeInt(0, max);
    }

    /** Eight bits a group, at most five groups; a group that is not there sets the error
        flag and ends the value with the groups read so far. */
    method SerializeIntPacked() returns (value: bv32)
      requires Valid()
      modifies this`Pos, this`Error
      ensures Valid()
      ensures old(Error) ==> value == 0 && Pos == old(Pos) && Error
      ensures !old(Error) ==> var r := ReadPacked(old(Remaining()));
                              value == r.value && Pos == old(Pos) + 8 * r.used && Error == r.overflowed
    {
      hide PackedCodec.Or, PackedCodec.ShiftGroup, PackedCodec.ReadGroups, PackedCodec.InGroups, PackedCodec.Continued,
        PackedCodec.ByteAsWord, Bits.ByteOf, Bits.GetBit;
      value := 0;
      if Error {
        return;
      }
      ghost var bytes := BytesOf(Remaining());
      ghost var rest := bytes;
      GroupsStart(bytes);
      var it := 0;
      while it < 5
        invariant it <= 5 && Valid() && !Error && Pos == old(Pos) + 8 * it
        invariant rest == BytesOf(Remaining()) && InGroups(bytes, it, rest, value)
        decreases 5 - it
      {
        if Pos + 8 > Max {
          Error := true;
          GroupsEnd(bytes, it, rest, value);
          return;
        }
        var b := NextByte();
        Pos := Pos + 8;
        assert rest[1..] == BytesOf(Remaining());
        GroupsStep(bytes, it, rest, value);
        value := Or(ShiftGroup(ByteAsWord(b), it), value);
        rest := rest[1..];
        it := it + 1;
        if !Continued(b) {
          return;
        }
      }
      GroupsEnd(bytes, it, rest, value);
    }

    method NextByte() returns (b: bv8)
      requires Valid() && Pos + 8 <= Max
      ensures BytesOf(Remaining()) == [b] + BytesOf(BitsOf(Buffer[..], Pos + 8, Max - Pos - 8))
    {
      hide Bits.Bit, Bits.GetBit, Bits.Word, Bits.ByteOf, Bits.Funnel, PackedCodec.SourceByte;
      var used, src := Pos % 8, Pos / 8;
      var next := if used != 0 then 1 else 0;
      b := SourceByte(Buffer[src], Buffer[src + next], Count(used));
      ghost var buffer := Buffer[..];
      ByteAtBits(buffer, buffer[src], buffer[src + next], Pos, b);
      ghost var bits := Remaining();
      forall i: nat | i < 8
        ensures bits[i] == Bit(b, i)
      {
        assert bits[i] == GetBit(buffer, Pos + i);
      }
      ByteOfBits(b, bits);
      assert bits[8..] == BitsOf(Buffer[..], Pos + 8, Max - Pos - 8);
    }
  }

  lemma OneBitCopied(cleared: seq<bv8>, after: seq<bv8>, src: seq<bv8>, pos: nat)
    requires cleared != [] && cleared[0] == 0 && pos < 8 * |src|
    requires after == if GetBit(src, pos) then cleared[0 := cleared[0] | 0x01] else cleared
    ensures Copied(cleared, after, 0, src, pos, 1)
  {
    forall k: nat | k < 8 * |cleared|
      ensures GetBit(after, k) == if 0 <= k < 1 then GetBit(src, pos + k - 0) else GetBit(cleared, k)
    {
      if k < 8 {
        LowestBit(k);
      }
    }
  }

  lemma LowestBit(i: nat)
    requires i < 8
    ensures Bit(0 | 0x01, i) == (i == 0) && !Bit(0, i)
  {
    WordOrder(0, i);
    LowestWord(Count(i));
  }

  lemma LowestWord(c: bv4)
    requires c < 8
    ensures BitAt(0 | 0x01, c) == (c == 0) && !BitAt(0, c)
  {
  }

  lemma ByteAtBits(buffer: seq<bv8>, b0: bv8, b1: bv8, pos: nat, b: bv8)
    requires pos + 8 <= 8 * |buffer| && b0 == buffer[pos / 8]
    requires pos % 8 != 0 ==> b1 == buffer[pos / 8 + 1]
    requires Count(pos % 8) < 8 && b == SourceByte(b0, b1, Count(pos % 8))
    ensures forall i: nat | i < 8 :: Bit(b, i) == GetBit(buffer, pos + i)
  {
    hide Bits.BitAt, Bits.Word, Bits.Funnel, PackedCodec.SourceByte;
    var used, src := pos % 8, pos / 8;
    WordSmall(8);
    WordOrder(8, used);
    WordOrder(0, used);
    SourceFunnel(b0, b1, Count(used));
    forall i: nat | i < 8
      ensures Bit(b, i) == GetBit(buffer, pos + i)
    {
      if used == 0 {
        assert (pos + i) / 8 == src && (pos + i) % 8 == i;
      } else {
        FunnelSource(buffer, b0, b1, src + 1, 8 - used, i);
        assert 8 * (src + 1) - (8 - used) + i == pos + i;
      }
    }
  }
}
