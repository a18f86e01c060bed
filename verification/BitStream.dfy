/** Whole streams: any list of write operations, read back with the same list of widths
    and bounds. */
module BitStream {
  import opened Bits
  import opened BitCodec
  import opened BitReader
  import opened BitWriter
  import opened MathUtility
  import opened PackedCodec

  /** One call on a BitWriter. */
  datatype Op =
    | OneBit(bit: bool)
    | SomeBits(src: seq<bv8>, n: nat)
    | Bytes(bytes: seq<bv8>)
    | Bounded(value: uint32, max: uint32)
    | Packed(word: bv32)
    | Wrapped(wide: uint32, valueMax: uint32)

  predicate Sized(op: Op) {
    op.SomeBits? ==> op.n <= 8 * |op.src|
  }

  /** The call on a BitReader that reads it back: widths and bounds only. */
  datatype Shape = ReadOne | ReadSome(n: nat) | ReadBytes(count: nat) | ReadBounded(max: uint32) | ReadPackedWord

  datatype Item = BitItem(bit: bool) | Run(bits: seq<bool>) | Number(value: nat) | Word32(word: bv32)

  function ShapeOf(op: Op): Shape {
    match op
    case OneBit(_) => ReadOne
    case SomeBits(_, n) => ReadSome(n)
    case Bytes(bytes) => ReadBytes(|bytes|)
    case Bounded(_, max) => ReadBounded(max)
    case Packed(_) => ReadPackedWord
    case Wrapped(_, max) => ReadBounded(max)
  }

  /** What the reader should hand out: bounded values clamped, wrapped values wrapped. */
  ghost function Expected(op: Op): Item
    requires Sized(op)
  {
    match op
    case OneBit(bit) => BitItem(bit)
    case SomeBits(src, n) => Run(BitsOf(src, 0, n))
    case Bytes(bytes) => Run(BitsOf(bytes, 0, 8 * |bytes|))
    case Bounded(value, max) => Number(if max < 2 then 0 else Min(value, max - 1))
    case Packed(word) => Word32(word)
    case Wrapped(value, max) => Number(value % Pow2(|WrapEncode(value, max)|))
  }

  function Encode(op: Op): seq<bool>
    requires Sized(op)
  {
    match op
    case OneBit(bit) => [bit]
    case SomeBits(src, n) => BitsOf(src, 0, n)
    case Bytes(bytes) => BitsOf(bytes, 0, 8 * |bytes|)
    case Bounded(value, max) => IntEncode(value, max)
    case Packed(word) => PackedEncode(word)
    case Wrapped(value, max) => WrapEncode(value, max)
  }

  /** The room the writer asks AllowAppend for. */
  function Reserved(op: Op): int
    requires Sized(op)
  {
    match op
    case Bounded(_, max) => if max < 2 then 0 else CeilLogTwo(max)
    case Wrapped(_, max) => CeilLogTwo(max)
    case _ => |Encode(op)|
  }

  datatype Decoded = Decoded(item: Item, used: nat, failed: bool)

  /** One read on the bits that are left.  ReadBit past the end yields 0 and no error. */
  ghost function Decode(shape: Shape, bits: seq<bool>): Decoded {
    match shape
    case ReadOne => if bits == [] then Decoded(BitItem(false), 0, false) else Decoded(BitItem(bits[0]), 1, false)
    case ReadSome(n) => DecodeRun(n, bits)
    case ReadBytes(count) => DecodeRun(8 * count, bits)
    case ReadBounded(max) => var r := BitCodec.ReadInt(bits, max, 0, 0); Decoded(Number(r.value), r.used, r.overflowed)
    case ReadPackedWord => var r := ReadPacked(bits); Decoded(Word32(r.value), 8 * r.used, r.overflowed)
  }

  ghost function DecodeRun(n: nat, bits: seq<bool>): Decoded {
    if n <= |bits| then Decoded(Run(bits[..n]), n, false) else Decoded(Run(Zeros(n)), 0, true)
  }

  lemma OpRoundTrip(op: Op, tail: seq<bool>)
    requires Sized(op)
    ensures Decode(ShapeOf(op), Encode(op) + tail) == Decoded(Expected(op), |Encode(op)|, false)
    ensures |Encode(op)| <= Reserved(op)
  {
    hide BitCodec.ReadInt, BitCodec.IntEncode, BitCodec.WrapEncode, PackedCodec.ReadPacked, PackedCodec.PackedEncode,
         MathUtility.Pow2;
    match op
    case OneBit(bit) =>
    case SomeBits(src, n) =>
      assert (BitsOf(src, 0, n) + tail)[..n] == BitsOf(src, 0, n);
    case Bytes(bytes) =>
      var bits := BitsOf(bytes, 0, 8 * |bytes|);
      assert (bits + tail)[..8 * |bytes|] == bits;
    case Bounded(value, max) =>
      SerializeIntRoundTrip(value, max, tail);
    case Packed(word) =>
      PackedRoundTrip(word, tail);
    case Wrapped(value, max) =>
      WrappedRoundTrip(value, max, tail);
  }

  ghost predicate AllSized(ops: seq<Op>) {
    forall i | 0 <= i < |ops| :: Sized(ops[i])
  }

  ghost function EncodeAll(ops: seq<Op>): seq<bool>
    requires AllSized(ops)
  {
    if ops == [] then [] else EncodeAll(ops[..|ops| - 1]) + Encode(ops[|ops| - 1])
  }

  /** The operations a writer with `max` bits accepts: the others leave it unchanged. */
  ghost function Accepted(ops: seq<Op>, max: nat): (kept: seq<Op>)
    requires AllSized(ops)
    ensures AllSized(kept)
  {
    if ops == [] then []
    else
      var before, op := Accepted(ops[..|ops| - 1], max), ops[|ops| - 1];
      if |EncodeAll(before)| + Reserved(op) <= max then before + [op] else before
  }

  lemma EncodeAllNext(ops: seq<Op>, i: nat)
    requires AllSized(ops) && i < |ops|
    ensures EncodeAll(ops[..i + 1]) == EncodeAll(ops[..i]) + Encode(ops[i])
  {
    assert ops[..i + 1][..i] == ops[..i];
  }

  /** The encoding of a list starts with the encoding of each of its prefixes. */
  lemma {:induction false} EncodeAllPrefix(ops: seq<Op>, i: nat)
    requires AllSized(ops) && i <= |ops|
    ensures EncodeAll(ops[..i]) <= EncodeAll(ops)
    decreases |ops| - i
  {
    if i < |ops| {
      EncodeAllNext(ops, i);
      EncodeAllPrefix(ops, i + 1);
    } else {
      assert ops[..i] == ops;
    }
  }

  /** Where the reader stands after i operations, in a buffer that holds all of them, it
      reads the i-th operation's value and moves to where the writer stood after it. */
  lemma ReadInPlace(ops: seq<Op>, i: nat, bits: seq<bool>)
    requires AllSized(ops) && i < |ops| && EncodeAll(ops) <= bits
    ensures var from, to := |EncodeAll(ops[..i])|, |EncodeAll(ops[..i + 1])|;
            && from <= to <= |bits|
            && Decode(ShapeOf(ops[i]), bits[from..]) == Decoded(Expected(ops[i]), to - from, false)
  {
    hide Decode, Encode, Expected, Reserved, ShapeOf;
    EncodeAllNext(ops, i);
    EncodeAllPrefix(ops, i + 1);
    var done, code := EncodeAll(ops[..i]), Encode(ops[i]);
    var tail := bits[|done| + |code|..];
    assert bits == done + code + tail;
    assert bits[|done|..] == code + tail;
    OpRoundTrip(ops[i], tail);
  }

  method Write(w: BitWriter, op: Op)
    requires w.Valid() && Sized(op)
    modifies w, w.Buffer
    ensures w.Valid()
    ensures w.Content == if |old(w.Content)| + Reserved(op) <= w.Max then old(w.Content) + Encode(op)
            else old(w.Content)
  {
    hide Holds, BitCodec.IntEncode, BitCodec.WrapEncode, PackedCodec.PackedEncode;
    match op
    case OneBit(bit) =>
      w.WriteBit(bit);
    case SomeBits(src, n) =>
      var bytes := AsArray(src);
      w.SerializeBits(bytes, n);
    case Bytes(src) =>
      var bytes := AsArray(src);
      w.Serialize(bytes, |src|);
    case Bounded(value, max) =>
      w.SerializeInt(value, max);
      SerializeIntRoundTrip(value, max, []);
    case Packed(word) =>
      w.SerializeIntPacked(word);
    case Wrapped(value, max) =>
      w.WriteIntWrapped(value, max);
  }

  method AsArray(src: seq<bv8>) returns (bytes: array<bv8>)
    ensures fresh(bytes) && bytes[..] == src
  {
    bytes := new bv8[|src|](i requires 0 <= i < |src| => src[i]);
  }

  method Read(r: BitReader, shape: Shape) returns (item: Item)
    requires r.Valid() && !r.Error
    modifies r`Pos, r`Error
    ensures r.Valid()
    ensures var d := Decode(shape, old(r.Remaining()));
            item == d.item && r.Pos == old(r.Pos) + d.used && r.Error == d.failed
  {
    hide BitCodec.ReadInt, PackedCodec.ReadPacked, Bits.BitsOf, Bits.GetBit;
    match shape
    case ReadOne =>
      var bit := r.ReadBit();
      item := BitItem(bit);
    case ReadSome(n) =>
      item := ReadRun(r, n);
    case ReadBytes(count) =>
      item := ReadRun(r, 8 * count);
    case ReadBounded(max) =>
      var value := r.ReadInt(max);
      item := Number(value);
    case ReadPackedWord =>
      var word := r.SerializeIntPacked();
      item := Word32(word);
  }

  method ReadRun(r: BitReader, n: nat) returns (item: Item)
    requires r.Valid() && !r.Error
    modifies r`Pos, r`Error
    ensures r.Valid()
    ensures var d := DecodeRun(n, old(r.Remaining()));
            item == d.item && r.Pos == old(r.Pos) + d.used && r.Error == d.failed
  {
    var dest := new bv8[(n + 7) / 8](_ => 0);
    r.SerializeBits(dest, n);
    item := Run(BitsOf(dest[..], 0, n));
    assert BitsOf(dest[..], 0, n) == if r.Error then Zeros(n) else old(r.Remaining())[..n];
  }

  /** Every operation the writer accepts is read back: the same list of widths and bounds
      yields the written values, the reader stopping after each operation where the
      writer did, at the writer's position in the end, without an error. */
  method RoundTrip(ops: seq<Op>, maxBits: nat) returns (w: BitWriter, r: BitReader, items: seq<Item>, stops: seq<nat>)
    requires AllSized(ops)
    ensures w.Valid() && r.Valid()
    ensures var kept := Accepted(ops, maxBits);
            && w.Content == EncodeAll(kept)
            && |items| == |stops| == |kept|
            && (forall i | 0 <= i < |kept| :: items[i] == Expected(kept[i]) && stops[i] == |EncodeAll(kept[..i + 1])|)
    ensures r.Pos == w.Pos && !r.Error
  {
    var shapes;
    w, shapes := WriteAll(ops, maxBits);
    r := new BitReader(w.Buffer, w.Pos);
    WrittenBits(w.Buffer[..], r.Buffer[..], w.Content);
    items, stops := ReadAll(r, shapes, Accepted(ops, maxBits));
  }

  /** Reading what was written by `kept`, shape by shape. */
  method ReadAll(r: BitReader, shapes: seq<Shape>, ghost kept: seq<Op>) returns (items: seq<Item>, stops: seq<nat>)
    requires r.Valid() && !r.Error && r.Pos == 0
    requires AllSized(kept) && BitsOf(r.Buffer[..], 0, r.Max) == EncodeAll(kept)
    requires |shapes| == |kept| && forall i | 0 <= i < |kept| :: shapes[i] == ShapeOf(kept[i])
    modifies r`Pos, r`Error
    ensures r.Valid() && !r.Error && r.Pos == |EncodeAll(kept)|
    ensures |items| == |stops| == |kept|
    ensures forall i | 0 <= i < |kept| :: items[i] == Expected(kept[i]) && stops[i] == |EncodeAll(kept[..i + 1])|
  {
    hide Decode, Encode, Expected, ShapeOf, Bits.BitsOf, Bits.GetBit;
    ghost var bits := EncodeAll(kept);
    items, stops := [], [];
    for i := 0 to |shapes|
      invariant r.Valid() && !r.Error && r.Pos == |EncodeAll(kept[..i])|
      invariant |items| == |stops| == i
      invariant forall k | 0 <= k < i :: items[k] == Expected(kept[k]) && stops[k] == |EncodeAll(kept[..k + 1])|
    {
      ReadInPlace(kept, i, bits);
      BitsFrom(r.Buffer[..], r.Pos, r.Max);
      var item := Read(r, shapes[i]);
      items, stops := items + [item], stops + [r.Pos];
    }
    assert kept[..|kept|] == kept;
  }

  method WriteAll(ops: seq<Op>, maxBits: nat) returns (w: BitWriter, shapes: seq<Shape>)
    requires AllSized(ops)
    ensures fresh(w) && fresh(w.Buffer) && w.Valid() && w.Max == maxBits
    ensures var kept := Accepted(ops, maxBits);
            && w.Content == EncodeAll(kept)
            && |shapes| == |kept| && forall i | 0 <= i < |kept| :: shapes[i] == ShapeOf(kept[i])
  {
    hide Holds, Encode, Reserved, ShapeOf;
    w := new BitWriter(maxBits);
    shapes := [];
    for j := 0 to |ops|
      invariant fresh(w) && fresh(w.Buffer) && w.Valid() && w.Max == maxBits
      invariant var kept := Accepted(ops[..j], maxBits);
                && w.Content == EncodeAll(kept)
                && |shapes| == |kept| && forall i | 0 <= i < |kept| :: shapes[i] == ShapeOf(kept[i])
    {
      AcceptNext(ops, j, maxBits);
      if w.AllowAppend(Reserved(ops[j])) {
        shapes := shapes + [ShapeOf(ops[j])];
      }
      Write(w, ops[j]);
    }
    assert ops[..|ops|] == ops;
  }

  lemma AcceptNext(ops: seq<Op>, j: nat, max: nat)
    requires AllSized(ops) && j < |ops|
    ensures var before := Accepted(ops[..j], max);
            && Accepted(ops[..j + 1], max) ==
               (if |EncodeAll(before)| + Reserved(ops[j]) <= max then before + [ops[j]] else before)
            && EncodeAll(before + [ops[j]]) == EncodeAll(before) + Encode(ops[j])
  {
    hide Encode, Reserved;
    assert ops[..j + 1][..j] == ops[..j];
    var before := Accepted(ops[..j], max);
    EncodeAllNext(before + [ops[j]], |before|);
    assert (before + [ops[j]])[..|before|] == before && (before + [ops[j]])[..|before| + 1] == before + [ops[j]];
  }

  lemma WrittenBits(written: seq<bv8>, buffer: seq<bv8>, content: seq<bool>)
    requires Holds(written, content) && CutTo(written, buffer, |content|)
    ensures BitsOf(buffer, 0, |content|) == content
  {
    hide Bits.GetBit;
    forall k | 0 <= k < |content|
      ensures BitsOf(buffer, 0, |content|)[k] == content[k]
    {
      assert GetBit(buffer, 0 + k) == GetBit(written, 0 + k);
    }
  }

  lemma BitsFrom(buffer: seq<bv8>, from: nat, to: nat)
    requires from <= to <= 8 * |buffer|
    ensures BitsOf(buffer, 0, to)[from..] == BitsOf(buffer, from, to - from)
  {
    hide Bits.GetBit;
  }
}
