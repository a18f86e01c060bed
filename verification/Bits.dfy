/** Bits of byte buffers, least significant bit first, and the facts about one or
    two bytes that the copier and the codecs rest on.  Bytes are `bv8`,
    accumulators `bv32`, shift counts `bv4` (no count used on bytes exceeds 15). */
module Bits {

  /** The count n as a shift amount. */
  function Word(n: nat): bv4
  {
    if n == 0 then 0 else Word(n - 1) + 1
  }

  lemma {:induction false} WordAdd(a: nat, b: nat)
    ensures Word(a + b) == Word(a) + Word(b)
  {
    if b > 0 {
      WordAdd(a, b - 1);
    }
  }

  lemma WordSmall(n: nat)
    requires n < 16
    ensures n < 15 ==> Word(n) < 15
    ensures n < 8 ==> Word(n) < 8
    ensures Word(8) == 8
  {
    assert Word(0) == 0 && Word(1) == 1 && Word(2) == 2 && Word(3) == 3 && Word(4) == 4;
    assert Word(5) == 5 && Word(6) == 6 && Word(7) == 7 && Word(8) == 8 && Word(9) == 9;
    assert Word(10) == 10 && Word(11) == 11 && Word(12) == 12 && Word(13) == 13 && Word(14) == 14;
  }

  lemma {:induction false} WordLess(a: nat, b: nat)
    requires a < b < 16
    ensures Word(a) < Word(b)
    decreases b
  {
    WordSmall(b - 1);
    if a < b - 1 {
      WordLess(a, b - 1);
    }
  }

  /** Counts below 16 are ordered as numbers, and subtract as numbers. */
  lemma WordOrder(a: nat, b: nat)
    requires a < 16 && b < 16
    ensures a < b <==> Word(a) < Word(b)
    ensures b <= a ==> Word(a - b) == Word(a) - Word(b)
  {
    if a < b {
      WordLess(a, b);
    } else {
      WordAdd(a - b, b);
      if b < a {
        WordLess(b, a);
      }
    }
  }

  /** A shift count for a byte. */
  function Count(n: nat): (c: bv4)
    requires n <= 8
    ensures c <= 8 && c == Word(n) && (n < 8 ==> c < 8)
  {
    WordSmall(n);
    Word(n)
  }

  predicate BitAt(b: bv8, c: bv4)
    requires c < 8
  {
    b & (1 << c) != 0
  }

  predicate Bit(b: bv8, i: nat)
    requires i < 8
  {
    BitAt(b, Count(i))
  }

  /** Bit `pos` of a buffer. */
  predicate GetBit(s: seq<bv8>, pos: nat)
    requires pos < 8 * |s|
  {
    Bit(s[pos / 8], pos % 8)
  }

  /** The bits [from, from + n) of a buffer. */
  function BitsOf(s: seq<bv8>, from: nat, n: nat): (bits: seq<bool>)
    requires from + n <= 8 * |s|
    ensures |bits| == n
  {
    seq(n, j requires 0 <= j < n => GetBit(s, from + j))
  }

  lemma BitsOfAt(s: seq<bv8>, from: nat, n: nat, j: nat)
    requires from + n <= 8 * |s| && j < n
    ensures BitsOf(s, from, n)[j] == GetBit(s, from + j)
  {
  }

  lemma SameBitsSameByte(a: bv8, b: bv8)
    requires forall i: nat | i < 8 :: Bit(a, i) == Bit(b, i)
    ensures a == b
  {
    assert Word(0) == 0 && Word(1) == 1 && Word(2) == 2 && Word(3) == 3;
    assert Word(4) == 4 && Word(5) == 5 && Word(6) == 6 && Word(7) == 7;
    assert Bit(a, 0) == Bit(b, 0) && Bit(a, 1) == Bit(b, 1) && Bit(a, 2) == Bit(b, 2) && Bit(a, 3) == Bit(b, 3);
    assert Bit(a, 4) == Bit(b, 4) && Bit(a, 5) == Bit(b, 5) && Bit(a, 6) == Bit(b, 6) && Bit(a, 7) == Bit(b, 7);
  }

  /** Buffers are determined by their bits. */
  lemma SameBitsSameBuffer(s: seq<bv8>, t: seq<bv8>)
    requires |s| == |t|
    requires forall k: nat | k < 8 * |s| :: GetBit(s, k) == GetBit(t, k)
    ensures s == t
  {
    forall m | 0 <= m < |s|
      ensures s[m] == t[m]
    {
      forall i: nat | i < 8
        ensures Bit(s[m], i) == Bit(t[m], i)
      {
        assert GetBit(s, 8 * m + i) == GetBit(t, 8 * m + i);
        assert (8 * m + i) / 8 == m && (8 * m + i) % 8 == i;
      }
      SameBitsSameByte(s[m], t[m]);
    }
  }

  function Low8(x: bv32): bv8 {
    (x & 0xFF) as bv8
  }

  /** The byte that starts 8 - t bits into the two-byte word (lo, hi). */
  function Funnel(lo: bv8, hi: bv8, t: bv4): bv8
    requires t <= 8
  {
    (hi << t) | (lo >> (8 - t))
  }

  lemma FunnelWord(lo: bv8, hi: bv8, t: bv4, i: bv4)
    requires t <= 8 && i < 8
    ensures BitAt(Funnel(lo, hi, t), i) == if i < t then BitAt(lo, 8 - t + i) else BitAt(hi, i - t)
  {
  }

  lemma FunnelBit(lo: bv8, hi: bv8, t: nat, i: nat)
    requires t <= 8 && i < 8
    ensures Bit(Funnel(lo, hi, Count(t)), i) == if i < t then Bit(lo, 8 - t + i) else Bit(hi, i - t)
  {
    hide Word, BitAt, Funnel;
    WordSmall(8);
    WordOrder(8, t);
    WordOrder(i, t);
    WordAdd(8 - t, i);
    FunnelWord(lo, hi, Count(t), Count(i));
  }

  /** The part of a source byte that did not fit the destination byte it was
      shifted towards. */
  function Carry(b: bv8, t: bv4): bv32
    requires t <= 8
  {
    (b as bv32) >> (8 - t)
  }

  /** The accumulator of the copier's main loop after byte `last` was shifted in. */
  predicate Holding(accu: bv32, last: bv8, t: bv4)
    requires t < 8
  {
    accu >> 8 == Carry(last, t)
  }

  function ShiftFirst(b: bv8, t: bv4): bv32
  {
    (b as bv32) << t
  }

  function ShiftIn(accu: bv32, b: bv8, shiftCount: bv4): bv32
  {
    (((b as bv32) << shiftCount) + accu) >> 8
  }

  lemma FirstWord(b: bv8, t: bv4)
    requires t < 8
    ensures Holding(ShiftFirst(b, t), b, t) && Low8(ShiftFirst(b, t)) == Funnel(0, b, t)
  {
  }

  lemma FirstStep(b: bv8, t: nat)
    requires t < 8
    ensures Holding(ShiftFirst(b, Word(t)), b, Count(t)) && Low8(ShiftFirst(b, Word(t))) == Funnel(0, b, Count(t))
  {
    FirstWord(b, Count(t));
  }

  lemma AccuWord(accu: bv32, lo: bv8, hi: bv8, t: bv4)
    requires t < 8 && Holding(accu, lo, t)
    ensures Holding(ShiftIn(accu, hi, t + 8), hi, t) && Low8(ShiftIn(accu, hi, t + 8)) == Funnel(lo, hi, t)
  {
  }

  /** One turn of the accumulator: the low byte becomes the next destination byte
      and what stays above it is the carry of the byte read. */
  lemma AccuStep(accu: bv32, lo: bv8, hi: bv8, t: nat)
    requires t < 8 && Holding(accu, lo, Count(t))
    ensures Holding(ShiftIn(accu, hi, Word(t + 8)), hi, Count(t))
    ensures Low8(ShiftIn(accu, hi, Word(t + 8))) == Funnel(lo, hi, Count(t))
  {
    hide Holding, ShiftIn, Low8, Funnel;
    WordAdd(t, 8);
    WordSmall(8);
    AccuWord(accu, lo, hi, Count(t));
  }

  lemma LastWord(accu: bv32, lo: bv8, t: bv4)
    requires t < 8 && Holding(accu, lo, t)
    ensures Low8(accu >> 8) == Funnel(lo, 0, t)
  {
  }

  lemma LastStep(accu: bv32, lo: bv8, t: nat)
    requires t < 8 && Holding(accu, lo, Count(t))
    ensures Low8(accu >> 8) == Funnel(lo, 0, Count(t))
  {
    LastWord(accu, lo, Count(t));
  }

  /** The bits of v from position d up, over those of `under` below d. */
  function Above(v: bv32, under: bv8, d: bv4): bv8
    requires d < 8
  {
    Low8((v & (0xFF << d)) | ((under as bv32) & !(0xFF << d)))
  }

  function Blend(v: bv8, under: bv8, d: bv4): bv8
    requires d < 8
  {
    (v & (0xFF << d)) | (under & !(0xFF << d))
  }

  lemma AboveBlend(v: bv32, under: bv8, d: bv4)
    requires d < 8
    ensures Above(v, under, d) == Blend(Low8(v), under, d)
  {
  }

  lemma BlendWord(v: bv8, under: bv8, d: bv4, i: bv4)
    requires d < 8 && i < 8
    ensures BitAt(Blend(v, under, d), i) == if i < d then BitAt(under, i) else BitAt(v, i)
  {
  }

  lemma AboveBit(v: bv32, under: bv8, d: nat, i: nat)
    requires d < 8 && i < 8
    ensures Bit(Above(v, under, Count(d)), i) == if i < d then Bit(under, i) else Bit(Low8(v), i)
  {
    hide Above, Blend, BitAt, Low8, Word;
    WordOrder(i, d);
    AboveBlend(v, under, Count(d));
    BlendWord(Low8(v), under, Count(d), Count(i));
  }

  /** The byte with the given bits. */
  function ByteOf(bits: seq<bool>): bv8
    requires |bits| >= 8
  {
    Byte8(bits[0], bits[1], bits[2], bits[3], bits[4], bits[5], bits[6], bits[7])
  }

  function Byte8(b0: bool, b1: bool, b2: bool, b3: bool, b4: bool, b5: bool, b6: bool, b7: bool): bv8 {
    (if b0 then 0x01 else 0) | (if b1 then 0x02 else 0) | (if b2 then 0x04 else 0) | (if b3 then 0x08 else 0)
    | (if b4 then 0x10 else 0) | (if b5 then 0x20 else 0) | (if b6 then 0x40 else 0) | (if b7 then 0x80 else 0)
  }

  lemma Byte8Bits(b: bv8)
    ensures Byte8(BitAt(b, 0), BitAt(b, 1), BitAt(b, 2), BitAt(b, 3), BitAt(b, 4), BitAt(b, 5), BitAt(b, 6),
            BitAt(b, 7)) == b
  {
  }

  lemma CountValues()
    ensures Count(0) == 0 && Count(1) == 1 && Count(2) == 2 && Count(3) == 3
    ensures Count(4) == 4 && Count(5) == 5 && Count(6) == 6 && Count(7) == 7
  {
    WordSmall(7);
    assert Word(0) == 0 && Word(1) == 1 && Word(2) == 2 && Word(3) == 3;
    assert Word(4) == 4 && Word(5) == 5 && Word(6) == 6 && Word(7) == 7;
  }

  lemma ByteOfBits(b: bv8, bits: seq<bool>)
    requires |bits| >= 8
    requires forall i: nat | i < 8 :: bits[i] == Bit(b, i)
    ensures ByteOf(bits) == b
  {
    hide BitAt, Byte8, Word;
    CountValues();
    assert Bit(b, 0) == BitAt(b, 0) && Bit(b, 1) == BitAt(b, 1) && Bit(b, 2) == BitAt(b, 2) && Bit(b, 3) == BitAt(b, 3);
    assert Bit(b, 4) == BitAt(b, 4) && Bit(b, 5) == BitAt(b, 5) && Bit(b, 6) == BitAt(b, 6) && Bit(b, 7) == BitAt(b, 7);
    Byte8Bits(b);
  }

  /** The whole bytes at the front of a run of bits. */
  function BytesOf(bits: seq<bool>): (bytes: seq<bv8>)
    ensures |bytes| == |bits| / 8
  {
    if |bits| < 8 then [] else [ByteOf(bits)] + BytesOf(bits[8..])
  }

  /** Bytes come back from their bits, followed by the bytes of what follows. */
  lemma {:induction false} BytesOfBits(bytes: seq<bv8>, tail: seq<bool>)
    ensures BytesOf(BitsOf(bytes, 0, 8 * |bytes|) + tail) == bytes + BytesOf(tail)
    decreases |bytes|
  {
    hide Bit, ByteOf;
    var bits := BitsOf(bytes, 0, 8 * |bytes|);
    if bytes == [] {
      assert bits + tail == tail;
    } else {
      forall i: nat | i < 8
        ensures (bits + tail)[i] == Bit(bytes[0], i)
      {
        assert bits[i] == GetBit(bytes, i);
      }
      ByteOfBits(bytes[0], bits + tail);
      var rest := BitsOf(bytes[1..], 0, 8 * |bytes[1..]|);
      forall j: nat | j < |rest|
        ensures bits[8 + j] == rest[j]
      {
        assert bits[8 + j] == GetBit(bytes, 8 + j);
        assert rest[j] == GetBit(bytes[1..], j);
        assert (8 + j) / 8 == 1 + j / 8 && (8 + j) % 8 == j % 8;
      }
      assert (bits + tail)[8..] == rest + tail;
      BytesOfBits(bytes[1..], tail);
    }
  }
}
