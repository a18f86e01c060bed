/** TSequenceHistory<256>: which of the last 256 packets arrived, newest first, in eight
    32-bit words. */
module SequenceHistory {

  const BITS_PER_WORD := 32

  const WORD_COUNT := 8

  const HISTORY_SIZE := 256

  /** The word with just bit n set. */
  function Mask(n: nat): bv32 {
    if n == 0 then 1 else Doubled(Mask(n - 1))
  }

  function Doubled(word: bv32): bv32 {
    word << 1
  }

  function Masked(word: bv32, mask: bv32): bv32 {
    word & mask
  }

  predicate BitSet(word: bv32, mask: bv32) {
    Masked(word, mask) != 0
  }

  /** IsDelivered on the words of a history. */
  predicate Delivered(words: seq<bv32>, index: nat)
    requires index < BITS_PER_WORD * |words|
  {
    BitSet(words[index / BITS_PER_WORD], Mask(index % BITS_PER_WORD))
  }

  /** The history as one bit per packet. */
  function BitsOf(words: seq<bv32>): (bits: seq<bool>)
    ensures |bits| == BITS_PER_WORD * |words|
  {
    seq(BITS_PER_WORD * |words|, i requires 0 <= i < BITS_PER_WORD * |words| => Delivered(words, i))
  }

  function CarryBit(on: bool): bv32 {
    if on then 1 else 0
  }

  /** A word moved on by one packet, its lowest bit carried in. */
  function Shifted(word: bv32, carry: bv32): bv32 {
    (word << 1) | carry
  }

  /** The highest bit of a word, carried into the next. */
  function CarryOut(word: bv32): bv32 {
    (word & 0x8000_0000) >> 31
  }

  lemma MaskIs()
    ensures Mask(0) == 1 && Mask(31) == 0x8000_0000
    ensures forall n: nat | n < 31 :: Mask(n) < 0x8000_0000
  {
    assert Mask(1) == 2 && Mask(2) == 4 && Mask(3) == 8 && Mask(4) == 0x10 && Mask(5) == 0x20 && Mask(6) == 0x40;
    assert Mask(7) == 0x80 && Mask(8) == 0x100 && Mask(9) == 0x200 && Mask(10) == 0x400 && Mask(11) == 0x800;
    assert Mask(12) == 0x1000 && Mask(13) == 0x2000 && Mask(14) == 0x4000 && Mask(15) == 0x8000 && Mask(16) == 0x1_0000;
    assert Mask(17) == 0x2_0000 && Mask(18) == 0x4_0000 && Mask(19) == 0x8_0000 && Mask(20) == 0x10_0000;
    assert Mask(21) == 0x20_0000 && Mask(22) == 0x40_0000 && Mask(23) == 0x80_0000 && Mask(24) == 0x100_0000;
    assert Mask(25) == 0x200_0000 && Mask(26) == 0x400_0000 && Mask(27) == 0x800_0000 && Mask(28) == 0x1000_0000;
    assert Mask(29) == 0x2000_0000 && Mask(30) == 0x4000_0000 && Mask(31) == 0x8000_0000;
  }

  lemma ShiftedLowest(word: bv32, carry: bv32)
    requires carry == 0 || carry == 1
    ensures BitSet(Shifted(word, carry), 1) <==> carry == 1
  {
  }

  lemma ShiftedMasked(word: bv32, carry: bv32, mask: bv32)
    requires carry == 0 || carry == 1
    ensures Masked(Shifted(word, carry), Doubled(mask)) == Doubled(Masked(word, mask))
  {
  }

  lemma DoubledNonZero(word: bv32, mask: bv32)
    requires mask < 0x8000_0000
    ensures Doubled(Masked(word, mask)) != 0 <==> Masked(word, mask) != 0
  {
  }

  lemma ShiftedOn(word: bv32, carry: bv32, mask: bv32)
    requires mask < 0x8000_0000 && (carry == 0 || carry == 1)
    ensures BitSet(Shifted(word, carry), Doubled(mask)) <==> BitSet(word, mask)
  {
    hide Shifted, Masked, Doubled;
    ShiftedMasked(word, carry, mask);
    DoubledNonZero(word, mask);
  }

  lemma CarriesHighest(word: bv32)
    ensures CarryOut(word) == CarryBit(BitSet(word, 0x8000_0000))
  {
  }

  /** A word moves on by one packet. */
  lemma ShiftedBits(word: bv32, carry: bool, n: nat)
    requires n < BITS_PER_WORD
    ensures BitSet(Shifted(word, CarryBit(carry)), Mask(n)) == if n == 0 then carry else BitSet(word, Mask(n - 1))
    ensures CarryOut(word) == CarryBit(BitSet(word, Mask(31)))
  {
    hide BitSet, Shifted, CarryOut, Doubled;
    MaskIs();
    CarriesHighest(word);
    if n == 0 {
      ShiftedLowest(word, CarryBit(carry));
    } else {
      ShiftedOn(word, CarryBit(carry), Mask(n - 1));
    }
  }

  class SequenceHistory {
    const Storage: array<bv32>

    ghost predicate Valid()
      reads this
    {
      Storage.Length == WORD_COUNT
    }

    ghost function View(): (bits: seq<bool>)
      requires Valid()
      reads this, Storage
      ensures |bits| == HISTORY_SIZE
    {
      BitsOf(Storage[..])
    }

    constructor ()
      ensures Valid() && fresh(Storage) && View() == seq(HISTORY_SIZE, _ => false)
    {
      Storage := new bv32[WORD_COUNT](_ => 0);
      new;
      hide Mask;
      forall i | 0 <= i < HISTORY_SIZE
        ensures View()[i] == false
      {
        NothingSet(Mask(i % BITS_PER_WORD));
        assert Storage[..][i / BITS_PER_WORD] == 0;
      }
    }

    /** The newest packet's status in front, the oldest drops out. */
    method AddDeliveryStatus(delivered: bool)
      requires Valid()
      modifies Storage
      ensures View() == [delivered] + old(View())[..HISTORY_SIZE - 1]
    {
      hide Mask, BitSet, Shifted, CarryOut, CarryBit;
      ghost var words := Storage[..];
      var carry := CarryBit(delivered);
      var i := 0;
      while i < WORD_COUNT
        invariant i <= WORD_COUNT
        invariant i < WORD_COUNT ==> carry == CarryBit(Previous(words, delivered, i, 0))
        invariant forall k | 0 <= k < i :: Storage[k] == Shifted(words[k], CarryBit(Previous(words, delivered, k, 0)))
        invariant forall k | i <= k < WORD_COUNT :: Storage[k] == words[k]
      {
        var oldValue := carry;
        ShiftedBits(words[i], false, 0);
        carry := CarryOut(Storage[i]);
        Storage[i] := Shifted(Storage[i], oldValue);
        i := i + 1;
      }
      AllShifted(words, Storage[..], delivered);
    }

    predicate IsDelivered(index: nat)
      requires Valid() && index < HISTORY_SIZE
      reads this, Storage
      ensures IsDelivered(index) == View()[index]
    {
      BitSet(Storage[index / BITS_PER_WORD], Mask(index % BITS_PER_WORD))
    }
  }

  lemma NothingSet(mask: bv32)
    ensures !BitSet(0, mask)
  {
  }

  lemma DeliveredAt(words: seq<bv32>, k: nat, n: nat)
    requires k < |words| && n < BITS_PER_WORD
    ensures BitsOf(words)[BITS_PER_WORD * k + n] == BitSet(words[k], Mask(n))
  {
    hide BitSet, Mask;
    assert (BITS_PER_WORD * k + n) / BITS_PER_WORD == k && (BITS_PER_WORD * k + n) % BITS_PER_WORD == n;
  }

  /** The bit that moves into bit n of word k. */
  function Previous(words: seq<bv32>, delivered: bool, k: nat, n: nat): bool
    requires k < |words| && n < BITS_PER_WORD
  {
    if n > 0 then BitSet(words[k], Mask(n - 1)) else if k > 0 then BitSet(words[k - 1], Mask(31)) else delivered
  }

  lemma PreviousIs(words: seq<bv32>, delivered: bool, k: nat, n: nat)
    requires k < |words| && n < BITS_PER_WORD
    ensures var i := BITS_PER_WORD * k + n;
            Previous(words, delivered, k, n) == if i == 0 then delivered else BitsOf(words)[i - 1]
  {
    hide BitSet, Mask, BitsOf;
    if n > 0 {
      DeliveredAt(words, k, n - 1);
    } else if k > 0 {
      DeliveredAt(words, k - 1, 31);
    }
  }

  lemma AllShifted(words: seq<bv32>, after: seq<bv32>, delivered: bool)
    requires |words| == |after| == WORD_COUNT
    requires forall k | 0 <= k < WORD_COUNT :: after[k] == Shifted(words[k], CarryBit(Previous(words, delivered, k, 0)))
    ensures BitsOf(after) == [delivered] + BitsOf(words)[..HISTORY_SIZE - 1]
  {
    hide Mask, BitSet, Shifted, CarryOut, CarryBit, BitsOf;
    forall i | 0 <= i < HISTORY_SIZE
      ensures BitsOf(after)[i] == if i == 0 then delivered else BitsOf(words)[i - 1]
    {
      var k, n := i / BITS_PER_WORD, i % BITS_PER_WORD;
      DeliveredAt(after, k, n);
      ShiftedBits(words[k], Previous(words, delivered, k, 0), n);
      PreviousIs(words, delivered, k, n);
    }
  }
}
