/** TSequenceNumber<14, uint16_t>: packet numbers that wrap around. */
module SequenceNumber {

  const SEQ_NUMBER_COUNT := 16384

  const SEQ_NUMBER_HALF := 8192

  type SequenceNumberT = v: nat | v < 16384

  /** The constructor's mask; also the number a packet of any count goes by. */
  function Seq(value: int): (s: SequenceNumberT)
    ensures 0 <= s < SEQ_NUMBER_COUNT
  {
    value % SEQ_NUMBER_COUNT
  }

  /** Greater: ahead by up to half a turn. */
  predicate Greater(a: SequenceNumberT, b: SequenceNumberT) {
    a != b && (a - b) % SEQ_NUMBER_COUNT < SEQ_NUMBER_HALF
  }

  /** Greater or equal. */
  predicate GreaterEq(a: SequenceNumberT, b: SequenceNumberT) {
    (a - b) % SEQ_NUMBER_COUNT < SEQ_NUMBER_HALF
  }

  /** Less, defined as the negation of greater or equal. */
  predicate Less(a: SequenceNumberT, b: SequenceNumberT) {
    !GreaterEq(a, b)
  }

  /** The value of a 32-bit pattern as int32_t. */
  function ToInt32(x: int): int {
    (x + 0x8000_0000) % 0x1_0000_0000 - 0x8000_0000
  }

  /** The difference, shifted up so that its 14 bits stand highest and back down with its sign. */
  function Diff(a: SequenceNumberT, b: SequenceNumberT): int {
    ToInt32((a - b) * 0x4_0000) / 0x4_0000
  }

  /** The shifts sign-extend the difference modulo 2^14. */
  lemma DiffIs(a: SequenceNumberT, b: SequenceNumberT)
    ensures Diff(a, b) == (a - b + SEQ_NUMBER_HALF) % SEQ_NUMBER_COUNT - SEQ_NUMBER_HALF
    ensures -SEQ_NUMBER_HALF <= Diff(a, b) < SEQ_NUMBER_HALF
    ensures Seq(b + Diff(a, b)) == a
  {
    var d := a - b;
    var k := if d >= SEQ_NUMBER_HALF then 1 else if d < -SEQ_NUMBER_HALF then -1 else 0;
    assert ToInt32(d * 0x4_0000) == (d - k * SEQ_NUMBER_COUNT) * 0x4_0000;
  }

  lemma GreaterIsPositive(a: SequenceNumberT, b: SequenceNumberT)
    ensures Greater(a, b) <==> Diff(a, b) > 0
    ensures GreaterEq(a, b) <==> Diff(a, b) >= 0
  {
    hide Diff;
    DiffIs(a, b);
  }

  /** The order is an order, of two numbers exactly one less than the other, except half
      way around: there each of the two is less than the other. */
  lemma OrderIff(a: SequenceNumberT, b: SequenceNumberT)
    requires a != b
    ensures Less(a, b) && Less(b, a) <==> a == Seq(b + SEQ_NUMBER_HALF)
    ensures Less(a, b) || Less(b, a)
    ensures Greater(a, b) <==> Less(b, a) && !Less(a, b)
  {
  }

  /** Within half a turn the wrapped numbers compare and subtract like the counts. */
  lemma Window(x: int, y: int)
    requires -SEQ_NUMBER_HALF < x - y < SEQ_NUMBER_HALF
    ensures Diff(Seq(x), Seq(y)) == x - y
    ensures Greater(Seq(x), Seq(y)) <==> x > y
    ensures GreaterEq(Seq(x), Seq(y)) <==> x >= y
    ensures Seq(x) == Seq(y) <==> x == y
  {
    hide Diff;
    DiffIs(Seq(x), Seq(y));
    GreaterIsPositive(Seq(x), Seq(y));
  }

  lemma SeqAdd(x: int, n: int)
    ensures Seq(Seq(x) + n) == Seq(x + n)
  {
  }
}
