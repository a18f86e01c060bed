/** Powers of two, and CountLeadingZeros and CeilLogTwo on 32-bit words. */
module MathUtility {

  const WORD := 0x1_0000_0000

  type uint32 = x: int | 0 <= x < 0x1_0000_0000

  function Pow2(k: nat): (p: nat)
    ensures p >= 1
  {
    if k == 0 then 1 else 2 * Pow2(k - 1)
  }

  ghost predicate PowerOfTwo(n: nat) {
    exists k: nat :: n == Pow2(k)
  }

  function Min(a: int, b: int): int {
    if a < b then a else b
  }

  function Max(a: int, b: int): int {
    if a < b then b else a
  }

  lemma Pow2Word()
    ensures Pow2(31) == 0x8000_0000 && Pow2(32) == WORD
  {
    assert Pow2(8) == 0x100 && Pow2(16) == 0x1_0000 && Pow2(24) == 0x100_0000;
  }

  lemma Pow2Word64()
    ensures Pow2(64) == 0x1_0000_0000_0000_0000
  {
    Pow2Word();
    assert Pow2(40) == 0x100_0000_0000 && Pow2(48) == 0x1_0000_0000_0000 && Pow2(56) == 0x100_0000_0000_0000;
  }

  lemma {:induction false} Pow2Increases(j: nat, k: nat)
    requires j < k
    ensures Pow2(j) < Pow2(k)
    decreases k
  {
    if j < k - 1 {
      Pow2Increases(j, k - 1);
    }
  }

  /** _BitScanReverse64: the index of the highest set bit. */
  function BitScanReverse64(v: nat): nat
    requires v != 0
  {
    if v / 2 == 0 then 0 else 1 + BitScanReverse64(v / 2)
  }

  function CountLeadingZeros(value: uint32): int
  {
    32 - BitScanReverse64(value * 2 + 1)
  }

  function CeilLogTwo(arg: uint32): int
  {
    var a := if arg == 0 then 1 else arg;
    32 - CountLeadingZeros(a - 1)
  }

  lemma {:induction false} ScanBound(v: nat, k: nat)
    requires v != 0
    ensures BitScanReverse64(v) <= k <==> v < Pow2(k + 1)
    decreases v
  {
    if v / 2 == 0 {
      if k > 0 {
        Pow2Increases(1, k + 1);
      }
    } else if k == 0 {
    } else {
      ScanBound(v / 2, k - 1);
    }
  }

  /** CeilLogTwo(arg) is the number of k with 2^k < arg, that is, the least k with
      arg <= 2^k (0 for an argument of 0). */
  lemma CeilLogTwoExact(arg: uint32, k: nat)
    ensures k < CeilLogTwo(arg) <==> Pow2(k) < arg
    ensures 0 <= CeilLogTwo(arg) <= 32
  {
    var a := if arg == 0 then 1 else arg;
    ScanBound(2 * (a - 1) + 1, k);
    ScanBound(2 * (a - 1) + 1, 32);
    Pow2Word();
  }
}
