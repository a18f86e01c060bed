/** AlignTemplate: rounding to a power of two by masking. */
module AlignTemplate {
  import opened MathUtility

  const WORD64 := 0x1_0000_0000_0000_0000

  /** The value without the bits of the mask. */
  function AndNot(value: nat, mask: nat): (r: nat)
    ensures r <= value
  {
    if value == 0 then 0
    else 2 * AndNot(value / 2, mask / 2) + (if value % 2 == 1 && mask % 2 == 0 then 1 else 0)
  }

  /** The bits of one less than the alignment are cleared, on 64-bit words. */
  function AlignDown(value: nat, alignment: nat): nat {
    AndNot(value, (alignment - 1) % WORD64)
  }

  /** The same after adding one less than the alignment. */
  function Align(value: nat, alignment: nat): nat
    requires alignment > 0
  {
    AlignDown(value + alignment - 1, alignment)
  }

  predicate Multiple(n: int, of: nat)
    requires of > 0
  {
    n % of == 0
  }

  lemma MultipleIs(n: int, of: nat) returns (k: int)
    requires of > 0 && Multiple(n, of)
    ensures n == k * of
  {
    k := n / of;
  }

  lemma TimesIsMultiple(k: int, of: nat)
    requires of > 0
    ensures Multiple(k * of, of)
  {
    var q, r := (k * of) / of, (k * of) % of;
    var d := k - q;
    assert d * of == r;
    assert d >= 1 ==> (d - 1) * of >= 0;
    assert d <= -1 ==> (-d - 1) * of >= 0;
  }

  lemma SumIsMultiple(m: int, n: int, of: nat)
    requires of > 0 && Multiple(m, of) && Multiple(n, of)
    ensures Multiple(m + n, of) && Multiple(m - n, of)
  {
    var j := MultipleIs(m, of);
    var k := MultipleIs(n, of);
    TimesIsMultiple(j + k, of);
    TimesIsMultiple(j - k, of);
    assert m + n == (j + k) * of && m - n == (j - k) * of;
  }

  lemma MultipleOfMultiple(n: int, a: nat, b: nat)
    requires a > 0 && b > 0 && Multiple(n, b) && Multiple(b, a)
    ensures Multiple(n, a)
  {
    var j := MultipleIs(n, b);
    var k := MultipleIs(b, a);
    var jk := j * k;
    assert n == jk * a;
    TimesIsMultiple(jk, a);
  }

  /** A multiple is no further from another than a whole step. */
  lemma MultiplesStep(m: int, n: int, of: nat)
    requires of > 0 && Multiple(m, of) && Multiple(n, of) && m < n
    ensures m + of <= n
  {
    hide Multiple;
    var j := MultipleIs(m, of);
    var k := MultipleIs(n, of);
    var d := k - j;
    assert d * of == n - m;
    assert d <= 0 ==> d * of <= 0;
    assert d >= 1 ==> (d - 1) * of >= 0;
  }

  // ----- the mask is a rounding -----

  lemma {:induction false} MaskNothing(value: nat)
    ensures AndNot(value, 0) == value
    decreases value
  {
    if value > 0 {
      MaskNothing(value / 2);
    }
  }

  lemma {:induction false} MaskItself(value: nat)
    ensures AndNot(value, value) == 0
    decreases value
  {
    if value > 0 {
      MaskItself(value / 2);
    }
  }

  lemma HalfRemainder(value: nat, p: nat)
    requires p > 0
    ensures value - value % (2 * p) == 2 * (value / 2 - value / 2 % p)
  {
    var h := value / 2;
    var q, r := h / p, h % p;
    var low := 2 * r + value % 2;
    assert value == (2 * p) * q + low by {
      assert h == p * q + r;
      assert 2 * (p * q) == (2 * p) * q;
    }
    RemainderUnique(value, 2 * p, q, low);
  }

  lemma RemainderUnique(x: nat, d: nat, q: nat, r: nat)
    requires 0 <= r < d && x == d * q + r
    ensures x % d == r
  {
    TimesIsMultiple(q, d);
    TimesIsMultiple(x / d, d);
    hide Multiple;
    var a, b := x / d * d, q * d;
    assert a <= x < a + d && b <= x < b + d;
    if a < b {
      MultiplesStep(a, b, d);
    } else if b < a {
      MultiplesStep(b, a, d);
    }
  }

  lemma MaskHalf(value: nat, p: nat)
    requires p > 0
    ensures AndNot(value, 2 * p - 1) == 2 * AndNot(value / 2, p - 1)
  {
    assert (2 * p - 1) / 2 == p - 1 && (2 * p - 1) % 2 == 1;
  }

  lemma MaskStep(value: nat, p: nat, q: nat)
    requires p > 0 && q == 2 * p && AndNot(value / 2, p - 1) == value / 2 - value / 2 % p
    ensures AndNot(value, q - 1) == value - value % q
  {
    hide AndNot;
    MaskHalf(value, p);
    HalfRemainder(value, p);
  }

  /** Clearing the low k bits takes off the remainder of a division by 2^k. */
  lemma {:induction false} MaskIsRounding(value: nat, k: nat)
    ensures AndNot(value, Pow2(k) - 1) == value - value % Pow2(k)
    decreases k
  {
    if k == 0 {
      MaskNothing(value);
    } else {
      hide AndNot;
      MaskIsRounding(value / 2, k - 1);
      MaskStep(value, Pow2(k - 1), Pow2(k));
    }
  }

  lemma {:induction false} FixedPointIsPower(a: nat)
    requires a > 0 && AndNot(a, a - 1) == a
    ensures PowerOfTwo(a)
    decreases a
  {
    if a == 1 {
      assert a == Pow2(0);
    } else if a % 2 == 0 {
      assert (a - 1) / 2 == a / 2 - 1;
      FixedPointIsPower(a / 2);
      var k: nat :| a / 2 == Pow2(k);
      assert a == Pow2(k + 1);
    } else {
      assert (a - 1) / 2 == a / 2;
      MaskItself(a / 2);
    }
  }

  /** The mask takes off the remainder, for every value, exactly for powers of two. */
  lemma MaskRoundsIff(alignment: nat)
    requires 0 < alignment < WORD64
    ensures (forall value: nat :: AlignDown(value, alignment) == value - value % alignment) <==> PowerOfTwo(alignment)
  {
    if PowerOfTwo(alignment) {
      hide Pow2, AndNot;
      var k: nat :| alignment == Pow2(k);
      forall value: nat
        ensures AlignDown(value, alignment) == value - value % alignment
      {
        MaskIsRounding(value, k);
      }
    } else {
      assert alignment - alignment % alignment == alignment;
      if AlignDown(alignment, alignment) == alignment {
        FixedPointIsPower(alignment);
      }
    }
  }

  /** Alignment 3 keeps bit 0 of the value and clears bit 1: 10 becomes 8, not 9. */
  lemma MaskOfThree()
    ensures AlignDown(10, 3) == 8
  {
    assert AndNot(10, 2) == 8;
  }

  /** Alignment 0 masks everything away. */
  lemma {:induction false} MaskAll(value: nat, mask: nat, bits: nat)
    requires value < Pow2(bits) && mask == Pow2(bits) - 1
    ensures AndNot(value, mask) == 0
    decreases bits
  {
    if value > 0 {
      assert mask % 2 == 1 && mask / 2 == Pow2(bits - 1) - 1;
      MaskAll(value / 2, mask / 2, bits - 1);
    }
  }

  lemma AlignDownZero(value: nat)
    requires value < WORD64
    ensures AlignDown(value, 0) == 0
  {
    hide AndNot, Pow2;
    Pow2Word64();
    assert (0 - 1) % WORD64 == WORD64 - 1;
    MaskAll(value, WORD64 - 1, 64);
  }

  lemma AlignDownRounds(value: nat, alignment: nat)
    requires 0 < alignment < WORD64 && PowerOfTwo(alignment)
    ensures AlignDown(value, alignment) == value - value % alignment
  {
    MaskRoundsIff(alignment);
  }

  /** AlignDown is the greatest multiple up to the value. */
  lemma AlignDownIs(value: nat, alignment: nat)
    requires 0 < alignment < WORD64 && PowerOfTwo(alignment)
    ensures var r := AlignDown(value, alignment);
            && Multiple(r, alignment) && r <= value < r + alignment
            && forall m: nat | Multiple(m, alignment) && m <= value :: m <= r
  {
    hide Multiple, AlignDown, PowerOfTwo;
    AlignDownRounds(value, alignment);
    var r := AlignDown(value, alignment);
    var q := value / alignment;
    TimesIsMultiple(q, alignment);
    assert r == q * alignment;
    forall m: nat | Multiple(m, alignment) && m <= value
      ensures m <= r
    {
      if r < m {
        MultiplesStep(r, m, alignment);
      }
    }
  }

  /** Align is the least multiple from the value on. */
  lemma AlignIs(value: nat, alignment: nat)
    requires 0 < alignment < WORD64 && PowerOfTwo(alignment)
    ensures var r := Align(value, alignment);
            && Multiple(r, alignment) && value <= r < value + alignment
            && forall m: nat | Multiple(m, alignment) && value <= m :: r <= m
  {
    hide AlignDown, Multiple, PowerOfTwo;
    var r := Align(value, alignment);
    AlignDownIs(value + alignment - 1, alignment);
    forall m: nat | Multiple(m, alignment) && value <= m
      ensures r <= m
    {
      if m < r {
        MultiplesStep(m, r, alignment);
      }
    }
  }

  /** A multiple is its own rounding. */
  lemma AlignDownExact(value: nat, alignment: nat)
    requires 0 < alignment < WORD64 && PowerOfTwo(alignment)
    ensures AlignDown(value, alignment) == value <==> Multiple(value, alignment)
  {
    hide AlignDown, PowerOfTwo;
    AlignDownRounds(value, alignment);
  }

  lemma {:induction false} Pow2Divides(j: nat, k: nat)
    requires j <= k
    ensures Multiple(Pow2(k), Pow2(j))
    decreases k
  {
    if j < k {
      hide Multiple;
      Pow2Divides(j, k - 1);
      SumIsMultiple(Pow2(k - 1), Pow2(k - 1), Pow2(j));
    } else {
      assert Pow2(j) % Pow2(j) == 0;
    }
  }

  /** Of two powers of two the smaller divides the larger. */
  lemma PowersDivide(a: nat, b: nat)
    requires PowerOfTwo(a) && PowerOfTwo(b) && a <= b
    ensures a > 0 && Multiple(b, a)
  {
    hide Pow2;
    var j: nat :| a == Pow2(j);
    var k: nat :| b == Pow2(k);
    if k < j {
      Pow2Increases(k, j);
    } else {
      Pow2Divides(j, k);
    }
  }
}
