/** What the integer codecs write and read, as functions on sequences of bits. */
module BitCodec {
  import opened MathUtility

  /** Whether a word has the bit of a mask that is a power of two. */
  predicate TestMask(word: uint32, mask: nat)
    requires mask > 0
  {
    (word / mask) % 2 == 1
  }

  predicate HasBit(word: uint32, k: nat) {
    TestMask(word, Pow2(k))
  }

  /** Another round of a mask loop: value and mask together are still below the bound and the
      mask has not run out, on 32-bit words that wrap around. */
  predicate MaskGuard(value: nat, mask: nat, max: uint32) {
    (value + mask) % WORD < max && mask != 0
  }

  function MaskDouble(mask: nat): nat {
    (mask * 2) % WORD
  }

  /** Mask in round k. */
  function RoundMask(k: nat): nat {
    if k < 32 then Pow2(k) else 0
  }

  /** The guard in round k without wrap-around: Mask is 2^k, and 0 after 32 rounds. */
  predicate Continues(acc: nat, max: uint32, k: nat) {
    k < 32 && acc + Pow2(k) < max
  }

  /** The bits that the mask loops of SerializeInt and WriteIntWrapped write from
      round k on, NewValue being acc, and the NewValue they end with. */
  function IntBits(value: uint32, max: uint32, k: nat, acc: nat): seq<bool>
    decreases 32 - k
  {
    if !Continues(acc, max, k) then []
    else if HasBit(value, k) then [true] + IntBits(value, max, k + 1, acc + Pow2(k))
    else [false] + IntBits(value, max, k + 1, acc)
  }

  /** One round of the writer's loop. */
  lemma IntStep(done: seq<bool>, value: uint32, max: uint32, k: nat, acc: nat)
    requires Continues(acc, max, k)
    ensures var b := HasBit(value, k);
            done + IntBits(value, max, k, acc) == (done + [b]) +
                IntBits(value, max, k + 1, if b then acc + Pow2(k) else acc)
  {
  }

  lemma IntDone(value: uint32, max: uint32, k: nat, acc: nat)
    requires !Continues(acc, max, k)
    ensures IntBits(value, max, k, acc) == []
  {
  }

  function IntResult(value: uint32, max: uint32, k: nat, acc: nat): nat
    decreases 32 - k
  {
    if !Continues(acc, max, k) then acc
    else if HasBit(value, k) then IntResult(value, max, k + 1, acc + Pow2(k))
    else IntResult(value, max, k + 1, acc)
  }

  /** No sum wraps before the mask does, so the two guards agree in every round and the
      loop stops after at most 32. */
  lemma MaskRounds(k: nat, value: nat, max: uint32)
    requires k <= 32 && value < Pow2(k)
    ensures MaskGuard(value, RoundMask(k), max) <==> Continues(value, max, k)
    ensures k < 32 ==> MaskDouble(RoundMask(k)) == RoundMask(k + 1)
    ensures k < 32 ==> value + Pow2(k) < Pow2(k + 1)
  {
    if k < 32 {
      Pow2Word();
      Pow2Step(k);
      hide Pow2;
      if k < 31 {
        Pow2Increases(k, 31);
      }
    }
  }

  lemma Pow2Step(k: nat)
    ensures Pow2(k + 1) == 2 * Pow2(k)
  {
  }

  /** What a mask loop keeps in round k: Mask is 2^k and `done` is what it has written
      of the bits IntBits asks for. */
  ghost predicate InRound(value: uint32, max: uint32, k: nat, acc: nat, mask: nat, done: seq<bool>)
  {
    && k <= 32 && acc < Pow2(k) && mask == RoundMask(k) && |done| == k
    && done + IntBits(value, max, k, acc) == IntBits(value, max, 0, 0)
  }

  lemma FirstRound(value: uint32, max: uint32)
    ensures InRound(value, max, 0, 0, 1, [])
  {
  }

  lemma StepRound(value: uint32, max: uint32, k: nat, acc: nat, mask: nat, done: seq<bool>)
    requires InRound(value, max, k, acc, mask, done) && MaskGuard(acc, mask, max)
    ensures k < 32 && mask > 0 && k < CeilLogTwo(max)
    ensures var b := TestMask(value, mask);
            InRound(value, max, k + 1, if b then acc + mask else acc, MaskDouble(mask), done + [b])
  {
    hide Pow2, IntBits, TestMask, MaskGuard, MaskDouble, CeilLogTwo;
    MaskRounds(k, acc, max);
    CeilLogTwoExact(max, k);
    IntStep(done, value, max, k, acc);
  }

  lemma LastRound(value: uint32, max: uint32, k: nat, acc: nat, mask: nat, done: seq<bool>)
    requires InRound(value, max, k, acc, mask, done) && !MaskGuard(acc, mask, max)
    ensures done == IntBits(value, max, 0, 0)
  {
    MaskRounds(k, acc, max);
    IntDone(value, max, k, acc);
  }

  datatype IntRead = IntRead(value: nat, used: nat, overflowed: bool)

  /** BitReader::SerializeInt from round k on. */
  function ReadInt(bits: seq<bool>, max: uint32, k: nat, acc: nat): IntRead
    decreases 32 - k
  {
    if !Continues(acc, max, k) then IntRead(acc, 0, false)
    else if bits == [] then IntRead(acc, 0, true)
    else
      var r := ReadInt(bits[1..], max, k + 1, if bits[0] then acc + Pow2(k) else acc);
      r.(used := r.used + 1)
  }

  /** What the reader's mask loop keeps in round k: `value` is what it has of the bits. */
  ghost predicate InReading(bits: seq<bool>, max: uint32, k: nat, value: nat, mask: nat)
  {
    && k <= 32 && k <= |bits| && value < Pow2(k) && mask == RoundMask(k)
    && var r := ReadInt(bits[k..], max, k, value);
       ReadInt(bits, max, 0, 0) == r.(used := k + r.used)
  }

  lemma ReadingStarts(bits: seq<bool>, max: uint32)
    ensures InReading(bits, max, 0, 0, 1)
  {
    assert bits[0..] == bits;
  }

  lemma ReadingSteps(bits: seq<bool>, max: uint32, k: nat, value: nat, mask: nat)
    requires InReading(bits, max, k, value, mask) && MaskGuard(value, mask, max) && k < |bits|
    ensures k < 32 && InReading(bits, max, k + 1, if bits[k] then value + mask else value, MaskDouble(mask))
  {
    hide Pow2, MaskGuard, MaskDouble, ReadInt, Continues, RoundMask;
    MaskRounds(k, value, max);
    ReadingRound(bits, max, k, value);
    RoundMaskIs(k);
  }

  lemma RoundMaskIs(k: nat)
    ensures k < 32 ==> RoundMask(k) == Pow2(k)
    ensures forall value: nat, max: uint32 :: Continues(value, max, k) ==> k < 32
  {
  }

  lemma ReadingRound(bits: seq<bool>, max: uint32, k: nat, value: nat)
    requires k < |bits| && Continues(value, max, k)
    ensures var r := ReadInt(bits[k + 1..], max, k + 1, if bits[k] then value + Pow2(k) else value);
            ReadInt(bits[k..], max, k, value) == r.(used := 1 + r.used)
  {
    hide Pow2;
    assert bits[k..][1..] == bits[k + 1..];
  }

  lemma ReadingEnds(bits: seq<bool>, max: uint32, k: nat, value: nat, mask: nat)
    requires InReading(bits, max, k, value, mask)
    requires MaskGuard(value, mask, max) ==> k == |bits|
    ensures ReadInt(bits, max, 0, 0) == IntRead(value, k, MaskGuard(value, mask, max)) && value < WORD
  {
    hide Pow2, MaskGuard, MaskDouble, RoundMask, Continues;
    MaskRounds(k, value, max);
    ReadingDone(bits[k..], max, k, value);
    BelowWord(k, value);
  }

  lemma ReadingDone(rest: seq<bool>, max: uint32, k: nat, value: nat)
    requires Continues(value, max, k) ==> rest == []
    ensures ReadInt(rest, max, k, value) == IntRead(value, 0, Continues(value, max, k))
  {
  }

  lemma BelowWord(k: nat, value: nat)
    requires k <= 32 && value < Pow2(k)
    ensures value < WORD
  {
    Pow2Word();
    hide Pow2;
    if k < 32 {
      Pow2Increases(k, 32);
    }
  }

  /** The number whose binary digits these are, the lowest first. */
  function NumberOf(bits: seq<bool>): nat {
    if bits == [] then 0
    else
      var n := |bits| - 1;
      NumberOf(bits[..n]) + (if bits[n] then Pow2(n) else 0)
  }

  /** After k bits the next one could not make the number reach the bound. */
  ghost predicate GoesOn(bits: seq<bool>, max: uint32, k: nat)
    requires k <= |bits|
  {
    k < 32 && NumberOf(bits[..k]) + Pow2(k) < max
  }

  lemma NumberNext(bits: seq<bool>, k: nat)
    requires k < |bits|
    ensures NumberOf(bits[..k + 1]) == NumberOf(bits[..k]) + (if bits[k] then Pow2(k) else 0)
  {
    assert bits[..k + 1][..k] == bits[..k];
  }

  lemma {:induction false} ReadOn(bits: seq<bool>, max: uint32, k: nat)
    requires k <= |bits| && forall i | 0 <= i < k :: GoesOn(bits, max, i)
    ensures var r := ReadInt(bits[k..], max, k, NumberOf(bits[..k]));
            && k + r.used <= |bits| && r.value == NumberOf(bits[..k + r.used])
            && (forall i | 0 <= i < k + r.used :: GoesOn(bits, max, i))
            && (GoesOn(bits, max, k + r.used) <==> r.overflowed)
            && (r.overflowed ==> k + r.used == |bits|)
    decreases 32 - k
  {
    hide Pow2, NumberOf;
    if k < 32 && k < |bits| && GoesOn(bits, max, k) {
      NumberNext(bits, k);
      assert bits[k..][1..] == bits[k + 1..];
      ReadOn(bits, max, k + 1);
    }
  }

  /** What the reader makes of any bits: it takes them as long as the next one, if set, would
      stay below the bound, 32 at most; the result is the number they spell, and it is an
      error exactly when they run out before that. */
  lemma ReadIntIs(bits: seq<bool>, max: uint32)
    ensures var r := ReadInt(bits, max, 0, 0);
            && r.used <= |bits| && r.value == NumberOf(bits[..r.used])
            && (forall i | 0 <= i < r.used :: GoesOn(bits, max, i))
            && (GoesOn(bits, max, r.used) <==> r.overflowed)
            && (r.overflowed ==> r.used == |bits|)
  {
    assert bits[0..] == bits && bits[..0] == [];
    ReadOn(bits, max, 0);
  }

  /** Reading back what was written yields the written NewValue and uses exactly the
      bits written, whatever follows them. */
  lemma {:induction false} IntRoundTrip(value: uint32, max: uint32, k: nat, acc: nat, tail: seq<bool>)
    ensures ReadInt(IntBits(value, max, k, acc) + tail, max, k, acc)
         == IntRead(IntResult(value, max, k, acc), |IntBits(value, max, k, acc)|, false)
    decreases 32 - k
  {
    hide HasBit, TestMask;
    if Continues(acc, max, k) {
      var b := HasBit(value, k);
      var next := if b then acc + Pow2(k) else acc;
      var rest := IntBits(value, max, k + 1, next);
      assert IntBits(value, max, k, acc) + tail == [b] + (rest + tail);
      IntRoundTrip(value, max, k + 1, next, tail);
    } else {
      assert IntBits(value, max, k, acc) + tail == tail;
    }
  }

  lemma SplitBit(value: nat, p: nat)
    requires p > 0
    ensures value % (2 * p) == value % p + (if (value / p) % 2 == 1 then p else 0)
  {
    var q, r := value / p, value % p;
    assert value == p * q + r;
    assert q == 2 * (q / 2) + q % 2;
    assert p * q == (2 * p) * (q / 2) + p * (q % 2) by {
      assert p * (2 * (q / 2)) == (2 * p) * (q / 2);
    }
    var low := p * (q % 2) + r;
    assert 0 <= low < 2 * p && value == (2 * p) * (q / 2) + low;
    RemainderIs(value, 2 * p, q / 2, low);
  }

  lemma AtLeastOnce(d: int, m: int)
    requires d > 0
    ensures m >= 1 ==> d * m >= d
    ensures m <= -1 ==> d * m <= -d
  {
    if m >= 1 {
      assert d * m == d * (m - 1) + d;
    } else if m <= -1 {
      assert d * m == d * (m + 1) - d;
    }
  }

  lemma RemainderIs(x: nat, d: nat, q: nat, r: nat)
    requires 0 <= r < d && x == d * q + r
    ensures x % d == r
  {
    var a, b := x / d, x % d;
    assert x == d * a + b;
    assert d * (a - q) == d * a - d * q;
    AtLeastOnce(d, a - q);
  }

  /** The loop ends after n rounds with the value modulo 2^n, below max, and stops
      only when the next bit could reach max or 32 rounds are done. */
  lemma {:induction false} IntResultIs(value: uint32, max: uint32, k: nat, acc: nat)
    requires k <= 32 && acc == value % Pow2(k)
    ensures var n := k + |IntBits(value, max, k, acc)|;
            && n <= 32
            && IntResult(value, max, k, acc) == value % Pow2(n)
            && !Continues(value % Pow2(n), max, n)
    ensures acc < max ==> IntResult(value, max, k, acc) < max
    decreases 32 - k
  {
    if Continues(acc, max, k) {
      SplitBit(value, Pow2(k));
      IntResultIs(value, max, k + 1, if HasBit(value, k) then acc + Pow2(k) else acc);
    }
  }

  /** The rounds run never exceed the CeilLogTwo(max) bits that AllowAppend reserved. */
  lemma {:induction false} IntLength(value: uint32, max: uint32, k: nat, acc: nat)
    ensures IntBits(value, max, k, acc) != [] ==> k + |IntBits(value, max, k, acc)| <= CeilLogTwo(max)
    decreases 32 - k
  {
    if Continues(acc, max, k) {
      CeilLogTwoExact(max, k);
      IntLength(value, max, k + 1, if HasBit(value, k) then acc + Pow2(k) else acc);
    }
  }

  /** BitWriter::SerializeInt: values from max up are clamped to max - 1, and nothing
      is written when max is below 2. */
  function IntEncode(value: uint32, max: uint32): seq<bool> {
    if max < 2 then [] else IntBits(Min(value, max - 1), max, 0, 0)
  }

  lemma Residue(value: nat, p: nat)
    requires p > 0
    ensures value % p == value || value >= p + value % p
    ensures value % p == 0 && 0 < value <= p ==> value == p
  {
    assert value == p * (value / p) + value % p;
    AtLeastOnce(p, value / p);
  }

  lemma IntFinal(value: uint32, max: uint32)
    requires value < max
    ensures IntResult(value, max, 0, 0) == value
  {
    assert Pow2(0) == 1;
    hide Pow2, HasBit, IntBits, IntResult;
    var n := |IntBits(value, max, 0, 0)|;
    IntResultIs(value, max, 0, 0);
    var p := Pow2(n);
    Residue(value, p);
    if n == 32 {
      Pow2Word();
    }
  }

  /** SerializeInt: the reader with the same bound gets min(value, max - 1) back (0
      for a bound below 2), uses exactly the bits written, and those are at most the
      CeilLogTwo(max) that the writer asked AllowAppend for. */
  lemma SerializeIntRoundTrip(value: uint32, max: uint32, tail: seq<bool>)
    ensures ReadInt(IntEncode(value, max) + tail, max, 0, 0)
         == IntRead(if max < 2 then 0 else Min(value, max - 1), |IntEncode(value, max)|, false)
    ensures |IntEncode(value, max)| <= CeilLogTwo(max)
  {
    CeilLogTwoExact(max, 0);
    if max < 2 {
      assert IntEncode(value, max) + tail == tail;
    } else {
      var clamped := Min(value, max - 1);
      IntRoundTrip(clamped, max, 0, 0, tail);
      IntFinal(clamped, max);
      IntLength(clamped, max, 0, 0);
    }
  }

  /** BitWriter::WriteIntWrapped. */
  function WrapEncode(value: uint32, max: uint32): seq<bool> {
    IntBits(value, max, 0, 0)
  }

  /** WriteIntWrapped read back with ReadInt of the same bound: below the bound, equal
      to the value modulo 2^n where n is the number of bits written, and unchanged
      when the value already was below the bound. */
  lemma WrappedRoundTrip(value: uint32, max: uint32, tail: seq<bool>)
    ensures var n, r := |WrapEncode(value, max)|, ReadInt(WrapEncode(value, max) + tail, max, 0, 0);
            && r == IntRead(value % Pow2(n), n, false)
            && n <= CeilLogTwo(max)
            && (max >= 1 ==> r.value < max)
            && (value < max ==> r.value == value)
  {
    IntRoundTrip(value, max, 0, 0, tail);
    IntResultIs(value, max, 0, 0);
    IntLength(value, max, 0, 0);
    CeilLogTwoExact(max, 0);
    if value < max {
      IntFinal(value, max);
    }
  }

  lemma {:induction false} PowerOfTwoRounds(value: uint32, m: nat, k: nat, acc: nat)
    requires m < 32 && k <= m && acc < Pow2(k)
    requires Pow2(m) < 0x1_0000_0000
    ensures k + |IntBits(value, Pow2(m), k, acc)| == m
    decreases m - k
  {
    if k < m {
      if k + 1 < m {
        Pow2Increases(k + 1, m);
      }
      PowerOfTwoRounds(value, m, k + 1, if HasBit(value, k) then acc + Pow2(k) else acc);
    }
  }

  /** For a bound of 2^m the wrap is the remainder, and takes m == CeilLogTwo(2^m) bits. */
  lemma WrapIsModulo(value: uint32, m: nat)
    requires m < 32 && Pow2(m) < 0x1_0000_0000
    ensures IntResult(value, Pow2(m), 0, 0) == value % Pow2(m)
    ensures |WrapEncode(value, Pow2(m))| == m == CeilLogTwo(Pow2(m))
  {
    IntResultIs(value, Pow2(m), 0, 0);
    PowerOfTwoRounds(value, m, 0, 0);
    CeilLogTwoExact(Pow2(m), m);
    if m > 0 {
      CeilLogTwoExact(Pow2(m), m - 1);
    }
  }

  lemma ModuloNeedsPowerOfTwo(max: uint32)
    requires max >= 1 && IntResult(max, max, 0, 0) == 0
    ensures PowerOfTwo(max)
  {
    assert Pow2(0) == 1;
    hide Pow2, HasBit, IntBits, IntResult;
    var n := |IntBits(max, max, 0, 0)|;
    IntResultIs(max, max, 0, 0);
    var p := Pow2(n);
    Residue(max, p);
    if n == 32 {
      Pow2Word();
    }
    assert n < 32 && max == Pow2(n);
  }

  ghost predicate WrapsModulo(max: uint32)
    requires max >= 1
  {
    forall value: uint32 :: IntResult(value, max, 0, 0) == value % max
  }

  lemma AtLeastWord(m: nat)
    requires m >= 32
    ensures Pow2(m) >= WORD
  {
    Pow2Word();
    if m > 32 {
      Pow2Increases(32, m);
    }
  }

  /** The name promises a wrap to `value mod max`.  The code gives that for every value
      exactly when max is a power of two. */
  lemma WrapsModuloMaxIff(max: uint32)
    requires max >= 1
    ensures WrapsModulo(max) <==> PowerOfTwo(max)
  {
    if WrapsModulo(max) {
      assert IntResult(max, max, 0, 0) == max % max == 0;
      ModuloNeedsPowerOfTwo(max);
    }
    if PowerOfTwo(max) {
      var m: nat :| max == Pow2(m);
      if m >= 32 {
        AtLeastWord(m);
      }
      forall value: uint32
        ensures IntResult(value, max, 0, 0) == value % max
      {
        WrapIsModulo(value, m);
      }
    }
  }

  /** A bound of 5 is not a power of two: the value 5 comes back as 1. */
  lemma WrapIsNotModulo()
    ensures ReadInt(WrapEncode(5, 5), 5, 0, 0).value == 1 && 5 % 5 == 0
  {
    assert WrapEncode(5, 5) + [] == WrapEncode(5, 5);
    assert Pow2(1) == 2 && Pow2(2) == 4 && HasBit(5, 0) && !HasBit(5, 1);
    assert IntResult(5, 5, 2, 1) == 1;
    assert IntResult(5, 5, 1, 1) == 1;
    IntRoundTrip(5, 5, 0, 0, []);
  }
}
