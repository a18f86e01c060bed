/** appBitsCpy: copies any run of bits between any two bit offsets. */
module BitCopy {
  import opened Bits
  import opened MathUtility

  /** `after` is `before` with the n bits from destBit replaced by the n bits of
      `src` from srcBit, and every other bit unchanged. */
  ghost predicate Copied(before: seq<bv8>, after: seq<bv8>, destBit: nat, src: seq<bv8>, srcBit: nat, n: nat)
    requires destBit + n <= 8 * |before| && srcBit + n <= 8 * |src|
  {
    && |after| == |before|
    && forall k: nat | k < 8 * |before| ::
         GetBit(after, k) == if destBit <= k < destBit + n then GetBit(src, srcBit + k - destBit) else GetBit(before, k)
  }

  lemma NothingCopied(before: seq<bv8>, destBit: nat, src: seq<bv8>, srcBit: nat)
    requires destBit <= 8 * |before| && srcBit <= 8 * |src|
    ensures Copied(before, before, destBit, src, srcBit, 0)
  {
  }

  /** Bytes past the copied run still have their first contents. */
  lemma NotYetWritten(before: seq<bv8>, mid: seq<bv8>, destBit: nat, src: seq<bv8>, srcBit: nat, n: nat, m: nat)
    requires destBit + n <= 8 * |before| && srcBit + n <= 8 * |src|
    requires Copied(before, mid, destBit, src, srcBit, n)
    requires m < |before| && destBit + n <= 8 * m
    ensures mid[m] == before[m]
  {
    hide Bits.Bit;
    forall i: nat | i < 8
      ensures Bit(mid[m], i) == Bit(before[m], i)
    {
      assert GetBit(mid, 8 * m + i) == GetBit(before, 8 * m + i);
      assert (8 * m + i) / 8 == m && (8 * m + i) % 8 == i;
    }
    SameBitsSameByte(mid[m], before[m]);
  }

  /** Writing byte m extends the copied run to `end` when the byte's bits are right. */
  lemma WriteByte(before: seq<bv8>, mid: seq<bv8>, destBit: nat, src: seq<bv8>, srcBit: nat, start: nat, end: nat,
                  m: nat, b: bv8)
    requires destBit <= start <= end <= 8 * |before| && srcBit + end - destBit <= 8 * |src|
    requires m < |before| && 8 * m <= start && end <= 8 * m + 8
    requires Copied(before, mid, destBit, src, srcBit, start - destBit)
    requires start == 8 * m || start == destBit
    requires forall i: nat | i < 8 && start <= 8 * m + i < end :: Bit(b, i) == GetBit(src, srcBit + 8 * m + i - destBit)
    requires forall i: nat | i < 8 && !(start <= 8 * m + i < end) :: Bit(b, i) == Bit(before[m], i)
    ensures Copied(before, mid[m := b], destBit, src, srcBit, end - destBit)
  {
    hide Bits.Bit;
    var after := mid[m := b];
    forall k: nat | k < 8 * |before|
      ensures GetBit(after, k) == if destBit <= k < end then GetBit(src, srcBit + k - destBit) else GetBit(before, k)
    {
      var i := k % 8;
      assert k == 8 * (k / 8) + i;
      if k / 8 == m {
        assert GetBit(after, k) == Bit(b, i);
        assert GetBit(before, k) == Bit(before[m], i);
        assert srcBit + 8 * m + i - destBit == srcBit + k - destBit;
      } else {
        assert GetBit(after, k) == GetBit(mid, k);
      }
    }
  }

  /** The source bits a destination byte sees: bit i comes from source position
      8 * si - t + i, in byte si - 1 or si. */
  lemma FunnelSource(src: seq<bv8>, lo: bv8, hi: bv8, si: nat, t: nat, i: nat)
    requires t <= 8 && i < 8
    requires 0 <= 8 * si - t + i < 8 * |src|
    requires i < t ==> lo == src[si - 1]
    requires i >= t ==> hi == src[si]
    ensures Bit(Funnel(lo, hi, Count(t)), i) == GetBit(src, 8 * si - t + i)
  {
    FunnelBit(lo, hi, t, i);
    if i < t {
      assert 8 * si - t + i == 8 * (si - 1) + (8 - t + i);
    } else {
      assert 8 * si - t + i == 8 * si + (i - t);
    }
  }

  /** Destination byte m cut from source bytes si - 1 and si: its bits in
      [start, end) are the bits to be copied there. */
  lemma CutByte(src: seq<bv8>, lo: bv8, hi: bv8, si: nat, t: nat, destBit: nat, srcBit: nat, m: nat, start: nat,
                end: nat)
    requires t <= 8 && 8 * si - t == srcBit + 8 * m - destBit
    requires destBit <= start && srcBit + end - destBit <= 8 * |src|
    requires start - 8 * m < t ==> 0 < si <= |src| && lo == src[si - 1]
    requires t < end - 8 * m ==> si < |src| && hi == src[si]
    ensures forall i: nat | i < 8 && start <= 8 * m + i < end ::
              Bit(Funnel(lo, hi, Count(t)), i) == GetBit(src, srcBit + 8 * m + i - destBit)
  {
    hide Bits.Bit, Bits.Funnel, Bits.GetBit;
    forall i: nat | i < 8 && start <= 8 * m + i < end
      ensures Bit(Funnel(lo, hi, Count(t)), i) == GetBit(src, srcBit + 8 * m + i - destBit)
    {
      FunnelSource(src, lo, hi, si, t, i);
    }
  }

  /** The first destination byte: the bits from where the copy starts come from the accumulator. */
  method Head(accu: bv32, under: bv8, d: nat) returns (b: bv8)
    requires d < 8
    ensures forall i: nat | i < 8 :: Bit(b, i) == if i < d then Bit(under, i) else Bit(Low8(accu), i)
  {
    hide Bits.Low8, Bits.Bit;
    b := Low8((accu & (0xFF << Count(d))) | ((under as bv32) & !(0xFF << Count(d))));
    forall i: nat | i < 8
      ensures Bit(b, i) == if i < d then Bit(under, i) else Bit(Low8(accu), i)
    {
      AboveBit(accu, under, d, i);
    }
  }

  /** The last destination byte: the bits below where the copy ends come from the accumulator. */
  method Tail(accu: bv32, under: bv8, e: nat) returns (b: bv8)
    requires e < 8
    ensures forall i: nat | i < 8 :: Bit(b, i) == if i < e then Bit(Low8(accu), i) else Bit(under, i)
  {
    b := Low8(((under as bv32) & (0xFF << Count(e))) | (accu & !(0xFF << Count(e))));
    TailWord(accu, under, Count(e));
    hide Bits.Low8, Bits.Bit, Bits.Above, Bits.Word;
    forall i: nat | i < 8
      ensures Bit(b, i) == if i < e then Bit(Low8(accu), i) else Bit(under, i)
    {
      AboveBit(under as bv32, Low8(accu), e, i);
    }
  }

  lemma TailWord(accu: bv32, under: bv8, e: bv4)
    requires e < 8
    ensures Low8(((under as bv32) & (0xFF << e)) | (accu & !(0xFF << e))) == Above(under as bv32, Low8(accu), e)
    ensures Low8(under as bv32) == under
  {
  }

  lemma FullMask(e: nat)
    requires e < 8
    ensures (0xFF as bv32) << Count(e) != 0xFF <==> e != 0
  {
    WordOrder(0, e);
    MaskShift(Count(e));
  }

  lemma MaskShift(e: bv4)
    requires e < 8
    ensures (0xFF as bv32) << e != 0xFF <==> e != 0
  {
  }

  /** What the main copier keeps between bytes: everything below destination byte
      `destIndex` is done and the accumulator holds source byte `srcIndex - 1`. */
  ghost predicate Underway(before: seq<bv8>, dest: seq<bv8>, destBit: nat, src: seq<bv8>, srcBit: nat,
                           destIndex: nat, srcIndex: nat, accu: bv32, t: nat)
  {
    && t < 8 && 1 <= srcIndex <= |src|
    && destBit < 8 * destIndex <= 8 * |before| && srcBit + 8 * destIndex - destBit <= 8 * |src|
    && 8 * srcIndex - t == srcBit + 8 * destIndex - destBit
    && Holding(accu, src[srcIndex - 1], Count(t))
    && Copied(before, dest, destBit, src, srcBit, 8 * destIndex - destBit)
  }

  /** Lead-in: one or two source bytes make the first destination byte. */
  method LeadIn(dest: array<bv8>, destBit: nat, src: array<bv8>, srcBit: nat, n: nat, ghost t: nat)
    returns (destIndex: nat, srcIndex: nat, shiftCount: int, fullLoop: int, accu: bv32)
    requires dest != src && n > 8
    requires destBit + n <= 8 * dest.Length && srcBit + n <= 8 * src.Length
    requires t == (destBit % 8 + 8 - srcBit % 8) % 8
    modifies dest
    ensures Underway(old(dest[..]), dest[..], destBit, src[..], srcBit, destIndex, srcIndex, accu, t)
    ensures destIndex == destBit / 8 + 1 && shiftCount == t + 8
    ensures fullLoop == (destBit + n) / 8 - destBit / 8
  {
    hide Bits.Bit, Bits.GetBit, Bits.Funnel, Bits.Holding, Bits.ShiftIn, Bits.ShiftFirst, Bits.Low8, Bits.Word,
         Bits.Count, Copied;
    ghost var before, from := dest[..], src[..];
    ghost var lo: bv8 := 0;
    destIndex, srcIndex := destBit / 8, srcBit / 8;
    shiftCount := destBit % 8 - srcBit % 8;
    var destLoop, srcLoop := (destBit + n) / 8 - destIndex, (srcBit + n) / 8 - srcIndex;
    if shiftCount >= 0 {
      fullLoop := Max(destLoop, srcLoop);
      accu := ShiftFirst(src[srcIndex], Word(shiftCount));
      FirstStep(src[srcIndex], t);
      shiftCount := shiftCount + 8;
    } else {
      shiftCount := shiftCount + 8;
      fullLoop := Max(destLoop, srcLoop - 1);
      accu := ShiftFirst(src[srcIndex], Word(shiftCount));
      FirstStep(src[srcIndex], t);
      lo := src[srcIndex];
      srcIndex := srcIndex + 1;
      shiftCount := shiftCount + 8;
      AccuStep(accu, lo, src[srcIndex], t);
      accu := ShiftIn(accu, src[srcIndex], Word(shiftCount));
    }
    var b := Head(accu, dest[destIndex], destBit % 8);
    FirstByte(before, from, destBit, srcBit, lo, srcIndex, t, b);
    dest[destIndex] := b;
    assert dest[..] == before[destIndex := b];
    srcIndex := srcIndex + 1;
    destIndex := destIndex + 1;
  }

  /** The first destination byte starts the copied run. */
  lemma FirstByte(before: seq<bv8>, from: seq<bv8>, destBit: nat, srcBit: nat, lo: bv8, si: nat, t: nat, b: bv8)
    requires destBit / 8 < |before| && si < |from| && t < 8 && 8 * si - t == srcBit + 8 * (destBit / 8) - destBit
    requires srcBit + 8 - destBit % 8 <= 8 * |from|
    requires destBit % 8 < t ==> 0 < si && lo == from[si - 1]
    requires forall i: nat | i < 8 :: Bit(b, i) == if i < destBit % 8 then Bit(before[destBit / 8], i)
                                                   else Bit(Funnel(lo, from[si], Count(t)), i)
    ensures Copied(before, before[destBit / 8 := b], destBit, from, srcBit, 8 - destBit % 8)
  {
    hide Bits.Bit, Bits.GetBit, Bits.Funnel, Bits.Count, Copied;
    var m := destBit / 8;
    assert destBit == 8 * m + destBit % 8;
    CutByte(from, lo, from[si], si, t, destBit, srcBit, m, destBit, 8 * m + 8);
    NothingCopied(before, destBit, from, srcBit);
    WriteByte(before, before, destBit, from, srcBit, destBit, 8 * m + 8, m, b);
  }

  /** One turn of the fast inner loop. */
  method InnerStep(dest: array<bv8>, destBit: nat, src: array<bv8>, srcBit: nat, ghost before: seq<bv8>,
                   destIndex: nat, srcIndex: nat, shiftCount: nat, accu: bv32)
    returns (next: bv32)
    requires dest != src && 8 <= shiftCount < 16
    requires Underway(before, dest[..], destBit, src[..], srcBit, destIndex, srcIndex, accu, shiftCount - 8)
    requires srcIndex < src.Length && destIndex < dest.Length
    modifies dest
    ensures Underway(before, dest[..], destBit, src[..], srcBit, destIndex + 1, srcIndex + 1, next, shiftCount - 8)
  {
    hide Bits.Bit, Bits.GetBit, Bits.Funnel, Bits.Holding, Bits.ShiftIn, Bits.Low8, Bits.Word, Bits.Count;
    ghost var from, mid, t := src[..], dest[..], shiftCount - 8;
    AccuStep(accu, from[srcIndex - 1], src[srcIndex], t);
    next := ShiftIn(accu, src[srcIndex], Word(shiftCount));
    CutByte(from, from[srcIndex - 1], src[srcIndex], srcIndex, t, destBit, srcBit, destIndex, 8 * destIndex,
        8 * destIndex + 8);
    WriteByte(before, mid, destBit, from, srcBit, 8 * destIndex, 8 * destIndex + 8, destIndex, Low8(next));
    dest[destIndex] := Low8(next);
    assert dest[..] == mid[destIndex := Low8(next)];
  }

  /** Lead-out: the bits of the last, partly written destination byte. */
  method LeadOut(dest: array<bv8>, destBit: nat, src: array<bv8>, srcBit: nat, n: nat, ghost before: seq<bv8>,
                 destIndex: nat, srcIndex: nat, shiftCount: nat, accu: bv32)
    requires dest != src && 8 <= shiftCount < 16
    requires destBit + n <= 8 * dest.Length && srcBit + n <= 8 * src.Length
    requires Underway(before, dest[..], destBit, src[..], srcBit, destIndex, srcIndex, accu, shiftCount - 8)
    requires destIndex == (destBit + n) / 8 && (destBit + n) % 8 != 0
    modifies dest
    ensures |before| == dest.Length && Copied(before, dest[..], destBit, src[..], srcBit, n)
  {
    hide Bits.Bit, Bits.GetBit, Bits.Funnel, Bits.Holding, Bits.ShiftIn, Bits.Low8, Bits.Word, Bits.Count;
    ghost var from, mid, t := src[..], dest[..], shiftCount - 8;
    ghost var hi: bv8 := 0;
    var last: bv32;
    if (srcBit + n - 1) / 8 == srcIndex {
      hi := src[srcIndex];
      AccuStep(accu, from[srcIndex - 1], hi, t);
      last := ShiftIn(accu, src[srcIndex], Word(shiftCount));
    } else {
      LastStep(accu, from[srcIndex - 1], t);
      last := accu >> 8;
    }
    CutByte(from, from[srcIndex - 1], hi, srcIndex, t, destBit, srcBit, destIndex, 8 * destIndex, destBit + n);
    NotYetWritten(before, mid, destBit, from, srcBit, 8 * destIndex - destBit, destIndex);
    var b := Tail(last, dest[destIndex], (destBit + n) % 8);
    WriteByte(before, mid, destBit, from, srcBit, 8 * destIndex, destBit + n, destIndex, b);
    dest[destIndex] := b;
    assert dest[..] == mid[destIndex := b];
  }

  /** The main copier, for more than eight bits. */
  method CopyLong(dest: array<bv8>, destBit: nat, src: array<bv8>, srcBit: nat, n: nat)
    requires dest != src && n > 8
    requires destBit + n <= 8 * dest.Length && srcBit + n <= 8 * src.Length
    modifies dest
    ensures Copied(old(dest[..]), dest[..], destBit, src[..], srcBit, n)
  {
    hide Bits.Holding, Copied;
    ghost var before, t := dest[..], (destBit % 8 + 8 - srcBit % 8) % 8;
    var lastSrcMask: bv32 := (0xFF as bv32) << Count((destBit + n) % 8);
    var destIndex, srcIndex, shiftCount, fullLoop, accu := LeadIn(dest, destBit, src, srcBit, n, t);
    while fullLoop > 1
      invariant 1 <= fullLoop && destIndex + fullLoop == (destBit + n) / 8 + 1
      invariant Underway(before, dest[..], destBit, src[..], srcBit, destIndex, srcIndex, accu, t)
    {
      accu := InnerStep(dest, destBit, src, srcBit, before, destIndex, srcIndex, shiftCount, accu);
      srcIndex, destIndex, fullLoop := srcIndex + 1, destIndex + 1, fullLoop - 1;
    }
    FullMask((destBit + n) % 8);
    if lastSrcMask != 0xFF {
      LeadOut(dest, destBit, src, srcBit, n, before, destIndex, srcIndex, shiftCount, accu);
    }
  }

  /** Accu of the short path: the source bits from srcBit on, moved down to bit 0. */
  method Gather(src: array<bv8>, srcBit: nat, n: nat) returns (accu: bv32)
    requires 1 <= n <= 8 && srcBit + n <= 8 * src.Length
    ensures forall j: nat | j < n :: Bit(Low8(accu), j) == GetBit(src[..], srcBit + j)
  {
    hide Bits.Bit, Bits.GetBit, Bits.Funnel, Bits.Low8, Bits.Word;
    var srcIndex, lastSrc, shiftSrc := srcBit / 8, (srcBit + n - 1) / 8, srcBit % 8;
    ghost var hi: bv8 := 0;
    WordOrder(8, shiftSrc);
    WordSmall(8);
    if srcIndex == lastSrc {
      accu := (src[srcIndex] as bv32) >> Count(shiftSrc);
      GatherOne(src[srcIndex], Count(shiftSrc));
    } else {
      accu := ((src[srcIndex] as bv32) >> Count(shiftSrc)) | ((src[lastSrc] as bv32) << Count(8 - shiftSrc));
      hi := src[lastSrc];
      GatherTwo(src[srcIndex], hi, Count(8 - shiftSrc), Count(shiftSrc));
    }
    ghost var from := src[..];
    CutByte(from, from[srcIndex], hi, srcIndex + 1, 8 - shiftSrc, 0, srcBit, 0, 0, n);
    assert Low8(accu) == Funnel(from[srcIndex], hi, Count(8 - shiftSrc));
    forall j: nat | j < n
      ensures Bit(Low8(accu), j) == GetBit(from, srcBit + j)
    {
      assert srcBit + 8 * 0 + j - 0 == srcBit + j;
    }
  }

  lemma GatherOne(b: bv8, s: bv4)
    requires s < 8
    ensures Low8((b as bv32) >> s) == Funnel(b, 0, 8 - s)
  {
  }

  lemma GatherTwo(lo: bv8, hi: bv8, t: bv4, s: bv4)
    requires s < 8 && t == 8 - s
    ensures Low8(((lo as bv32) >> s) | ((hi as bv32) << t)) == Funnel(lo, hi, t)
  {
  }

  /** The one destination byte of a copy that stays inside a byte. */
  function One(under: bv8, accu: bv32, d: bv4, e: bv4): bv8
    requires d < 8 && e < 8
  {
    var multiMask := ((0xFF as bv32) << d) & !((0xFE as bv32) << e);
    Low8(((under as bv32) & !multiMask) | ((accu << d) & multiMask))
  }

  function OneByte(under: bv8, v: bv8, d: bv4, e: bv4): bv8
    requires d < 8 && e < 8
  {
    var mask := ((0xFF as bv8) << d) & !((0xFE as bv8) << e);
    (under & !mask) | ((v << d) & mask)
  }

  lemma OneCast(under: bv8, accu: bv32, d: bv4, e: bv4)
    requires d <= e < 8
    ensures One(under, accu, d, e) == OneByte(under, Low8(accu), d, e)
  {
  }

  lemma OneMask(under: bv8, v: bv8, d: bv4, e: bv4, i: bv4)
    requires d <= e < 8 && i < 8
    ensures BitAt(OneByte(under, v, d, e), i) == if d <= i <= e then BitAt(v, i - d) else BitAt(under, i)
  {
  }

  /** The bits [d, e] of the one destination byte come from the accumulator. */
  lemma OneBit(under: bv8, accu: bv32, d: nat, e: nat, i: nat)
    requires d <= e < 8 && i < 8
    ensures Bit(One(under, accu, Count(d), Count(e)), i) ==
            if d <= i <= e then Bit(Low8(accu), i - d) else Bit(under, i)
  {
    hide One, OneByte, Bits.BitAt, Bits.Low8, Bits.Word;
    WordOrder(e, d);
    WordOrder(i, d);
    WordOrder(e, i);
    OneCast(under, accu, Count(d), Count(e));
    OneMask(under, Low8(accu), Count(d), Count(e), Count(i));
  }

  /** The second of two destination bytes. */
  function High(under: bv8, accu: bv32, u: bv4, e: bv4): bv8
    requires u < 8 && e < 8
  {
    var lastMask := (0xFE as bv32) << e;
    Low8(((under as bv32) & lastMask) | ((accu >> u) & !lastMask))
  }

  function Right(accu: bv32, u: bv4): bv32 {
    accu >> u
  }

  function Left(accu: bv32, d: bv4): bv32 {
    accu << d
  }

  function HighByte(under: bv8, v: bv8, e: bv4): bv8
    requires e < 8
  {
    (under & (0xFE << e)) | (v & !(0xFE << e))
  }

  lemma HighCast(under: bv8, accu: bv32, u: bv4, e: bv4)
    requires u < 8 && e < 8
    ensures High(under, accu, u, e) == HighByte(under, Low8(Right(accu, u)), e)
  {
  }

  lemma HighMask(under: bv8, v: bv8, e: bv4, i: bv4)
    requires e < 8 && i < 8
    ensures BitAt(HighByte(under, v, e), i) == if i <= e then BitAt(v, i) else BitAt(under, i)
  {
  }

  lemma RightWord(accu: bv32, u: bv4, i: bv4)
    requires 0 < u < 8 && i < 8 - u
    ensures BitAt(Low8(Right(accu, u)), i) == BitAt(Low8(accu), i + u)
  {
  }

  lemma HighBit(under: bv8, accu: bv32, u: nat, e: nat, i: nat)
    requires 0 < u < 8 && e < 8 - u && i < 8
    ensures Bit(High(under, accu, Count(u), Count(e)), i) == if i <= e then Bit(Low8(accu), i + u) else Bit(under, i)
  {
    hide High, HighByte, Right, Bits.BitAt, Bits.Low8, Bits.Word;
    WordOrder(e, i);
    WordOrder(0, u);
    HighCast(under, accu, Count(u), Count(e));
    HighMask(under, Low8(Right(accu, Count(u))), Count(e), Count(i));
    if i <= e {
      WordAdd(i, u);
      WordSmall(8);
      WordOrder(8, u);
      WordOrder(i, 8 - u);
      RightWord(accu, Count(u), Count(i));
    }
  }

  /** The copier for at most eight bits: one or two source bytes, one or two
      destination bytes. */
  method CopyShort(dest: array<bv8>, destBit: nat, src: array<bv8>, srcBit: nat, n: nat)
    requires dest != src && 1 <= n <= 8
    requires destBit + n <= 8 * dest.Length && srcBit + n <= 8 * src.Length
    modifies dest
    ensures Copied(old(dest[..]), dest[..], destBit, src[..], srcBit, n)
  {
    hide Bits.Bit, Bits.GetBit, Bits.Low8, Bits.Word, One, High, Copied;
    ghost var before, from := dest[..], src[..];
    var destIndex, lastDest := destBit / 8, (destBit + n - 1) / 8;
    var shiftDest := destBit % 8;
    var accu := Gather(src, srcBit, n);
    NothingCopied(before, destBit, from, srcBit);
    if destIndex == lastDest {
      var e := (destBit + n - 1) % 8;
      var b := One(dest[destIndex], accu, Count(shiftDest), Count(e));
      forall i: nat | i < 8
        ensures Bit(b, i) == if shiftDest <= i <= e then Bit(Low8(accu), i - shiftDest) else Bit(before[destIndex], i)
      {
        OneBit(before[destIndex], accu, shiftDest, e, i);
      }
      forall i: nat | i < 8 && destBit <= 8 * destIndex + i < destBit + n
        ensures Bit(b, i) == GetBit(from, srcBit + 8 * destIndex + i - destBit)
      {
        assert srcBit + 8 * destIndex + i - destBit == srcBit + (i - shiftDest);
      }
      WriteByte(before, before, destBit, from, srcBit, destBit, destBit + n, destIndex, b);
      dest[destIndex] := b;
      assert dest[..] == before[destIndex := b];
    } else {
      CopyStraddling(dest, destBit, src, srcBit, n, accu);
    }
  }

  lemma StraddleFirst(before: seq<bv8>, from: seq<bv8>, destBit: nat, srcBit: nat, n: nat, accu: bv32, b: bv8)
    requires 1 <= n <= 8 && destBit + n <= 8 * |before| && srcBit + n <= 8 * |from|
    requires destBit / 8 != (destBit + n - 1) / 8
    requires forall j: nat | j < n :: Bit(Low8(accu), j) == GetBit(from, srcBit + j)
    requires forall i: nat | i < 8 ::
               Bit(b, i) == if i < destBit % 8 then Bit(before[destBit / 8], i) else Bit(Low8(accu), i - destBit % 8)
    ensures destBit / 8 + 1 == (destBit + n - 1) / 8
    ensures Copied(before, before[destBit / 8 := b], destBit, from, srcBit, 8 - destBit % 8)
  {
    hide Bits.Bit, Bits.GetBit, Bits.Low8, Copied;
    var m, d := destBit / 8, destBit % 8;
    assert destBit == 8 * m + d;
    NothingCopied(before, destBit, from, srcBit);
    forall i: nat | i < 8 && destBit <= 8 * m + i < 8 * m + 8
      ensures Bit(b, i) == GetBit(from, srcBit + 8 * m + i - destBit)
    {
      assert srcBit + 8 * m + i - destBit == srcBit + (i - d);
    }
    WriteByte(before, before, destBit, from, srcBit, destBit, 8 * m + 8, m, b);
  }

  lemma StraddleSecond(before: seq<bv8>, mid: seq<bv8>, from: seq<bv8>, destBit: nat, srcBit: nat, n: nat, accu: bv32,
                       c: bv8)
    requires 1 <= n <= 8 && destBit + n <= 8 * |before| && srcBit + n <= 8 * |from|
    requires destBit / 8 + 1 == (destBit + n - 1) / 8
    requires forall j: nat | j < n :: Bit(Low8(accu), j) == GetBit(from, srcBit + j)
    requires Copied(before, mid, destBit, from, srcBit, 8 - destBit % 8)
    requires forall i: nat | i < 8 ::
               Bit(c, i) == if i <= (destBit + n - 1) % 8 then Bit(Low8(accu), i + (8 - destBit % 8))
                            else Bit(before[destBit / 8 + 1], i)
    ensures Copied(before, mid[destBit / 8 + 1 := c], destBit, from, srcBit, n)
  {
    hide Bits.Bit, Bits.GetBit, Bits.Low8, Copied;
    var m, d := destBit / 8 + 1, destBit % 8;
    assert destBit + 8 - d == 8 * m && destBit + n - 1 == 8 * m + (destBit + n - 1) % 8;
    forall i: nat | i < 8 && 8 * m <= 8 * m + i < destBit + n
      ensures Bit(c, i) == GetBit(from, srcBit + 8 * m + i - destBit)
    {
      assert srcBit + 8 * m + i - destBit == srcBit + (i + (8 - d));
    }
    WriteByte(before, mid, destBit, from, srcBit, 8 * m, destBit + n, m, c);
  }

  lemma StraddleBounds(destBit: nat, n: nat)
    requires 1 <= n <= 8 && destBit / 8 != (destBit + n - 1) / 8
    ensures (destBit + n - 1) / 8 == destBit / 8 + 1 && (destBit + n - 1) % 8 < destBit % 8
  {
    assert destBit == 8 * (destBit / 8) + destBit % 8;
  }

  method CopyStraddling(dest: array<bv8>, destBit: nat, src: array<bv8>, srcBit: nat, n: nat, accu: bv32)
    requires dest != src && 1 <= n <= 8
    requires destBit + n <= 8 * dest.Length && srcBit + n <= 8 * src.Length
    requires destBit / 8 != (destBit + n - 1) / 8
    requires forall j: nat | j < n :: Bit(Low8(accu), j) == GetBit(src[..], srcBit + j)
    modifies dest
    ensures Copied(old(dest[..]), dest[..], destBit, src[..], srcBit, n)
  {
    hide Bits.Bit, Bits.GetBit, Bits.Low8, Bits.Word, Copied;
    ghost var before, from := dest[..], src[..];
    var destIndex, lastDest, d, e := destBit / 8, (destBit + n - 1) / 8, destBit % 8, (destBit + n - 1) % 8;
    StraddleBounds(destBit, n);
    var b := LowHalf(accu, dest[destIndex], d);
    var c := HighHalf(accu, dest[lastDest], d, e);
    StraddleFirst(before, from, destBit, srcBit, n, accu, b);
    ghost var mid := before[destIndex := b];
    StraddleSecond(before, mid, from, destBit, srcBit, n, accu, c);
    dest[destIndex] := b;
    dest[lastDest] := c;
    assert dest[..] == mid[lastDest := c];
  }

  /** The first of the two bytes: the accumulator moved up above the bits to be kept. */
  method LowHalf(accu: bv32, under: bv8, d: nat) returns (b: bv8)
    requires d < 8
    ensures forall i: nat | i < 8 :: Bit(b, i) == if i < d then Bit(under, i) else Bit(Low8(accu), i - d)
  {
    hide Bits.Bit, Bits.Low8, Bits.Word, Left;
    b := Head(Left(accu, Count(d)), under, d);
    forall i: nat | i < 8
      ensures Bit(b, i) == if i < d then Bit(under, i) else Bit(Low8(accu), i - d)
    {
      if i >= d {
        LeftBit(accu, d, i);
      }
    }
  }

  /** The second: what is left of the accumulator below the bits to be kept. */
  method HighHalf(accu: bv32, under: bv8, d: nat, e: nat) returns (c: bv8)
    requires 0 < d < 8 && e < d
    ensures forall i: nat | i < 8 :: Bit(c, i) == if i <= e then Bit(Low8(accu), i + (8 - d)) else Bit(under, i)
  {
    hide Bits.Bit, Bits.Low8, Bits.Word, High;
    c := High(under, accu, Count(8 - d), Count(e));
    forall i: nat | i < 8
      ensures Bit(c, i) == if i <= e then Bit(Low8(accu), i + (8 - d)) else Bit(under, i)
    {
      HighBit(under, accu, 8 - d, e, i);
    }
  }

  lemma LeftWord(accu: bv32, d: bv4, i: bv4)
    requires d <= i < 8
    ensures BitAt(Low8(Left(accu, d)), i) == BitAt(Low8(accu), i - d)
  {
  }

  lemma LeftBit(accu: bv32, d: nat, i: nat)
    requires d <= i < 8
    ensures Bit(Low8(Left(accu, Count(d))), i) == Bit(Low8(accu), i - d)
  {
    hide Left, Bits.BitAt, Bits.Low8, Bits.Word;
    WordOrder(i, d);
    LeftWord(accu, Count(d), Count(i));
  }

  /** appBitsCpy: bits [srcBit, srcBit + bitCount) of src replace bits
      [destBit, destBit + bitCount) of dest and nothing else changes.  Every access
      is inside the two arrays when they end with the last byte copied. */
  method AppBitsCpy(dest: array<bv8>, destBit: nat, src: array<bv8>, srcBit: nat, bitCount: nat)
    requires dest != src
    requires destBit + bitCount <= 8 * dest.Length && srcBit + bitCount <= 8 * src.Length
    modifies dest
    ensures Copied(old(dest[..]), dest[..], destBit, src[..], srcBit, bitCount)
  {
    if bitCount == 0 {
      return;
    }
    if bitCount <= 8 {
      CopyShort(dest, destBit, src, srcBit, bitCount);
      return;
    }
    CopyLong(dest, destBit, src, srcBit, bitCount);
  }
}
