/** A pool of MallocBinned: 64 KiB cut into blocks of one size, with a last-in-first-out
    free list. */
module BinnedPool {
  import opened AlignTemplate
  import opened MathUtility

  const POOL_SIZE := 65536

  const SLIST_ALIGNMENT := 16

  const POOL_COUNT := 41

  const BLOCK_SIZES: seq<nat> := [
    16, 32, 48, 64, 80, 96, 112, 128,
    160, 192, 224, 256, 288, 320, 384, 448,
    512, 576, 640, 704, 768, 896, 1024, 1168,
    1360, 1632, 2048, 2336, 2720, 3264, 4096, 4672,
    5456, 6544, 8192, 9360, 10912, 13104, 16384, 21840, 32768]

  /** Every size is a multiple of 16 that a pool holds at least twice. */
  predicate BlockSizeOk(size: nat) {
    0 < size && size % SLIST_ALIGNMENT == 0 && 2 * size <= POOL_SIZE
  }

  lemma BlockSizesOk()
    ensures |BLOCK_SIZES| == POOL_COUNT
    ensures forall i | 0 <= i < POOL_COUNT :: BlockSizeOk(BLOCK_SIZES[i])
    ensures forall i | 0 < i < POOL_COUNT :: BLOCK_SIZES[i - 1] < BLOCK_SIZES[i]
    ensures BLOCK_SIZES[POOL_COUNT - 1] == 32768
  {
  }

  lemma {:induction false} BlockSizesIncrease(i: nat, k: nat)
    requires i <= k < POOL_COUNT == |BLOCK_SIZES|
    ensures BLOCK_SIZES[i] <= BLOCK_SIZES[k]
    decreases k
  {
    BlockSizesOk();
    if i < k {
      BlockSizesIncrease(i, k - 1);
    }
  }

  /** The smallest block size that holds a request. */
  ghost predicate BestFit(size: nat, blockSize: nat) {
    blockSize in BLOCK_SIZES && size <= blockSize && forall b | b in BLOCK_SIZES && size <= b :: blockSize <= b
  }

  lemma FirstThatFits(size: nat, i: nat)
    requires i < POOL_COUNT == |BLOCK_SIZES| && size <= BLOCK_SIZES[i] && forall k | 0 <= k < i :: BLOCK_SIZES[k] < size
    ensures BestFit(size, BLOCK_SIZES[i])
  {
    forall b | b in BLOCK_SIZES && size <= b
      ensures BLOCK_SIZES[i] <= b
    {
      var k :| 0 <= k < |BLOCK_SIZES| && BLOCK_SIZES[k] == b;
      BlockSizesIncrease(i, k);
    }
  }

  // ----- the blocks of a pool -----

  predicate IsBlock(base: nat, blockSize: nat, p: nat)
    requires blockSize > 0
  {
    base <= p && p + blockSize <= base + POOL_SIZE && (p - base) % blockSize == 0
  }

  function BlockCount(blockSize: nat): nat
    requires blockSize > 0
  {
    POOL_SIZE / blockSize
  }

  function BlockAt(base: nat, blockSize: nat, i: nat): nat {
    base + i * blockSize
  }

  lemma TimesFits(i: nat, count: nat, n: nat)
    requires i < count && count * n <= POOL_SIZE
    ensures i * n + n <= POOL_SIZE
  {
    assert i * n + n == (i + 1) * n <= count * n;
  }

  lemma BlockAtIsBlock(base: nat, blockSize: nat, i: nat)
    requires 0 < blockSize && i < BlockCount(blockSize)
    ensures IsBlock(base, blockSize, BlockAt(base, blockSize, i))
  {
    TimesFits(i, BlockCount(blockSize), blockSize);
    TimesIsMultiple(i, blockSize);
    assert BlockAt(base, blockSize, i) - base == i * blockSize;
  }

  lemma BlockIsAt(base: nat, blockSize: nat, p: nat) returns (i: nat)
    requires 0 < blockSize && IsBlock(base, blockSize, p)
    ensures i < BlockCount(blockSize) && p == BlockAt(base, blockSize, i)
  {
    i := (p - base) / blockSize;
    assert p == base + i * blockSize;
  }

  lemma BlockAtIncreases(base: nat, blockSize: nat, i: nat, j: nat)
    requires i < j && 0 < blockSize
    ensures BlockAt(base, blockSize, i) + blockSize <= BlockAt(base, blockSize, j)
  {
    assert (i + 1) * blockSize <= j * blockSize;
  }

  /** Two blocks of a pool are the same or apart. */
  lemma BlocksApart(base: nat, blockSize: nat, p: nat, q: nat)
    requires 0 < blockSize && IsBlock(base, blockSize, p) && IsBlock(base, blockSize, q) && p != q
    ensures p + blockSize <= q || q + blockSize <= p
  {
    var i := BlockIsAt(base, blockSize, p);
    var j := BlockIsAt(base, blockSize, q);
    if i < j {
      BlockAtIncreases(base, blockSize, i, j);
    } else {
      BlockAtIncreases(base, blockSize, j, i);
    }
  }

  lemma BlockMultiple(base: nat, blockSize: nat, alignment: nat, p: nat)
    requires 0 < blockSize && 0 < alignment && Multiple(base, alignment) && Multiple(blockSize, alignment)
    requires IsBlock(base, blockSize, p)
    ensures Multiple(p, alignment)
  {
    hide Multiple;
    var i := BlockIsAt(base, blockSize, p);
    TimesIsMultiple(i, blockSize);
    MultipleOfMultiple(i * blockSize, alignment, blockSize);
    SumIsMultiple(base, i * blockSize, alignment);
  }

  /** Blocks sit at multiples of 16, as their pool and their size do. */
  lemma BlockAligned(base: nat, blockSize: nat, p: nat)
    requires BlockSizeOk(blockSize) && IsBlock(base, blockSize, p) && base % POOL_SIZE == 0
    ensures p % SLIST_ALIGNMENT == 0
  {
    BlockMultiple(base, blockSize, SLIST_ALIGNMENT, p);
    assert Multiple(p, SLIST_ALIGNMENT);
  }

  /** Alignments above 16 are not looked at when a block is chosen: all blocks of a pool
      have one exactly when it divides the block size and the pool's address, as it does up
      to the size of a pool for powers of two. */
  lemma AlignedIff(base: nat, blockSize: nat, alignment: nat)
    requires base % POOL_SIZE == 0 && BlockSizeOk(blockSize) && 0 < alignment
    ensures (forall p: nat | IsBlock(base, blockSize, p) :: Multiple(p, alignment))
            <==> Multiple(base, alignment) && Multiple(blockSize, alignment)
    ensures Multiple(POOL_SIZE, alignment) ==> Multiple(base, alignment)
  {
    assert Multiple(base, POOL_SIZE) && 1 < BlockCount(blockSize);
    hide IsBlock, Multiple, BlockCount;
    if Multiple(POOL_SIZE, alignment) {
      MultipleOfMultiple(base, alignment, POOL_SIZE);
    }
    BlockAtIsBlock(base, blockSize, 0);
    BlockAtIsBlock(base, blockSize, 1);
    assert BlockAt(base, blockSize, 0) == base && BlockAt(base, blockSize, 1) == base + blockSize;
    if Multiple(base, alignment) && Multiple(blockSize, alignment) {
      forall p: nat | IsBlock(base, blockSize, p)
        ensures Multiple(p, alignment)
      {
        BlockMultiple(base, blockSize, alignment, p);
      }
    } else if Multiple(base, alignment) && Multiple(base + blockSize, alignment) {
      SumIsMultiple(base + blockSize, base, alignment);
    }
  }

  /** The first block a new pool hands out for 16 bytes is not at a multiple of 32. */
  lemma FirstBlockOf16(base: nat)
    requires base % POOL_SIZE == 0
    ensures Laid(base, 16, BlockCount(16))[0] % 32 == 16
  {
    hide Laid;
    LaidIs(base, 16, BlockCount(16));
    assert BlockAt(base, 16, 4095) == base + 65520;
  }

  /** The start of the pool that an address would lie in. */
  function PoolBase(address: nat): nat {
    address - address % POOL_SIZE
  }

  /** On powers of two the mask is the remainder taken off. */
  lemma PoolBaseIsMask(address: nat)
    ensures PoolBase(address) == AlignDown(address, POOL_SIZE)
  {
    assert Pow2(16) == POOL_SIZE by {
      assert Pow2(8) == 256;
    }
    AlignDownRounds(address, POOL_SIZE);
  }

  /** Blocks of different pools are apart. */
  lemma PoolsApart(p: nat, size: nat, q: nat, otherSize: nat)
    requires 0 < size && 0 < otherSize && PoolBase(p) != PoolBase(q)
    requires IsBlock(PoolBase(p), size, p) && IsBlock(PoolBase(q), otherSize, q)
    ensures p + size <= q || q + otherSize <= p
  {
    var a, b := p / POOL_SIZE, q / POOL_SIZE;
    assert PoolBase(p) == POOL_SIZE * a && PoolBase(q) == POOL_SIZE * b;
  }

  /** Masking any address inside a pool finds the pool. */
  lemma MaskFindsPool(base: nat, p: nat)
    requires base % POOL_SIZE == 0 && base <= p < base + POOL_SIZE
    ensures PoolBase(p) == base
  {
  }

  // ----- the free list -----

  ghost predicate Distinct(s: seq<nat>) {
    forall i, j | 0 <= i < j < |s| :: s[i] != s[j]
  }

  /** The free list after i blocks of a new pool have been pushed. */
  function Laid(base: nat, blockSize: nat, i: nat): seq<nat> {
    if i == 0 then [] else [BlockAt(base, blockSize, i - 1)] + Laid(base, blockSize, i - 1)
  }

  lemma {:induction false} LaidIs(base: nat, blockSize: nat, i: nat)
    requires 0 < blockSize
    ensures |Laid(base, blockSize, i)| == i && Distinct(Laid(base, blockSize, i))
    ensures forall k | 0 <= k < i :: Laid(base, blockSize, i)[k] == BlockAt(base, blockSize, i - 1 - k)
    decreases i
  {
    hide BlockAt;
    if i > 0 {
      LaidIs(base, blockSize, i - 1);
      forall k | 0 <= k < i - 1
        ensures BlockAt(base, blockSize, k) != BlockAt(base, blockSize, i - 1)
      {
        BlockAtIncreases(base, blockSize, k, i - 1);
      }
    }
  }

  /** Every block of the pool is free or live, none is both, and the counter counts the
      free ones. */
  ghost predicate PoolOk(base: nat, blockSize: nat, free: seq<nat>, count: nat, live: set<nat>) {
    && 0 < base && base % POOL_SIZE == 0 && BlockSizeOk(blockSize)
    && Distinct(free) && count == |free| && count + |live| == BlockCount(blockSize)
    && forall p :: (p in free || p in live <==> 0 <= p && IsBlock(base, blockSize, p)) && !(p in free && p in live)
  }

  lemma NewPoolOk(base: nat, blockSize: nat)
    requires 0 < base && base % POOL_SIZE == 0 && BlockSizeOk(blockSize)
    ensures PoolOk(base, blockSize, Laid(base, blockSize, BlockCount(blockSize)), BlockCount(blockSize), {})
  {
    hide BlockAt, Laid, IsBlock, BlockCount;
    var n := BlockCount(blockSize);
    var free := Laid(base, blockSize, n);
    LaidIs(base, blockSize, n);
    forall p
      ensures p in free <==> 0 <= p && IsBlock(base, blockSize, p)
    {
      if p in free {
        var k :| 0 <= k < |free| && free[k] == p;
        BlockAtIsBlock(base, blockSize, n - 1 - k);
      }
      if 0 <= p && IsBlock(base, blockSize, p) {
        var i := BlockIsAt(base, blockSize, p);
        assert free[n - 1 - i] == p;
      }
    }
  }

  lemma PopOk(base: nat, blockSize: nat, free: seq<nat>, count: nat, live: set<nat>)
    requires PoolOk(base, blockSize, free, count, live) && free != []
    ensures free[0] !in live && IsBlock(base, blockSize, free[0])
    ensures PoolOk(base, blockSize, free[1..], count - 1, live + {free[0]})
  {
    hide IsBlock, BlockCount;
    assert free == [free[0]] + free[1..];
  }

  lemma PushOk(base: nat, blockSize: nat, free: seq<nat>, count: nat, live: set<nat>, p: nat)
    requires PoolOk(base, blockSize, free, count, live) && p in live
    ensures PoolOk(base, blockSize, [p] + free, count + 1, live - {p})
  {
    hide IsBlock, BlockCount;
  }

  class PoolInfo {
    const PoolMemory: nat
    const BlockSize: nat
    const Next: PoolInfo?
    var FreeList: seq<nat>
    var FreeBlockCount: nat
    ghost var Live: set<nat>

    ghost predicate Valid()
      reads this
    {
      PoolOk(PoolMemory, BlockSize, FreeList, FreeBlockCount, Live)
    }

    /** AllocatePool: all blocks are pushed in address order. */
    constructor (memory: nat, blockSize: nat, next: PoolInfo?)
      requires 0 < memory && memory % POOL_SIZE == 0 && BlockSizeOk(blockSize)
      ensures Valid() && PoolMemory == memory && BlockSize == blockSize && Next == next
      ensures Live == {} && FreeBlockCount == BlockCount(blockSize) > 0
    {
      PoolMemory, BlockSize, Next, FreeList, Live := memory, blockSize, next, [], {};
      FreeBlockCount := BlockCount(blockSize);
      new;
      var i := 0;
      while i < BlockCount(blockSize)
        invariant i <= BlockCount(blockSize) == FreeBlockCount && Live == {}
        invariant FreeList == Laid(memory, blockSize, i)
      {
        FreeList := [BlockAt(memory, blockSize, i)] + FreeList;
        i := i + 1;
      }
      NewPoolOk(memory, blockSize);
    }

    /** AllocateBlockFromPool: the block pushed last, or null from an exhausted pool. */
    method Pop() returns (block: nat)
      requires Valid()
      modifies this
      ensures Valid()
      ensures if old(FreeBlockCount) == 0 then block == 0 && FreeList == old(FreeList) && Live == old(Live)
              else [block] + FreeList == old(FreeList) && Live == old(Live) + {block}
                   && block !in old(Live) && IsBlock(PoolMemory, BlockSize, block)
    {
      hide PoolOk, IsBlock;
      CountIsLength(PoolMemory, BlockSize, FreeList, FreeBlockCount, Live);
      block := 0;
      if FreeList != [] {
        PopOk(PoolMemory, BlockSize, FreeList, FreeBlockCount, Live);
        block := FreeList[0];
        FreeList := FreeList[1..];
        FreeBlockCount := FreeBlockCount - 1;
        Live := Live + {block};
      }
    }

    method Push(block: nat)
      requires Valid() && block in Live
      modifies this
      ensures Valid() && FreeList == [block] + old(FreeList) && Live == old(Live) - {block}
    {
      PushOk(PoolMemory, BlockSize, FreeList, FreeBlockCount, Live, block);
      FreeList := [block] + FreeList;
      FreeBlockCount := FreeBlockCount + 1;
      Live := Live - {block};
    }
  }

  lemma CountIsLength(base: nat, blockSize: nat, free: seq<nat>, count: nat, live: set<nat>)
    requires PoolOk(base, blockSize, free, count, live)
    ensures count == |free| && BlockSizeOk(blockSize)
  {
  }
}
