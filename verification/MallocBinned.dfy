/** MallocBinned: small requests are served from pools of equal blocks, large ones go to the
    system; Free recovers the pool of a block from its address alone. */
module MallocBinned {
  import opened BinnedPool
  import opened MathUtility
  import opened Regions

  /** A stretch the system may hand out next to what it has handed out before. */
  ghost predicate Obtainable(p: nat, size: nat, alignment: nat, pools: set<nat>, large: map<nat, nat>) {
    && 0 < p && 0 < alignment && p % alignment == 0
    && (forall base | base in pools :: Apart(p, size, base, POOL_SIZE))
    && (forall q | q in large :: Apart(p, size, q, large[q]))
  }

  /** The regions held from the system are apart from each other. */
  ghost predicate RegionsApart(pools: set<nat>, large: map<nat, nat>) {
    && (forall p | p in large :: 0 < p && 0 < large[p] && forall base | base in pools ::
        Apart(p, large[p], base, POOL_SIZE))
    && (forall p, q | p in large && q in large && p != q :: Apart(p, large[p], q, large[q]))
  }

  lemma PoolObtained(pools: set<nat>, large: map<nat, nat>, memory: nat)
    requires RegionsApart(pools, large) && Obtainable(memory, POOL_SIZE, POOL_SIZE, pools, large)
    ensures RegionsApart(pools + {memory}, large) && memory !in pools && 0 < memory && memory % POOL_SIZE == 0
  {
  }

  lemma BlockSizeIs(i: nat)
    requires i < POOL_COUNT
    ensures |BLOCK_SIZES| == POOL_COUNT && BlockSizeOk(BLOCK_SIZES[i])
  {
    BlockSizesOk();
  }

  class MallocBinned {
    var FirstPool: seq<PoolInfo?>
    var PoolAddressMap: map<nat, PoolInfo>
    /** What is allocated, with the size asked for: pool blocks, and regions of the system. */
    ghost var Small: map<nat, nat>
    ghost var Large: map<nat, nat>

    /** The address map registers every pool under its own base. */
    ghost predicate PoolsOk()
      reads this`PoolAddressMap, PoolAddressMap.Values
    {
      forall base | base in PoolAddressMap :: PoolAddressMap[base].PoolMemory == base && PoolAddressMap[base].Valid()
    }

    /** The first pool of a size class is registered and has the class's block size. */
    ghost predicate TableOk()
      reads this`FirstPool, this`PoolAddressMap
    {
      && |FirstPool| == POOL_COUNT
      && forall i | 0 <= i < POOL_COUNT && FirstPool[i] != null ::
           var pool := FirstPool[i];
           pool.PoolMemory in PoolAddressMap && PoolAddressMap[pool.PoolMemory] == pool
               && pool.BlockSize == BLOCK_SIZES[i]
    }

    ghost predicate IsLive(p: nat)
      reads this`PoolAddressMap, PoolAddressMap.Values
    {
      PoolBase(p) in PoolAddressMap && p in PoolAddressMap[PoolBase(p)].Live
    }

    /** The live blocks of the pools are the small allocations, each at most a block long. */
    ghost predicate SmallOk()
      reads this`PoolAddressMap, this`Small, PoolAddressMap.Values
    {
      && (forall p: nat :: p in Small <==> IsLive(p))
      && forall p | p in Small :: 0 < Small[p] <= PoolAddressMap[PoolBase(p)].BlockSize
    }

    ghost predicate Valid()
      reads this, PoolAddressMap.Values
    {
      PoolsOk() && TableOk() && SmallOk() && RegionsApart(PoolAddressMap.Keys, Large)
    }

    constructor ()
      ensures Valid() && PoolAddressMap == map[] && Small == map[] && Large == map[]
    {
      FirstPool, PoolAddressMap := seq(POOL_COUNT, _ => null), map[];
      Small, Large := map[], map[];
    }

    /** The smallest class that holds the size, or none. */
    method FindTable(size: nat) returns (i: nat)
      ensures i <= POOL_COUNT && (i == POOL_COUNT <==> size > 32768)
      ensures i < POOL_COUNT ==> size <= BLOCK_SIZES[i] && forall k | 0 <= k < i :: BLOCK_SIZES[k] < size
    {
      BlockSizesOk();
      i := 0;
      while i < POOL_COUNT
        invariant i <= POOL_COUNT && forall k | 0 <= k < i :: BLOCK_SIZES[k] < size
      {
        if size <= BLOCK_SIZES[i] {
          return;
        }
        i := i + 1;
      }
    }

    /** A new pool without live blocks leaves what is allocated as it was. */
    twostate lemma GrowKeepsSmall(memory: nat, new pool: PoolInfo)
      requires old(SmallOk()) && Small == old(Small) && memory !in old(PoolAddressMap) && pool.Live == {}
      requires PoolAddressMap == old(PoolAddressMap)[memory := pool]
      requires forall base | base in old(PoolAddressMap) :: unchanged(old(PoolAddressMap)[base])
      ensures SmallOk()
    {
      hide PoolBase;
      forall p: nat
        ensures IsLive(p) <==> old(IsLive(p))
      {
      }
    }

    /** Registers a new pool at the head of its size class. */
    method AllocatePool(i: nat, memory: nat) returns (pool: PoolInfo)
      requires Valid() && i < POOL_COUNT == |FirstPool|
      requires Obtainable(memory, POOL_SIZE, POOL_SIZE, PoolAddressMap.Keys, Large)
      modifies this`FirstPool, this`PoolAddressMap
      ensures Valid() && fresh(pool) && pool.PoolMemory == memory && memory !in old(PoolAddressMap)
      ensures PoolAddressMap == old(PoolAddressMap)[memory := pool]
      ensures FirstPool == old(FirstPool)[i := pool] && pool.Next == old(FirstPool)[i]
      ensures pool.FreeBlockCount > 0
    {
      hide PoolOk, Laid, IsBlock, PoolBase, RegionsApart, Obtainable, BlockSizeOk, SmallOk;
      PoolObtained(PoolAddressMap.Keys, Large, memory);
      BlockSizeIs(i);
      pool := new PoolInfo(memory, BLOCK_SIZES[i], FirstPool[i]);
      PoolAddressMap := PoolAddressMap[memory := pool];
      assert PoolAddressMap.Keys == old(PoolAddressMap.Keys) + {memory};
      FirstPool := FirstPool[i := pool];
      GrowKeepsSmall(memory, pool);
    }

    /** AllocateBlockFromPool, and the request is on the books. */
    method TakeBlock(pool: PoolInfo, size: nat) returns (p: nat)
      requires Valid() && pool in PoolAddressMap.Values && pool.FreeBlockCount > 0 && 0 < size <= pool.BlockSize
      modifies this`Small, pool
      ensures Valid() && p !in old(Small) && Small == old(Small)[p := size]
      ensures PoolBase(p) == pool.PoolMemory && IsBlock(pool.PoolMemory, pool.BlockSize, p) && p % SLIST_ALIGNMENT == 0
      ensures [p] + pool.FreeList == old(pool.FreeList)
    {
      hide PoolOk, PoolBase, RegionsApart, IsBlock;
      CountIsLength(pool.PoolMemory, pool.BlockSize, pool.FreeList, pool.FreeBlockCount, pool.Live);
      p := pool.Pop();
      InsideItsPool(pool.PoolMemory, pool.BlockSize, pool.FreeList, pool.FreeBlockCount, pool.Live, p);
      Small := Small[p := size];
    }

    /** A block for a size of a class, from the class's first pool or, when that has none
        left, from a new one. */
    method MallocSmall(i: nat, size: nat, system: nat) returns (p: nat)
      requires Valid() && i < POOL_COUNT == |FirstPool| && 0 < size <= BLOCK_SIZES[i]
      requires Obtainable(system, POOL_SIZE, POOL_SIZE, PoolAddressMap.Keys, Large)
      modifies this`FirstPool, this`PoolAddressMap, this`Small, PoolAddressMap.Values
      ensures Valid() && p !in old(Small) && Small == old(Small)[p := size] && p % SLIST_ALIGNMENT == 0
      ensures PoolBase(p) in PoolAddressMap && PoolAddressMap[PoolBase(p)].BlockSize == BLOCK_SIZES[i]
      ensures var first := old(FirstPool)[i];
              if first != null && old(first.FreeBlockCount) > 0
              then PoolAddressMap == old(PoolAddressMap) && FirstPool == old(FirstPool)
                   && [p] + first.FreeList == old(first.FreeList)
              else system !in old(PoolAddressMap) && PoolAddressMap.Keys == old(PoolAddressMap.Keys) + {system}
                   && PoolBase(p) == system
    {
      hide PoolOk, PoolBase, RegionsApart, IsBlock, PoolsOk, SmallOk;
      if FirstPool[i] != null && FirstPool[i].FreeBlockCount > 0 {
        var first: PoolInfo := FirstPool[i];
        p := TakeBlock(first, size);
      } else {
        var pool := AllocatePool(i, system);
        p := TakeBlock(pool, size);
      }
    }

    /** What is allocated, with its size. */
    ghost function Allocated(): map<nat, nat>
      reads this
    {
      Small + Large
    }

    /** The block or region added is apart from everything allocated, and 16-aligned.
        system is what the system would answer: a region for a new pool, or for a large
        request a region of its own or null. */
    method Malloc(size: nat, alignment: nat, system: nat) returns (p: nat)
      requires Valid()
      requires size <= 32768 ==> Obtainable(system, POOL_SIZE, POOL_SIZE, PoolAddressMap.Keys, Large)
      requires size > 32768 ==>
               system == 0 || Obtainable(system, size, Max(alignment, SLIST_ALIGNMENT), PoolAddressMap.Keys, Large)
      modifies this`FirstPool, this`PoolAddressMap, this`Small, this`Large, PoolAddressMap.Values
      ensures Valid()
      ensures p == 0 <==> size > 32768 && system == 0
      ensures p == 0 ==> Small == old(Small) && Large == old(Large)
      ensures p != 0 ==> p !in old(Small) && p !in old(Large)
      ensures p != 0 && size <= 32768 ==>
              Small == old(Small)[p := Max(size, 1)] && Large == old(Large) && p % SLIST_ALIGNMENT == 0
      ensures p != 0 && size <= 32768 ==>
                PoolBase(p) in PoolAddressMap && BestFit(Max(size, 1), PoolAddressMap[PoolBase(p)].BlockSize)
      ensures old(PoolAddressMap.Keys) <= PoolAddressMap.Keys <= old(PoolAddressMap.Keys) + {system}
      ensures p != 0 && size > 32768 ==>
              Small == old(Small) && Large == old(Large)[p := size] && p % Max(alignment, SLIST_ALIGNMENT) == 0
    {
      hide PoolOk, PoolBase, RegionsApart, Obtainable, SmallOk, PoolsOk, BestFit;
      var align := Max(alignment, SLIST_ALIGNMENT);
      var size := Max(size, 1);
      var i := FindTable(size);
      if i == POOL_COUNT {
        if system != 0 {
          LargeObtained(PoolAddressMap.Keys, Large, system, size, align);
          Large := Large[system := size];
          SmallIsNotLarge(system);
        }
        return system;
      }
      FirstThatFits(size, i);
      p := MallocSmall(i, size, system);
      SmallIsNotLarge(p);
      NullIsFree();
    }

    method GiveBack(pool: PoolInfo, p: nat)
      requires Valid() && PoolBase(p) in PoolAddressMap && pool == PoolAddressMap[PoolBase(p)] && p in Small
      modifies this`Small, pool
      ensures Valid() && Small == old(Small) - {p} && pool.FreeList == [p] + old(pool.FreeList)
    {
      hide PoolOk, PoolBase, RegionsApart;
      pool.Push(p);
      Small := Small - {p};
    }

    /** A live block goes to the front of the free list of its own pool, a large region back
        to the system; null is ignored. */
    method Free(p: nat)
      requires Valid() && (p == 0 || p in Small || p in Large)
      modifies this`Small, this`Large, PoolAddressMap.Values
      ensures Valid()
      ensures Small == old(Small) - {p} && Large == old(Large) - {p}
      ensures p in old(Small) ==>
                && PoolBase(p) in PoolAddressMap
                && PoolAddressMap[PoolBase(p)].FreeList == [p] + old(PoolAddressMap[PoolBase(p)].FreeList)
      ensures forall base | base in PoolAddressMap && (p !in old(Small) || base != PoolBase(p)) ::
              unchanged(PoolAddressMap[base])
    {
      hide PoolOk, PoolBase, RegionsApart, PoolsOk, SmallOk;
      NullIsFree();
      if p == 0 {
        assert Small - {p} == Small && Large - {p} == Large;
        return;
      }
      var poolBase := PoolBase(p);
      SmallIsNotLarge(p);
      if p in Small {
        MaskFindsOwner(p);
      } else {
        LargeHasNoPool(p);
      }
      if poolBase !in PoolAddressMap {
        LargeReleased(PoolAddressMap.Keys, Large, p);
        assert Small - {p} == Small;
        Large := Large - {p};
        return;
      }
      OnePoolPerBase();
      GiveBack(PoolAddressMap[poolBase], p);
      assert Large - {p} == Large;
    }

    // ----- what every state promises -----

    lemma OnePoolPerBase()
      requires Valid()
      ensures forall base, other | base in PoolAddressMap && other in PoolAddressMap && base != other ::
                PoolAddressMap[base] != PoolAddressMap[other]
    {
      assert forall base | base in PoolAddressMap :: PoolAddressMap[base].PoolMemory == base;
    }

    lemma NullIsFree()
      requires Valid()
      ensures 0 !in Small && 0 !in Large
    {
      assert 0 in PoolAddressMap ==> PoolAddressMap[0].Valid();
      assert !IsLive(0);
    }

    /** A small allocation lies in the pool that masking its address finds. */
    lemma MaskFindsOwner(p: nat)
      requires Valid() && p in Small
      ensures PoolBase(p) in PoolAddressMap
      ensures var pool := PoolAddressMap[PoolBase(p)];
              && pool.PoolMemory == PoolBase(p) && 0 < pool.BlockSize
              && IsBlock(PoolBase(p), pool.BlockSize, p) && p in pool.Live && p !in pool.FreeList
              && 0 < Small[p] <= pool.BlockSize && p % SLIST_ALIGNMENT == 0
    {
      var pool := PoolAddressMap[PoolBase(p)];
      assert pool.Valid();
      InsideItsPool(pool.PoolMemory, pool.BlockSize, pool.FreeList, pool.FreeBlockCount, pool.Live, p);
    }

    /** No address inside a large region masks to a pool. */
    lemma LargeHasNoPool(p: nat)
      requires Valid() && p in Large
      ensures PoolBase(p) !in PoolAddressMap
    {
      assert !Apart(p, Large[p], PoolBase(p), POOL_SIZE);
    }

    lemma SmallIsNotLarge(p: nat)
      requires Valid()
      ensures !(p in Small && p in Large)
    {
      if p in Large {
        LargeHasNoPool(p);
      }
    }

    /** Any two allocations are apart. */
    lemma AllocatedApart(p: nat, q: nat)
      requires Valid() && p in Allocated() && q in Allocated() && p != q
      ensures Apart(p, Allocated()[p], q, Allocated()[q])
    {
      hide PoolOk, PoolsOk, SmallOk;
      if p in Small && q in Small {
        SmallApart(p, q);
        SmallIsNotLarge(p);
        SmallIsNotLarge(q);
      } else if p in Small {
        SmallLargeApart(p, q);
      } else if q in Small {
        SmallLargeApart(q, p);
      }
    }

    lemma SmallApart(p: nat, q: nat)
      requires Valid() && p in Small && q in Small && p != q
      ensures Apart(p, Small[p], q, Small[q])
    {
      hide PoolOk, PoolsOk, SmallOk, IsBlock, PoolBase, RegionsApart, TableOk;
      MaskFindsOwner(p);
      MaskFindsOwner(q);
      if PoolBase(p) == PoolBase(q) {
        BlocksApart(PoolBase(p), PoolAddressMap[PoolBase(p)].BlockSize, p, q);
      } else {
        PoolsApart(p, PoolAddressMap[PoolBase(p)].BlockSize, q, PoolAddressMap[PoolBase(q)].BlockSize);
      }
    }

    lemma SmallLargeApart(p: nat, q: nat)
      requires Valid() && p in Small && q in Large
      ensures p !in Large && q !in Small && Apart(p, Small[p], q, Large[q])
    {
      hide PoolOk, PoolsOk, SmallOk;
      MaskFindsOwner(p);
      SmallIsNotLarge(p);
      SmallIsNotLarge(q);
      assert Apart(q, Large[q], PoolBase(p), POOL_SIZE);
    }

    /** Of every pool, the free and the live blocks are all the blocks there are. */
    lemma FreePlusLive(base: nat)
      requires Valid() && base in PoolAddressMap
      ensures var pool := PoolAddressMap[base];
              && 0 < pool.BlockSize && pool.FreeBlockCount == |pool.FreeList|
              && pool.FreeBlockCount + |pool.Live| == POOL_SIZE / pool.BlockSize
              && (forall p: nat :: p in pool.Live <==> p in Small && PoolBase(p) == base)
    {
      var pool := PoolAddressMap[base];
      assert pool.Valid();
      forall p: nat
        ensures p in pool.Live <==> p in Small && PoolBase(p) == base
      {
        if p in pool.Live {
          InsideItsPool(base, pool.BlockSize, pool.FreeList, pool.FreeBlockCount, pool.Live, p);
          assert IsLive(p);
        }
      }
    }
  }

  lemma LargeObtained(pools: set<nat>, large: map<nat, nat>, p: nat, size: nat, alignment: nat)
    requires RegionsApart(pools, large) && 0 < size && Obtainable(p, size, alignment, pools, large)
    ensures RegionsApart(pools, large[p := size]) && p !in large && p % alignment == 0
  {
  }

  lemma LargeReleased(pools: set<nat>, large: map<nat, nat>, p: nat)
    requires RegionsApart(pools, large)
    ensures RegionsApart(pools, large - {p})
  {
  }

  lemma InsideItsPool(base: nat, blockSize: nat, free: seq<nat>, count: nat, live: set<nat>, p: nat)
    requires PoolOk(base, blockSize, free, count, live) && p in live
    ensures PoolBase(p) == base && p + blockSize <= base + POOL_SIZE && p % SLIST_ALIGNMENT == 0
  {
    BlockAligned(base, blockSize, p);
    MaskFindsPool(base, p);
  }
}
