/** StompAllocator in overrun mode: every allocation gets pages of its own and ends at a page
    that is never committed. */
module StompAllocator {
  import opened AlignTemplate
  import opened MathUtility
  import opened Regions

  /** The size of the header in front of the data. */
  const ALLOCATION_DATA_SIZE := 32

  /** 1 GB blocks of reserved addresses */
  const BLOCK := 1024 * 1024 * 1024

  datatype Layout = Layout(alignedSize: nat, alignmentSize: nat, fullPageSize: nat, total: nat)

  ghost predicate IsPageSize(page: nat) {
    ALLOCATION_DATA_SIZE <= page <= BLOCK / 2 && PowerOfTwo(page)
  }

  /** An alignment the code rounds to; 0 is treated apart. */
  ghost predicate IsAlignment(alignment: nat) {
    0 < alignment < 0x1_0000_0000 && PowerOfTwo(alignment)
  }

  function AtLeastOne(size: nat): nat {
    if size == 0 then 1 else size
  }

  function LayoutOf(size: nat, alignment: nat, page: nat): Layout
    requires page > 0
  {
    var alignedSize := if alignment == 0 then AtLeastOne(size) else Align(AtLeastOne(size), alignment);
    var alignmentSize := if alignment > page then alignment - page else 0;
    var fullPageSize := Align(alignedSize + alignmentSize + ALLOCATION_DATA_SIZE, page);
    Layout(alignedSize, alignmentSize, fullPageSize, fullPageSize + page)
  }

  lemma LayoutIs(size: nat, alignment: nat, page: nat)
    requires IsPageSize(page) && (alignment == 0 || IsAlignment(alignment))
    ensures var l := LayoutOf(size, alignment, page);
            var needed := l.alignedSize + l.alignmentSize + ALLOCATION_DATA_SIZE;
            && needed <= l.fullPageSize < needed + page && Multiple(l.fullPageSize, page)
            && AtLeastOne(size) <= l.alignedSize < AtLeastOne(size) + (if alignment == 0 then 1 else alignment)
            && (alignment > 0 ==> Multiple(l.alignedSize, alignment))
            && l.alignmentSize == (if alignment > page then alignment - page else 0)
            && l.total == l.fullPageSize + page && Multiple(l.total, page)
  {
    hide Align, Multiple, PowerOfTwo;
    var l := LayoutOf(size, alignment, page);
    AlignIs(l.alignedSize + l.alignmentSize + ALLOCATION_DATA_SIZE, page);
    TimesIsMultiple(1, page);
    SumIsMultiple(l.fullPageSize, page, page);
    if alignment > 0 {
      AlignIs(AtLeastOne(size), alignment);
    }
  }

  /** The pointer returned for a region that starts at base. */
  function Placed(base: nat, l: Layout, alignment: nat): nat
    requires l.alignedSize <= l.fullPageSize
  {
    AlignDown(base + l.fullPageSize - l.alignedSize, alignment)
  }

  /** The pointer is aligned; the header before it lies inside the region; the data ends at
      the guard page when that is possible at all, so always for alignments up to a page;
      and less than one alignment of bytes past the request stays unguarded there. */
  lemma Placement(base: nat, size: nat, alignment: nat, page: nat)
    requires IsAlignment(alignment) && IsPageSize(page) && Multiple(base, page)
    ensures var l := LayoutOf(size, alignment, page);
            && l.alignedSize <= l.fullPageSize
            && var p := Placed(base, l, alignment);
            && Multiple(p, alignment) && base <= p - ALLOCATION_DATA_SIZE
            && p <= base + l.fullPageSize - l.alignedSize
            && (p + l.alignedSize == base + l.fullPageSize <==> Multiple(base + l.fullPageSize, alignment))
            && (alignment <= page ==>
                  && p + l.alignedSize == base + l.fullPageSize
                  && base + l.fullPageSize - (p + AtLeastOne(size)) < alignment)
  {
    hide LayoutOf, Multiple, AlignDown, PowerOfTwo;
    LayoutIs(size, alignment, page);
    var l := LayoutOf(size, alignment, page);
    var end := base + l.fullPageSize;
    AlignDownIs(end - l.alignedSize, alignment);
    AlignDownExact(end - l.alignedSize, alignment);
    SumIsMultiple(base, l.fullPageSize, page);
    DifferenceIsMultiple(end, l.alignedSize, alignment);
    if alignment <= page {
      PowersDivide(alignment, page);
      MultipleOfMultiple(end, alignment, page);
    } else {
      HeaderFits(base, l, alignment, page);
    }
  }

  lemma DifferenceIsMultiple(m: nat, n: nat, of: nat)
    requires of > 0 && Multiple(n, of)
    ensures Multiple(m - n, of) <==> Multiple(m, of)
  {
    if Multiple(m - n, of) {
      SumIsMultiple(m - n, n, of);
    }
    if Multiple(m, of) {
      SumIsMultiple(m, n, of);
    }
  }

  /** Alignments above a page: rounding down stops at a page boundary, so it costs at most
      the gap set aside for it. */
  lemma HeaderFits(base: nat, l: Layout, alignment: nat, page: nat)
    requires IsAlignment(alignment) && IsPageSize(page) && page < alignment && Multiple(base + l.fullPageSize, page)
    requires Multiple(l.alignedSize, alignment) && l.alignmentSize == alignment - page
    requires l.alignedSize + l.alignmentSize + ALLOCATION_DATA_SIZE <= l.fullPageSize
    ensures base + ALLOCATION_DATA_SIZE <= Placed(base, l, alignment)
  {
    hide Multiple, AlignDown, PowerOfTwo;
    var from := base + l.fullPageSize - l.alignedSize;
    var p := Placed(base, l, alignment);
    AlignDownIs(from, alignment);
    PowersDivide(page, alignment);
    MultipleOfMultiple(l.alignedSize, page, alignment);
    SumIsMultiple(base + l.fullPageSize, l.alignedSize, page);
    MultipleOfMultiple(p, page, alignment);
    SumIsMultiple(p, alignment, page);
    MultiplesStep(from, p + alignment, page);
  }

  /** Alignment 0, which the size computation allows for, makes the pointer null; no power
      of two does. */
  lemma PlacedNullIff(base: nat, size: nat, alignment: nat, page: nat)
    requires alignment == 0 || IsAlignment(alignment)
    requires IsPageSize(page) && Multiple(base, page)
    requires base + LayoutOf(size, alignment, page).total <= WORD64
    ensures LayoutOf(size, alignment, page).alignedSize <= LayoutOf(size, alignment, page).fullPageSize
    ensures Placed(base, LayoutOf(size, alignment, page), alignment) == 0 <==> alignment == 0
  {
    hide LayoutOf, Multiple, PowerOfTwo, AlignDown;
    LayoutIs(size, alignment, page);
    if alignment > 0 {
      Placement(base, size, alignment, page);
    } else {
      var l := LayoutOf(size, alignment, page);
      AlignDownZero(base + l.fullPageSize - l.alignedSize);
    }
  }

  // ----- alignments that are no powers of two -----

  lemma {:induction false} MaskLow(high: nat, low: nat, mask: nat, k: nat)
    requires low < Pow2(k) && mask < Pow2(k)
    ensures AndNot(high * Pow2(k) + low, mask) == high * Pow2(k) + AndNot(low, mask)
    decreases k
  {
    if k == 0 {
      MaskNothing(high);
    } else {
      var p := high * Pow2(k - 1);
      assert high * Pow2(k) == 2 * p;
      assert (2 * p + low) / 2 == p + low / 2 && (2 * p + low) % 2 == low % 2;
      MaskLow(high, low / 2, mask / 2, k - 1);
    }
  }

  /** Where the pointer stands in its last page, seen from the region's end. */
  function InPage(l: Layout, page: nat): nat
    requires page > 0
  {
    (l.fullPageSize - l.alignedSize) % page
  }

  /** Of alignments up to a page the mask only touches what lies inside a page: wherever the
      region starts, the header is inside it exactly when the bits that the mask clears of
      that leave it its room. */
  lemma HeaderInsideIff(base: nat, size: nat, alignment: nat, page: nat)
    requires 0 < alignment <= page && IsPageSize(page) && Multiple(base, page)
    requires var l := LayoutOf(size, alignment, page); l.alignedSize <= l.fullPageSize
    ensures var l := LayoutOf(size, alignment, page);
            base + ALLOCATION_DATA_SIZE <= Placed(base, l, alignment)
            <==> ALLOCATION_DATA_SIZE + InPage(l, page) - AndNot(InPage(l, page), alignment - 1)
                 <= l.fullPageSize - l.alignedSize
  {
    hide AndNot, LayoutOf, Multiple, PowerOfTwo;
    var l := LayoutOf(size, alignment, page);
    var k := PowerIs(page);
    var room := l.fullPageSize - l.alignedSize;
    var high := MultipleOver(base, room, page);
    assert base + room == high * page + room % page;
    MaskLow(high, room % page, alignment - 1, k);
  }

  lemma PowerIs(n: nat) returns (k: nat)
    requires PowerOfTwo(n)
    ensures n == Pow2(k)
  {
    k :| n == Pow2(k);
  }

  lemma MultipleOver(base: nat, room: nat, page: nat) returns (high: nat)
    requires page > 0 && Multiple(base, page)
    ensures base + room == high * page + room % page
  {
    var i := MultipleIs(base, page);
    var j := room / page;
    assert room == j * page + room % page;
    assert base == i * page && (i + j) * page == i * page + j * page;
    assert i >= 0 by {
      assert i < 0 ==> i * page < 0;
    }
    high := i + j;
  }

  lemma MaskNext(value: nat, mask: nat)
    requires value > 0
    ensures AndNot(value, mask)
         == 2 * AndNot(value / 2, mask / 2) + (if value % 2 == 1 && mask % 2 == 0 then 1 else 0)
  {
  }

  lemma Masked514()
    ensures AndNot(3576, 513) == 3576 && AndNot(520, 513) == 8
  {
    hide AndNot;
    MaskNothing(3);
    MaskNext(6, 1);
    MaskNext(13, 2);
    MaskNext(27, 4);
    MaskNext(55, 8);
    MaskNext(111, 16);
    MaskNext(223, 32);
    MaskNext(447, 64);
    MaskNext(894, 128);
    MaskNext(1788, 256);
    MaskNext(3576, 513);
    MaskItself(32);
    MaskNext(65, 64);
    MaskNext(130, 128);
    MaskNext(260, 256);
    MaskNext(520, 513);
  }

  lemma LayoutOf514()
    ensures LayoutOf(3063, 514, 4096) == Layout(3576, 0, 4096, 8192) && AndNot(520, 513) == 8
  {
    hide AndNot;
    Masked514();
    assert Pow2(12) == 4096;
    MaskIsRounding(7703, 12);
  }

  /** 3063 bytes aligned to 514 in pages of 4096: the pointer stands 8 bytes into its region,
      and the header in front of it in the page before. */
  lemma HeaderOutside(base: nat)
    requires Multiple(base, 4096)
    ensures LayoutOf(3063, 514, 4096) == Layout(3576, 0, 4096, 8192)
    ensures Placed(base, LayoutOf(3063, 514, 4096), 514) == base + 8
  {
    hide AndNot, LayoutOf;
    LayoutOf514();
    assert Pow2(12) == 4096;
    hide Pow2;
    var high := MultipleIs(base, 4096);
    MaskLow(high, 520, 513, 12);
  }

  // ----- the addresses committed -----

  /** The AllocationData in front of a pointer. */
  datatype Header = Header(full: nat, fullSize: nat, size: nat)

  /** What one successful call took of a reserved block. */
  datatype Region = Region(block: nat, start: nat, total: nat, pointer: nat, size: nat)

  /** The pages of a region that lie in its block: all of them, the guard page included,
      unless the request is larger than the block. */
  function Owned(r: Region): nat {
    Min(r.total, BLOCK)
  }

  /** The pages to be committed lie in one block that is reserved: all the system grants. */
  ghost predicate InOneBlock(reserved: set<nat>, from: nat, to: nat) {
    exists b :: b in reserved && b <= from && to <= b + BLOCK
  }

  /** The first page to be committed, the header's; the header of a pointer near null lies at
      the end of the address space. */
  function CommitFrom(p: nat, page: nat): nat {
    AlignDown(if p >= ALLOCATION_DATA_SIZE then p - ALLOCATION_DATA_SIZE else WORD64 + p - ALLOCATION_DATA_SIZE, page)
  }

  /** The end of what is to be committed, counted on past the end of the address space. */
  function CommitTo(p: nat, alignedSize: nat): nat {
    p + alignedSize + (if p >= ALLOCATION_DATA_SIZE then 0 else WORD64)
  }

  lemma CommitFromIs(start: nat, p: nat, page: nat)
    requires IsPageSize(page) && Multiple(start, page) && start + ALLOCATION_DATA_SIZE <= p
    ensures start <= CommitFrom(p, page) <= p - ALLOCATION_DATA_SIZE
  {
    hide AlignDown, PowerOfTwo, Multiple;
    AlignDownIs(p - ALLOCATION_DATA_SIZE, page);
  }

  /** The pages to be committed start with the header's, which lies in the region, and end
      with the data, before the guard page. */
  lemma CommittedBeforeGuard(base: nat, size: nat, alignment: nat, page: nat)
    requires IsAlignment(alignment) && IsPageSize(page) && Multiple(base, page)
    ensures var l := LayoutOf(size, alignment, page);
            && l.alignedSize <= l.fullPageSize
            && var p := Placed(base, l, alignment);
            && base <= CommitFrom(p, page) <= p - ALLOCATION_DATA_SIZE < CommitFrom(p, page) + page
            && Multiple(CommitFrom(p, page), page)
            && CommitTo(p, l.alignedSize) == p + l.alignedSize <= base + l.fullPageSize == base + l.total - page
  {
    hide LayoutOf, Multiple, PowerOfTwo, Placed, AlignDown;
    LayoutIs(size, alignment, page);
    Placement(base, size, alignment, page);
    var p := Placed(base, LayoutOf(size, alignment, page), alignment);
    CommitFromIs(base, p, page);
    AlignDownIs(p - ALLOCATION_DATA_SIZE, page);
  }

  /** A request that the system grants lies in the block it starts in, however large. */
  lemma GrantedInItsBlock(start: nat, size: nat, alignment: nat, page: nat, reserved: set<nat>, block: nat)
    requires IsAlignment(alignment) && IsPageSize(page) && Multiple(start, page) && BlocksOk(reserved)
    requires var l := LayoutOf(size, alignment, page);
             && l.alignedSize <= l.fullPageSize
             && var p := Placed(start, l, alignment);
             InOneBlock(reserved, CommitFrom(p, page), CommitTo(p, l.alignedSize))
    requires var l := LayoutOf(size, alignment, page);
             start + l.total <= block + BLOCK || start == block
    requires block <= start
             && (block in reserved || (block == 0 && start + LayoutOf(size, alignment, page).total <= BLOCK))
    ensures block in reserved
    ensures var l := LayoutOf(size, alignment, page); Placed(start, l, alignment) + l.alignedSize <= block + BLOCK
  {
    hide LayoutOf, Multiple, Placed, CommitFrom, PowerOfTwo;
    LayoutIs(size, alignment, page);
    Placement(start, size, alignment, page);
    var l := LayoutOf(size, alignment, page);
    var p := Placed(start, l, alignment);
    CommitFromIs(start, p, page);
    var b :| b in reserved && b <= CommitFrom(p, page) && p + l.alignedSize <= b + BLOCK;
    TimesIsMultiple(0, alignment);
    MultiplesStep(0, l.alignedSize, alignment);
    assert alignment < BLOCK;
    assert p - ALLOCATION_DATA_SIZE < block + BLOCK;
    assert b != block && block in reserved ==> Apart(b, BLOCK, block, BLOCK);
  }

  /** Nothing is granted for a null pointer. */
  lemma NullNotGranted(alignedSize: nat, page: nat, reserved: set<nat>)
    requires BlocksOk(reserved) && alignedSize > 0
    ensures !InOneBlock(reserved, CommitFrom(0, page), CommitTo(0, alignedSize))
  {
  }

  // ----- what all calls keep -----

  /** Reserved blocks are apart from each other, and none lies in the first gigabyte. */
  ghost predicate BlocksOk(reserved: set<nat>) {
    && (forall b | b in reserved :: BLOCK <= b <= WORD64 - BLOCK)
    && (forall b, c | b in reserved && c in reserved && b != c :: Apart(b, BLOCK, c, BLOCK))
  }

  ghost predicate RegionOk(r: Region, reserved: set<nat>, cursor: nat, max: nat) {
    && r.block in reserved && r.block <= r.start && r.start + Owned(r) <= r.block + BLOCK
    && (r.block + BLOCK == max ==> r.start + Owned(r) <= cursor)
    && r.start <= r.pointer - ALLOCATION_DATA_SIZE && r.pointer + r.size <= r.start + Owned(r) && 0 < r.size
  }

  ghost predicate RegionsOk(regions: seq<Region>, reserved: set<nat>, cursor: nat, max: nat) {
    forall i | 0 <= i < |regions| :: RegionOk(regions[i], reserved, cursor, max)
  }

  ghost predicate RegionsApart(regions: seq<Region>) {
    forall i, j | 0 <= i < j < |regions| ::
      Apart(regions[i].start, Owned(regions[i]), regions[j].start, Owned(regions[j]))
  }

  /** Nothing is reserved yet, or the cursor has left the start of the current block, or,
      after a refused reservation, address 0. */
  ghost predicate CursorOk(reserved: set<nat>, cursor: nat, max: nat) {
    if max == 0 then cursor == 0 && reserved == {}
    else max >= BLOCK && max - BLOCK < cursor && (max - BLOCK in reserved || max == BLOCK)
  }

  /** The next region of the current block is apart from all earlier ones. */
  lemma NextRegion(regions: seq<Region>, reserved: set<nat>, cursor: nat, max: nat, r: Region)
    requires BlocksOk(reserved) && RegionsOk(regions, reserved, cursor, max) && RegionsApart(regions)
    requires r.block in reserved && r.block + BLOCK == max && r.block <= r.start == cursor
    requires r.start + Owned(r) <= max && 0 < r.size
    requires r.start <= r.pointer - ALLOCATION_DATA_SIZE && r.pointer + r.size <= r.start + Owned(r)
    ensures RegionsOk(regions + [r], reserved, cursor + r.total, max) && RegionsApart(regions + [r])
  {
    forall i | 0 <= i < |regions|
      ensures Apart(regions[i].start, Owned(regions[i]), r.start, Owned(r))
      ensures RegionOk(regions[i], reserved, cursor + r.total, max)
    {
      assert RegionOk(regions[i], reserved, cursor, max);
      assert regions[i].block != r.block ==> Apart(regions[i].block, BLOCK, r.block, BLOCK);
    }
  }

  lemma CursorMoves(regions: seq<Region>, reserved: set<nat>, cursor: nat, further: nat, max: nat)
    requires RegionsOk(regions, reserved, cursor, max) && cursor <= further
    ensures RegionsOk(regions, reserved, further, max)
  {
    forall i | 0 <= i < |regions|
      ensures RegionOk(regions[i], reserved, further, max)
    {
      assert RegionOk(regions[i], reserved, cursor, max);
    }
  }

  /** A new block starts empty. */
  lemma NewBlock(regions: seq<Region>, reserved: set<nat>, cursor: nat, max: nat, block: nat)
    requires BlocksOk(reserved) && RegionsOk(regions, reserved, cursor, max)
    requires BLOCK <= block <= WORD64 - BLOCK && forall b | b in reserved :: Apart(block, BLOCK, b, BLOCK)
    ensures BlocksOk(reserved + {block}) && RegionsOk(regions, reserved + {block}, block, block + BLOCK)
  {
    forall i | 0 <= i < |regions|
      ensures RegionOk(regions[i], reserved + {block}, block, block + BLOCK)
    {
      assert RegionOk(regions[i], reserved, cursor, max);
      assert !Apart(block, BLOCK, block, BLOCK);
    }
  }

  /** After a refused reservation no region is in the block that address 0 would start. */
  lemma NoBlock(regions: seq<Region>, reserved: set<nat>, cursor: nat, max: nat)
    requires BlocksOk(reserved) && RegionsOk(regions, reserved, cursor, max)
    ensures RegionsOk(regions, reserved, 0, BLOCK)
  {
    forall i | 0 <= i < |regions|
      ensures RegionOk(regions[i], reserved, 0, BLOCK)
    {
      assert RegionOk(regions[i], reserved, cursor, max);
    }
  }

  class StompAllocator {
    const PageSize: nat
    var VirtualAddressCursor: nat
    var VirtualAddressMax: nat
    var Headers: map<nat, Header>
    ghost var Reserved: set<nat>
    ghost var Regions: seq<Region>

    ghost predicate HeadersOk()
      reads this`Headers, this`Regions
    {
      forall i | 0 <= i < |Regions| ::
        var r := Regions[i];
        && r.pointer >= ALLOCATION_DATA_SIZE && r.pointer - ALLOCATION_DATA_SIZE in Headers
        && Headers[r.pointer - ALLOCATION_DATA_SIZE] == Header(r.start, r.total, r.size)
    }

    ghost predicate Valid()
      reads this
    {
      && IsPageSize(PageSize) && Multiple(VirtualAddressCursor, PageSize)
      && BlocksOk(Reserved) && CursorOk(Reserved, VirtualAddressCursor, VirtualAddressMax)
      && RegionsOk(Regions, Reserved, VirtualAddressCursor, VirtualAddressMax) && RegionsApart(Regions) && HeadersOk()
    }

    constructor (pageSize: nat)
      requires IsPageSize(pageSize)
      ensures Valid() && PageSize == pageSize && Regions == [] && Reserved == {} && VirtualAddressMax == 0
    {
      hide PowerOfTwo, Multiple;
      PageSize, VirtualAddressCursor, VirtualAddressMax, Headers := pageSize, 0, 0, map[];
      Reserved, Regions := {}, [];
      TimesIsMultiple(0, pageSize);
    }

    /** The current block has room. */
    predicate Fits(total: nat)
      reads this
    {
      VirtualAddressCursor + total <= VirtualAddressMax
    }

    /** What VirtualAlloc may answer to a reservation: null, or pages above the first
        gigabyte and apart from all others. */
    ghost predicate Reservable(reserved: nat)
      requires PageSize > 0
      reads this
    {
      && Multiple(reserved, PageSize)
      && (reserved != 0 ==>
            BLOCK <= reserved <= WORD64 - BLOCK && forall b | b in Reserved :: Apart(reserved, BLOCK, b, BLOCK))
    }

    ghost function StartOf(total: nat, reserved: nat): nat
      reads this
    {
      if Fits(total) then VirtualAddressCursor else reserved
    }

    ghost function ReservedWith(total: nat, reserved: nat): set<nat>
      reads this
    {
      if Fits(total) || reserved == 0 then Reserved else Reserved + {reserved}
    }

    /** What VirtualAlloc may answer to the commit of a request's pages. */
    ghost predicate Grantable(size: nat, alignment: nat, reserved: nat, committed: bool)
      requires IsPageSize(PageSize) && (alignment == 0 || IsAlignment(alignment))
      reads this
    {
      LayoutIs(size, alignment, PageSize);
      var l := LayoutOf(size, alignment, PageSize);
      var p := Placed(StartOf(l.total, reserved), l, alignment);
      committed ==> InOneBlock(ReservedWith(l.total, reserved), CommitFrom(p, PageSize), CommitTo(p, l.alignedSize))
    }

    /** The start of the region: at the cursor while the block has room, else in a new block,
        which the system may refuse with null. */
    method TakeRegion(total: nat, reserved: nat) returns (start: nat)
      requires Valid() && total > 0 && Multiple(total, PageSize) && Reservable(reserved)
      modifies this`VirtualAddressCursor, this`VirtualAddressMax, this`Reserved
      ensures start == old(StartOf(total, reserved)) && Reserved == old(ReservedWith(total, reserved))
      ensures if old(VirtualAddressCursor) + total <= old(VirtualAddressMax)
              then start == old(VirtualAddressCursor) && VirtualAddressMax == old(VirtualAddressMax)
              else start == reserved && VirtualAddressMax == reserved + BLOCK
      ensures VirtualAddressCursor == start + total && Multiple(start, PageSize)
              && Multiple(VirtualAddressCursor, PageSize)
      ensures start == 0 <==> !old(Fits(total)) && reserved == 0
      ensures BlocksOk(Reserved) && RegionsOk(Regions, Reserved, start, VirtualAddressMax)
      ensures CursorOk(Reserved, VirtualAddressCursor, VirtualAddressMax) && BLOCK <= VirtualAddressMax <= start + BLOCK
      ensures VirtualAddressCursor <= VirtualAddressMax || start == VirtualAddressMax - BLOCK
    {
      hide PowerOfTwo, HeadersOk, RegionsApart, Multiple, RegionsOk, BlocksOk;
      if VirtualAddressCursor + total <= VirtualAddressMax {
        start := VirtualAddressCursor;
      } else {
        start := reserved;
        if reserved != 0 {
          NewBlock(Regions, Reserved, VirtualAddressCursor, VirtualAddressMax, reserved);
          Reserved := Reserved + {reserved};
        } else {
          NoBlock(Regions, Reserved, VirtualAddressCursor, VirtualAddressMax);
        }
        VirtualAddressCursor := start;
        VirtualAddressMax := start + BLOCK;
      }
      SumIsMultiple(start, total, PageSize);
      VirtualAddressCursor := VirtualAddressCursor + total;
    }

    /** The header is written in front of the pointer and the region is on the books. */
    method Register(pointer: nat, header: Header, ghost r: Region)
      requires r.pointer == pointer && header == Header(r.start, r.total, r.size)
      requires HeadersOk() && RegionsApart(Regions + [r])
      requires RegionsOk(Regions + [r], Reserved, VirtualAddressCursor, VirtualAddressMax)
      modifies this`Headers, this`Regions
      ensures HeadersOk() && Regions == old(Regions) + [r]
    {
      assert (Regions + [r])[|Regions|] == r;
      forall i | 0 <= i < |Regions|
        ensures Regions[i].pointer != r.pointer
      {
        assert (Regions + [r])[i] == Regions[i];
        assert RegionOk((Regions + [r])[i], Reserved, VirtualAddressCursor, VirtualAddressMax);
      }
      Headers := Headers[pointer - ALLOCATION_DATA_SIZE := header];
      Regions := Regions + [r];
    }

    /** One more region, apart from all earlier ones, taken at the cursor or at the start of
        a new block, and the pointer placed in it; null exactly when the system refuses the
        reservation or the pages.  A refused reservation leaves the cursor below 1 GB, in
        addresses nobody reserved: requests placed there are not granted, and neither are
        those for alignment 0. */
    method Malloc(size: nat, alignment: nat, reserved: nat, committed: bool) returns (p: nat)
      requires Valid() && IsPageSize(PageSize) && (alignment == 0 || IsAlignment(alignment)) && Reservable(reserved)
      requires alignment == 0 ==>
                 var total := LayoutOf(size, 0, PageSize).total; StartOf(total, reserved) + total <= WORD64
      requires Grantable(size, alignment, reserved, committed)
      modifies this
      ensures Valid()
      ensures var total := LayoutOf(size, alignment, PageSize).total;
              p == 0 <==> !committed || (reserved == 0 && old(VirtualAddressCursor) + total > old(VirtualAddressMax))
      ensures alignment == 0 ==> p == 0
      ensures p == 0 ==> Regions == old(Regions) && Headers == old(Headers)
      ensures p != 0 ==>
                var l := LayoutOf(size, alignment, PageSize);
                && |Regions| == |old(Regions)| + 1 && Regions[..|old(Regions)|] == old(Regions)
                && var r := Regions[|old(Regions)|];
                && r.start == old(StartOf(l.total, reserved)) && r.total == l.total && r.size == l.alignedSize
                && r.pointer == p
      ensures p != 0 ==>
                var l := LayoutOf(size, alignment, PageSize);
                l.alignedSize <= l.fullPageSize && p == Placed(old(StartOf(l.total, reserved)), l, alignment)
    {
      hide PowerOfTwo, HeadersOk, RegionsApart, Multiple, RegionsOk, LayoutOf, Placed, Apart, InOneBlock, BlocksOk;
      LayoutIs(size, alignment, PageSize);
      var l := LayoutOf(size, alignment, PageSize);
      var start := TakeRegion(l.total, reserved);
      p := 0;
      ghost var block := VirtualAddressMax - BLOCK;
      CursorMoves(Regions, Reserved, start, VirtualAddressCursor, VirtualAddressMax);
      if alignment == 0 {
        PlacedNullIff(start, size, alignment, PageSize);
        NullNotGranted(l.alignedSize, PageSize, Reserved);
      }
      if start != 0 && committed {
        Placement(start, size, alignment, PageSize);
        GrantedInItsBlock(start, size, alignment, PageSize, Reserved, block);
        p := Placed(start, l, alignment);
        ghost var r := Region(block, start, l.total, p, l.alignedSize);
        NextRegion(Regions, Reserved, start, VirtualAddressMax, r);
        Register(p, Header(start, l.total, l.alignedSize), r);
      }
    }
  }
}
