/** 32-bit paging as an instance of the tables: two levels, with shifts 22 and 12. */
module Paging32 {
  import opened Common
  import opened Geometry

  const TOP: nat := 1

  datatype PageSize = Size4K | Size4M

  function Bytes(size: PageSize): nat {
    match size
    case Size4K => 0x1000
    case Size4M => 0x40_0000
  }

  function TryFrom(size: nat): Option<PageSize> {
    if size == 0x1000 then Some(Size4K)
    else if size == 0x40_0000 then Some(Size4M)
    else None
  }

  /** The page size that fits a level, if any. */
  function PageSizeOf(depth: nat): Option<PageSize> { TryFrom(RegionSize(depth)) }

  /** The depth at which pages of a size sit. */
  function DepthOf(size: PageSize): nat { if size == Size4K then 0 else 1 }

  lemma Regions32()
    ensures RegionSize(0) == 0x1000 && RegionSize(TOP) == 0x40_0000
    ensures Start(1, TOP + 1) == 0x1_0000_0000
  {
    assert First(1, 0) == 1;
    assert First(1, 1) == First(1024, 0) == 1024;
    assert First(1, 2) == First(1024, 1);
    assert First(1024, 1) == First(0x10_0000, 0);
  }

  lemma {:induction false} RegionsGrow(d: nat, e: nat)
    requires d < e
    ensures RegionSize(d) < RegionSize(e)
    decreases e
  {
    FirstAdd(1, ENTRIES - 1, e - 1);
    FirstPositive(ENTRIES - 1, e - 1);
    if d < e - 1 { RegionsGrow(d, e - 1); }
  }

  /** Exactly one level takes pages of a size, so the descent of `map_page` stops at it and nowhere
      else: at or below the top level, before the shift runs out. */
  lemma OneLevelTakes(size: PageSize, depth: nat)
    ensures PageSizeOf(depth) == Some(size) <==> depth == DepthOf(size)
    ensures Bytes(size) == RegionSize(DepthOf(size)) && DepthOf(size) <= TOP
    ensures TryFrom(Bytes(size)) == Some(size)
  {
    Regions32();
    if depth > TOP { RegionsGrow(TOP, depth); }
  }

  /** The slot of an address: shift it right by the level's shift and keep ten bits. */
  lemma SlotByShift(vaddr: nat, depth: nat)
    ensures vaddr / RegionSize(depth) % ENTRIES == Index(vaddr / PAGE, depth)
  {
    var m, size := Reg(vaddr / PAGE, depth), RegionSize(depth);
    AlignDownRegion(vaddr, depth);
    FirstMultiple(m, depth);
    assert Start(m, depth) == PAGE * (m * First(1, depth)) == m * size;
    NextRegion(m, depth);
    Quotient(vaddr, m, size);
  }

  lemma Quotient(x: nat, m: nat, size: nat)
    requires size > 0 && m * size <= x < m * size + size
    ensures x / size == m
  {
    DivideRegion(x, m, size);
    var q := x / size;
    assert x == q * size + x % size;
    MultipleGap(q, m, size);
    MultipleGap(m, q, size);
  }
}
