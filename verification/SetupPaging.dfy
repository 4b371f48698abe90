/** How the zones of the frame allocator are made from the memory map at boot. */
module SetupPaging {
  import opened Common
  import opened ZonePieces
  import ZonedBuddy
  import opened Geometry
  import opened PageTables
  import opened Ownership
  import opened Consistency
  import Bootstrap

  /** An entry of the boot memory map. */
  datatype Area = Area(start: nat, end: nat, available: bool)

  const LAST_FRAME: nat := 0xFFFF_F000

  function AlignUp4k(x: nat): nat { (x + PAGE - 1) / PAGE * PAGE }

  function AlignDown4k(x: nat): nat { x / PAGE * PAGE }

  function Max(x: nat, y: nat): nat { if x < y then y else x }

  /** Where the zones of an area start, past the kernel. */
  function ZonesStart(area: Area, kernelEnd: nat): nat { AlignUp4k(Max(area.start, kernelEnd)) }

  function ZonesSize(area: Area, kernelEnd: nat): nat {
    if area.available && area.end > ZonesStart(area, kernelEnd)
    then AlignDown4k(area.end - ZonesStart(area, kernelEnd))
    else 0
  }

  /** The area lies in the 32-bit address space and aligning its start up does not leave it. */
  predicate Low(area: Area) { area.start <= area.end < 0x1_0000_0000 && area.start <= LAST_FRAME }

  /** The available areas of the memory map lie in the address space and do not overlap. */
  ghost predicate AreasValid(areas: seq<Area>) {
    && (forall i :: 0 <= i < |areas| && areas[i].available ==> Low(areas[i]))
    && (forall i, j :: 0 <= i < j < |areas| && areas[i].available && areas[j].available ==>
          areas[i].end <= areas[j].start || areas[j].end <= areas[i].start)
  }

  ghost predicate ZoneIn(z: ZonedBuddy.Zone, area: Area, kernelEnd: nat) {
    && area.available && area.start <= z.start && z.start + z.size <= area.end && kernelEnd <= z.start
    && z.start % PAGE == 0 && z.size % PAGE == 0 && z.size > 0
  }

  /** Every zone lies in one of the first n areas and past the kernel. */
  ghost predicate FromAreas(zones: seq<ZonedBuddy.Zone>, areas: seq<Area>, n: nat, kernelEnd: nat)
    requires n <= |areas|
  {
    forall k :: 0 <= k < |zones| ==> exists j :: 0 <= j < n && ZoneIn(zones[k], areas[j], kernelEnd)
  }

  /** The pieces of an area's range. */
  function AreaPieces(area: Area, kernelEnd: nat): seq<Piece> {
    Pieces(ZonesStart(area, kernelEnd), 1, ZonesSize(area, kernelEnd))
  }

  /** What the loop adds for one area: the first `done` pieces of its range. */
  function AreaZones(area: Area, kernelEnd: nat, done: nat): seq<ZonedBuddy.Zone> {
    var pieces := AreaPieces(area, kernelEnd);
    if done <= |pieces| then ZonedBuddy.NewZones(pieces[..done]) else []
  }

  /** Attempts to create a buddy, over all areas. */
  function Tries(areas: seq<Area>, kernelEnd: nat, done: seq<nat>): nat
    requires |done| == |areas|
  {
    if |areas| == 0 then 0
    else Tries(areas[..|areas| - 1], kernelEnd, done[..|areas| - 1])
         + ZonedBuddy.Attempts(done[|areas| - 1], |AreaPieces(areas[|areas| - 1], kernelEnd)|)
  }

  /** Each area got its pieces, lowest bit first, up to the first whose buddy could not be created;
      `from` counts the attempts made before. */
  ghost predicate AllTried(lib: ZonedBuddy.Library, from: nat, areas: seq<Area>, kernelEnd: nat, done: seq<nat>)
    requires |done| == |areas|
  {
    |areas| == 0
    || (var n := |areas| - 1;
        && AllTried(lib, from, areas[..n], kernelEnd, done[..n])
        && ZonedBuddy.Creates(lib, from + Tries(areas[..n], kernelEnd, done[..n]), AreaPieces(areas[n], kernelEnd),
                              done[n]))
  }

  function BootZones(areas: seq<Area>, kernelEnd: nat, done: seq<nat>): seq<ZonedBuddy.Zone>
    requires |done| == |areas|
  {
    if |areas| == 0 then []
    else BootZones(areas[..|areas| - 1], kernelEnd, done[..|areas| - 1])
         + AreaZones(areas[|areas| - 1], kernelEnd, done[|areas| - 1])
  }

  /** An area's range is aligned and wastes less than a frame at either end. */
  lemma AreaRange(area: Area, kernelEnd: nat)
    requires Low(area) && kernelEnd <= LAST_FRAME
    ensures var start, size := ZonesStart(area, kernelEnd), ZonesSize(area, kernelEnd);
            && start % PAGE == 0 && size % PAGE == 0 && start <= LAST_FRAME && size < 0x1_0000_0000
            && Max(area.start, kernelEnd) <= start < Max(area.start, kernelEnd) + PAGE
            && (size > 0 ==> start + size <= area.end < start + size + PAGE)
            && (area.available && area.end > Max(area.start, kernelEnd) ==>
                  area.end - Max(area.start, kernelEnd) - size < 2 * PAGE)
  {
  }

  lemma AreaZonesIn(area: Area, kernelEnd: nat, done: nat, k: nat)
    requires (area.available ==> Low(area)) && kernelEnd <= LAST_FRAME
    requires k < |AreaZones(area, kernelEnd, done)|
    ensures ZoneIn(AreaZones(area, kernelEnd, done)[k], area, kernelEnd)
  {
    var start, size := ZonesStart(area, kernelEnd), ZonesSize(area, kernelEnd);
    hide AreaZones;
    PieceOf(area, kernelEnd, done, k);
    AreaRange(area, kernelEnd);
    PiecesAligned(start, 1, size, size, k);
  }

  lemma PieceOf(area: Area, kernelEnd: nat, done: nat, k: nat)
    requires k < |AreaZones(area, kernelEnd, done)|
    ensures area.available
    ensures var pieces := Pieces(ZonesStart(area, kernelEnd), 1, ZonesSize(area, kernelEnd));
            k < |pieces| && AreaZones(area, kernelEnd, done)[k] == ZonedBuddy.NewZone(pieces[k])
  {
  }

  /** Zones of other areas stay clear of an area's range. */
  lemma AreaFree(zones: seq<ZonedBuddy.Zone>, areas: seq<Area>, n: nat, kernelEnd: nat)
    requires AreasValid(areas) && n < |areas| && kernelEnd <= LAST_FRAME && FromAreas(zones, areas, n, kernelEnd)
    requires ZonesSize(areas[n], kernelEnd) > 0
    ensures var start := ZonesStart(areas[n], kernelEnd);
            ZonedBuddy.RangeFree(zones, start, start + ZonesSize(areas[n], kernelEnd))
  {
    var start, size := ZonesStart(areas[n], kernelEnd), ZonesSize(areas[n], kernelEnd);
    AreaRange(areas[n], kernelEnd);
    forall k | 0 <= k < |zones|
      ensures start + size <= zones[k].start || zones[k].start + zones[k].size <= start
    {
      var j := AreaOf(zones, areas, n, kernelEnd, k);
    }
  }

  /** The area that a zone lies in. */
  lemma AreaOf(zones: seq<ZonedBuddy.Zone>, areas: seq<Area>, n: nat, kernelEnd: nat, k: nat) returns (j: nat)
    requires n <= |areas| && k < |zones| && FromAreas(zones, areas, n, kernelEnd)
    ensures j < n && ZoneIn(zones[k], areas[j], kernelEnd)
  {
    var z := zones[k];
    assert exists j :: 0 <= j < n && ZoneIn(z, areas[j], kernelEnd);
    j :| 0 <= j < n && ZoneIn(z, areas[j], kernelEnd);
  }

  lemma NextFromAreas(zones: seq<ZonedBuddy.Zone>, areas: seq<Area>, n: nat, kernelEnd: nat, done: nat)
    requires AreasValid(areas) && n < |areas| && kernelEnd <= LAST_FRAME && FromAreas(zones, areas, n, kernelEnd)
    ensures FromAreas(zones + AreaZones(areas[n], kernelEnd, done), areas, n + 1, kernelEnd)
  {
    var more := zones + AreaZones(areas[n], kernelEnd, done);
    forall k | 0 <= k < |more|
      ensures exists j :: 0 <= j < n + 1 && ZoneIn(more[k], areas[j], kernelEnd)
    {
      if k < |zones| {
        var j := AreaOf(zones, areas, n, kernelEnd, k);
        assert more[k] == zones[k] && ZoneIn(more[k], areas[j], kernelEnd);
      } else {
        AreaZonesIn(areas[n], kernelEnd, done, k - |zones|);
      }
    }
  }

  /** Adds the zones of all available areas. An area whose next zone gets no buddy is left at that; the
      failure is reported and the next area follows. `done` counts the zones added for each area. */
  method SetupZones(alloc: ZonedBuddy.Allocator, areas: seq<Area>, kernelEnd: nat) returns (ghost done: seq<nat>)
    requires alloc.Valid() && alloc.zones == [] && AreasValid(areas) && kernelEnd <= LAST_FRAME
    modifies alloc
    ensures alloc.Valid() && alloc.live == old(alloc.live) && alloc.Book() == old(alloc.Book())
    ensures |done| == |areas| && alloc.zones == BootZones(areas, kernelEnd, done)
    ensures AllTried(alloc.lib, old(alloc.made), areas, kernelEnd, done)
    ensures alloc.made == old(alloc.made) + Tries(areas, kernelEnd, done)
    ensures FromAreas(alloc.zones, areas, |areas|, kernelEnd)
  {
    hide ZonedBuddy.ZonesValid;
    hide ZonedBuddy.LiveIs;
    hide ZonedBuddy.RangeFree;
    hide FromAreas;
    hide ZonedBuddy.Creates;
    hide AreaPieces;
    hide AreaZones;
    hide ZonesStart;
    hide AllTried;
    hide Tries;
    hide BootZones;
    done := [];
    NoZones(alloc.lib, alloc.made, areas, kernelEnd);
    for i := 0 to |areas|
      invariant alloc.Valid() && alloc.live == old(alloc.live) && alloc.Book() == old(alloc.Book()) && |done| == i
      invariant alloc.zones == BootZones(areas[..i], kernelEnd, done)
      invariant alloc.made == old(alloc.made) + Tries(areas[..i], kernelEnd, done)
      invariant AllTried(alloc.lib, old(alloc.made), areas[..i], kernelEnd, done)
      invariant FromAreas(alloc.zones, areas, i, kernelEnd)
    {
      NoFraction(alloc.zones, areas, i, kernelEnd);
      ghost var added := SetupArea(alloc, areas[i], kernelEnd);
      NextBoot(areas, kernelEnd, done, i, added);
      NextTried(alloc.lib, old(alloc.made), areas, kernelEnd, done, i, added);
      NextFromAreas(BootZones(areas[..i], kernelEnd, done), areas, i, kernelEnd, added);
      done := done + [added];
    }
    assert areas[..|areas|] == areas;
  }

  /** The round of that loop for one area. */
  method SetupArea(alloc: ZonedBuddy.Allocator, area: Area, kernelEnd: nat) returns (ghost added: nat)
    requires alloc.Valid() && (area.available ==> Low(area)) && kernelEnd <= LAST_FRAME
    requires area.available && area.end > ZonesStart(area, kernelEnd) ==>
      ZonedBuddy.RangeFree(alloc.zones, ZonesStart(area, kernelEnd),
                           ZonesStart(area, kernelEnd) + ZonesSize(area, kernelEnd))
    modifies alloc
    ensures alloc.Valid() && alloc.live == old(alloc.live) && alloc.Book() == old(alloc.Book())
    ensures alloc.zones == old(alloc.zones) + AreaZones(area, kernelEnd, added)
    ensures ZonedBuddy.Creates(alloc.lib, old(alloc.made), AreaPieces(area, kernelEnd), added)
    ensures alloc.made == old(alloc.made) + ZonedBuddy.Attempts(added, |AreaPieces(area, kernelEnd)|)
  {
    hide ZonedBuddy.ZonesValid;
    hide ZonedBuddy.LiveIs;
    hide ZonedBuddy.RangeFree;
    hide Pieces;
    hide AlignUp4k;
    hide AlignDown4k;
    added := 0;
    PiecesOfArea(area, kernelEnd);
    if area.available {
      AreaRange(area, kernelEnd);
      var start := AlignUp4k(Max(area.start, kernelEnd));
      var end := area.end;
      if end > start {
        var ok;
        ok, added := alloc.AddZone(start, AlignDown4k(end - start));
      }
    }
  }

  lemma PiecesOfArea(area: Area, kernelEnd: nat)
    ensures AreaPieces(area, kernelEnd) == Pieces(ZonesStart(area, kernelEnd), 1, ZonesSize(area, kernelEnd))
    ensures ZonesSize(area, kernelEnd) == 0 ==> AreaPieces(area, kernelEnd) == []
  {
  }

  lemma NextTried(lib: ZonedBuddy.Library, from: nat, areas: seq<Area>, kernelEnd: nat, done: seq<nat>, i: nat,
                  added: nat)
    requires i < |areas| && |done| == i && AllTried(lib, from, areas[..i], kernelEnd, done)
    requires ZonedBuddy.Creates(lib, from + Tries(areas[..i], kernelEnd, done), AreaPieces(areas[i], kernelEnd), added)
    ensures AllTried(lib, from, areas[..i + 1], kernelEnd, done + [added])
    ensures Tries(areas[..i + 1], kernelEnd, done + [added])
         == Tries(areas[..i], kernelEnd, done) + ZonedBuddy.Attempts(added, |AreaPieces(areas[i], kernelEnd)|)
  {
    assert areas[..i + 1][..i] == areas[..i] && (done + [added])[..i] == done;
  }

  lemma NoZones(lib: ZonedBuddy.Library, from: nat, areas: seq<Area>, kernelEnd: nat)
    ensures FromAreas([], areas, 0, kernelEnd) && BootZones(areas[..0], kernelEnd, []) == []
    ensures AllTried(lib, from, areas[..0], kernelEnd, []) && Tries(areas[..0], kernelEnd, []) == 0
  {
  }

  lemma NextBoot(areas: seq<Area>, kernelEnd: nat, done: seq<nat>, i: nat, added: nat)
    requires i < |areas| && |done| == i
    ensures BootZones(areas[..i + 1], kernelEnd, done + [added])
         == BootZones(areas[..i], kernelEnd, done) + AreaZones(areas[i], kernelEnd, added)
  {
    assert areas[..i + 1][..i] == areas[..i] && (done + [added])[..i] == done;
  }

  /** The range handed to `add_zone` is free, even when it is empty. */
  lemma NoFraction(zones: seq<ZonedBuddy.Zone>, areas: seq<Area>, n: nat, kernelEnd: nat)
    requires AreasValid(areas) && n < |areas| && kernelEnd <= LAST_FRAME
    requires FromAreas(zones, areas, n, kernelEnd)
    ensures var start := ZonesStart(areas[n], kernelEnd);
            areas[n].available && areas[n].end > start ==>
              ZonedBuddy.RangeFree(zones, start, start + ZonesSize(areas[n], kernelEnd))
  {
    var start := ZonesStart(areas[n], kernelEnd);
    if ZonesSize(areas[n], kernelEnd) > 0 {
      AreaFree(zones, areas, n, kernelEnd);
    } else if areas[n].available && areas[n].end > start {
      AreaRange(areas[n], kernelEnd);
      forall k | 0 <= k < |zones|
        ensures start <= zones[k].start || zones[k].start + zones[k].size <= start
      {
        var j := AreaOf(zones, areas, n, kernelEnd, k);
      }
    }
  }

  /** The state that boot hands over: tables and zones start out consistent, with nothing allocated. */
  lemma BootGood(l: Bootstrap.Layout, zones: seq<ZonedBuddy.Zone>, areas: seq<Area>, rest: Memory)
    requires l.Linked() && l.ReservedEnd() <= Bootstrap.KERNEL_OFFSET + 2 * Bootstrap.LARGE
    requires FromAreas(zones, areas, |areas|, Bootstrap.Virt2Phys(l.kernelEnd))
    ensures Good(Bootstrap.BootSpace(l, ZonedBuddy.Extents(zones), rest), map[], map[])
  {
    var s := Bootstrap.BootSpace(l, ZonedBuddy.Extents(zones), rest);
    Bootstrap.BootStruct(l, s.ext, rest);
    forall t: Tag | t in s.at
      ensures !Manages(s.ext, s.at[t], PAGE)
    {
      AboveKernel(zones, areas, Bootstrap.Virt2Phys(l.kernelEnd), s.at[t], PAGE);
    }
    forall t: Tag, i: nat | s.Has(t, i)
      ensures !OwnedSlot(s, t, i)
    {
      BootLeaf(l, zones, areas, rest, t, i);
    }
  }

  /** No zone manages a block that starts below the end of the kernel's last page. */
  lemma AboveKernel(zones: seq<ZonedBuddy.Zone>, areas: seq<Area>, kernelEnd: nat, a: nat, size: nat)
    requires FromAreas(zones, areas, |areas|, kernelEnd) && a < AlignUp4k(kernelEnd)
    ensures !Manages(ZonedBuddy.Extents(zones), a, size)
  {
    forall k | 0 <= k < |zones|
      ensures a < ZonedBuddy.Extents(zones)[k].start
    {
      var j := AreaOf(zones, areas, |areas|, kernelEnd, k);
    }
  }

  lemma BootLeaf(l: Bootstrap.Layout, zones: seq<ZonedBuddy.Zone>, areas: seq<Area>, rest: Memory, t: Tag, i: nat)
    requires l.Linked() && l.ReservedEnd() <= Bootstrap.KERNEL_OFFSET + 2 * Bootstrap.LARGE
    requires FromAreas(zones, areas, |areas|, Bootstrap.Virt2Phys(l.kernelEnd))
    requires Bootstrap.BootSpace(l, ZonedBuddy.Extents(zones), rest).Has(t, i)
    ensures !OwnedSlot(Bootstrap.BootSpace(l, ZonedBuddy.Extents(zones), rest), t, i)
  {
    hide PageTableEntry.Decode;
    hide FromAreas;
    hide Manages;
    var s := Bootstrap.BootSpace(l, ZonedBuddy.Extents(zones), rest);
    KernelLeaf(l, s.ext, rest, t, i);
    hide Bootstrap.BootSpace;
    if OwnedSlot(s, t, i) {
      AboveKernel(zones, areas, Bootstrap.Virt2Phys(l.kernelEnd), LeafAddr(s.Slot(t, i)), RegionSize(t.depth));
    }
  }

  /** The leaves of the boot tables: one large page, the identity pages, and the kernel's. */
  lemma BootLeaves(l: Bootstrap.Layout, ext: seq<Extent>, rest: Memory, t: Tag, i: nat)
    requires l.Linked() && l.ReservedEnd() <= Bootstrap.KERNEL_OFFSET + 2 * Bootstrap.LARGE
    requires Bootstrap.BootSpace(l, ext, rest).Has(t, i) && IsLeaf(Bootstrap.BootSpace(l, ext, rest).Slot(t, i), t.depth)
    ensures t == Tag(1, 0) || t == Tag(0, 0) || t == Tag(0, 768) || t == Tag(0, 769)
    ensures t == Tag(1, 0) ==> i == 1
    ensures t == Tag(0, 0) ==> LeafAddr(Bootstrap.BootSpace(l, ext, rest).Slot(t, i)) == PAGE * i
    ensures t != Tag(1, 0) && t != Tag(0, 0) ==>
      LeafAddr(Bootstrap.BootSpace(l, ext, rest).Slot(t, i)) < AlignUp4k(Bootstrap.Virt2Phys(l.kernelEnd))
  {
    hide PageTableEntry.Decode;
    Bootstrap.BootSlot(l, ext, rest, t, i);
    hide Bootstrap.BootSpace;
    Bootstrap.BootDecodes(Bootstrap.BootSpace(l, ext, rest).Slot(t, i).base);
  }

  /** A leaf of the boot tables beyond the identity mapping names a frame of the kernel. */
  lemma KernelLeaf(l: Bootstrap.Layout, ext: seq<Extent>, rest: Memory, t: Tag, i: nat)
    requires l.Linked() && l.ReservedEnd() <= Bootstrap.KERNEL_OFFSET + 2 * Bootstrap.LARGE
    requires Bootstrap.BootSpace(l, ext, rest).Has(t, i)
    ensures var s := Bootstrap.BootSpace(l, ext, rest);
            IsLeaf(s.Slot(t, i), t.depth) && First(SlotRegion(t, i), t.depth) >= s.low ==>
              LeafAddr(s.Slot(t, i)) < AlignUp4k(Bootstrap.Virt2Phys(l.kernelEnd))
  {
    var s := Bootstrap.BootSpace(l, ext, rest);
    assert s.low == 2 * ENTRIES;
    hide Bootstrap.BootSpace;
    Starts(SlotRegion(t, i));
    if IsLeaf(s.Slot(t, i), t.depth) { BootLeaves(l, ext, rest, t, i); }
  }

  /** What may be unmapped at boot: anything above the identity mapping, as the kernel's pages are no blocks
      of the allocator, and of the identity mapping what lies below the end of the kernel. */
  lemma BootRemovable(l: Bootstrap.Layout, zones: seq<ZonedBuddy.Zone>, areas: seq<Area>, rest: Memory, a: nat, b: nat)
    requires l.Linked() && l.ReservedEnd() <= Bootstrap.KERNEL_OFFSET + 2 * Bootstrap.LARGE
    requires FromAreas(zones, areas, |areas|, Bootstrap.Virt2Phys(l.kernelEnd))
    requires a >= 2 * Bootstrap.LARGE || b <= AlignUp4k(Bootstrap.Virt2Phys(l.kernelEnd))
    ensures Removable(Bootstrap.BootSpace(l, ZonedBuddy.Extents(zones), rest), a, b)
  {
    hide FromAreas;
    hide Manages;
    var s := Bootstrap.BootSpace(l, ZonedBuddy.Extents(zones), rest);
    forall t: Tag, i: nat | LeafWithin(s, t, i, a, b)
      ensures Freeable(s, t, i)
    {
      LeafBelowKernel(l, s.ext, rest, t, i, a, b);
      AboveKernel(zones, areas, Bootstrap.Virt2Phys(l.kernelEnd), LeafAddr(s.Slot(t, i)), RegionSize(t.depth));
    }
  }

  lemma LeafBelowKernel(l: Bootstrap.Layout, ext: seq<Extent>, rest: Memory, t: Tag, i: nat, a: nat, b: nat)
    requires l.Linked() && l.ReservedEnd() <= Bootstrap.KERNEL_OFFSET + 2 * Bootstrap.LARGE
    requires a >= 2 * Bootstrap.LARGE || b <= AlignUp4k(Bootstrap.Virt2Phys(l.kernelEnd))
    requires LeafWithin(Bootstrap.BootSpace(l, ext, rest), t, i, a, b)
    ensures LeafAddr(Bootstrap.BootSpace(l, ext, rest).Slot(t, i)) < AlignUp4k(Bootstrap.Virt2Phys(l.kernelEnd))
  {
    hide Bootstrap.BootSpace;
    hide Start;
    Starts(SlotRegion(t, i));
    Starts(SlotRegion(t, i) + 1);
    BootLeaves(l, ext, rest, t, i);
  }

  lemma Starts(m: nat)
    ensures Start(m, 0) == PAGE * m && Start(m, 1) == Bootstrap.LARGE * m
  {
    assert First(m, 1) == First(ENTRIES * m, 0);
  }
}
