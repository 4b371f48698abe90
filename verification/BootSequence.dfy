/** Boot from the first table to the mapping test: the tables are built, the zones are added, and the
    address space over both is sound. */
module BootSequence {
  import opened Common
  import opened PageTableEntry
  import opened PageTables
  import opened TableSteps
  import opened Consistency
  import opened MapRange
  import opened Bootstrap
  import opened SetupPaging
  import AddressSpaces
  import BootCoverage
  import Reuse
  import SelfTest
  import TmpPage
  import ZonedBuddy
  import ZoneTotals

  /** Every frame of physical memory is there, and the boot tables are in theirs. */
  ghost predicate MemoryAtBoot(l: Layout, mem: Memory)
    requires l.Linked()
  {
    && (forall f: Frame {:trigger f in mem} :: f in mem && |mem[f]| == ENTRIES)
    && (forall f {:trigger f in BootMemory(l)} :: f in BootMemory(l) ==> mem[f] == BootMemory(l)[f])
  }

  /** The tables as the boot code leaves them, put where they belong. */
  lemma TablesInMemory(l: Layout, words: seq<Word>, n: nat)
    requires l.Linked() && |words| == WORDS && BuiltTo(l, words, WORDS) && n < 4
    ensures words[ENTRIES * n..ENTRIES * (n + 1)] == TableWords(l, n)
  {
    var part := words[ENTRIES * n..ENTRIES * (n + 1)];
    forall i | 0 <= i < ENTRIES
      ensures part[i] == BootWord(l, ENTRIES * n + i)
    {
      assert part[i] == words[ENTRIES * n + i];
    }
  }

  lemma MemoryThere(l: Layout, mem: Memory)
    requires l.Linked() && MemoryAtBoot(l, mem)
    ensures forall f: Frame :: f in mem && |mem[f]| == ENTRIES
  {
  }

  lemma BootSpaceIs(l: Layout, ext: seq<Extent>, mem: Memory)
    requires l.Linked() && MemoryAtBoot(l, mem)
    ensures var s := BootSpace(l, ext, mem); s == Space(mem, s.at, l.tables, 1, s.low, true, ext)
  {
    assert mem + BootMemory(l) == mem;
  }

  /** From paging on to the mapping test. */
  method Paging(lib: ZonedBuddy.Library, l: Layout, areas: seq<Area>, mem: Memory)
    returns (space: AddressSpaces.AddressSpace, r: AllocResult, freed: MappingResult, ghost done: seq<nat>)
    requires l.Linked() && l.ReservedEnd() <= KERNEL_OFFSET + 2 * LARGE
    requires AreasValid(areas) && MemoryAtBoot(l, mem)
    ensures fresh(space) && fresh(space.alloc) && fresh(space.window) && space.alloc.Valid()
    ensures |done| == |areas| && space.ext == ZonedBuddy.Extents(BootZones(areas, Virt2Phys(l.kernelEnd), done))
    ensures space.alloc.lib == lib && AllTried(lib, 0, areas, Virt2Phys(l.kernelEnd), done)
    ensures r.Failed? ==> r.error == PageAllocationFailed
    ensures !r.MappedAt? ==> space.alloc.Starved(0, 1)
    ensures ZoneTotals.Willing(lib) ==>
      (r == MappedAt(SelfTest.TEST) <==>
        ZonedBuddy.TotalOf(BootZones(areas, Virt2Phys(l.kernelEnd), done)) >= 2 * PAGE)
    ensures r.MappedAt? ==>
      && freed == Ok && space.Sound() && space.alloc.live == map[] && space.alloc.Bytes() == 0
      && Reuse.LockedAt(space.S(), SelfTest.SLOT, Word(0, PS))
  {
    hide BootSpace;
    hide Good;
    hide ZonedBuddy.ZonesValid;
    hide ZonedBuddy.LiveIs;
    hide Reuse.LockedAt;
    hide FromAreas;
    hide AreasValid;
    hide AllTried;
    hide ZonedBuddy.NoneGrants;
    hide ZoneTotals.Willing;
    var alloc := new ZonedBuddy.Allocator(lib);
    var window := new TmpPage.Window();
    done := SetupZones(alloc, areas, Virt2Phys(l.kernelEnd));
    BootGood(l, alloc.zones, areas, mem);
    ghost var s := BootSpace(l, alloc.Ext(), mem);
    BootSpaceIs(l, alloc.Ext(), mem);
    space := new AddressSpaces.AddressSpace(s, window, alloc, mem, l.tables, 1, true);
    assert space.S().mem == mem;
    assert space.mem == mem;
    MemoryThere(l, mem);
    assert forall f: Frame {:trigger f in space.mem} :: f in space.mem && |space.mem[f]| == ENTRIES;
    r, freed := SelfTest.TestMapping(space, l);
  }

  /** From the boot code on; `rest` is what physical memory holds elsewhere. Where buddies can be created, and
      grant what they have, boot gets through its mapping test exactly if the areas leave two frames. */
  method Start(lib: ZonedBuddy.Library, words: array<Word>, l: Layout, areas: seq<Area>, rest: Memory)
    returns (b: BootResult, space: AddressSpaces.AddressSpace?, r: AllocResult, freed: MappingResult)
    requires l.Linked() && words.Length == WORDS && Zero(words[..], 0)
    requires AreasValid(areas) && forall f: Frame {:trigger f in rest} :: f in rest && |rest[f]| == ENTRIES
    modifies words
    ensures b.Built? <==> l.bootstrapEnd <= LARGE && l.ReservedEnd() <= KERNEL_OFFSET + 2 * LARGE
    ensures b.Built? ==> space != null && fresh(space) && fresh(space.alloc)
    ensures b.Built? && r.Failed? ==> r.error == PageAllocationFailed
    ensures b.Built? && ZoneTotals.Willing(lib) && BootCoverage.Creating(lib) ==>
      (r == MappedAt(SelfTest.TEST) <==> BootCoverage.RangesSize(areas, Virt2Phys(l.kernelEnd)) >= 2 * PAGE)
    ensures b.Built? && r.MappedAt? ==> freed == Ok && space.alloc.live == map[] && space.alloc.Bytes() == 0
  {
    hide ZoneTotals.Willing;
    hide BootCoverage.Creating;
    hide AllTried;
    r, freed, space := Panicked, Ok, null;
    b := BuildTables(words, l);
    if b.Built? {
      var f: Frame := l.tables;
      var mem := rest[f := words[..ENTRIES]][f + PAGE := words[ENTRIES..2 * ENTRIES]]
                     [f + 2 * PAGE := words[2 * ENTRIES..3 * ENTRIES]][f + 3 * PAGE := words[3 * ENTRIES..]];
      BuiltMemory(l, words[..], rest, mem);
      ghost var done;
      space, r, freed, done := Paging(lib, l, areas, mem);
      if BootCoverage.Creating(lib) {
        BootCoverage.CreatingMakesAll(lib, 0, areas, Virt2Phys(l.kernelEnd), done);
        BootCoverage.BootTotal(areas, Virt2Phys(l.kernelEnd), done);
      }
    }
  }

  lemma BuiltMemory(l: Layout, words: seq<Word>, rest: Memory, mem: Memory)
    requires l.Linked() && |words| == WORDS && BuiltTo(l, words, WORDS)
    requires forall f: Frame {:trigger f in rest} :: f in rest && |rest[f]| == ENTRIES
    requires var f: Frame := l.tables;
             mem == rest[f := words[..ENTRIES]][f + PAGE := words[ENTRIES..2 * ENTRIES]]
                        [f + 2 * PAGE := words[2 * ENTRIES..3 * ENTRIES]][f + 3 * PAGE := words[3 * ENTRIES..]]
    ensures MemoryAtBoot(l, mem)
  {
    hide BootWord;
    hide BuiltTo;
    TablesInMemory(l, words, 0);
    TablesInMemory(l, words, 1);
    TablesInMemory(l, words, 2);
    TablesInMemory(l, words, 3);
    assert words[..ENTRIES] == words[0..ENTRIES] && words[3 * ENTRIES..] == words[3 * ENTRIES..4 * ENTRIES];
  }

  /** There are such states: a kernel at 1 MiB, memory up to 256 MiB, all of it zero, and buddies that grant
      what they have. Their boot gets through the test. */
  lemma BootIsPossible() returns (lib: ZonedBuddy.Library, l: Layout, areas: seq<Area>, rest: Memory)
    ensures l.Linked() && l.bootstrapEnd <= LARGE && l.ReservedEnd() <= KERNEL_OFFSET + 2 * LARGE
    ensures AreasValid(areas) && forall f: Frame {:trigger f in rest} :: f in rest && |rest[f]| == ENTRIES
    ensures ZoneTotals.Willing(lib) && BootCoverage.Creating(lib)
    ensures BootCoverage.RangesSize(areas, Virt2Phys(l.kernelEnd)) == 0xFEF_A000
  {
    lib := Obliging();
    l := Layout(0x10_2000, 0x10_1000, 0xC010_1000, 0xC010_2000, 0xC010_6000);
    areas := [Area(0x10_0000, 0x1000_0000, true)];
    rest := EmptyMemory();
    assert areas[..0] == [];
    assert BootCoverage.RangesSize([], Virt2Phys(l.kernelEnd)) == 0;
    assert ZonesStart(areas[0], Virt2Phys(l.kernelEnd)) == 0x10_6000;
  }

  /** A library whose buddies can be created, and grant any run they have. */
  ghost function Obliging(): (lib: ZonedBuddy.Library)
    ensures ZoneTotals.Willing(lib) && BootCoverage.Creating(lib)
  {
    var lib := ZonedBuddy.Library((call, z, blocks) => AnyRun(z, blocks), (n, piece) => true);
    assert ZoneTotals.Willing(lib) by {
      forall call: nat, z, a: nat | ZonedBuddy.ZoneValid(z) && ZonedBuddy.Available(z, a, 1)
        ensures ZonedBuddy.Grant(lib, call, z, 1).Some?
      {
        assert lib.grant(call, z, 1) == AnyRun(z, 1);
      }
    }
    lib
  }

  ghost function AnyRun(z: ZonedBuddy.Zone, blocks: nat): (r: Option<nat>)
    ensures r.Some? ==> ZonedBuddy.Available(z, r.value, blocks)
    ensures r.None? ==> forall a: nat :: !ZonedBuddy.Available(z, a, blocks)
  {
    if exists a: nat :: ZonedBuddy.Available(z, a, blocks) then
      var a: nat :| ZonedBuddy.Available(z, a, blocks);
      Some(a)
    else
      None
  }

  function FrameAt(k: nat): Frame
    requires k < 0x10_0000
  {
    PAGE * k
  }

  ghost function EmptyMemory(): (mem: Memory)
    ensures forall f: Frame {:trigger f in mem} :: f in mem && |mem[f]| == ENTRIES
  {
    var mem := map k: nat | 0 <= k < 0x10_0000 :: FrameAt(k) := Zeros();
    assert forall f: Frame :: f in mem by {
      forall f: Frame
        ensures f in mem
      {
        var k := f / PAGE;
        assert FrameAt(k) == f && k < 0x10_0000;
      }
    }
    assert |Zeros()| == ENTRIES && forall f: Frame :: mem[f] == Zeros();
    mem
  }
}
