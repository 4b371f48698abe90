/** The mapping test at the end of paging setup: one page is mapped right above what the two higher-half
    tables manage, and unmapped again. */
module SelfTest {
  import opened Common
  import opened PageTableEntry
  import opened Geometry
  import opened PageTables
  import opened Unmapping
  import opened UnmapSteps
  import opened MapRange
  import opened RoundTrip
  import opened Overwriting
  import opened Reuse
  import opened Refusal
  import opened Ownership
  import opened Consistency
  import Accounting
  import AddressSpaces
  import Bootstrap
  import Processor
  import Rights
  import TestMemory
  import ZonedBuddy
  import ZoneTotals

  const TEST: nat := 0xC080_1000
  const FLAGS: bv7 := PRESENT | READ | WRITE

  /** Page of the test address, and its slot of the top-level table. */
  const PAGE_NUMBER: nat := 0xC0801
  const SLOT: nat := 770

  /** Where unmapping really stops: the start is not aligned to 4 MiB. */
  const END: nat := 0xC0C0_0000

  lemma Addresses()
    ensures Start(SLOT, 1) == 0xC080_0000 && Start(SLOT + 1, 1) == END
    ensures Reg(PAGE_NUMBER, 1) == SLOT && EffectiveEnd(TEST, PAGE, 1) == END
    ensures Start(1, 2) == 0x1_0000_0000 && RegionSize(1) == 0x40_0000
  {
    assert Reg(PAGE_NUMBER, 0) == PAGE_NUMBER;
    assert First(SLOT, 1) == First(ENTRIES * SLOT, 0);
    assert First(SLOT + 1, 1) == First(ENTRIES * (SLOT + 1), 0);
    assert First(1, 1) == First(ENTRIES, 0);
    assert First(1, 2) == First(ENTRIES, 1) == First(ENTRIES * ENTRIES, 0);
  }

  /** The region of the test maps nothing at boot. */
  lemma BootClear(l: Bootstrap.Layout, s: Space)
    requires l.Linked() && l.ReservedEnd() <= Bootstrap.KERNEL_OFFSET + 2 * Bootstrap.LARGE
    requires s == Bootstrap.BootSpace(l, s.ext, s.mem)
    ensures ClearIn(s, TEST, END)
  {
    Bootstrap.BootLimit(l, s.ext, s.mem);
    forall p: nat | Contained(p, TEST, END)
      ensures s.Trans(p).None?
    {
      Bootstrap.BootWalk(l, s.ext, s.mem, p);
    }
  }

  /** The test meets no table of the boot code. */
  lemma BootUnmet(l: Bootstrap.Layout, s: Space)
    requires l.Linked() && s == Bootstrap.BootSpace(l, s.ext, s.mem)
    ensures PopulatedIn(s, TEST, END) && Child(s.Top(), SLOT) !in s.at
  {
    forall t | t in s.at && t != s.Top()
      ensures !TagTouched(t, TEST, END)
    {
      TablesBelow(l, s, t);
    }
  }

  lemma TablesBelow(l: Bootstrap.Layout, s: Space, t: Tag)
    requires l.Linked() && s == Bootstrap.BootSpace(l, s.ext, s.mem) && t in s.at && t != s.Top()
    ensures t.depth == 0 && Start(t.region + 1, 1) <= TEST
  {
    Addresses();
    FirstMonotone(t.region + 1, SLOT, 1);
  }

  /** At boot only the large page's slot refuses updates. */
  lemma BootClean(l: Bootstrap.Layout, s: Space)
    requires l.Linked() && s == Bootstrap.BootSpace(l, s.ext, s.mem)
    ensures CleanSlots(s)
  {
    forall t: Tag, i: nat | s.Vacant(t, i)
      ensures !Locked(s.Slot(t, i), t.depth == 0)
    {
      Bootstrap.BootSlot(l, s.ext, s.mem, t, i);
    }
  }

  /** No slot above the test page refuses updates. */
  lemma BootOpen(l: Bootstrap.Layout, s: Space)
    requires l.Linked() && l.ReservedEnd() <= Bootstrap.KERNEL_OFFSET + 2 * Bootstrap.LARGE
    requires s == Bootstrap.BootSpace(l, s.ext, s.mem)
    ensures !Refused(s, PAGE_NUMBER) && s.Struct() && PAGE_NUMBER < s.Limit()
  {
    BootClean(l, s);
    BootClear(l, s);
    Bootstrap.BootStruct(l, s.ext, s.mem);
    Bootstrap.BootLimit(l, s.ext, s.mem);
    hide Bootstrap.BootSpace;
    hide CleanSlots;
    assert Contained(PAGE_NUMBER, TEST, END);
    CleanBarrier(s, PAGE_NUMBER, s.top);
  }

  /** With nothing live the counters are zero. */
  lemma NothingInUse(zones: seq<ZonedBuddy.Zone>)
    requires ZonedBuddy.ZonesValid(zones) && ZonedBuddy.LiveIs(zones, map[])
    ensures ZonedBuddy.CounterSum(zones) == 0
  {
    Accounting.CounterIsBlocks(zones);
    Accounting.BlocksAreLive(zones, map[]);
    assert Accounting.RunsOf(map[]) == map[];
    assert ZonedBuddy.UsedBlocks(map[]) == {};
  }

  /** What the test proves of the round trip, and what it leaves behind. */
  lemma TestTrip(x: State, y: State, z: State, frames: seq<Frame>, r: MappingResult, stop: Stop)
    requires x.space.Struct() && Own(x.space, x.live) && x.space.top == 1 && x.space.sticky
    requires x.space.low <= PAGE_NUMBER && ClearIn(x.space, TEST, END) && PopulatedIn(x.space, TEST, END)
    requires Child(x.space.Top(), SLOT) !in x.space.at
    requires RangeMapped(x, y, PAGE_NUMBER, frames, FLAGS) && |frames| == 1
    requires Outcome(y, z, TEST, END, y.space.Top(), r, stop)
    ensures r == Ok
    ensures z.live == x.live && z.space.at == x.space.at && forall p :: z.space.Trans(p) == x.space.Trans(p)
    ensures LockedAt(z.space, SLOT, Word(0, PS))
  {
    MapUnmap(x, y, z, PAGE_NUMBER, frames, FLAGS, TEST, END, r, stop);
    Addresses();
    TagOfChild(PAGE_NUMBER, 1);
    TestTable(x.space, y.space, frames);
    hide RangeMapped;
    DropLocks(y, z, TEST, END, SLOT);
    assert NullAt(y.space, 1) == Word(0, PS);
  }

  lemma TestTable(s: Space, z: Space, frames: seq<Frame>)
    requires TablesAdded(s, z, PAGE_NUMBER, |frames|) && |frames| == 1 && s.top == z.top == 1
    ensures Child(z.Top(), SLOT) in z.at
  {
    Addresses();
    assert TagOf(PAGE_NUMBER, 0) in z.at;
  }

  /** The test, on the address space that boot sets up. It takes a frame for the page and one for its table;
      if there are none, the last call of the allocator was turned down by every zone. Afterwards everything
      is as before and no memory is in use, but the top-level slot of the region refuses updates. */
  method TestMapping(space: AddressSpaces.AddressSpace, ghost l: Bootstrap.Layout)
    returns (r: AllocResult, freed: MappingResult)
    requires l.Linked() && l.ReservedEnd() <= Bootstrap.KERNEL_OFFSET + 2 * Bootstrap.LARGE
    requires space.Sound() && space.S() == Bootstrap.BootSpace(l, space.ext, space.mem) && space.alloc.live == map[]
    modifies space, space.window, space.alloc
    ensures space.Sound() && (r.Failed? ==> r.error == PageAllocationFailed)
    ensures !r.MappedAt? ==> space.alloc.Starved(old(space.alloc.asked), 1)
    ensures ZoneTotals.Willing(space.alloc.lib) ==>
      (r == MappedAt(TEST) <==> ZonedBuddy.TotalOf(old(space.alloc.zones)) >= 2 * PAGE)
    ensures r.MappedAt? ==>
      && freed == Ok && space.alloc.live == map[] && space.alloc.Bytes() == 0
      && space.at == old(space.at) && (forall p :: space.S().Trans(p) == old(space.S()).Trans(p))
      && LockedAt(space.S(), SLOT, Word(0, PS))
      && Rights.At(space.S(), PAGE_NUMBER) == None && PAGE_NUMBER !in space.tlb
  {
    hide Good;
    hide Coherent;
    hide RangeMapped;
    hide FailedAt;
    hide Outcome;
    hide Bootstrap.BootSpace;
    hide ClearIn;
    hide PopulatedIn;
    hide LockedAt;
    hide Own;
    hide Space.Struct;
    hide ZoneTotals.Willing;
    hide NewTablesLive;
    hide ZonedBuddy.NoneGrants;
    ghost var x := space.Snap();
    freed := Ok;
    BootClear(l, x.space);
    BootUnmet(l, x.space);
    BootOpen(l, x.space);
    BootFixed(l, x.space);
    GoodParts(x.space, x.live, space.tlb);
    Addresses();
    ghost var frames, mid, g, leak;
    r, frames, mid, g, leak := space.MapAlloc(TEST, PAGE, FLAGS);
    FailsExactly(x, mid, space.Snap(), PAGE_NUMBER, 1, frames, g, FLAGS, r, leak);
    ghost var call: nat := if r.MappedAt? then 0 else space.alloc.asked - 1;
    MemoryNeeded(x, mid, space.Snap(), frames, g, r, leak, old(space.alloc.zones), space.alloc.zones, space.alloc.lib,
                 call);
    if !r.MappedAt? {
      return;
    }
    ghost var y := space.Snap();
    TestReached(x, y, frames);
    assert Rights.At(space.S(), PAGE_NUMBER) == Some(Processor.Access(frames[0], 0, true, false, false, false));
    TestRemovable(x, y, frames);
    ghost var stop;
    freed, stop := space.Unmap(TEST, PAGE);
    TestTrip(x, y, space.Snap(), frames, freed, stop);
    TestSound(y, space.Snap(), freed, stop, space.tlb);
    TestFaults(x.space, space.S(), space.alloc.live, space.tlb);
    NothingInUse(space.alloc.zones);
  }

  /** Two frames are needed, and willing buddies find them if there are two. */
  lemma MemoryNeeded(x: State, mid: State, y: State, frames: seq<Frame>, g: Frame, r: AllocResult, leak: set<nat>,
                     before: seq<ZonedBuddy.Zone>, after: seq<ZonedBuddy.Zone>, lib: ZonedBuddy.Library, call: nat)
    requires x.space.Struct() && Own(x.space, x.live) && x.live == map[] && x.space.top == 1
    requires x.space.low <= PAGE_NUMBER < x.space.Limit() && Child(x.space.Top(), SLOT) !in x.space.at
    requires Allocated(x, mid, y, PAGE_NUMBER, 1, frames, g, FLAGS, r, leak)
    requires |frames| == 0 ==> mid == x
    requires r.Panicked? ==> y == mid
    requires r.MappedAt? ==> NewTablesLive(x.space, x.live, y.space, y.live)
    requires r.Failed? ==> r.error == PageAllocationFailed && !Refused(x.space, PAGE_NUMBER)
    requires Accounting.Serves(after, y) && ZonedBuddy.Extents(before) == ZonedBuddy.Extents(after)
    requires r.MappedAt? || ZonedBuddy.NoneGrants(lib, after, call, 1)
    ensures ZoneTotals.Willing(lib) ==> (r.MappedAt? <==> ZonedBuddy.TotalOf(before) >= 2 * PAGE)
  {
    hide RangeMapped;
    hide FailedAt;
    hide Own;
    hide Space.Struct;
    hide ZoneTotals.Willing;
    hide NewTablesLive;
    hide ZonedBuddy.NoneGrants;
    hide ZonedBuddy.ZonesValid;
    hide ZonedBuddy.LiveIs;
    ZoneTotals.SameTotal(before, after);
    ZonedBuddy.CountersFit(after);
    if r.MappedAt? {
      Addresses();
      TagOfChild(PAGE_NUMBER, 1);
      assert frames == [frames[0]];
      var h := TestMemory.TwoFramesTaken(x, y, PAGE_NUMBER, frames[0], FLAGS);
      TestMemory.FramesInUse(after, y.live, {frames[0], h});
    } else {
      if r.Panicked? {
        NothingInUse(after);
      } else {
        TestMemory.NothingLeaks(x, y, PAGE_NUMBER, g, FLAGS, r.error, leak);
        TestMemory.OneFrameTaken(x, y, PAGE_NUMBER, g, FLAGS, r.error);
        TestMemory.FramesInUse(after, y.live, {g});
      }
      if ZoneTotals.Willing(lib) { ZoneTotals.RefusedIsFull(lib, after, call); }
    }
  }

  /** In between the kernel may write and read the page, and no one else may. */
  lemma TestReached(x: State, y: State, frames: seq<Frame>)
    requires RangeMapped(x, y, PAGE_NUMBER, frames, FLAGS) && |frames| == 1 && PAGE_NUMBER < x.space.Limit()
    requires x.space.top == 1
    ensures Rights.At(y.space, PAGE_NUMBER) == Some(Processor.Access(frames[0], 0, true, false, false, false))
  {
    hide RangeMapped;
    hide Processor.Reach;
    hide Space.Struct;
    RangeFixed(x, y, frames);
    FlagsMean();
    hide Processor.FlagBit;
    Rights.MappedRights(x, y, PAGE_NUMBER, frames, FLAGS, 0);
  }

  lemma FlagsMean()
    ensures Processor.FlagBit(FLAGS, 0) && Processor.FlagBit(FLAGS, 2) && !Processor.FlagBit(FLAGS, 4)
    ensures !Processor.FlagBit(FLAGS, 5) && !Processor.FlagBit(FLAGS, 6)
  {
  }

  lemma RangeFixed(x: State, y: State, frames: seq<Frame>)
    requires RangeMapped(x, y, PAGE_NUMBER, frames, FLAGS)
    ensures SameFixed(x.space, y.space)
  {
  }

  /** Afterwards the page faults, as the test expects. */
  lemma TestFaults(s: Space, z: Space, live: Live, tlb: Tlb)
    requires ClearIn(s, TEST, END) && z.Trans(PAGE_NUMBER) == s.Trans(PAGE_NUMBER) && PAGE_NUMBER < z.Limit()
    requires Good(z, live, tlb)
    ensures Rights.At(z, PAGE_NUMBER) == None && PAGE_NUMBER !in tlb
  {
    assert Contained(PAGE_NUMBER, TEST, END);
    Processor.ReachIsTrans(z, PAGE_NUMBER);
  }

  lemma TestRemovable(x: State, y: State, frames: seq<Frame>)
    requires x.space.Struct() && ClearIn(x.space, TEST, END) && x.space.low <= PAGE_NUMBER
    requires RangeMapped(x, y, PAGE_NUMBER, frames, FLAGS)
    ensures Removable(y.space, TEST, END)
  {
    hide RangeMapped;
    ClearIsRemovable(x.space, TEST, END);
    MapKeepsRemovable(x, y, PAGE_NUMBER, frames, FLAGS, TEST, END);
  }

  lemma TestSound(y: State, z: State, r: MappingResult, stop: Stop, tlb: Tlb)
    requires Outcome(y, z, TEST, END, y.space.Top(), r, stop) && r == Ok && Coherent(z.space, tlb)
    ensures Good(z.space, z.live, tlb)
  {
    DoneGood(y, z, TEST, END, y.space.Top(), tlb);
  }

  lemma BootFixed(l: Bootstrap.Layout, s: Space)
    requires l.Linked() && s == Bootstrap.BootSpace(l, s.ext, s.mem)
    ensures s.top == 1 && s.sticky && s.low == 2 * ENTRIES
  {
  }
}
