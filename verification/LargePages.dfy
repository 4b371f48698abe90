/** A large page that is mapped and unmapped again: its block goes back to the allocator, the call then
    fails, and the page still translates to the block. */
module LargePages {
  import opened Common
  import opened PageTableEntry
  import opened Geometry
  import opened PageTables
  import opened Ownership
  import opened Unmapping
  import opened Consistency
  import opened UnmapSteps
  import opened MapSteps
  import opened MapRange
  import opened Paging32
  import AddressSpaces
  import ZonedBuddy

  /** Removing any range that starts with a mapped large page and covers it. */
  lemma LargePageDangles(y: State, z: State, p: nat, w: Word, a: nat, b: nat, r: MappingResult, stop: Stop)
    requires y.space.Struct() && IsLeaf(w, 1) && Reg(p, 1) == Reg(a / PAGE, 1)
    requires a == Start(Reg(p, 1), 1) && Start(Reg(p, 1) + 1, 1) <= b
    requires y.space.Has(TagOf(p, 1), Index(p, 1)) && y.space.Slot(TagOf(p, 1), Index(p, 1)) == w
    requires Outcome(y, z, a, b, y.space.Top(), r, stop)
    ensures r == Err(MappingOver(Address(w)))
    ensures Manages(y.space.ext, LeafAddr(w), RegionSize(1)) ==> LeafAddr(w) !in z.live
    ensures forall q :: Reg(q, 1) == Reg(p, 1) ==> z.space.Trans(q) == LeafOf(w, 1)
  {
    var m := Reg(p, 1);
    LargeTrans(y.space, p, w);
    LargeBlocks(y.space, p, w, a, b);
    SucceedsExactly(y, z, a, b, y.space.Top(), r, stop);
    hide NothingBlocks;
    hide Done;
    hide Stopped;
    hide Space.Struct;
    hide Space.Trans;
    StopsAtOnce(y, z, p, w, a, b, stop, r.error);
  }

  lemma LargeBlocks(s: Space, p: nat, w: Word, a: nat, b: nat)
    requires IsLeaf(w, 1) && a == Start(Reg(p, 1), 1) && Start(Reg(p, 1) + 1, 1) <= b
    requires forall q :: Reg(q, 1) == Reg(p, 1) ==> s.Trans(q) == LeafOf(w, 1)
    ensures !NothingBlocks(s, a, b)
  {
    var m := Reg(p, 1);
    hide Space.Trans;
    NextRegion(m, 1);
    RegOfFirst(m, 1);
    assert Touched(First(m, 1), a, b) && s.Trans(First(m, 1)) == LeafOf(w, 1);
  }

  lemma LargeTrans(s: Space, p: nat, w: Word)
    requires s.Struct() && IsLeaf(w, 1) && s.Has(TagOf(p, 1), Index(p, 1)) && s.Slot(TagOf(p, 1), Index(p, 1)) == w
    ensures forall q :: Reg(q, 1) == Reg(p, 1) ==> s.Trans(q) == LeafOf(w, 1)
  {
    forall q: nat | Reg(q, 1) == Reg(p, 1)
      ensures s.Trans(q) == LeafOf(w, 1)
    {
      RegUp(q, p, 1, 2);
      TransOfSlot(s, q, 1);
    }
  }

  /** Nothing is removed before the large page stops the call. */
  lemma StopsAtOnce(y: State, z: State, p: nat, w: Word, a: nat, b: nat, stop: Stop, e: MappingError)
    requires y.space.Struct() && IsLeaf(w, 1) && a == Start(Reg(p, 1), 1) && Start(Reg(p, 1) + 1, 1) <= b
    requires y.space.Has(TagOf(p, 1), Index(p, 1)) && y.space.Slot(TagOf(p, 1), Index(p, 1)) == w
    requires forall q :: Reg(q, 1) == Reg(p, 1) ==> y.space.Trans(q) == LeafOf(w, 1)
    requires stop.At? && Stopped(y, z, a, b, y.space.Top(), stop.cut, stop.depth, stop.word, e)
    ensures e == MappingOver(Address(w))
    ensures Manages(y.space.ext, LeafAddr(w), RegionSize(1)) ==> LeafAddr(w) !in z.live
    ensures forall q :: Reg(q, 1) == Reg(p, 1) ==> z.space.Trans(q) == LeafOf(w, 1)
  {
    hide Stopped;
    hide Space.Struct;
    hide Space.Trans;
    hide StopSlot;
    hide NothingBlocks;
    hide Removed;
    hide Own;
    StopParts(y, z, a, b, stop, e);
    NothingBefore(y.space, p, w, a, stop.cut);
    SameSlot(y.space, p, w, stop.cut, stop.depth, stop.word);
    NothingRemoved(y.space, z.space, a);
  }

  lemma NothingBefore(s: Space, p: nat, w: Word, a: nat, cut: nat)
    requires IsLeaf(w, 1) && a == Start(Reg(p, 1), 1) && a <= cut && NothingBlocks(s, a, cut)
    requires forall q :: Reg(q, 1) == Reg(p, 1) ==> s.Trans(q) == LeafOf(w, 1)
    ensures cut == a
  {
    hide Space.Trans;
    RegOfFirst(Reg(p, 1), 1);
    assert s.Trans(First(Reg(p, 1), 1)) == LeafOf(w, 1);
    assert Touched(First(Reg(p, 1), 1), a, cut) || cut == a;
  }

  /** The leaf at the start of the page's region is the page's own. */
  lemma SameSlot(s: Space, p: nat, w: Word, cut: nat, d: nat, word: Word)
    requires IsLeaf(w, 1) && cut == Start(Reg(p, 1), 1) && StopSlot(s, cut, d, word)
    requires s.Has(TagOf(p, 1), Index(p, 1)) && s.Slot(TagOf(p, 1), Index(p, 1)) == w
    requires forall q :: Reg(q, 1) == Reg(p, 1) ==> s.Trans(q) == LeafOf(w, 1)
    ensures d == 1 && word == w && Reg(cut / PAGE, 1) == Reg(p, 1)
  {
    hide Space.Trans;
    RegOfFirst(Reg(p, 1), 1);
    assert cut / PAGE == First(Reg(p, 1), 1);
    RegUp(cut / PAGE, p, 1, 2);
    assert s.Trans(cut / PAGE) == LeafOf(word, d);
  }

  lemma NothingRemoved(s: Space, z: Space, a: nat)
    requires Removed(s, z, a, a)
    ensures forall q: nat {:trigger z.Trans(q)} :: z.Trans(q) == s.Trans(q)
  {
    hide Space.Trans;
    forall q: nat
      ensures z.Trans(q) == s.Trans(q)
    {
      assert !Contained(q, a, a);
    }
  }

  lemma StopParts(y: State, z: State, a: nat, b: nat, stop: Stop, e: MappingError)
    requires stop.At? && Stopped(y, z, a, b, y.space.Top(), stop.cut, stop.depth, stop.word, e)
    ensures a <= stop.cut < b && NothingBlocks(y.space, a, stop.cut) && Removed(y.space, z.space, a, stop.cut)
    ensures StopSlot(y.space, stop.cut, stop.depth, stop.word)
    ensures stop.depth > 0 && LeafInside(stop.cut, stop.depth, a, b) ==>
      && e == MappingOver(Address(stop.word))
      && (Manages(y.space.ext, LeafAddr(stop.word), RegionSize(stop.depth)) ==> LeafAddr(stop.word) !in z.live)
  {
    hide Own;
    hide Released;
    hide NothingBlocks;
    hide Space.Struct;
    hide Space.Trans;
  }

  /** Byte `cut` is the first in [a, b) whose page stands in the way, and it does so as a large page that
      [a, b) covers. */
  ghost predicate FirstLarge(s: Space, a: nat, b: nat, cut: nat) {
    && a <= cut < b && NothingBlocks(s, a, cut) && s.Trans(cut / PAGE).Some?
    && s.Trans(cut / PAGE).value.depth > 0 && LeafInside(cut, s.Trans(cut / PAGE).value.depth, a, b)
  }

  /** Exactly when a removal frees a page that stays mapped, told from the state before: a covered large
      page is the first to stand in the way. What was freed is what lay below it, and its block. */
  lemma DanglesExactly(x: State, y: State, a: nat, b: nat, self: Tag, r: MappingResult, stop: Stop)
    requires Outcome(x, y, a, b, self, r, stop)
    ensures (r.Err? && r.error.MappingOver?) <==> exists cut: nat :: FirstLarge(x.space, a, b, cut)
    ensures r.Err? && r.error.MappingOver? ==>
      && stop.At? && FirstLarge(x.space, a, b, stop.cut) && r.error.addr == Address(stop.word)
      && y.space.Trans(stop.cut / PAGE) == x.space.Trans(stop.cut / PAGE) == LeafOf(stop.word, stop.depth)
      && y.live == Freed(y.space, x.live - (Owned(x.space) - Owned(y.space)), LeafAddr(stop.word), RegionSize(stop.depth))
  {
    hide Space.Trans;
    hide Space.Struct;
    hide Own;
    if r.Ok? {
      assert NothingBlocks(x.space, a, b);
      forall cut: nat | FirstLarge(x.space, a, b, cut)
        ensures false
      {
        NoneEarlier(x.space, a, b, cut);
      }
    } else {
      StopIsFirst(x, y, a, b, self, stop, r.error);
      if r.error.MappingOver? {
        assert FirstLarge(x.space, a, b, stop.cut);
      } else {
        forall cut: nat | FirstLarge(x.space, a, b, cut)
          ensures false
        {
          OneFirst(x.space, a, b, stop.cut, cut);
        }
      }
    }
  }

  lemma StopIsFirst(x: State, y: State, a: nat, b: nat, self: Tag, stop: Stop, e: MappingError)
    requires stop.At? && Stopped(x, y, a, b, self, stop.cut, stop.depth, stop.word, e)
    ensures a <= stop.cut < b && NothingBlocks(x.space, a, stop.cut)
    ensures x.space.Trans(stop.cut / PAGE) == y.space.Trans(stop.cut / PAGE) == LeafOf(stop.word, stop.depth)
    ensures x.space.Trans(stop.cut / PAGE).Some? && x.space.Trans(stop.cut / PAGE).value.depth == stop.depth
    ensures e.MappingOver? <==> stop.depth > 0 && LeafInside(stop.cut, stop.depth, a, b)
    ensures e.MappingOver? ==> e.addr == Address(stop.word)
    ensures !e.MappingOver? ==> !LeafInside(stop.cut, stop.depth, a, b)
    ensures e.MappingOver? ==>
      y.live == Freed(y.space, x.live - (Owned(x.space) - Owned(y.space)), LeafAddr(stop.word), RegionSize(stop.depth))
  {
    hide Space.Trans;
    hide Space.Struct;
    hide Own;
    hide NothingBlocks;
    hide Unmapped;
    assert IsLeaf(stop.word, stop.depth);
    if e.MappingOver? {
      var mid: Live :| StoppedOver(x, y, mid, stop.depth, stop.word);
    }
  }

  /** Two bytes cannot both be the first that stands in the way, one inside and one not. */
  lemma OneFirst(s: Space, a: nat, b: nat, here: nat, cut: nat)
    requires a <= here < b && NothingBlocks(s, a, here) && s.Trans(here / PAGE).Some?
    requires !LeafInside(here, s.Trans(here / PAGE).value.depth, a, b)
    ensures !FirstLarge(s, a, b, cut)
  {
    hide Space.Trans;
    if FirstLarge(s, a, b, cut) {
      if cut < here { NoneEarlier(s, a, here, cut); }
      if here < cut {
        NoneEarlier(s, a, cut, here);
        InsideWidens(here, a, cut, b);
      }
    }
  }

  lemma NoneEarlier(s: Space, a: nat, b: nat, cut: nat)
    requires NothingBlocks(s, a, b) && a <= cut < b && s.Trans(cut / PAGE).Some?
    ensures s.Trans(cut / PAGE).value.depth == 0 && LeafInside(cut, 0, a, b)
  {
    hide Space.Trans;
    assert Touched(cut / PAGE, a, b);
    SmallInside(cut, a, b);
  }

  lemma InsideWidens(here: nat, a: nat, cut: nat, b: nat)
    requires cut <= b
    ensures LeafInside(here, 0, a, cut) ==> LeafInside(here, 0, a, b)
  {
  }

  /** A block just handed out is used by no table and mapped nowhere. */
  lemma FreshBlock(s: Space, live: Live, tlb: Tlb, a: nat, w: Word)
    requires Good(s, live, tlb) && a !in live && a % PAGE == 0
    requires Manages(s.ext, a, PAGE) && LeafAddr(w) == a
    ensures Good(s, live[a := RegionSize(1)], tlb) && MayMap(s, live[a := RegionSize(1)], w, 1)
  {
    FreshFrame(s, live, a);
    OwnedIsLive(s, live);
    assert Own(s, live[a := RegionSize(1)]);
  }

  /** The word of a present 4 MiB page. */
  lemma LargeWord(a: Frame, flags: bv7, sticky: bool)
    requires flags & PRESENT != 0 && flags & GLOBAL == 0
    ensures var w := Encode(Page(Word(a, 0), flags), false, sticky);
            && IsLeaf(w, 1) && LeafAddr(w) == a && Address(w) == Word(a, 0)
            && LeafOf(w, 1) == Some(Mapping(1, a, flags & ENCODABLE))
  {
    DecodeEncode(Page(Word(a, 0), flags), false, sticky);
    var h := ToHardware(flags);
    assert h & P != 0 && (h | PS) & 0xf00 == 0 && (h | PS) & DECLARED & PS != 0 && (h | PS) & DECLARED & P != 0;
  }

  /** Maps a fresh 4 MiB block where there is no table, and unmaps it. Whenever the mapping succeeds, the
      unmapping fails, gives the block back, and leaves it mapped. */
  method MapAndUnmap(space: AddressSpaces.AddressSpace, vaddr: nat, flags: bv7)
    returns (block: Option<nat>, mapped: MappingResult, unmapped: MappingResult)
    requires space.Sound() && space.top > 0 && Aligned(vaddr, 1) && PAGE * space.low <= vaddr
    requires vaddr + RegionSize(1) + RegionSize(space.top) - 1 < space.AddressLimit()
    requires Removable(space.S(), vaddr, EffectiveEnd(vaddr, RegionSize(1), space.top))
    requires TagOf(vaddr / PAGE, 0) !in space.at && TagOf(vaddr / PAGE, space.top) == Tag(space.top, 0)
    requires flags & PRESENT != 0 && flags & GLOBAL == 0
    modifies space, space.window, space.alloc
    ensures block.None? <==> ZonedBuddy.NoneGrants(space.alloc.lib, old(space.alloc.zones), old(space.alloc.asked),
                                                   RegionSize(1) / PAGE)
    ensures block.Some? && mapped == Err(PageAllocationFailed) ==> space.alloc.Starved(old(space.alloc.asked), 1)
    ensures block.Some? && space.alloc.refusals == old(space.alloc.refusals) ==>
      (mapped == Ok <==> Barrier(old(space.S()), vaddr / PAGE, 1, space.top) == None)
    ensures block.Some? && mapped == Ok ==>
      && block.value % PAGE == 0 && block.value < TWO32
      && unmapped == Err(MappingOver(Word(block.value, 0))) && block.value !in space.alloc.live
      && forall q :: Reg(q, 1) == Reg(vaddr / PAGE, 1) ==>
           space.S().Trans(q) == Some(Mapping(1, block.value, flags & ENCODABLE))
  {
    hide Good;
    hide Coherent;
    hide Own;
    hide Space.Struct;
    hide Outcome;
    hide MapResult;
    hide Barrier;
    hide MayMap;
    hide Manages;
    hide Encode;
    hide RegionSize;
    hide Start;
    hide Aligned;
    hide Reg;
    hide ZonedBuddy.ZonesValid;
    hide ZonedBuddy.LiveIs;
    hide ZonedBuddy.Available;
    hide ZonedBuddy.NoneGrants;
    hide ZonedBuddy.FirstGrants;
    mapped, unmapped := Ok, Ok;
    Regions32();
    ghost var x, p := space.Snap(), vaddr / PAGE;
    GoodParts(x.space, x.live, space.tlb);
    block := space.alloc.Alloc(RegionSize(1));
    if block.None? {
      return;
    }
    var paddr := Word(block.value, 0);
    ghost var w := Encode(Page(paddr, flags), false, space.sticky);
    LargeWord(block.value, flags, space.sticky);
    ZonedBuddy.GrantedManaged(space.alloc.lib, old(space.alloc.zones), old(space.alloc.asked), RegionSize(1) / PAGE,
                              block.value);
    FreshBlock(x.space, x.live, space.tlb, block.value, w);
    GoodParts(space.S(), space.alloc.live, space.tlb);
    ghost var taken := space.Snap();
    ghost var leak;
    TopTable(x.space);
    mapped, leak := space.MapPage(AddressSpaces.PageTableLevel(space.root, space.top), vaddr, paddr, Size4M, flags);
    ResultSays(taken, space.Snap(), p, space.top, w, mapped, leak);
    if mapped.Err? {
      assert space.alloc.refusals == old(space.alloc.refusals) ==> mapped != Err(PageAllocationFailed);
      return;
    }
    ghost var y := space.Snap();
    MapResultGood(taken, y, p, 1, space.top, w, mapped, leak, space.tlb);
    LargeSlot(taken, y, p, space.top, w, leak);
    AlignedRange(vaddr, space.top, space.low);
    GoodParts(taken.space, taken.live, map[]);
    LargeRemovable(taken, y, p, space.top, w, leak, vaddr, EffectiveEnd(vaddr, RegionSize(1), space.top));
    ghost var stop;
    unmapped, stop := space.Unmap(vaddr, RegionSize(1));
    GoodParts(y.space, y.live, map[]);
    LargePageDangles(y, space.Snap(), p, w, vaddr, EffectiveEnd(vaddr, RegionSize(1), space.top), unmapped, stop);
  }

  lemma ResultSays(x: State, y: State, p: nat, d: nat, w: Word, r: MappingResult, leak: set<nat>)
    requires MapResult(x, y, p, 1, d, w, r, leak)
    ensures r == Err(PageAllocationFailed) || (r.Ok? <==> Barrier(x.space, p, 1, d) == None)
  {
    hide Mapped;
    hide NotMapped;
    hide Barrier;
  }

  lemma TopTable(s: Space)
    requires s.Struct()
    ensures Tag(s.top, 0) in s.at && s.at[Tag(s.top, 0)] == s.root
  {
  }

  lemma LargeSlot(x: State, y: State, p: nat, d: nat, w: Word, leak: set<nat>)
    requires MapResult(x, y, p, 1, d, w, Ok, leak)
    ensures y.space.Has(TagOf(p, 1), Index(p, 1)) && y.space.Slot(TagOf(p, 1), Index(p, 1)) == w
    ensures SameFixed(x.space, y.space)
  {
  }

  lemma ResultMapped(x: State, y: State, p: nat, d: nat, w: Word, leak: set<nat>)
    requires MapResult(x, y, p, 1, d, w, Ok, leak)
    ensures Mapped(x, y, p, 1, d, w)
  {
  }

  /** The space answers for the new page, and the other leaves were there before. */
  lemma LargeRemovable(x: State, y: State, p: nat, d: nat, w: Word, leak: set<nat>, a: nat, b: nat)
    requires x.space.Struct() && MapResult(x, y, p, 1, d, w, Ok, leak) && Removable(x.space, a, b)
    requires Address(w).low == 0 && x.space.low <= First(Reg(p, 1), 1)
    ensures Removable(y.space, a, b)
  {
    hide MapResult;
    hide Mapped;
    hide Space.Struct;
    hide IsLeaf;
    hide Manages;
    LargeSlot(x, y, p, d, w, leak);
    ResultMapped(x, y, p, d, w, leak);
    forall t: Tag, i: nat | LeafWithin(y.space, t, i, a, b)
      ensures Freeable(y.space, t, i)
    {
      MappedLeaf(x, y, p, 1, d, w, t, i);
      if t == TagOf(p, 1) && i == Index(p, 1) {
        assert SlotRegion(t, i) == Reg(p, 1);
      } else {
        assert x.space.Slot(t, i) == x.space.Slot(t, i) && LeafWithin(x.space, t, i, a, b);
      }
    }
  }

  lemma AlignedRange(vaddr: nat, top: nat, low: nat)
    requires Aligned(vaddr, 1)
    ensures PAGE * low <= vaddr ==> low <= First(Reg(vaddr / PAGE, 1), 1)
    ensures vaddr == Start(Reg(vaddr / PAGE, 1), 1)
    ensures Start(Reg(vaddr / PAGE, 1) + 1, 1) <= EffectiveEnd(vaddr, RegionSize(1), top)
  {
    AlignDownRegion(vaddr, 1);
    NextRegion(Reg(vaddr / PAGE, 1), 1);
  }
}
