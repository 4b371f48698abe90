/** An address space over tables in physical memory: single-level operations, and the recursive
    operations built from them. */
module AddressSpaces {
  import opened Common
  import opened PageTableEntry
  import opened Geometry
  import opened PageTables
  import opened TableSteps
  import opened Ownership
  import opened Unmapping
  import opened Consistency
  import opened UnmapSteps
  import opened MapSteps
  import opened MapRange
  import opened Paging32
  import opened Covering
  import opened Refusal
  import TmpPage
  import ZonedBuddy

  /** A level as the code passes it around: the frame of its table, and its depth for the shift. */
  datatype PageTableLevel = PageTableLevel(table: Frame, depth: nat)

  class AddressSpace {
    const window: TmpPage.Window
    const alloc: ZonedBuddy.Allocator
    const root: Frame
    const top: nat
    const sticky: bool
    ghost const low: nat
    ghost const ext: seq<Extent>
    /** Physical memory. */
    var mem: Memory
    /** Where the tables in use are. */
    ghost var at: map<Tag, Frame>
    /** Translations the processor has cached. */
    ghost var tlb: Tlb

    /** Adopts the tables that hang from a top-level table. */
    constructor (ghost s: Space, window: TmpPage.Window, alloc: ZonedBuddy.Allocator, mem: Memory, root: Frame,
                 top: nat, sticky: bool)
      requires s == Space(mem, s.at, root, top, s.low, sticky, alloc.Ext())
      ensures this.window == window && this.alloc == alloc && S() == s && tlb == map[] && ext == alloc.Ext()
    {
      this.window, this.alloc := window, alloc;
      this.root, this.top, this.sticky, this.low, this.ext := root, top, sticky, s.low, s.ext;
      this.mem, this.at, this.tlb := mem, s.at, map[];
    }

    /** One past the largest address: no sum of addresses may reach it. */
    ghost function AddressLimit(): nat { Start(1, top + 1) }

    ghost function S(): Space
      reads `mem, `at
    {
      Space(mem, at, root, top, low, sticky, ext)
    }

    ghost function Snap(): State
      reads `mem, `at, alloc
    {
      State(S(), alloc.live)
    }

    /** The allocator and the window are usable, and every frame of the allocator is memory. */
    ghost predicate Ready()
      reads `mem, window, alloc
    {
      && alloc.Valid() && alloc.Ext() == ext && window.Valid() && !window.locked
      && forall f: Frame {:trigger f in mem} :: Manages(ext, f, PAGE) ==> f in mem && |mem[f]| == ENTRIES
    }

    ghost predicate Sound()
      reads this, window, alloc
    {
      Ready() && Good(S(), alloc.live, tlb)
    }

    /** The processor may drop cached translations and walk the tables for others. */
    method Hardware()
      modifies `tlb
      ensures forall p :: p in tlb ==> (p in old(tlb) && tlb[p] == old(tlb)[p]) || S().Trans(p) == Some(tlb[p])
    {
      ghost var s, was := S(), tlb;
      ghost var next: Tlb :| forall p {:trigger p in next} {:trigger next[p]} :: p in next ==>
        (p in was && next[p] == was[p]) || s.Trans(p) == Some(next[p]);
      tlb := next;
      assert S() == s;
    }

    /** Maps the level's table to the window and finds the slot for an address. */
    method LockEntry(level: PageTableLevel, vaddr: nat) returns (index: nat)
      requires window.Valid() && !window.locked
      modifies window
      ensures window.locked && window.Shows(level.table)
      ensures index == Index(vaddr / PAGE, level.depth)
    {
      window.Map(Word(level.table, 0));
      index := vaddr / RegionSize(level.depth) % ENTRIES;
      SlotByShift(vaddr, level.depth);
    }

    /** Reads a word of the table in the window. */
    method ReadWord(ghost table: Frame, index: nat) returns (w: Word)
      requires window.Shows(table) && table in mem && |mem[table]| == ENTRIES && index < ENTRIES
      modifies window`entry, window`cached
      ensures window.Shows(table) && w == mem[table][index]
    {
      window.Hardware();
      assert window.Shows(table);
      var frame := window.Reaches(false);
      w := mem[frame.value][index];
    }

    method WriteWord(ghost table: Frame, index: nat, w: Word)
      requires window.Shows(table) && table in mem && |mem[table]| == ENTRIES && index < ENTRIES
      modifies this`mem, window`entry, window`cached
      ensures window.Shows(table) && mem == Store(old(mem), table, index, w)
    {
      window.Hardware();
      assert window.Shows(table);
      var frame := window.Reaches(true);
      mem := mem[frame.value := mem[frame.value][index := w]];
    }

    method GetEntry(level: PageTableLevel, vaddr: nat) returns (entry: Entry)
      requires Ready() && level.table in mem && |mem[level.table]| == ENTRIES
      modifies window
      ensures Ready()
      ensures entry == Decode(mem[level.table][Index(vaddr / PAGE, level.depth)], level.depth == 0)
    {
      var index := LockEntry(level, vaddr);
      var w := ReadWord(level.table, index);
      entry := Decode(w, level.depth == 0);
      window.Unlock();
    }

    /** Stores an entry and flushes the address, unless the slot is locked. */
    method SetEntry(level: PageTableLevel, vaddr: nat, entry: Entry) returns (r: MappingResult)
      requires Ready() && Coherent(S(), tlb) && level.table in mem && |mem[level.table]| == ENTRIES
      requires entry.Page? ==> Aligned(vaddr, level.depth)
      modifies this`mem, this`tlb, window
      ensures Ready()
      ensures var index := Index(vaddr / PAGE, level.depth);
              var w := old(mem)[level.table][index];
              && r == (if Locked(w, level.depth == 0) then Err(MappingOver(Address(w))) else Ok)
              && mem == (if r.Ok? then
                           Store(old(mem), level.table, index, Encode(entry, level.depth == 0, sticky))
                         else old(mem))
      ensures r.Err? ==> tlb == old(tlb)
      ensures Refilled(old(S()), S(), tlb, vaddr / PAGE)
    {
      var index := LockEntry(level, vaddr);
      var w := ReadWord(level.table, index);
      if Locked(w, level.depth == 0) {
        window.Unlock();
        return Err(MappingOver(Address(w)));
      }
      Hardware();
      WriteWord(level.table, index, Encode(entry, level.depth == 0, sticky));
      Hardware();
      tlb := tlb - {vaddr / PAGE};
      Hardware();
      window.Unlock();
      return Ok;
    }

    lemma FrameReady(f: Frame)
      requires Ready() && Manages(ext, f, PAGE)
      ensures f in mem && |mem[f]| == ENTRIES
    {
    }

    /** Fills a frame with NULL words through the window. */
    method ClearFrame(target: Frame)
      requires Ready() && target in mem && |mem[target]| == ENTRIES
      modifies this`mem, window
      ensures Ready() && mem == old(mem)[target := Zeros()]
    {
      window.Map(Word(target, 0));
      for index := 0 to ENTRIES
        invariant window.Shows(target) && window.locked
        invariant target in mem && |mem[target]| == ENTRIES && mem == old(mem)[target := mem[target]]
        invariant forall j :: 0 <= j < index ==> mem[target][j] == NULL_WORD
      {
        WriteWord(target, index, NULL_WORD);
      }
      assert mem[target] == Zeros();
      window.Unlock();
    }

    /** The allocator was called since call number `since`, or not; it was starved if the calls ended with
        a refusal, and none refused otherwise. */
    ghost predicate Asked(refused: bool, since: nat, refusals: set<nat>)
      reads alloc
    {
      && since <= alloc.asked && refusals <= alloc.refusals
      && (refused ==> alloc.Starved(since, 1))
      && (!refused ==> alloc.refusals == refusals)
    }

    /** A frame that nothing used, from the allocator. */
    method AllocFrame() returns (r: Option<Frame>)
      requires Ready()
      modifies alloc
      ensures Ready()
      ensures r.None? ==> alloc.live == old(alloc.live)
      ensures r.Some? ==> Manages(ext, r.value, PAGE) && r.value !in old(alloc.live)
      ensures r.Some? ==> alloc.live == old(alloc.live)[r.value := PAGE]
      ensures Asked(r.None?, old(alloc.asked), old(alloc.refusals))
    {
      hide ZonedBuddy.ZonesValid;
      hide ZonedBuddy.LiveIs;
      hide ZonedBuddy.NoneGrants;
      hide ZonedBuddy.FirstGrants;
      hide ZonedBuddy.Take;
      hide ZonedBuddy.CounterSum;
      hide Manages;
      var a := alloc.Alloc(PAGE);
      r := if a.Some? then Some(a.value) else None;
    }

    /** A cleared table from a new frame. */
    method NewSublevel(level: PageTableLevel) returns (r: Option<PageTableLevel>)
      requires Sound() && level.depth > 0
      modifies this`mem, window, alloc
      ensures Sound() && Asked(r.None?, old(alloc.asked), old(alloc.refusals))
      ensures r.None? ==> mem == old(mem) && alloc.live == old(alloc.live)
      ensures r.Some? ==>
        && var g := r.value.table;
        && r.value.depth == level.depth - 1
        && Manages(ext, g, PAGE) && g !in old(alloc.live)
        && g in old(mem) && mem == old(mem)[g := Zeros()]
        && alloc.live == old(alloc.live)[g := PAGE]
    {
      hide Good;
      hide Ready;
      hide Manages;
      var a := AllocFrame();
      if a.None? {
        return None;
      }
      FrameReady(a.value);
      ClearFresh(S(), old(alloc.live), tlb, a.value);
      ClearFrame(a.value);
      return Some(PageTableLevel(a.value, level.depth - 1));
    }

    /** Gives a block back to the allocator. */
    method FreeBlock(a: nat, size: nat)
      requires Ready() && size > 0
      requires Manages(ext, a, size) ==> a in alloc.live && alloc.live[a] == size
      modifies alloc
      ensures alloc.Book() == old(alloc.Book())
      ensures Ready() && alloc.live == Freed(S(), old(alloc.live), a, size)
    {
      alloc.Free(a, size);
    }

    method FreeSublevel(sub: PageTableLevel)
      requires Ready()
      requires Manages(ext, sub.table, PAGE) ==> sub.table in alloc.live && alloc.live[sub.table] == PAGE
      modifies alloc
      ensures alloc.Book() == old(alloc.Book())
      ensures Ready() && alloc.live == Freed(S(), old(alloc.live), sub.table, PAGE)
    {
      FreeBlock(sub.table, PAGE);
    }

    /** Frees an emptied sub-table and clears its slot. */
    method DropChild(level: PageTableLevel, page: nat, sub: PageTableLevel, ghost t: Tag, ghost m: nat)
      returns (r: MappingResult)
      requires Sound() && t in at && t.depth > 0 && level == PageTableLevel(at[t], t.depth)
      requires m / ENTRIES == t.region && page == Start(m, t.depth)
      requires Child(t, m % ENTRIES) in at && sub.table == at[Child(t, m % ENTRIES)]
      requires S().Bare(Child(t, m % ENTRIES))
      modifies this, window, alloc
      ensures Sound() && r == Ok && alloc.Book() == old(alloc.Book())
      ensures var c := Child(t, m % ENTRIES);
              && old(S()).Has(Parent(c), c.region % ENTRIES)
              && S() == Dropped(old(S()), c, NullAt(old(S()), t.depth))
              && Released(old(S()), old(alloc.live), S(), alloc.live)
    {
      hide Ready;
      hide Good;
      hide Coherent;
      hide Refilled;
      hide Released;
      hide Space.Bare;
      hide Manages;
      hide Aligned;
      hide Reg;
      hide Index;
      hide First;
      hide Freed;
      hide Dropped;
      ghost var s, live, tlb0 := S(), alloc.live, tlb;
      SlotAddress(m, t.depth);
      DropReady(s, live, tlb, t, m);
      GoodParts(s, live, tlb);
      FreeSublevel(sub);
      r := SetEntry(level, page, NULL);
      DropFacts(s, live, tlb0, t, m, mem, tlb, page / PAGE);
      at := at - {Child(t, m % ENTRIES)};
    }

    /** Whether the sub-table for region m holds any mapped entry. */
    method ScanMapped(sub: PageTableLevel, page: nat, regionSize: nat, ghost c: Tag, ghost m: nat)
      returns (mapped: bool)
      requires Ready() && S().Struct() && c in at && sub == PageTableLevel(at[c], c.depth)
      requires m == c.region && page == Start(m, c.depth + 1) && regionSize == RegionSize(c.depth + 1)
      requires page + regionSize < AddressLimit()
      modifies window
      ensures Ready()
      ensures mapped <==> exists i: nat :: i < ENTRIES && InUse(S(), c, i)
      ensures !mapped ==> S().Bare(c)
    {
      mapped := false;
      var addr, step := page, RegionSize(sub.depth);
      ghost var j: nat := 0;
      SlotBound(m, 0, c.depth);
      ghost var s := S();
      assert s.Has(c, 0);
      hide First;
      hide Start;
      hide Reg;
      hide RegionSize;
      hide AddressLimit;
      hide Index;
      hide Decode;
      hide IsTable;
      hide IsLeaf;
      hide Aligned;
      hide Manages;
      hide Ready;
      hide Space.Struct;
      hide Space.Bare;
      hide Space.Vacant;
      hide InUse;
      while addr < page + regionSize
        invariant Ready() && j <= ENTRIES && addr == Start(ENTRIES * m + j, c.depth)
        invariant addr < page + regionSize <==> j < ENTRIES
        invariant S() == s
        invariant forall i: nat {:trigger s.Vacant(c, i)} :: i < j ==> s.Vacant(c, i)
        invariant forall i: nat {:trigger InUse(s, c, i)} :: i < j ==> !InUse(s, c, i)
        decreases ENTRIES - j
      {
        SlotAt(m, j, c.depth);
        var entry := GetEntry(sub, addr);
        assert s.Has(c, j) && entry == Decode(s.Slot(c, j), c.depth == 0);
        InUseIs(s, c, j);
        if entry.Mapped() {
          mapped := true;
          assert j < ENTRIES && InUse(S(), c, j);
          break;
        }
        VacantSlot(s, c, j);
        NextSlot(m, j, c.depth);
        assert addr + step < AddressLimit();
        addr := addr + step;
        j := j + 1;
      }
      if !mapped { VacantBare(s, c); }
    }

    /** The table t is where `level` says, with sub-table `sub` in slot region m. */
    ghost predicate SubAt(level: PageTableLevel, sub: PageTableLevel, t: Tag, m: nat)
      reads `at
    {
      && t in at && level == PageTableLevel(at[t], t.depth) && t.depth > 0
      && m / ENTRIES == t.region && Child(t, m % ENTRIES) in at
      && sub == PageTableLevel(at[Child(t, m % ENTRIES)], t.depth - 1)
    }

    /** The part of a range in the region of a slot that holds a table. */
    method UnmapTable(level: PageTableLevel, page: nat, sub: PageTableLevel, vaddr: nat, size: nat, whole: bool,
                      ghost t: Tag, ghost m: nat)
      returns (r: MappingResult, ghost stop: Stop)
      requires Sound() && SubAt(level, sub, t, m) && page == Start(m, t.depth)
      requires InSlot(t, m, vaddr, vaddr + size) && (whole <==> Whole(m, t.depth, vaddr, vaddr + size))
      requires vaddr == page || vaddr + size == Start(m + 1, t.depth)
      requires Removable(S(), vaddr, vaddr + size) && Start(m + 2, t.depth) <= AddressLimit()
      modifies this, window, alloc
      ensures Ready() && Coherent(S(), tlb) && alloc.Book() == old(alloc.Book())
      ensures Outcome(old(Snap()), Snap(), vaddr, vaddr + size, t, r, stop)
      decreases t.depth, 0
    {
      hide Ready;
      hide Good;
      hide Coherent;
      hide Done;
      hide Stopped;
      hide Released;
      hide Own;
      hide Start;
      hide RegionSize;
      hide Space.Struct;
      hide Space.Bare;
      hide Hollow;
      hide NullAt;
      ghost var x, c, hi := Snap(), Child(t, m % ENTRIES), vaddr + size;
      GoodParts(x.space, x.live, tlb);
      SubRange(t, m, vaddr, size, top);
      NextRegion(m, t.depth);
      NextRegion(m + 1, t.depth);
      r, stop := UnmapFree(sub, vaddr, size, c);
      ghost var y := Snap();
      if r.Err? {
        SubStop(x, y, c, t, vaddr, hi, stop.cut, stop.depth, stop.word, r.error);
        return;
      }
      DoneGood(x, y, vaddr, hi, c, tlb);
      var mapped := false;
      if !whole {
        mapped := ScanMapped(sub, page, RegionSize(level.depth), c, m);
        HollowIs(S(), c);
      }
      if !mapped {
        DoneBare(x, y, vaddr, hi, c, whole);
        r := DropChild(level, page, sub, t, m);
        GoodParts(S(), alloc.live, tlb);
        DropDone(x.space, x.live, y.space, y.live, t, m, vaddr, hi, alloc.live);
      } else {
        KeepDone(x, y, t, m, vaddr, hi);
      }
    }

    /** The page of a slot that the range covers. The frame goes back first; a large page's slot then
        refuses to be cleared. */
    method UnmapPage(level: PageTableLevel, page: nat, paddr: Word, ghost t: Tag, ghost m: nat)
      returns (r: MappingResult, ghost stop: Stop)
      requires Sound() && t in at && level == PageTableLevel(at[t], t.depth)
      requires m / ENTRIES == t.region && page == Start(m, t.depth)
      requires S().Has(t, m % ENTRIES) && IsLeaf(S().Slot(t, m % ENTRIES), t.depth) && Freeable(S(), t, m % ENTRIES)
      requires paddr == Address(S().Slot(t, m % ENTRIES))
      modifies this, window, alloc
      ensures Ready() && Coherent(S(), tlb) && alloc.Book() == old(alloc.Book())
      ensures Outcome(old(Snap()), Snap(), page, Start(m + 1, t.depth), t, r, stop)
    {
      hide Ready;
      hide Good;
      hide Coherent;
      hide Refilled;
      hide Done;
      hide Stopped;
      hide Released;
      hide Own;
      hide Start;
      hide RegionSize;
      hide Aligned;
      hide Index;
      hide Space.Struct;
      hide Freed;
      ghost var s, live, tlb0, w := S(), alloc.live, tlb, S().Slot(t, m % ENTRIES);
      GoodParts(s, live, tlb);
      LeafPlace(s, live, tlb, t, m);
      FreeBlock(Value(paddr), RegionSize(level.depth));
      ghost var freed := alloc.live;
      r := SetEntry(level, page, NULL);
      if r.Err? {
        stop := At(page, t.depth, w);
        LargeStop(s, live, t, m, page, Start(m + 1, t.depth));
        return;
      }
      stop := Nowhere;
      ClearFacts(s, live, tlb0, t, m, mem, tlb);
      GoodParts(S(), alloc.live, tlb);
      ClearDone(s, live, t, m, page, Start(m + 1, t.depth), alloc.live);
    }

    /** One round of the loop in `UnmapFree`. */
    method UnmapRegion(level: PageTableLevel, page: nat, regionSize: nat, vaddr: nat, size: nat,
                       ghost t: Tag, ghost m: nat)
      returns (r: MappingResult, ghost stop: Stop)
      requires Sound() && t in at && level == PageTableLevel(at[t], t.depth)
      requires page == Start(m, t.depth) && regionSize == RegionSize(t.depth)
      requires InSlot(t, m, PartLow(page, vaddr), PartHigh(page, regionSize, vaddr, size))
      requires vaddr + size < AddressLimit()
      requires Removable(S(), PartLow(page, vaddr), PartHigh(page, regionSize, vaddr, size))
      requires Start(m + 2, t.depth) <= AddressLimit()
      modifies this, window, alloc
      ensures Ready() && Coherent(S(), tlb) && alloc.Book() == old(alloc.Book())
      ensures Outcome(old(Snap()), Snap(), PartLow(page, vaddr), PartHigh(page, regionSize, vaddr, size), t, r, stop)
      decreases t.depth, 1
    {
      hide Ready;
      hide Good;
      hide Coherent;
      hide Done;
      hide Stopped;
      hide Own;
      hide Start;
      hide RegionSize;
      hide Index;
      hide Space.Struct;
      hide Removable;
      hide Freeable;
      hide Locked;
      ghost var s, live, lo, hi := S(), alloc.live, PartLow(page, vaddr), PartHigh(page, regionSize, vaddr, size);
      GoodParts(s, live, tlb);
      NextRegion(m, t.depth);
      NextRegion(m + 1, t.depth);
      assert page + regionSize < AddressLimit() && vaddr + size < AddressLimit();
      SlotRead(s, t, m);
      stop := Nowhere;
      var entry := GetEntry(level, page);
      if page < vaddr || page + regionSize > vaddr + size {
        match entry {
          case Level(table) =>
            var sub := PageTableLevel(table.base, level.depth - 1);
            if page < vaddr {
              r, stop := UnmapTable(level, page, sub, vaddr, page + regionSize - vaddr, false, t, m);
            } else {
              r, stop := UnmapTable(level, page, sub, page, vaddr + size - page, false, t, m);
            }
          case Page(paddr, flags) =>
            if flags & PRESENT != 0 {
              r, stop := Err(UnmappingPartOfLargePage(paddr)), At(lo, t.depth, s.Slot(t, m % ENTRIES));
              PartStop(s, live, t, m, lo, hi);
            } else {
              r := Ok;
              SkipDone(s, live, t, m, lo, hi);
            }
        }
      } else {
        match entry {
          case Level(table) =>
            var sub := PageTableLevel(table.base, level.depth - 1);
            r, stop := UnmapTable(level, page, sub, page, regionSize, true, t, m);
          case Page(paddr, flags) =>
            if flags & PRESENT != 0 {
              LeafRemovable(s, t, m);
              r, stop := UnmapPage(level, page, paddr, t, m);
            } else {
              r := Ok;
              SkipDone(s, live, t, m, lo, hi);
            }
        }
      }
    }

    /** Unmaps and frees what lies in a range beneath a table. */
    method UnmapFree(level: PageTableLevel, vaddr: nat, size: nat, ghost t: Tag)
      returns (r: MappingResult, ghost stop: Stop)
      requires Sound() && t in at && level == PageTableLevel(at[t], t.depth)
      requires Start(t.region, t.depth + 1) <= vaddr && vaddr + size <= Start(t.region + 1, t.depth + 1)
      requires vaddr + size + RegionSize(t.depth) - 1 < AddressLimit()
      requires Removable(S(), vaddr, EffectiveEnd(vaddr, size, t.depth))
      modifies this, window, alloc
      ensures Ready() && Coherent(S(), tlb) && alloc.Book() == old(alloc.Book())
      ensures Outcome(old(Snap()), Snap(), vaddr, EffectiveEnd(vaddr, size, t.depth), t, r, stop)
      decreases t.depth, 2
    {
      hide Ready;
      hide Good;
      hide Coherent;
      hide Done;
      hide Stopped;
      hide Own;
      hide Start;
      hide RegionSize;
      hide Regions;
      hide AlignDown;
      hide AlignUp;
      hide InSlot;
      hide Space.Struct;
      hide Removable;
      ghost var x, d, hi := Snap(), t.depth, EffectiveEnd(vaddr, size, t.depth);
      ghost var first, last := RegionsExist(vaddr, size, d);
      GoodParts(x.space, x.live, tlb);
      TopDepth(x.space, t);
      EmptyDone(x.space, x.live, vaddr, t);
      RegionBounds(vaddr, size, d, first, last);
      r, stop := Ok, Nowhere;
      var regionSize := RegionSize(level.depth);
      assert vaddr + size + regionSize - 1 < AddressLimit();
      var start := AlignDown(vaddr, regionSize);
      var end := AlignUp(vaddr + size, regionSize);
      var page := start;
      ghost var m := first;
      RegionOrder(first, last, d);
      assert end < AddressLimit();
      while page < end
        invariant first <= m <= last && page == Start(m, d) && (m < last <==> page < end)
        invariant Sound() && t in at && at[t] == level.table
        invariant m == first ==> Snap() == x
        invariant m > first ==> Done(x, Snap(), vaddr, if m < last then Start(m, d) else hi, t)
        invariant r == Ok && Removable(S(), vaddr, hi) && alloc.Book() == old(alloc.Book())
        decreases last - m
      {
        ghost var y := Snap();
        RegionRound(vaddr, size, t, first, last, m, top);
        ghost var lo, to := PartLow(page, vaddr), PartHigh(page, regionSize, vaddr, size);
        RemovablePart(S(), vaddr, hi, lo, to);
        r, stop := UnmapRegion(level, page, regionSize, vaddr, size, t, m);
        if r.Err? {
          StopWiden(y, Snap(), t, m, lo, to, hi, stop.cut, stop.depth, stop.word, r.error);
          if m > first {
            StopAfter(x, y, Snap(), vaddr, m, hi, t, stop.cut, stop.depth, stop.word, r.error);
          }
          return;
        }
        DoneGood(y, Snap(), lo, to, t, tlb);
        RemovableStays(y, Snap(), lo, to, t, vaddr, hi);
        if m > first { DoneCompose(x, y, Snap(), vaddr, m, to, t); }
        page := page + regionSize;
        m := m + 1;
        RegionOrder(m, last, d);
      }
      GoodParts(S(), alloc.live, tlb);
    }

    /** The case of `map_page` that adds a table. */
    method AddTable(level: PageTableLevel, vaddr: nat, ghost p: nat, ghost k: nat, ghost w: Word)
      returns (r: MappingResult, sub: PageTableLevel, ghost leak: set<nat>)
      requires Sound() && p == vaddr / PAGE && TagOf(p, level.depth) in at && level.table == at[TagOf(p, level.depth)]
      requires k < level.depth && S().Vacant(TagOf(p, level.depth), Index(p, level.depth))
      requires MayMap(S(), alloc.live, w, k)
      modifies this, window, alloc
      ensures Sound() && Asked(r == Err(PageAllocationFailed), old(alloc.asked), old(alloc.refusals))
      ensures r.Ok? ==>
        && NotMapped(old(Snap()), Snap(), p, k, level.depth, {}) && MayMap(S(), alloc.live, w, k)
        && sub.depth == level.depth - 1 && TagOf(p, sub.depth) in at && at[TagOf(p, sub.depth)] == sub.table
        && Barrier(S(), p, k, sub.depth) == None
        && Held(old(S()), p, k) == {} && Held(S(), p, k) == {} && (k > 0 ==> TagOf(p, k - 1) !in at)
      ensures r.Ok? ==> !Locked(old(S()).Slot(TagOf(p, level.depth), Index(p, level.depth)), false)
      ensures r.Err? ==> NotMapped(old(Snap()), Snap(), p, k, level.depth, leak)
      ensures r.Err? ==> Untouched(old(S()), S()) && at == old(at)
      ensures TagOf(p, k) !in old(at)
      ensures var b := old(S()).Slot(TagOf(p, level.depth), Index(p, level.depth));
              && (r == Err(PageAllocationFailed) ==> leak == {})
              && (r.Err? && r != Err(PageAllocationFailed) ==>
                   Locked(b, false) && |leak| == 1 && r == Err(MappingOver(Address(b))))
    {
      hide Ready;
      hide Good;
      hide Coherent;
      hide Refilled;
      hide NotMapped;
      hide Untouched;
      hide MayMap;
      hide Own;
      hide Manages;
      hide Zeros;
      hide Space.Struct;
      hide Barrier;
      hide Held;
      hide Reg;
      ghost var s, live, d := S(), alloc.live, level.depth;
      GoodParts(s, live, tlb);
      leak, sub := {}, level;
      NoneAtDepth(s, p, k, d);
      var child := NewSublevel(level);
      if child.None? {
        UnchangedSelf(State(s, live), p, k, d);
        return Err(PageAllocationFailed), level, {};
      }
      sub := child.value;
      var g := sub.table;
      FreshFrame(s, live, g);
      GoodParts(S(), alloc.live, tlb);
      r := SetEntry(level, vaddr, Level(Word(g, 0)));
      if r.Err? {
        leak := {g};
        LeakStep(s, live, p, k, d, g);
        return;
      }
      HangFacts(s, live, old(tlb), p, k, d, g, mem, tlb, w);
      HungPath(s, p, k, d, g);
      HungHeld(s, p, k, d, g);
      at := at[TagOf(p, d - 1) := g];
    }

    /** The region of a page of this size holds a table. */
    ghost predicate Covers(size: PageSize, vaddr: nat, at: map<Tag, Frame>) {
      size == Size4M && TagOf(vaddr / PAGE, 0) in at
    }

    /** The level that takes the page stores it. */
    method MapLeaf(level: PageTableLevel, vaddr: nat, paddr: Word, size: PageSize, flags: bv7)
      returns (r: MappingResult)
      requires Sound() && level.depth == DepthOf(size) && Aligned(vaddr, level.depth)
      requires TagOf(vaddr / PAGE, level.depth) in at && level.table == at[TagOf(vaddr / PAGE, level.depth)]
      requires MayMap(S(), alloc.live, Encode(Page(paddr, flags), size == Size4K, sticky), DepthOf(size))
      modifies this, window
      ensures Ready() && r != Err(PageAllocationFailed)
      ensures !Covers(size, vaddr, old(at)) ==>
        && Coherent(S(), tlb)
        && MapResult(old(Snap()), Snap(), vaddr / PAGE, DepthOf(size), level.depth,
                     Encode(Page(paddr, flags), size == Size4K, sticky), r, {})
      ensures Covers(size, vaddr, old(at)) ==>
        && r == Ok && Refilled(old(S()), S(), tlb, vaddr / PAGE)
        && Covered(old(Snap()), Snap(), vaddr / PAGE, Encode(Page(paddr, flags), false, sticky))
    {
      hide Ready;
      hide Good;
      hide Coherent;
      hide Refilled;
      hide Mapped;
      hide Covered;
      hide NotMapped;
      hide Untouched;
      hide MayMap;
      hide Own;
      hide Manages;
      hide Encode;
      hide Space.Struct;
      hide Barrier;
      hide Held;
      hide Reg;
      hide Aligned;
      ghost var x, p, d, tlb0, covers := Snap(), vaddr / PAGE, level.depth, tlb, Covers(size, vaddr, at);
      ghost var w := Encode(Page(paddr, flags), d == 0, sticky);
      GoodParts(x.space, x.live, tlb);
      PathRead(x.space, p, d);
      if covers {
        CoverWord(x.space, p, paddr, flags, vaddr);
      } else {
        LeafWord(x.space, p, d, paddr, flags, vaddr);
        BarrierHere(x.space, p, d, d);
      }
      r := SetEntry(level, vaddr, Page(paddr, flags));
      if covers {
        CoverFacts(x.space, x.live, tlb0, p, w, mem, tlb);
        at := at - {TagOf(p, 0)};
      } else if r.Err? {
        UnchangedSelf(x, p, d, d);
      } else {
        LeafFacts(x.space, x.live, tlb0, TagOf(p, d), p, w, mem, tlb);
      }
    }

    /** Maps one page of the given size. Only the level whose regions have that size takes it. A large
        page where a table is takes the table's place. */
    method MapPage(level: PageTableLevel, vaddr: nat, paddr: Word, size: PageSize, flags: bv7)
      returns (r: MappingResult, ghost leak: set<nat>)
      requires Sound() && DepthOf(size) <= level.depth && Aligned(vaddr, DepthOf(size))
      requires TagOf(vaddr / PAGE, level.depth) in at && level.table == at[TagOf(vaddr / PAGE, level.depth)]
      requires MayMap(S(), alloc.live, Encode(Page(paddr, flags), size == Size4K, sticky), DepthOf(size))
      modifies this, window, alloc
      ensures Ready() && Asked(r == Err(PageAllocationFailed), old(alloc.asked), old(alloc.refusals))
      ensures !Covers(size, vaddr, old(at)) ==>
        && Coherent(S(), tlb)
        && MapResult(old(Snap()), Snap(), vaddr / PAGE, DepthOf(size), level.depth,
                     Encode(Page(paddr, flags), size == Size4K, sticky), r, leak)
      ensures Covers(size, vaddr, old(at)) ==>
        && r == Ok && Refilled(old(S()), S(), tlb, vaddr / PAGE)
        && Covered(old(Snap()), Snap(), vaddr / PAGE, Encode(Page(paddr, flags), false, sticky))
      decreases level.depth
    {
      hide Ready;
      hide ZonedBuddy.NoneGrants;
      hide Good;
      hide Coherent;
      hide MapResult;
      hide Refilled;
      hide Mapped;
      hide NotMapped;
      hide Untouched;
      hide MayMap;
      hide Own;
      hide Manages;
      hide Encode;
      hide Space.Struct;
      hide Barrier;
      hide Held;
      hide Reg;
      hide Aligned;
      hide RegionSize;
      hide Covered;
      hide PageSizeOf;
      hide Start;
      hide AddressLimit;
      hide Space.Bare;
      ghost var x, p, d, k := Snap(), vaddr / PAGE, level.depth, DepthOf(size);
      ghost var w, covers := Encode(Page(paddr, flags), k == 0, sticky), Covers(size, vaddr, at);
      OneLevelTakes(size, level.depth);
      leak := {};
      if PageSizeOf(level.depth) == Some(size) {
        r := MapLeaf(level, vaddr, paddr, size, flags);
        return;
      }
      GoodParts(x.space, x.live, tlb);
      PathRead(x.space, p, d);
      BarrierHere(x.space, p, k, d);
      if covers { CoverPath(x.space, p, d); }
      var entry := GetEntry(level, vaddr);
      var next;
      match entry {
        case Page(addr, present) =>
          if present & PRESENT != 0 {
            ResultStop(x, p, k, d, w);
            return Err(MappingOver(addr)), {};
          }
          r, next, leak := AddTable(level, vaddr, p, k, w);
          GoodParts(S(), alloc.live, tlb);
          if r.Err? {
            ResultFailed(x, Snap(), p, k, d, w, r, leak);
            return;
          }
        case Level(table) =>
          next := PageTableLevel(table.base, level.depth - 1);
      }
      ghost var y := Snap();
      r, leak := MapPage(next, vaddr, paddr, size, flags);
      if entry.Page? {
        ResultAfter(x, y, Snap(), p, k, d, w, r, leak);
      } else if !covers {
        ResultDeeper(x, Snap(), p, k, d, w, r, leak);
      }
    }

    lemma BookInOrder()
      requires Ready()
      ensures forall n :: n in alloc.refusals ==> n < alloc.asked
    {
    }

    /** One round of the loop in `MapAlloc`: a frame for the page at vaddr, and its mapping. */
    method MapRound(vaddr: nat, flags: bv7)
      returns (frame: Option<Frame>, r: MappingResult, ghost leak: set<nat>)
      requires Sound() && vaddr % PAGE == 0 && TagOf(vaddr / PAGE, top) == Tag(top, 0)
      modifies this, window, alloc
      ensures Sound()
      ensures Asked(frame.None? || r == Err(PageAllocationFailed), old(alloc.asked), old(alloc.refusals))
      ensures frame.None? ==> Snap() == old(Snap())
      ensures frame.Some? ==>
        && Manages(ext, frame.value, PAGE) && frame.value !in old(alloc.live)
        && MapResult(State(old(S()), old(alloc.live)[frame.value := PAGE]), Snap(), vaddr / PAGE, 0, top,
                     PageWord(old(S()), frame.value, flags), r, leak)
    {
      hide Ready;
      hide ZonedBuddy.NoneGrants;
      hide Good;
      hide Coherent;
      hide MapResult;
      hide MayMap;
      hide Own;
      hide Manages;
      hide PageWord;
      hide Space.Struct;
      hide Reg;
      hide RegionSize;
      hide Encode;
      ghost var s, live, cached := S(), alloc.live, tlb;
      r, leak := Ok, {};
      GoodParts(s, live, cached);
      frame := AllocFrame();
      if frame.None? {
        return;
      }
      NewFrameMay(S(), live, cached, frame.value, flags);
      WordOf(S(), frame.value, flags);
      TopPlace(s);
      PageAligned(vaddr);
      ghost var taken := Snap();
      r, leak := MapPage(PageTableLevel(root, top), vaddr, Word(frame.value, 0), Size4K, flags);
      MapResultGood(taken, Snap(), vaddr / PAGE, 0, top, PageWord(s, frame.value, flags), r, leak, tlb);
    }

    /** Maps size / 4096 pages from vaddr on, each on a frame from the allocator. */
    method MapAlloc(vaddr: nat, size: nat, flags: bv7)
      returns (r: AllocResult, ghost frames: seq<Frame>, ghost mid: State, ghost g: Frame, ghost leak: set<nat>)
      requires Sound() && vaddr % PAGE == 0 && vaddr + size <= AddressLimit()
      modifies this, window, alloc
      ensures Sound() && Asked(r.Panicked? || r == Failed(PageAllocationFailed), old(alloc.asked), old(alloc.refusals))
      ensures r.MappedAt? ==>
        r.vaddr == vaddr && NewTablesLive(old(S()), old(alloc.live), S(), alloc.live)
      ensures (|frames| == 0 ==> mid == old(Snap())) && (r.Panicked? ==> Snap() == mid)
      ensures Allocated(old(Snap()), mid, Snap(), vaddr / PAGE, size / PAGE, frames, g, flags, r, leak)
      ensures alloc.refusals == old(alloc.refusals) ==>
        (r == MappedAt(vaddr) <==>
          forall q :: vaddr / PAGE <= q < vaddr / PAGE + size / PAGE ==> !Refused(old(S()), q))
    {
      hide Ready;
      hide ZonedBuddy.NoneGrants;
      hide Good;
      hide RangeMapped;
      hide MapResult;
      hide Own;
      hide Manages;
      hide Space.Struct;
      hide Start;
      hide NewTablesLive;
      hide Refused;
      hide PageWord;
      hide Reg;
      hide RegionSize;
      ghost var x, v, n := Snap(), vaddr / PAGE, size / PAGE;
      frames, mid, g, leak := [], x, 0, {};
      GoodParts(x.space, x.live, tlb);
      RangeEmpty(x, v, flags);
      NewTablesNone(x);
      RangeLimit(x.space, vaddr, size);
      BookInOrder();
      for page := 0 to size / PAGE
        invariant page == 0 ==> Snap() == mid == x
        invariant Sound() && |frames| == page && Asked(false, old(alloc.asked), old(alloc.refusals))
        invariant RangeMapped(x, Snap(), v, frames, flags) && NewTablesLive(x.space, x.live, S(), alloc.live)
      {
        mid := Snap();
        GoodParts(S(), alloc.live, tlb);
        RoundPage(S(), vaddr, size, page);
        var frame, done;
        frame, done, leak := MapRound(vaddr + page * PAGE, flags);
        if frame.None? {
          r := Panicked;
          FailsExactly(x, mid, Snap(), v, n, frames, g, flags, r, leak);
          return;
        }
        g := frame.value;
        if done.Err? {
          r := Failed(done.error);
          FailsExactly(x, mid, Snap(), v, n, frames, g, flags, r, leak);
          return;
        }
        RangeRound(x, mid, Snap(), v, frames, g, flags, leak);
        frames := frames + [g];
      }
      r := MappedAt(vaddr);
      FailsExactly(x, mid, Snap(), v, n, frames, g, flags, r, leak);
    }

    /** Unmaps and frees a range, from the top-level table. */
    method Unmap(vaddr: nat, size: nat) returns (r: MappingResult, ghost stop: Stop)
      requires Sound() && vaddr + size + RegionSize(top) - 1 < AddressLimit()
      requires Removable(S(), vaddr, EffectiveEnd(vaddr, size, top))
      modifies this, window, alloc
      ensures Ready() && Coherent(S(), tlb) && alloc.Book() == old(alloc.Book())
      ensures Outcome(old(Snap()), Snap(), vaddr, EffectiveEnd(vaddr, size, top), Tag(top, 0), r, stop)
    {
      hide Ready;
      hide Outcome;
      hide Own;
      FirstPositive(0, top + 1);
      r, stop := UnmapFree(PageTableLevel(root, top), vaddr, size, Tag(top, 0));
    }
  }
}
