/** The cases of one region of `unmap_free`, each as a relation between the states before and after. */
module UnmapSteps {
  import opened Common
  import opened PageTableEntry
  import opened Geometry
  import opened PageTables
  import opened TableSteps
  import opened Ownership
  import opened Unmapping
  import opened Consistency

  /** [lo, hi) is the non-empty part of slot region m of t that a call works on. */
  ghost predicate InSlot(t: Tag, m: nat, lo: nat, hi: nat) {
    m / ENTRIES == t.region && Start(m, t.depth) <= lo < hi <= Start(m + 1, t.depth)
  }

  predicate Whole(m: nat, d: nat, lo: nat, hi: nat) { lo == Start(m, d) && hi == Start(m + 1, d) }

  /** Pages sharing a byte with the range go through the slot. */
  lemma SlotPages(t: Tag, m: nat, lo: nat, hi: nat, p: nat)
    requires InSlot(t, m, lo, hi) && Touched(p, lo, hi)
    ensures Reg(p, t.depth) == m && TagOf(p, t.depth) == t && Index(p, t.depth) == m % ENTRIES
  {
    InRegion(m, p, t.depth);
  }

  lemma ContainedTouched(p: nat, a: nat, b: nat)
    requires Contained(p, a, b)
    ensures Touched(p, a, b)
  {
  }

  /** The only slot of t within the range is that of region m. */
  lemma OneSlot(t: Tag, m: nat, lo: nat, hi: nat, i: nat)
    requires InSlot(t, m, lo, hi) && i < ENTRIES
    requires lo <= Start(SlotRegion(t, i), t.depth) && Start(SlotRegion(t, i) + 1, t.depth) <= hi
    ensures i == m % ENTRIES && Whole(m, t.depth, lo, hi)
  {
    var r := SlotRegion(t, i);
    NextRegion(r, t.depth);
    if r < m { FirstMonotone(r + 1, m, t.depth); }
    if r > m { FirstMonotone(m + 1, r, t.depth); }
  }

  /** A table under t that meets the slot's part of a range is the slot's table, or lies under it. */
  lemma UnderSlot(s: Space, t: Tag, m: nat, lo: nat, hi: nat, u: Tag)
    requires s.Struct() && t in s.at && InSlot(t, m, lo, hi)
    requires u in s.at && u.depth < t.depth && TagTouched(u, lo, hi)
    ensures Child(t, m % ENTRIES) in s.at && (u.depth == t.depth - 1 ==> u == Child(t, m % ENTRIES))
    ensures s.Has(t, m % ENTRIES) && IsTable(s.Slot(t, m % ENTRIES), t.depth)
  {
    var p, d := First(u.region, u.depth + 1), t.depth;
    RegOfFirst(u.region, u.depth + 1);
    assert TagOf(p, u.depth) == u;
    Nested(p, u.depth + 1, d);
    Galois(m + 1, p, d);
    var r := Reg(p, d);
    if r + 1 <= m { FirstMonotone(r + 1, m, d); }
    assert r == m;
    assert s.Linked(t);
    TagsAbove(s, p, u.depth, d - 1);
    assert TagOf(p, d - 1) == Child(t, m % ENTRIES);
    ChildFree(s, t, m % ENTRIES);
  }

  /** A slot that maps nothing needs nothing. */
  lemma SkipDone(s: Space, live: Live, t: Tag, m: nat, lo: nat, hi: nat)
    requires s.Struct() && Own(s, live) && InSlot(t, m, lo, hi) && s.Has(t, m % ENTRIES)
    requires !IsTable(s.Slot(t, m % ENTRIES), t.depth) && !IsLeaf(s.Slot(t, m % ENTRIES), t.depth)
    ensures Done(State(s, live), State(s, live), lo, hi, t)
  {
    forall p: nat | Touched(p, lo, hi)
      ensures s.Trans(p) == None
    {
      SlotPages(t, m, lo, hi, p);
      TransOfSlot(s, p, t.depth);
    }
    forall p | Contained(p, lo, hi)
      ensures s.Trans(p).None?
    {
      ContainedTouched(p, lo, hi);
    }
    UnmappedNothing(s, lo, hi, t);
    forall u | u in s.at && u.depth < t.depth
      ensures !TagTouched(u, lo, hi)
    {
      if TagTouched(u, lo, hi) { UnderSlot(s, t, m, lo, hi, u); }
    }
    forall i: nat | s.Has(t, i) && lo <= Start(SlotRegion(t, i), t.depth) && Start(SlotRegion(t, i) + 1, t.depth) <= hi
      ensures !IsTable(s.Slot(t, i), t.depth) && !IsLeaf(s.Slot(t, i), t.depth)
    {
      OneSlot(t, m, lo, hi, i);
    }
  }

  lemma LeafHere(s: Space, t: Tag, m: nat, lo: nat, hi: nat)
    requires s.Struct() && InSlot(t, m, lo, hi) && s.Has(t, m % ENTRIES)
    requires IsLeaf(s.Slot(t, m % ENTRIES), t.depth)
    ensures StopSlot(s, lo, t.depth, s.Slot(t, m % ENTRIES))
    ensures LeafInside(lo, t.depth, lo, hi) <==> Whole(m, t.depth, lo, hi)
    ensures Unmapped(s, s, lo, lo, t) && NothingBlocks(s, lo, lo)
  {
    SlotPages(t, m, lo, hi, lo / PAGE);
    TransOfSlot(s, lo / PAGE, t.depth);
    UnmappedNothing(s, lo, lo, t);
  }

  /** A leaf only partly in the range stops the call. */
  lemma PartStop(s: Space, live: Live, t: Tag, m: nat, lo: nat, hi: nat)
    requires s.Struct() && Own(s, live) && InSlot(t, m, lo, hi) && s.Has(t, m % ENTRIES)
    requires IsLeaf(s.Slot(t, m % ENTRIES), t.depth) && !Whole(m, t.depth, lo, hi)
    ensures var w := s.Slot(t, m % ENTRIES);
            Stopped(State(s, live), State(s, live), lo, hi, t, lo, t.depth, w,
                    UnmappingPartOfLargePage(Address(w)))
  {
    LeafHere(s, t, m, lo, hi);
  }

  /** A large page in the range is freed, and its slot refuses to be cleared. */
  lemma LargeStop(s: Space, live: Live, t: Tag, m: nat, lo: nat, hi: nat)
    requires s.Struct() && Own(s, live) && InSlot(t, m, lo, hi) && s.Has(t, m % ENTRIES) && t.depth > 0
    requires IsLeaf(s.Slot(t, m % ENTRIES), t.depth) && Whole(m, t.depth, lo, hi)
    ensures var w := s.Slot(t, m % ENTRIES);
            && Locked(w, false)
            && Stopped(State(s, live), State(s, Freed(s, live, LeafAddr(w), RegionSize(t.depth))),
                       lo, hi, t, lo, t.depth, w, MappingOver(Address(w)))
  {
    var w := s.Slot(t, m % ENTRIES);
    LeafHere(s, t, m, lo, hi);
    assert StoppedOver(State(s, live), State(s, Freed(s, live, LeafAddr(w), RegionSize(t.depth))), live, t.depth, w);
  }

  /** A last-level page was freed and cleared. */
  lemma ClearDone(s: Space, live: Live, t: Tag, m: nat, lo: nat, hi: nat, live': Live)
    requires s.Struct() && InSlot(t, m, lo, hi) && s.Has(t, m % ENTRIES) && t.depth == 0
    requires IsLeaf(s.Slot(t, m % ENTRIES), 0) && Whole(m, 0, lo, hi)
    requires var z := Written(s, t, m % ENTRIES, NullAt(s, 0));
             Own(z, live') && Released(s, live, z, live')
    ensures Done(State(s, live), State(Written(s, t, m % ENTRIES, NullAt(s, 0)), live'), lo, hi, t)
  {
    var i := m % ENTRIES;
    var z := Written(s, t, i, NullAt(s, 0));
    assert SlotRegion(t, i) == m;
    UnmappedSlot(s, t, i);
    NullMapsNothing(s, 0);
    forall p: nat | Touched(p, lo, hi) && s.Trans(p).Some?
      ensures s.Trans(p).value.depth == 0 && Contained(p, lo, hi)
    {
      SlotPages(t, m, lo, hi, p);
      TransOfSlot(s, p, 0);
    }
    forall j: nat | z.Has(t, j) && lo <= Start(SlotRegion(t, j), 0) && Start(SlotRegion(t, j) + 1, 0) <= hi
      ensures !IsTable(z.Slot(t, j), 0) && !IsLeaf(z.Slot(t, j), 0)
    {
      OneSlot(t, m, lo, hi, j);
      WrittenSlot(s, t, i, NullAt(s, 0), t, i);
    }
  }

  /** The sub-table was emptied and dropped. */
  lemma DropDone(s: Space, live: Live, y: Space, yl: Live, t: Tag, m: nat, lo: nat, hi: nat, live': Live)
    requires s.Struct() && t in s.at && InSlot(t, m, lo, hi) && t.depth > 0
    requires Child(t, m % ENTRIES) in s.at && Done(State(s, live), State(y, yl), lo, hi, Child(t, m % ENTRIES))
    requires y.Bare(Child(t, m % ENTRIES)) && y.Has(t, m % ENTRIES)
    requires Whole(m, t.depth, lo, hi) || Hollow(y, Child(t, m % ENTRIES))
    requires y.Has(Parent(Child(t, m % ENTRIES)), Child(t, m % ENTRIES).region % ENTRIES)
    requires var z := Dropped(y, Child(t, m % ENTRIES), NullAt(y, t.depth));
             Own(z, live') && Released(y, yl, z, live')
    ensures Done(State(s, live), State(Dropped(y, Child(t, m % ENTRIES), NullAt(y, t.depth)), live'), lo, hi, t)
  {
    hide Unmapped;
    hide NothingBlocks;
    hide Swept;
    hide Tidy;
    hide Busy;
    hide Gone;
    hide Hollow;
    hide Own;
    hide Released;
    hide Space.Struct;
    hide Space.Bare;
    hide Dropped;
    hide First;
    var c, i := Child(t, m % ENTRIES), m % ENTRIES;
    ChildPlace(s, t, i);
    UnmappedFixed(s, y, lo, hi, c);
    assert NullAt(s, t.depth) == NullAt(y, t.depth);
    UnmappedDrop(s, y, c, lo, hi);
    TidyDrop(s, y, c, lo, hi);
    DropBusy(s, y, t, m, lo, hi);
    GoneDrop(s, y, c, lo, hi);
    var z := Dropped(y, c, NullAt(y, t.depth));
    ReleasedCompose(s, live, y, yl, z, live');
    DropSwept(y, t, m, lo, hi);
  }

  /** What is left under t after the slot's table went. */
  lemma DropBusy(s: Space, y: Space, t: Tag, m: nat, lo: nat, hi: nat)
    requires s.Struct() && y.Struct() && t in y.at && InSlot(t, m, lo, hi) && t.depth > 0
    requires y.Has(t, m % ENTRIES) && Busy(y, lo, hi, Child(t, m % ENTRIES))
    requires Parent(Child(t, m % ENTRIES)) == t && Child(t, m % ENTRIES).region % ENTRIES == m % ENTRIES
    ensures Busy(Dropped(y, Child(t, m % ENTRIES), NullAt(y, t.depth)), lo, hi, t)
  {
    var c, w := Child(t, m % ENTRIES), NullAt(y, t.depth);
    var z := Dropped(y, c, w);
    forall u | u in z.at && u.depth < t.depth && u != z.Top() && TagTouched(u, lo, hi)
      ensures !TagInside(u, lo, hi) && !Hollow(z, u)
    {
      UnderSlot(y, t, m, lo, hi, u);
      assert !Hollow(y, u);
      var i: nat :| i < ENTRIES && InUse(y, u, i);
      DroppedSlot(y, c, w, u, i);
      assert InUse(z, u, i);
    }
  }

  /** What is left under t where the slot's table stays. */
  lemma KeepBusy(y: Space, t: Tag, m: nat, lo: nat, hi: nat)
    requires y.Struct() && t in y.at && InSlot(t, m, lo, hi) && t.depth > 0
    requires Busy(y, lo, hi, Child(t, m % ENTRIES)) && !Hollow(y, Child(t, m % ENTRIES))
    requires !Whole(m, t.depth, lo, hi)
    ensures Busy(y, lo, hi, t)
  {
    forall u | u in y.at && u.depth < t.depth && u != y.Top() && TagTouched(u, lo, hi)
      ensures !TagInside(u, lo, hi) && !Hollow(y, u)
    {
      UnderSlot(y, t, m, lo, hi, u);
    }
  }

  lemma ChildPlace(s: Space, t: Tag, i: nat)
    requires s.Struct() && t in s.at && t.depth > 0 && i < ENTRIES
    ensures Parent(Child(t, i)) == t && Child(t, i).region % ENTRIES == i && Child(t, i) != s.Top()
  {
    assert s.Linked(t);
  }

  lemma DropSwept(y: Space, t: Tag, m: nat, lo: nat, hi: nat)
    requires y.Struct() && InSlot(t, m, lo, hi) && t.depth > 0 && y.Has(t, m % ENTRIES)
    ensures Swept(Dropped(y, Child(t, m % ENTRIES), NullAt(y, t.depth)), t, lo, hi)
  {
    var c, i, w := Child(t, m % ENTRIES), m % ENTRIES, NullAt(y, t.depth);
    assert Parent(c) == t && c.region % ENTRIES == i;
    var z := Dropped(y, c, w);
    NullMapsNothing(y, t.depth);
    forall j: nat | z.Has(t, j) && lo <= Start(SlotRegion(t, j), t.depth) && Start(SlotRegion(t, j) + 1, t.depth) <= hi
      ensures !IsTable(z.Slot(t, j), t.depth) && !IsLeaf(z.Slot(t, j), t.depth)
    {
      OneSlot(t, m, lo, hi, j);
      DroppedSlot(y, c, w, t, i);
    }
  }

  /** Something is left in the sub-table, so it stays. */
  lemma KeepDone(x: State, y: State, t: Tag, m: nat, lo: nat, hi: nat)
    requires InSlot(t, m, lo, hi) && t.depth > 0 && !Whole(m, t.depth, lo, hi)
    requires Done(x, y, lo, hi, Child(t, m % ENTRIES))
    requires !Hollow(y.space, Child(t, m % ENTRIES))
    requires t in y.space.at
    ensures Done(x, y, lo, hi, t)
  {
    KeepBusy(y.space, t, m, lo, hi);
    forall i: nat | i < ENTRIES
      ensures !(lo <= Start(SlotRegion(t, i), t.depth) && Start(SlotRegion(t, i) + 1, t.depth) <= hi)
    {
      if lo <= Start(SlotRegion(t, i), t.depth) && Start(SlotRegion(t, i) + 1, t.depth) <= hi {
        OneSlot(t, m, lo, hi, i);
      }
    }
  }

  /** A stop below is a stop here. */
  lemma SubStop(x: State, y: State, c: Tag, t: Tag, lo: nat, hi: nat, cut: nat, d: nat, w: Word, e: MappingError)
    requires Stopped(x, y, lo, hi, c, cut, d, w, e) && c.depth < t.depth
    ensures Stopped(x, y, lo, hi, t, cut, d, w, e)
  {
  }

  /** A stop in one slot's part of a range is a stop in the range from there on. */
  lemma StopWiden(x: State, y: State, t: Tag, m: nat, lo: nat, hi: nat, b: nat, cut: nat, d: nat, w: Word,
                  e: MappingError)
    requires InSlot(t, m, lo, hi) && hi <= b && (hi == b || hi == Start(m + 1, t.depth))
    requires Stopped(x, y, lo, hi, t, cut, d, w, e)
    ensures Stopped(x, y, lo, b, t, cut, d, w, e)
  {
    InRegion(m, cut / PAGE, t.depth);
    Nested(cut / PAGE, d, t.depth);
    assert LeafInside(cut, d, lo, b) <==> LeafInside(cut, d, lo, hi);
  }

  /** All slots of a table are swept once its whole region is. */
  lemma SweptBare(s: Space, c: Tag, lo: nat, hi: nat)
    requires Swept(s, c, lo, hi) && lo <= Start(c.region, c.depth + 1) && Start(c.region + 1, c.depth + 1) <= hi
    ensures s.Bare(c)
  {
    forall i: nat | s.Has(c, i)
      ensures !IsTable(s.Slot(c, i), c.depth) && !IsLeaf(s.Slot(c, i), c.depth)
    {
      FirstMonotone(ENTRIES * c.region, SlotRegion(c, i), c.depth);
      FirstMonotone(SlotRegion(c, i) + 1, ENTRIES * (c.region + 1), c.depth);
    }
  }

  /** Where and at what a removal stopped. */
  datatype Stop = Nowhere | At(cut: nat, depth: nat, word: Word)

  /** The result of removing [a, b) beneath the table at `self`. */
  ghost predicate Outcome(x: State, y: State, a: nat, b: nat, self: Tag, r: MappingResult, stop: Stop) {
    match r
    case Ok => Done(x, y, a, b, self)
    case Err(e) => stop.At? && Stopped(x, y, a, b, self, stop.cut, stop.depth, stop.word, e)
  }

  /** A removal succeeds exactly when every page it touches is unmapped, or mapped by a 4 KiB page that
      lies within the range. */
  lemma SucceedsExactly(x: State, y: State, a: nat, b: nat, self: Tag, r: MappingResult, stop: Stop)
    requires Outcome(x, y, a, b, self, r, stop)
    ensures r == Ok <==> NothingBlocks(x.space, a, b)
  {
    if r.Err? { StopBlocks(x, y, a, b, self, stop, r.error); }
  }

  lemma StopBlocks(x: State, y: State, a: nat, b: nat, self: Tag, stop: Stop, e: MappingError)
    requires stop.At? && Stopped(x, y, a, b, self, stop.cut, stop.depth, stop.word, e)
    ensures !NothingBlocks(x.space, a, b)
  {
    var p := stop.cut / PAGE;
    assert x.space.Trans(p) == LeafOf(stop.word, stop.depth);
    assert Touched(p, a, b);
    SmallInside(stop.cut, a, b);
  }

  lemma SmallInside(cut: nat, a: nat, b: nat)
    ensures Contained(cut / PAGE, a, b) ==> LeafInside(cut, 0, a, b)
  {
  }

  lemma DoneGood(x: State, y: State, a: nat, b: nat, self: Tag, tlb: Tlb)
    requires Done(x, y, a, b, self) && Coherent(y.space, tlb)
    ensures Good(y.space, y.live, tlb)
    ensures forall t :: t in x.space.at && t.depth >= self.depth ==> t in y.space.at && y.space.at[t] == x.space.at[t]
  {
    assert Shrunk(x.space, y.space, a, b, self);
    forall t | t in x.space.at && t.depth >= self.depth
      ensures t in y.space.at && y.space.at[t] == x.space.at[t]
    {
      assert t !in y.space.at ==> t.depth < self.depth;
    }
  }

  /** The entry of slot region m, read at its address. */
  lemma SlotRead(s: Space, t: Tag, m: nat)
    requires s.Struct() && t in s.at && m / ENTRIES == t.region
    ensures Index(Start(m, t.depth) / PAGE, t.depth) == m % ENTRIES && s.Has(t, m % ENTRIES)
    ensures s.at[t] in s.mem && |s.mem[s.at[t]]| == ENTRIES && s.Slot(t, m % ENTRIES) == s.mem[s.at[t]][m % ENTRIES]
    ensures var e := Decode(s.Slot(t, m % ENTRIES), t.depth == 0);
            && (e.Level? <==> IsTable(s.Slot(t, m % ENTRIES), t.depth))
            && (e.Level? ==> t.depth > 0 && Child(t, m % ENTRIES) in s.at
                             && s.at[Child(t, m % ENTRIES)] == e.table.base
                             && Child(t, m % ENTRIES).region == m)
            && (e.Page? ==> e.addr == Address(s.Slot(t, m % ENTRIES)))
            && (e.Page? && e.flags & PRESENT != 0 <==> IsLeaf(s.Slot(t, m % ENTRIES), t.depth))
  {
    SlotAddress(m, t.depth);
    assert s.Has(t, m % ENTRIES);
    assert s.Edge(t, m % ENTRIES);
  }

  /** The call on a sub-table for a range in its region. */
  lemma SubRange(t: Tag, m: nat, vaddr: nat, size: nat, top: nat)
    requires t.depth > 0 && InSlot(t, m, vaddr, vaddr + size)
    requires vaddr == Start(m, t.depth) || vaddr + size == Start(m + 1, t.depth)
    requires Start(m + 2, t.depth) <= Start(1, top + 1)
    ensures var c := Child(t, m % ENTRIES);
            && c.region == m && c.depth == t.depth - 1
            && Start(m, t.depth) == Start(c.region, c.depth + 1) <= vaddr
            && vaddr + size <= Start(c.region + 1, c.depth + 1)
            && vaddr + size + RegionSize(c.depth) - 1 < Start(1, top + 1)
            && EffectiveEnd(vaddr, size, c.depth) == vaddr + size
  {
    SubEnd(vaddr, size, m, t.depth);
    NextRegion(m + 1, t.depth);
    assert First(1, t.depth) == First(ENTRIES, t.depth - 1);
    FirstMonotone(1, ENTRIES, t.depth - 1);
  }

  lemma DoneBare(x: State, y: State, a: nat, b: nat, c: Tag, whole: bool)
    requires Done(x, y, a, b, c)
    requires whole ==> a <= Start(c.region, c.depth + 1) && Start(c.region + 1, c.depth + 1) <= b
    requires !whole ==> y.space.Bare(c)
    ensures y.space.Bare(c)
  {
    if whole { SweptBare(y.space, c, a, b); }
  }

  /** The part of [vaddr, vaddr + size) that falls to the region at `page`. A region that starts
      before vaddr is taken to its end. */
  function PartLow(page: nat, vaddr: nat): nat { if page < vaddr then vaddr else page }

  function PartHigh(page: nat, regionSize: nat, vaddr: nat, size: nat): nat {
    if page < vaddr || page + regionSize <= vaddr + size then page + regionSize else vaddr + size
  }

  lemma LeafRemovable(s: Space, t: Tag, m: nat)
    requires s.Has(t, m % ENTRIES) && m / ENTRIES == t.region && IsLeaf(s.Slot(t, m % ENTRIES), t.depth)
    requires Removable(s, Start(m, t.depth), Start(m + 1, t.depth))
    ensures Freeable(s, t, m % ENTRIES)
  {
    assert SlotRegion(t, m % ENTRIES) == m;
    assert LeafWithin(s, t, m % ENTRIES, Start(m, t.depth), Start(m + 1, t.depth));
  }

  /** A removal leaves other leaves as they were. */
  lemma RemovableStays(x: State, y: State, lo: nat, hi: nat, self: Tag, a: nat, b: nat)
    requires Done(x, y, lo, hi, self) && Removable(x.space, a, b)
    ensures Removable(y.space, a, b)
  {
    RemovableCleared(x.space, y.space, lo, hi, self, a, b);
  }

  lemma RemovableCleared(s: Space, z: Space, lo: nat, hi: nat, self: Tag, a: nat, b: nat)
    requires Unmapped(s, z, lo, hi, self) && Removable(s, a, b)
    ensures Removable(z, a, b)
  {
    forall t: Tag, i: nat | LeafWithin(z, t, i, a, b)
      ensures Freeable(z, t, i)
    {
      assert z.Slot(t, i) == z.Slot(t, i);
      assert Cleared(s, z, t, i);
      NullMapsNothing(s, t.depth);
      assert LeafWithin(s, t, i, a, b);
    }
  }

  lemma LeafPlace(s: Space, live: Live, tlb: Tlb, t: Tag, m: nat)
    requires Good(s, live, tlb) && s.Has(t, m % ENTRIES) && m / ENTRIES == t.region
    requires IsLeaf(s.Slot(t, m % ENTRIES), t.depth) && Freeable(s, t, m % ENTRIES)
    ensures Index(Start(m, t.depth) / PAGE, t.depth) == m % ENTRIES && Aligned(Start(m, t.depth), t.depth)
    ensures var a, size := LeafAddr(s.Slot(t, m % ENTRIES)), RegionSize(t.depth);
            Manages(s.ext, a, size) ==> a in live && live[a] == size
    ensures InSlot(t, m, Start(m, t.depth), Start(m + 1, t.depth))
    ensures Whole(m, t.depth, Start(m, t.depth), Start(m + 1, t.depth))
    ensures Locked(s.Slot(t, m % ENTRIES), t.depth == 0) <==> t.depth > 0
    ensures t.depth == 0 ==> Start(m, 0) / PAGE == m && RegionSize(0) == PAGE
  {
    SlotAddress(m, t.depth);
    NextRegion(m, t.depth);
    assert SlotRegion(t, m % ENTRIES) == m;
    ClearReady(s, live, tlb, t, m % ENTRIES);
  }

  /** The regions a call goes through: from `first` up to but not including `last`. */
  ghost predicate Regions(vaddr: nat, size: nat, d: nat, first: nat, last: nat) {
    && first == Reg(vaddr / PAGE, d)
    && AlignDown(vaddr, RegionSize(d)) == Start(first, d) <= vaddr < Start(first + 1, d)
    && AlignUp(vaddr + size, RegionSize(d)) == Start(last, d)
    && vaddr + size <= Start(last, d) < vaddr + size + RegionSize(d)
    && (last > 0 ==> Start(last - 1, d) < vaddr + size)
  }

  lemma RegionsExist(vaddr: nat, size: nat, d: nat) returns (first: nat, last: nat)
    ensures Regions(vaddr, size, d, first, last) && first <= last
    ensures first == last ==> EffectiveEnd(vaddr, size, d) == vaddr
  {
    first := Reg(vaddr / PAGE, d);
    AlignDownRegion(vaddr, d);
    last := AlignUpRegion(vaddr + size, d);
    if last < first {
      FirstMonotone(last + 1, first, d);
      NextRegion(last, d);
    }
  }

  lemma RegionRound(vaddr: nat, size: nat, t: Tag, first: nat, last: nat, m: nat, top: nat)
    requires Regions(vaddr, size, t.depth, first, last) && first <= m < last
    requires Start(t.region, t.depth + 1) <= vaddr && vaddr + size <= Start(t.region + 1, t.depth + 1)
    requires t.depth <= top && vaddr + size + RegionSize(t.depth) - 1 < Start(1, top + 1)
    ensures var lo := PartLow(Start(m, t.depth), vaddr);
            var hi := PartHigh(Start(m, t.depth), RegionSize(t.depth), vaddr, size);
            && InSlot(t, m, lo, hi)
            && lo == (if m == first then vaddr else Start(m, t.depth))
            && hi == (if m + 1 == last then EffectiveEnd(vaddr, size, t.depth) else Start(m + 1, t.depth))
            && hi <= EffectiveEnd(vaddr, size, t.depth)
    ensures Start(m + 2, t.depth) <= Start(1, top + 1)
    ensures Start(m, t.depth) < Start(last, t.depth)
    ensures Start(m, t.depth) + RegionSize(t.depth) == Start(m + 1, t.depth)
  {
    var d := t.depth;
    NextRegion(m, d);
    NextRegion(last - 1, d);
    FirstMonotone(first, m, d);
    FirstMonotone(m + 1, last, d);
    if m > first { FirstMonotone(first + 1, m, d); }
    if m + 1 < last { FirstMonotone(m + 1, last - 1, d); }
    RegionBelow(last, d, 1, top + 1);
    FirstMonotone(m + 2, last + 1, d);
    RegionParent(t, vaddr, first, last, m);
  }

  lemma RegionParent(t: Tag, vaddr: nat, first: nat, last: nat, m: nat)
    requires Start(t.region, t.depth + 1) <= vaddr < Start(first + 1, t.depth)
    requires first <= m < last && Start(last - 1, t.depth) < Start(t.region + 1, t.depth + 1)
    ensures m / ENTRIES == t.region
  {
    var d, r := t.depth, t.region;
    assert First(r, d + 1) == First(ENTRIES * r, d) && First(r + 1, d + 1) == First(ENTRIES * (r + 1), d);
    if m < ENTRIES * r { FirstMonotone(first + 1, ENTRIES * r, d); }
    if ENTRIES * (r + 1) <= m { FirstMonotone(ENTRIES * (r + 1), last - 1, d); }
  }

  lemma EmptyDone(s: Space, live: Live, a: nat, t: Tag)
    requires s.Struct() && Own(s, live)
    ensures Done(State(s, live), State(s, live), a, a, t)
  {
    UnmappedNothing(s, a, a, t);
    forall i: nat
      ensures !(a <= Start(SlotRegion(t, i), t.depth) && Start(SlotRegion(t, i) + 1, t.depth) <= a)
    {
      NextRegion(SlotRegion(t, i), t.depth);
    }
  }

  lemma TopDepth(s: Space, t: Tag)
    requires s.Struct() && t in s.at
    ensures t.depth <= s.top
  {
    assert s.Linked(t);
  }

  lemma RegionBounds(vaddr: nat, size: nat, d: nat, first: nat, last: nat)
    requires Regions(vaddr, size, d, first, last)
    ensures AlignDown(vaddr, RegionSize(d)) == Start(first, d)
    ensures AlignUp(vaddr + size, RegionSize(d)) == Start(last, d)
  {
  }

  lemma RegionOrder(m: nat, last: nat, d: nat)
    requires m <= last
    ensures m < last <==> Start(m, d) < Start(last, d)
  {
    NextRegion(m, d);
    if m < last { FirstMonotone(m + 1, last, d); }
  }
}
