/** Which allocator blocks the tables own, and how the table steps change that. A block outside every
    zone is never owned, and freeing it does nothing. */
module Ownership {
  import opened Common
  import opened PageTableEntry
  import opened Geometry
  import opened PageTables
  import opened TableSteps

  /** Live allocations: start address to size in bytes. */
  type Live = map<nat, nat>

  /** The address the code frees for a leaf word. */
  function LeafAddr(w: Word): nat { Value(Address(w)) }

  /** The word, in slot i of the table at t, maps memory that the address space answers for: it lies above
      the boot identity mapping, and the address read back is the page's own, so the page is not GLOBAL. */
  predicate Kept(t: Tag, i: nat, w: Word, low: nat) {
    IsLeaf(w, t.depth) && First(SlotRegion(t, i), t.depth) >= low && Address(w).low == 0
  }

  /** Slot i of the table at t maps a block of the allocator on behalf of this address space. */
  ghost predicate OwnedSlot(s: Space, t: Tag, i: nat) {
    && s.Has(t, i)
    && Kept(t, i, s.Slot(t, i), s.low)
    && Manages(s.ext, LeafAddr(s.Slot(t, i)), RegionSize(t.depth))
  }

  ghost predicate OwnedTable(s: Space, t: Tag) {
    t in s.at && t != s.Top() && Manages(s.ext, s.at[t], PAGE)
  }

  ghost function TableFrames(s: Space): set<nat> {
    set t: Tag | t in s.at && OwnedTable(s, t) :: s.at[t]
  }

  ghost function LeafFrames(s: Space): set<nat> {
    set t: Tag, i: nat | t in s.at && i < ENTRIES && OwnedSlot(s, t, i) :: LeafAddr(s.Slot(t, i))
  }

  ghost function Owned(s: Space): set<nat> { TableFrames(s) + LeafFrames(s) }

  /** Every owned block is live with the right size and has one owner. */
  ghost predicate Own(s: Space, live: Live) {
    && (Manages(s.ext, s.root, PAGE) ==> s.root in live)
    && (forall t {:trigger OwnedTable(s, t)} :: OwnedTable(s, t) ==> s.at[t] in live && live[s.at[t]] == PAGE)
    && (forall t, i {:trigger OwnedSlot(s, t, i)} :: OwnedSlot(s, t, i) ==>
          OwnedBlock(s, live, LeafAddr(s.Slot(t, i)), RegionSize(t.depth)))
    && (forall t, i, u, j {:trigger OwnedSlot(s, t, i), OwnedSlot(s, u, j)} ::
          OwnedSlot(s, t, i) && OwnedSlot(s, u, j) && LeafAddr(s.Slot(t, i)) == LeafAddr(s.Slot(u, j)) ==>
            t == u && i == j)
  }

  /** The block is live with this size and is not used as a table. */
  ghost predicate OwnedBlock(s: Space, live: Live, a: nat, size: nat) {
    a in live && live[a] == size && forall u :: u in s.at ==> s.at[u] != a
  }

  lemma OwnedIsLive(s: Space, live: Live)
    requires Own(s, live)
    ensures Owned(s) <= live.Keys
  {
  }

  /** Freeing a block: nothing happens outside the zones. */
  ghost function Freed(s: Space, live: Live, a: nat, size: nat): Live {
    if Manages(s.ext, a, size) then live - {a} else live
  }

  /** A slot with the word w owns no block: it maps nothing, or nothing the space answers for. */
  predicate OwnsNothing(t: Tag, i: nat, w: Word, low: nat) { !IsTable(w, t.depth) && !Kept(t, i, w, low) }

  /** What is freed for the slot's leaf is a block the space answers for, or no block at all. */
  ghost predicate Freeable(s: Space, t: Tag, i: nat)
    requires s.Has(t, i)
  {
    Kept(t, i, s.Slot(t, i), s.low) || !Manages(s.ext, LeafAddr(s.Slot(t, i)), RegionSize(t.depth))
  }

  /** The other slots after one was cleared. */
  lemma ClearSlots(s: Space, t: Tag, i: nat, w: Word)
    requires s.Struct() && s.Has(t, i) && OwnsNothing(t, i, w, s.low)
    ensures var z := Written(s, t, i, w);
            && (forall u: Tag, j: nat :: OwnedSlot(z, u, j) <==> OwnedSlot(s, u, j) && (u, j) != (t, i))
            && (forall u: Tag, j: nat :: OwnedSlot(z, u, j) ==> z.Slot(u, j) == s.Slot(u, j))
            && (forall u :: OwnedTable(z, u) <==> OwnedTable(s, u))
  {
    var z := Written(s, t, i, w);
    forall u: Tag, j: nat
      ensures OwnedSlot(z, u, j) <==> OwnedSlot(s, u, j) && (u, j) != (t, i)
      ensures OwnedSlot(z, u, j) ==> z.Slot(u, j) == s.Slot(u, j)
    {
      if s.Has(u, j) { WrittenSlot(s, t, i, w, u, j); }
    }
  }

  /** Clearing a slot without freeing what it mapped: the block has no owner any more. */
  lemma OwnForget(s: Space, live: Live, t: Tag, i: nat, w: Word)
    requires s.Struct() && Own(s, live) && s.Has(t, i) && OwnsNothing(t, i, w, s.low)
    ensures var z, gone := Written(s, t, i, w), if OwnedSlot(s, t, i) then {LeafAddr(s.Slot(t, i))} else {};
            && Own(z, live) && Owned(z) == Owned(s) - gone
            && TableFrames(z) == TableFrames(s) && TableFrames(s) !! gone
            && forall u: Tag, j: nat {:trigger OwnedSlot(z, u, j)} ::
                 OwnedSlot(z, u, j) ==> LeafAddr(z.Slot(u, j)) !in gone
  {
    var z := Written(s, t, i, w);
    ClearSlots(s, t, i, w);
    hide Space.Struct;
    hide IsLeaf;
    hide IsTable;
    hide LeafAddr;
    hide Manages;
    assert TableFrames(z) == TableFrames(s);
    var gone := if OwnedSlot(s, t, i) then {LeafAddr(s.Slot(t, i))} else {};
    assert LeafFrames(z) == LeafFrames(s) - gone;
  }

  /** A leaf was cleared and its block freed. */
  lemma OwnClear(s: Space, live: Live, t: Tag, i: nat, w: Word)
    requires s.Struct() && Own(s, live) && s.Has(t, i) && IsLeaf(s.Slot(t, i), t.depth) && Freeable(s, t, i)
    requires !IsTable(w, t.depth) && !IsLeaf(w, t.depth)
    ensures var a, size, z := LeafAddr(s.Slot(t, i)), RegionSize(t.depth), Written(s, t, i, w);
            && (Manages(s.ext, a, size) ==> a in live && live[a] == size)
            && Own(z, Freed(s, live, a, size))
            && Owned(z) == Owned(s) - (if Manages(s.ext, a, size) then {a} else {})
            && (Manages(s.ext, a, size) ==> a in Owned(s))
  {
    var a, size, z := LeafAddr(s.Slot(t, i)), RegionSize(t.depth), Written(s, t, i, w);
    OwnForget(s, live, t, i, w);
    ClearSlots(s, t, i, w);
    assert Manages(s.ext, a, size) <==> OwnedSlot(s, t, i);
    hide Space.Struct;
    hide IsLeaf;
    hide IsTable;
    hide Written;
    assert OwnedSlot(s, t, i) ==> a in LeafFrames(s);
    FreedOwn(z, live, a, size);
  }

  /** Freeing a block that nothing owns. */
  lemma FreedOwn(z: Space, live: Live, a: nat, size: nat)
    requires Own(z, live)
    requires Manages(z.ext, a, size) ==>
      && a !in TableFrames(z) && (forall u: Tag, j: nat :: OwnedSlot(z, u, j) ==> LeafAddr(z.Slot(u, j)) != a)
      && (a == z.root ==> !Manages(z.ext, z.root, PAGE))
    ensures Own(z, Freed(z, live, a, size))
  {
  }

  lemma FillSlots(s: Space, t: Tag, i: nat, w: Word)
    requires s.Struct() && s.Has(t, i) && Kept(t, i, w, s.low)
    requires !IsLeaf(s.Slot(t, i), t.depth)
    ensures var z := Written(s, t, i, w);
            && (forall u: Tag, j: nat :: OwnedSlot(z, u, j) <==>
                  OwnedSlot(s, u, j) || ((u, j) == (t, i) && Manages(s.ext, LeafAddr(w), RegionSize(t.depth))))
            && (forall u: Tag, j: nat :: OwnedSlot(s, u, j) ==> z.Slot(u, j) == s.Slot(u, j))
            && z.Slot(t, i) == w
            && TableFrames(z) == TableFrames(s)
  {
    var z := Written(s, t, i, w);
    WrittenSlot(s, t, i, w, t, i);
    forall u: Tag, j: nat
      ensures OwnedSlot(z, u, j) <==>
              OwnedSlot(s, u, j) || ((u, j) == (t, i) && Manages(s.ext, LeafAddr(w), RegionSize(t.depth)))
      ensures OwnedSlot(s, u, j) ==> z.Slot(u, j) == s.Slot(u, j)
    {
      if s.Has(u, j) { WrittenSlot(s, t, i, w, u, j); }
    }
    forall u
      ensures OwnedTable(z, u) <==> OwnedTable(s, u)
    {
    }
  }

  /** A slot that mapped nothing gets a leaf for a block that nothing else owns. */
  lemma OwnFill(s: Space, live: Live, t: Tag, i: nat, w: Word)
    requires s.Struct() && Own(s, live) && s.Has(t, i)
    requires !IsLeaf(s.Slot(t, i), t.depth)
    requires Kept(t, i, w, s.low)
    requires Manages(s.ext, LeafAddr(w), RegionSize(t.depth)) ==>
      OwnedBlock(s, live, LeafAddr(w), RegionSize(t.depth)) && LeafAddr(w) !in Owned(s)
    ensures var a, size, z := LeafAddr(w), RegionSize(t.depth), Written(s, t, i, w);
            && Own(z, live)
            && Owned(z) == Owned(s) + (if Manages(s.ext, a, size) then {a} else {})
  {
    var a, size, z := LeafAddr(w), RegionSize(t.depth), Written(s, t, i, w);
    FillSlots(s, t, i, w);
    forall u: Tag, j: nat | OwnedSlot(s, u, j)
      ensures LeafAddr(s.Slot(u, j)) in LeafFrames(s)
    {
    }
    assert Own(z, live) by {
      forall u | OwnedTable(z, u)
        ensures s.at[u] in live && live[s.at[u]] == PAGE
      {
        assert OwnedTable(s, u);
      }
    }
    FillFrames(s, t, i, w);
  }

  lemma FillFrames(s: Space, t: Tag, i: nat, w: Word)
    requires s.Struct() && s.Has(t, i) && Kept(t, i, w, s.low)
    requires !IsLeaf(s.Slot(t, i), t.depth)
    ensures LeafFrames(Written(s, t, i, w))
         == LeafFrames(s) + (if Manages(s.ext, LeafAddr(w), RegionSize(t.depth)) then {LeafAddr(w)} else {})
  {
    FillSlots(s, t, i, w);
    if Manages(s.ext, LeafAddr(w), RegionSize(t.depth)) {
      assert OwnedSlot(Written(s, t, i, w), t, i);
    }
  }

  /** Writing words that own nothing over slots that mapped nothing changes no ownership. */
  lemma OwnIdle(s: Space, live: Live, t: Tag, i: nat, w: Word)
    requires s.Struct() && Own(s, live) && s.Has(t, i)
    requires !IsTable(s.Slot(t, i), t.depth) && !IsLeaf(s.Slot(t, i), t.depth)
    requires OwnsNothing(t, i, w, s.low)
    ensures Own(Written(s, t, i, w), live) && Owned(Written(s, t, i, w)) == Owned(s)
  {
    OwnForget(s, live, t, i, w);
  }

  lemma HangSlots(s: Space, t: Tag, i: nat, g: Frame)
    requires s.Struct() && s.Has(t, i) && t.depth > 0
    requires !IsTable(s.Slot(t, i), t.depth) && !IsLeaf(s.Slot(t, i), t.depth)
    requires forall u :: u in s.at ==> s.at[u] != g
    requires Manages(s.ext, g, PAGE)
    ensures var z := Hung(s, t, i, g);
            && (forall u: Tag, j: nat :: OwnedSlot(z, u, j) <==> OwnedSlot(s, u, j))
            && (forall u: Tag, j: nat :: OwnedSlot(z, u, j) ==> z.Slot(u, j) == s.Slot(u, j))
            && (forall u :: OwnedTable(z, u) <==> OwnedTable(s, u) || u == Child(t, i))
            && Child(t, i) !in s.at
  {
    var c, z := Child(t, i), Hung(s, t, i, g);
    ChildFree(s, t, i);
    forall u: Tag, j: nat
      ensures OwnedSlot(z, u, j) <==> OwnedSlot(s, u, j)
      ensures OwnedSlot(z, u, j) ==> z.Slot(u, j) == s.Slot(u, j)
    {
      HungSlot(s, t, i, g, u, j);
    }
    assert s.Linked(t);
  }

  lemma OwnHang(s: Space, live: Live, t: Tag, i: nat, g: Frame)
    requires s.Struct() && Own(s, live) && s.Has(t, i) && t.depth > 0
    requires !IsTable(s.Slot(t, i), t.depth) && !IsLeaf(s.Slot(t, i), t.depth)
    requires forall u :: u in s.at ==> s.at[u] != g
    requires Manages(s.ext, g, PAGE) && g !in live
    ensures Own(Hung(s, t, i, g), live[g := PAGE])
    ensures Owned(Hung(s, t, i, g)) == Owned(s) + {g}
  {
    var c, z := Child(t, i), Hung(s, t, i, g);
    HangSlots(s, t, i, g);
    hide Space.Struct;
    hide IsLeaf;
    hide IsTable;
    hide LeafAddr;
    assert LeafFrames(z) == LeafFrames(s);
    assert OwnedTable(z, c);
    assert TableFrames(z) == TableFrames(s) + {g};
  }

  lemma OwnDrop(s: Space, live: Live, c: Tag, w: Word)
    requires s.Struct() && Own(s, live) && c in s.at && c != s.Top() && s.Bare(c)
    requires s.Has(Parent(c), c.region % ENTRIES)
    requires !IsTable(w, c.depth + 1) && !IsLeaf(w, c.depth + 1)
    ensures var g, z := s.at[c], Dropped(s, c, w);
            && (Manages(s.ext, g, PAGE) ==> g in live && live[g] == PAGE && g in Owned(s))
            && Own(z, Freed(s, live, g, PAGE))
            && Owned(z) == Owned(s) - (if Manages(s.ext, g, PAGE) then {g} else {})
  {
    var g, z := s.at[c], Dropped(s, c, w);
    var t, i := Parent(c), c.region % ENTRIES;
    assert s.Linked(c);
    forall u: Tag, j: nat
      ensures OwnedSlot(z, u, j) <==> OwnedSlot(s, u, j)
      ensures OwnedSlot(z, u, j) ==> z.Slot(u, j) == s.Slot(u, j) && LeafAddr(s.Slot(u, j)) != g
    {
      DroppedSlot(s, c, w, u, j);
    }
    forall u
      ensures OwnedTable(z, u) <==> OwnedTable(s, u) && u != c
    {
    }
    assert OwnedTable(s, c) <==> Manages(s.ext, g, PAGE);
    hide Space.Struct;
    hide IsLeaf;
    hide IsTable;
    hide LeafAddr;
    assert LeafFrames(z) == LeafFrames(s);
    assert TableFrames(z) == TableFrames(s) - (if Manages(s.ext, g, PAGE) then {g} else {});
    assert g !in LeafFrames(s);
  }

  /** Unmapping [a, b) frees nothing that the space does not answer for: the other pages in it, from the
      identity mapping or GLOBAL ones, pass the test of no zone. */
  ghost predicate Removable(s: Space, a: nat, b: nat) {
    forall t: Tag, i: nat {:trigger s.Slot(t, i)} :: LeafWithin(s, t, i, a, b) ==> Freeable(s, t, i)
  }

  /** The slot maps a page whose region lies in [a, b). */
  ghost predicate LeafWithin(s: Space, t: Tag, i: nat, a: nat, b: nat) {
    && s.Has(t, i) && IsLeaf(s.Slot(t, i), t.depth)
    && a <= Start(SlotRegion(t, i), t.depth) && Start(SlotRegion(t, i) + 1, t.depth) <= b
  }

  lemma RemovablePart(s: Space, a: nat, b: nat, lo: nat, hi: nat)
    requires Removable(s, a, b) && a <= lo && hi <= b
    ensures Removable(s, lo, hi)
  {
    forall t: Tag, i: nat | LeafWithin(s, t, i, lo, hi)
      ensures Freeable(s, t, i)
    {
      assert s.Slot(t, i) == s.Slot(t, i) && LeafWithin(s, t, i, a, b);
    }
  }
}
