/** A large page mapped over a table of 4 KiB pages. The slot pointed to a table, which no check
    prevents from being overwritten: the table and its pages stay allocated without an owner, and
    translations of its other pages may stay cached. */
module Covering {
  import opened Common
  import opened PageTableEntry
  import opened Geometry
  import opened PageTables
  import opened TableSteps
  import opened Ownership
  import opened Unmapping
  import opened Consistency
  import opened MapSteps

  /** The blocks owned through the last-level table at c. */
  ghost function Beneath(s: Space, c: Tag): set<nat> {
    (if OwnedTable(s, c) then {s.at[c]} else {}) + PageBlocks(s, c)
  }

  ghost function PageBlocks(s: Space, c: Tag): set<nat> {
    set i: nat | i < ENTRIES && OwnedSlot(s, c, i) :: LeafAddr(s.Slot(c, i))
  }

  /** The 4 MiB region of page p had a table and now has the large page with word w. */
  ghost predicate Covered(x: State, y: State, p: nat, w: Word) {
    var c := TagOf(p, 0);
    && SameFixed(x.space, y.space) && y.space.Struct() && Own(y.space, y.live) && y.live == x.live
    && c in x.space.at && y.space.at == x.space.at - {c}
    && y.space.Has(TagOf(p, 1), Index(p, 1)) && y.space.Slot(TagOf(p, 1), Index(p, 1)) == w
    && (forall q: nat {:trigger y.space.Trans(q)} ::
          y.space.Trans(q) == if Reg(q, 1) == Reg(p, 1) then LeafOf(w, 1) else x.space.Trans(q))
    && Owned(y.space) == (Owned(x.space) - Beneath(x.space, c)) + Held(y.space, p, 1)
    && Beneath(x.space, c) <= Owned(x.space) && Held(y.space, p, 1) !! Owned(x.space)
  }

  lemma CoverTree(s: Space, p: nat, w: Word)
    requires s.Struct() && TagOf(p, 0) in s.at && s.top > 0 && s.Has(TagOf(p, 1), Index(p, 1)) && !IsTable(w, 1)
    ensures Parent(TagOf(p, 0)) == TagOf(p, 1) && TagOf(p, 0).region % ENTRIES == Index(p, 1)
    ensures Dropped(s, TagOf(p, 0), w).Struct()
    ensures forall q: nat :: Dropped(s, TagOf(p, 0), w).Trans(q)
                          == if Reg(q, 1) == Reg(p, 1) then LeafOf(w, 1) else s.Trans(q)
  {
    var c, t, i := TagOf(p, 0), TagOf(p, 1), Index(p, 1);
    TagOfParent(p, 0);
    TagOfChild(p, 1);
    forall j: nat | s.Has(c, j)
      ensures !IsTable(s.Slot(c, j), 0)
    {
      assert s.Edge(c, j);
    }
    DropKeepsTree(s, c, w);
    DropSameSlots(s, c, w);
    DroppedSlot(s, c, w, t, i);
    var z := Dropped(s, c, w);
    forall q: nat
      ensures z.Trans(q) == if Reg(q, 1) == Reg(p, 1) then LeafOf(w, 1) else s.Trans(q)
    {
      if Reg(q, 1) == Reg(p, 1) {
        RegUp(q, p, 1, 2);
        TransOfSlot(z, q, 1);
      } else {
        TransElsewhere(s, z, t, i, q);
      }
    }
  }

  /** The slots after the table was covered. */
  lemma CoverSlots(s: Space, p: nat, w: Word)
    requires s.Struct() && TagOf(p, 0) in s.at && s.top > 0 && s.Has(TagOf(p, 1), Index(p, 1)) && !IsTable(w, 1)
    requires IsTable(s.Slot(TagOf(p, 1), Index(p, 1)), 1)
    ensures s.Has(Parent(TagOf(p, 0)), TagOf(p, 0).region % ENTRIES)
    ensures var z, t, i := Dropped(s, TagOf(p, 0), w), TagOf(p, 1), Index(p, 1);
            && z.Has(t, i) && z.Slot(t, i) == w
            && (OwnedSlot(z, t, i) ==> IsLeaf(w, 1) && Address(w).low == 0 && Manages(s.ext, LeafAddr(w), RegionSize(1)))
            && !OwnedSlot(s, t, i)
            && (forall u: Tag, j: nat :: (u, j) != (t, i) ==>
                  (OwnedSlot(z, u, j) <==> OwnedSlot(s, u, j) && u != TagOf(p, 0)))
            && (forall u: Tag, j: nat :: (u, j) != (t, i) && OwnedSlot(z, u, j) ==> z.Slot(u, j) == s.Slot(u, j))
            && (forall u :: OwnedTable(z, u) <==> OwnedTable(s, u) && u != TagOf(p, 0))
  {
    var c, t, i := TagOf(p, 0), TagOf(p, 1), Index(p, 1);
    TagOfParent(p, 0);
    TagOfChild(p, 1);
    var z := Dropped(s, c, w);
    forall u: Tag, j: nat
      ensures s.Has(u, j) && u != c ==> z.Has(u, j) && z.Slot(u, j) == if (u, j) == (t, i) then w else s.Slot(u, j)
      ensures z.Has(u, j) ==> s.Has(u, j) && u != c
    {
      DroppedSlot(s, c, w, u, j);
    }
  }

  lemma CoverOwn(s: Space, live: Live, p: nat, w: Word)
    requires s.Struct() && Own(s, live) && TagOf(p, 0) in s.at && s.top > 0 && s.Has(TagOf(p, 1), Index(p, 1))
    requires !IsTable(w, 1) && IsTable(s.Slot(TagOf(p, 1), Index(p, 1)), 1)
    requires MayMap(s, live, w, 1)
    ensures s.Has(Parent(TagOf(p, 0)), TagOf(p, 0).region % ENTRIES)
    ensures Own(Dropped(s, TagOf(p, 0), w), live)
  {
    var z, t, i := Dropped(s, TagOf(p, 0), w), TagOf(p, 1), Index(p, 1);
    CoverSlots(s, p, w);
    MovedOwn(s, z, live, TagOf(p, 0), t, i);
  }

  /** Ownership after the table c was lost and the slot gained a block that nothing owned. */
  lemma MovedOwn(s: Space, z: Space, live: Live, c: Tag, t: Tag, i: nat)
    requires Own(s, live) && z.at == s.at - {c} && z.root == s.root && z.ext == s.ext && z.Has(t, i)
    requires forall u: Tag, j: nat :: (u, j) != (t, i) ==> (OwnedSlot(z, u, j) <==> OwnedSlot(s, u, j) && u != c)
    requires forall u: Tag, j: nat :: (u, j) != (t, i) && OwnedSlot(z, u, j) ==> z.Slot(u, j) == s.Slot(u, j)
    requires forall u :: OwnedTable(z, u) <==> OwnedTable(s, u) && u != c
    requires OwnedSlot(z, t, i) ==>
      && OwnedBlock(s, live, LeafAddr(z.Slot(t, i)), RegionSize(t.depth))
      && LeafAddr(z.Slot(t, i)) !in LeafFrames(s)
    ensures Own(z, live)
  {
    hide IsLeaf;
    hide LeafAddr;
    hide Manages;
    hide RegionSize;
    forall u: Tag, j: nat | OwnedSlot(s, u, j)
      ensures LeafAddr(s.Slot(u, j)) in LeafFrames(s)
    {
    }
  }

  lemma CoverOwned(s: Space, live: Live, p: nat, w: Word)
    requires s.Struct() && Own(s, live) && TagOf(p, 0) in s.at && s.top > 0 && s.Has(TagOf(p, 1), Index(p, 1))
    requires !IsTable(w, 1) && IsTable(s.Slot(TagOf(p, 1), Index(p, 1)), 1)
    requires MayMap(s, live, w, 1)
    ensures s.Has(Parent(TagOf(p, 0)), TagOf(p, 0).region % ENTRIES)
    ensures var z, c := Dropped(s, TagOf(p, 0), w), TagOf(p, 0);
            && Owned(z) == (Owned(s) - Beneath(s, c)) + Held(z, p, 1)
            && Beneath(s, c) <= Owned(s) && Held(z, p, 1) !! Owned(s)
  {
    var z, c, t, i := Dropped(s, TagOf(p, 0), w), TagOf(p, 0), TagOf(p, 1), Index(p, 1);
    CoverSlots(s, p, w);
    CoverTables(s, z, live, c);
    CoverLeaves(s, z, live, c, t, i);
    OwnersDisjoint(s, live);
    hide Space.Struct;
    hide Dropped;
    hide IsLeaf;
    hide IsTable;
    hide LeafAddr;
    hide Manages;
  }

  lemma CoverLeaves(s: Space, z: Space, live: Live, c: Tag, t: Tag, i: nat)
    requires Own(s, live) && z.Has(t, i) && t != c && !OwnedSlot(s, t, i)
    requires forall u: Tag, j: nat :: (u, j) != (t, i) ==> (OwnedSlot(z, u, j) <==> OwnedSlot(s, u, j) && u != c)
    requires forall u: Tag, j: nat :: (u, j) != (t, i) && OwnedSlot(z, u, j) ==> z.Slot(u, j) == s.Slot(u, j)
    ensures LeafFrames(z)
         == (LeafFrames(s) - PageBlocks(s, c)) + (if OwnedSlot(z, t, i) then {LeafAddr(z.Slot(t, i))} else {})
  {
    hide IsLeaf;
    hide LeafAddr;
    hide Manages;
  }

  lemma CoverTables(s: Space, z: Space, live: Live, c: Tag)
    requires s.Struct() && z.at == s.at - {c} && forall u :: OwnedTable(z, u) <==> OwnedTable(s, u) && u != c
    ensures TableFrames(z) == TableFrames(s) - (if OwnedTable(s, c) then {s.at[c]} else {})
  {
  }

  lemma OwnersDisjoint(s: Space, live: Live)
    requires Own(s, live)
    ensures TableFrames(s) !! LeafFrames(s)
  {
  }

  /** A large page is in the way of nothing but the table it covers. */
  lemma CoverWord(s: Space, p: nat, paddr: Word, flags: bv7, vaddr: nat)
    requires s.Struct() && TagOf(p, 1) in s.at && TagOf(p, 0) in s.at
    requires p == vaddr / PAGE && Aligned(vaddr, 1)
    ensures s.top > 0 && s.Has(TagOf(p, 1), Index(p, 1))
    ensures !IsTable(Encode(Page(paddr, flags), false, s.sticky), 1)
    ensures IsTable(s.Slot(TagOf(p, 1), Index(p, 1)), 1) && !Locked(s.Slot(TagOf(p, 1), Index(p, 1)), false)
    ensures s.Slot(TagOf(p, 1), Index(p, 1)) == s.mem[s.at[TagOf(p, 1)]][Index(p, 1)]
  {
    PathRead(s, p, 1);
    TagOfChild(p, 1);
    ChildFree(s, TagOf(p, 1), Index(p, 1));
    var h := ToHardware(flags);
    assert (paddr.low | h | PS) & DECLARED & PS != 0;
  }

  /** Above a table in use the walk goes through tables. */
  lemma CoverPath(s: Space, p: nat, d: nat)
    requires s.Struct() && TagOf(p, d) in s.at && TagOf(p, 0) in s.at && d > 0
    ensures s.Has(TagOf(p, d), Index(p, d)) && IsTable(s.Slot(TagOf(p, d), Index(p, d)), d)
  {
    WalkThrough(s, p, d);
    TagsAbove(s, p, 0, d - 1);
    TagOfChild(p, d);
    ChildFree(s, TagOf(p, d), Index(p, d));
  }

  /** The slot was written and the one page flushed. */
  lemma CoverFacts(s: Space, live: Live, tlb: Tlb, p: nat, w: Word, mem: Memory, tlb': Tlb)
    requires Good(s, live, tlb) && TagOf(p, 0) in s.at && s.top > 0 && s.Has(TagOf(p, 1), Index(p, 1))
    requires !IsTable(w, 1) && IsTable(s.Slot(TagOf(p, 1), Index(p, 1)), 1)
    requires MayMap(s, live, w, 1)
    requires mem == Store(s.mem, s.at[TagOf(p, 1)], Index(p, 1), w) && Refilled(s, s.With(mem, s.at), tlb', p)
    ensures var z := s.With(mem, s.at - {TagOf(p, 0)});
            Covered(State(s, live), State(z, live), p, w) && Refilled(s, z, tlb', p)
  {
    var c := TagOf(p, 0);
    var z := s.With(mem, s.at - {c});
    CoverTree(s, p, w);
    assert z == Dropped(s, c, w);
    CoverSlots(s, p, w);
    CoverOwn(s, live, p, w);
    CoverOwned(s, live, p, w);
    RefilledAt(s, s.With(mem, s.at), tlb', p, z.at);
  }

  /** The pages of the covered table stay cached where the processor had them: nothing but page p was
      flushed, so what an access reaches need not be what the tables say. */
  lemma CoverStale(x: State, y: State, p: nat, w: Word, q: nat, mp: Mapping)
    requires Covered(x, y, p, w) && Reg(q, 1) == Reg(p, 1) && q != p && x.space.Trans(q) == Some(mp) && mp.depth == 0
    ensures Coherent(x.space, map[q := mp]) && Refilled(x.space, y.space, map[q := mp], p)
    ensures !Coherent(y.space, map[q := mp])
  {
    assert y.space.Trans(q) == LeafOf(w, 1);
    assert q in map[q := mp];
  }

  /** The table's frame and the frames of its pages stay allocated, and nothing owns them. */
  lemma CoverLeaks(x: State, y: State, p: nat, w: Word)
    requires Covered(x, y, p, w) && Own(x.space, x.live)
    ensures Others(y) == (Others(x) - Held(y.space, p, 1)) + Beneath(x.space, TagOf(p, 0))
  {
    OwnedIsLive(x.space, x.live);
  }
}
