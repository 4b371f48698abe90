/** What removing a range of addresses does to an address space, as a relation between the space
    before and after. The relation composes over adjacent ranges. */
module Unmapping {
  import opened Common
  import opened PageTableEntry
  import opened Geometry
  import opened PageTables
  import opened TableSteps
  import opened Ownership

  /** Page p lies within the bytes [a, b). */
  predicate Contained(p: nat, a: nat, b: nat) { a <= PAGE * p && PAGE * (p + 1) <= b }

  /** Page p shares a byte with [a, b). */
  predicate Touched(p: nat, a: nat, b: nat) { a < b && PAGE * p < b && a < PAGE * (p + 1) }

  /** The region of the table at t shares a byte with [a, b). */
  predicate TagTouched(t: Tag, a: nat, b: nat) {
    a < b && Start(t.region, t.depth + 1) < b && a < Start(t.region + 1, t.depth + 1)
  }

  function NullAt(s: Space, d: nat): Word { Encode(NULL, d == 0, s.sticky) }

  lemma NullMapsNothing(s: Space, d: nat)
    ensures !IsTable(NullAt(s, d), d) && !IsLeaf(NullAt(s, d), d) && Address(NullAt(s, d)) == Word(0, 0)
    ensures Locked(NullAt(s, d), d == 0) <==> s.sticky && d > 0
  {
    DecodeEncode(NULL, d == 0, s.sticky);
  }

  ghost predicate SameFixed(s: Space, z: Space) {
    z.root == s.root && z.top == s.top && z.low == s.low && z.sticky == s.sticky && z.ext == s.ext
  }

  /** Exactly the pages within [a, b) lose their translation. */
  ghost predicate Removed(s: Space, z: Space, a: nat, b: nat) {
    forall p: nat {:trigger z.Trans(p)} {:trigger s.Trans(p)} ::
      z.Trans(p) == if Contained(p, a, b) then None else s.Trans(p)
  }

  /** No table is new or moves, and only tables under `self` that meet [a, b) are gone. */
  ghost predicate Shrunk(s: Space, z: Space, a: nat, b: nat, self: Tag) {
    && (forall t {:trigger t in z.at} :: t in z.at ==> t in s.at && z.at[t] == s.at[t])
    && (forall t {:trigger t in z.at} :: t in s.at && t !in z.at ==> t.depth < self.depth && TagTouched(t, a, b))
  }

  /** A slot changes only to NULL: an inner slot when its table is dropped, a last-level one when it
      was mapped. */
  ghost predicate OnlyCleared(s: Space, z: Space) {
    forall t: Tag, i: nat {:trigger z.Slot(t, i)} :: z.Has(t, i) ==> Cleared(s, z, t, i)
  }

  ghost predicate Cleared(s: Space, z: Space, t: Tag, i: nat)
    requires z.Has(t, i)
  {
    && s.Has(t, i)
    && (z.Slot(t, i) == s.Slot(t, i)
        || (&& z.Slot(t, i) == NullAt(s, t.depth)
            && if t.depth > 0 then IsTable(s.Slot(t, i), t.depth) && Child(t, i) !in z.at
               else IsLeaf(s.Slot(t, i), 0)))
  }

  /** Frames that are not tables keep their contents. */
  ghost predicate OthersKept(s: Space, z: Space) {
    && z.mem.Keys == s.mem.Keys
    && forall f {:trigger z.mem[f]} :: f in s.mem && (forall t :: t in s.at ==> s.at[t] != f) ==> z.mem[f] == s.mem[f]
  }

  /** The entry in the slot is what the code calls mapped: a table, a page, or just an address. */
  ghost predicate InUse(s: Space, t: Tag, i: nat) { s.Has(t, i) && Decode(s.Slot(t, i), t.depth == 0).Mapped() }

  lemma InUseIs(s: Space, t: Tag, i: nat)
    requires s.Has(t, i)
    ensures InUse(s, t, i) <==> Decode(s.Slot(t, i), t.depth == 0).Mapped()
  {
  }

  lemma VacantSlot(s: Space, t: Tag, i: nat)
    requires s.Has(t, i) && !InUse(s, t, i)
    ensures s.Vacant(t, i)
  {
  }

  lemma VacantBare(s: Space, t: Tag)
    requires forall i: nat {:trigger s.Vacant(t, i)} :: i < ENTRIES ==> s.Vacant(t, i)
    ensures s.Bare(t)
  {
    forall i: nat | s.Has(t, i)
      ensures !IsTable(s.Slot(t, i), t.depth) && !IsLeaf(s.Slot(t, i), t.depth)
    {
      assert s.Vacant(t, i);
    }
  }

  /** No slot of the table is in use, as the code looks at it. */
  ghost predicate Hollow(s: Space, t: Tag) {
    forall i: nat {:trigger InUse(s, t, i)} :: i < ENTRIES ==> !InUse(s, t, i)
  }

  lemma HollowIs(s: Space, t: Tag)
    ensures Hollow(s, t) <==> !exists i: nat :: i < ENTRIES && InUse(s, t, i)
  {
  }

  /** No sub-table but `self` went out of use and was left in place. */
  ghost predicate Tidy(s: Space, z: Space, self: Tag) {
    forall t {:trigger Hollow(z, t)} :: t in z.at && t != self && t != z.Top() && Hollow(z, t) ==>
      t in s.at && Hollow(s, t)
  }

  predicate TagInside(t: Tag, a: nat, b: nat) {
    a <= Start(t.region, t.depth + 1) && Start(t.region + 1, t.depth + 1) <= b
  }

  /** A table under `self` that [a, b) meets reaches beyond it and is in use. */
  ghost predicate Busy(s: Space, a: nat, b: nat, self: Tag) {
    forall t {:trigger t in s.at} :: t in s.at && t.depth < self.depth && t != s.Top() && TagTouched(t, a, b) ==>
      !TagInside(t, a, b) && !Hollow(s, t)
  }

  /** No slot of the table holds an address alone. */
  ghost predicate NothingLoose(s: Space, t: Tag) {
    forall i: nat {:trigger InUse(s, t, i)} :: InUse(s, t, i) ==> !s.Vacant(t, i)
  }

  /** A table that is gone lay inside [a, b), or held nothing that the removal did not remove. */
  ghost predicate Gone(s: Space, z: Space, a: nat, b: nat) {
    forall t {:trigger t in z.at} :: t in s.at && t !in z.at ==> TagInside(t, a, b) || NothingLoose(s, t)
  }

  /** The space after removing [a, b) beneath the table at `self`. */
  ghost predicate Unmapped(s: Space, z: Space, a: nat, b: nat, self: Tag) {
    && SameFixed(s, z) && z.Struct()
    && Removed(s, z, a, b) && Shrunk(s, z, a, b, self) && OnlyCleared(s, z) && OthersKept(s, z)
  }

  /** Exactly the blocks that are no longer owned were freed. */
  ghost predicate Released(s: Space, live: Live, z: Space, live': Live) {
    && Owned(z) <= Owned(s)
    && live' == live - (Owned(s) - Owned(z))
  }

  /** No page meeting [a, b) is mapped in a way that stops the removal: by a large page, or by a page
      that is only partly inside. */
  ghost predicate NothingBlocks(s: Space, a: nat, b: nat) {
    forall p: nat {:trigger s.Trans(p)} :: Touched(p, a, b) && s.Trans(p).Some? ==>
      s.Trans(p).value.depth == 0 && Contained(p, a, b)
  }

  lemma UnmappedNothing(s: Space, a: nat, b: nat, self: Tag)
    requires s.Struct()
    requires forall p :: Contained(p, a, b) ==> s.Trans(p).None?
    ensures Unmapped(s, s, a, b, self)
  {
    forall t: Tag, i: nat | s.Has(t, i)
      ensures Cleared(s, s, t, i)
    {
    }
  }

  lemma UnmappedFixed(s: Space, z: Space, a: nat, b: nat, self: Tag)
    requires Unmapped(s, z, a, b, self)
    ensures SameFixed(s, z) && z.Struct()
  {
  }

  lemma ClearedTwice(s: Space, y: Space, z: Space)
    requires SameFixed(s, y) && SameFixed(y, z) && OnlyCleared(s, y) && OnlyCleared(y, z)
    requires forall t {:trigger t in z.at} :: t in z.at ==> t in y.at
    ensures OnlyCleared(s, z)
  {
    forall t: Tag, i: nat | z.Has(t, i)
      ensures Cleared(s, z, t, i)
    {
      assert z.Slot(t, i) == z.Slot(t, i);
      assert Cleared(y, z, t, i);
      assert y.Slot(t, i) == y.Slot(t, i);
      assert Cleared(s, y, t, i);
      NullMapsNothing(s, t.depth);
    }
  }

  lemma OthersTwice(s: Space, y: Space, z: Space)
    requires OthersKept(s, y) && OthersKept(y, z)
    requires forall t {:trigger t in y.at} :: t in y.at ==> t in s.at && y.at[t] == s.at[t]
    ensures OthersKept(s, z)
  {
    forall f | f in s.mem && (forall t :: t in s.at ==> s.at[t] != f)
      ensures z.mem[f] == s.mem[f]
    {
      assert y.mem[f] == s.mem[f];
    }
  }

  /** Removing [a, b) and then [b, c) removes [a, c). */
  lemma UnmappedCompose(s: Space, y: Space, z: Space, a: nat, b: nat, c: nat, self: Tag)
    requires a <= b <= c && (b % PAGE == 0 || a == b || b == c)
    requires Unmapped(s, y, a, b, self) && Unmapped(y, z, b, c, self)
    ensures Unmapped(s, z, a, c, self)
  {
    ClearedTwice(s, y, z);
    OthersTwice(s, y, z);
    forall p: nat
      ensures z.Trans(p) == if Contained(p, a, c) then None else s.Trans(p)
    {
      var k := b / PAGE;
      assert y.Trans(p) == if Contained(p, a, b) then None else s.Trans(p);
      if b % PAGE == 0 { assert b == PAGE * k; }
    }
  }

  lemma TidyCompose(s: Space, y: Space, z: Space, self: Tag)
    requires z.top == y.top && Tidy(s, y, self) && Tidy(y, z, self)
    ensures Tidy(s, z, self)
  {
    forall t | t in z.at && t != self && t != z.Top() && Hollow(z, t)
      ensures t in s.at && Hollow(s, t)
    {
      assert Hollow(y, t);
    }
  }

  /** The region of a table below depth d lies on one side of a boundary at depth d. */
  lemma OneSide(t: Tag, m: nat, d: nat)
    requires t.depth < d
    ensures Start(t.region + 1, t.depth + 1) <= Start(m, d) || Start(m, d) <= Start(t.region, t.depth + 1)
  {
    var p := First(t.region, t.depth + 1);
    RegOfFirst(t.region, t.depth + 1);
    Nested(p, t.depth + 1, d);
    if Reg(p, d) < m { FirstMonotone(Reg(p, d) + 1, m, d); } else { FirstMonotone(m, Reg(p, d), d); }
  }

  lemma BusyCompose(y: Space, z: Space, a: nat, m: nat, c: nat, self: Tag)
    requires a <= Start(m, self.depth) <= c && z.top == y.top && Tidy(y, z, self)
    requires Unmapped(y, z, Start(m, self.depth), c, self)
    requires Busy(y, a, Start(m, self.depth), self) && Busy(z, Start(m, self.depth), c, self)
    ensures Busy(z, a, c, self)
  {
    hide Start;
    forall t | t in z.at && t.depth < self.depth && t != z.Top() && TagTouched(t, a, c)
      ensures !TagInside(t, a, c) && !Hollow(z, t)
    {
      OneSide(t, m, self.depth);
      NextRegion(t.region, t.depth + 1);
      assert t in y.at && (Hollow(z, t) ==> Hollow(y, t));
    }
  }

  lemma GoneCompose(s: Space, y: Space, z: Space, a: nat, b: nat, c: nat, self: Tag)
    requires a <= b <= c && Unmapped(s, y, a, b, self) && Gone(s, y, a, b) && Gone(y, z, b, c)
    ensures Gone(s, z, a, c)
  {
    hide Start;
    forall t | t in s.at && t !in z.at
      ensures TagInside(t, a, c) || NothingLoose(s, t)
    {
      if t in y.at && NothingLoose(y, t) { LooseBefore(s, y, a, b, self, t); }
    }
  }

  /** A loose address stays. */
  lemma LooseBefore(s: Space, y: Space, a: nat, b: nat, self: Tag, t: Tag)
    requires Unmapped(s, y, a, b, self) && t in y.at && NothingLoose(y, t)
    ensures NothingLoose(s, t)
  {
    forall i: nat | InUse(s, t, i)
      ensures !s.Vacant(t, i)
    {
      assert y.Linked(t);
      assert y.Has(t, i) && Cleared(s, y, t, i);
      assert s.Vacant(t, i) ==> InUse(y, t, i);
    }
  }

  lemma ReleasedCompose(s: Space, sl: Live, y: Space, yl: Live, z: Space, zl: Live)
    requires Released(s, sl, y, yl) && Released(y, yl, z, zl)
    ensures Released(s, sl, z, zl)
  {
  }

  lemma NothingBlocksCompose(s: Space, y: Space, a: nat, b: nat, c: nat, self: Tag)
    requires a <= b <= c && (b % PAGE == 0 || a == b || b == c)
    requires Unmapped(s, y, a, b, self) && NothingBlocks(s, a, b) && NothingBlocks(y, b, c)
    ensures NothingBlocks(s, a, c)
  {
    forall p: nat | Touched(p, a, c) && s.Trans(p).Some?
      ensures s.Trans(p).value.depth == 0 && Contained(p, a, c)
    {
      var k := b / PAGE;
      if b % PAGE == 0 { assert b == PAGE * k; }
      if !Touched(p, a, b) {
        assert y.Trans(p) == s.Trans(p);
      }
    }
  }

  /** Clearing a last-level slot removes its page. */
  lemma UnmappedSlot(s: Space, t: Tag, i: nat)
    requires s.Struct() && s.Has(t, i) && t.depth == 0 && IsLeaf(s.Slot(t, i), 0)
    ensures var z, m := Written(s, t, i, NullAt(s, 0)), SlotRegion(t, i);
            && Unmapped(s, z, Start(m, 0), Start(m + 1, 0), t)
            && Tidy(s, z, t) && Gone(s, z, Start(m, 0), Start(m + 1, 0))
  {
    var w, m := NullAt(s, 0), SlotRegion(t, i);
    var z := Written(s, t, i, w);
    NullMapsNothing(s, 0);
    WriteLeaf(s, t, i, w);
    forall u: Tag, j: nat | z.Has(u, j)
      ensures Cleared(s, z, u, j)
      ensures u != t ==> z.Slot(u, j) == s.Slot(u, j)
    {
      WrittenSlot(s, t, i, w, u, j);
    }
    forall u | u in z.at && u != t && Hollow(z, u)
      ensures Hollow(s, u)
    {
      forall j: nat | j < ENTRIES
        ensures !InUse(s, u, j)
      {
        WrittenSlot(s, t, i, w, u, j);
        assert !InUse(z, u, j);
      }
    }
  }

  /** After removing a range beneath a table, the table is dropped if nothing is left in it. */
  lemma UnmappedDrop(s: Space, y: Space, c: Tag, a: nat, b: nat)
    requires s.Struct() && c in s.at && c != s.Top() && TagTouched(c, a, b)
    requires Unmapped(s, y, a, b, c) && y.Bare(c)
    ensures c in y.at && y.Has(Parent(c), c.region % ENTRIES)
    ensures IsTable(y.Slot(Parent(c), c.region % ENTRIES), c.depth + 1)
    ensures var z := Dropped(y, c, NullAt(s, c.depth + 1));
            Unmapped(s, z, a, b, Parent(c))
  {
    var t, i := Parent(c), c.region % ENTRIES;
    assert c in y.at && y.Linked(c);
    var w := NullAt(s, t.depth);
    NullMapsNothing(s, t.depth);
    var z := Dropped(y, c, w);
    DropTable(y, c, w);
    forall u: Tag, j: nat | z.Has(u, j)
      ensures Cleared(s, z, u, j)
    {
      DropCleared(s, y, c, a, b, u, j);
    }
    assert Removed(s, z, a, b) by {
      forall p: nat
        ensures z.Trans(p) == if Contained(p, a, b) then None else s.Trans(p)
      {
        assert z.Trans(p) == y.Trans(p);
      }
    }
    assert OthersKept(s, z) by {
      assert s.at[t] == y.at[t];
    }
  }

  lemma DropCleared(s: Space, y: Space, c: Tag, a: nat, b: nat, u: Tag, j: nat)
    requires s.Struct() && c in s.at && c != s.Top() && Unmapped(s, y, a, b, c)
    requires c in y.at && y.Has(Parent(c), c.region % ENTRIES)
    requires Dropped(y, c, NullAt(s, c.depth + 1)).Has(u, j)
    ensures Cleared(s, Dropped(y, c, NullAt(s, c.depth + 1)), u, j)
  {
    var t, i, w := Parent(c), c.region % ENTRIES, NullAt(s, c.depth + 1);
    DroppedSlot(y, c, w, u, j);
    assert y.Slot(u, j) == y.Slot(u, j);
    assert Cleared(s, y, u, j);
    if (u, j) == (t, i) {
      assert y.Linked(c);
      assert Child(t, i) == c;
    }
  }

  lemma TidyDrop(s: Space, y: Space, c: Tag, a: nat, b: nat)
    requires s.Struct() && c in s.at && c != s.Top()
    requires Unmapped(s, y, a, b, c) && Tidy(s, y, c) && y.Has(Parent(c), c.region % ENTRIES)
    ensures Tidy(s, Dropped(y, c, NullAt(s, c.depth + 1)), Parent(c))
  {
    var w := NullAt(s, c.depth + 1);
    var z := Dropped(y, c, w);
    forall u | u in z.at && u != Parent(c) && u != z.Top() && Hollow(z, u)
      ensures Hollow(s, u)
    {
      forall j: nat | j < ENTRIES
        ensures !InUse(y, u, j)
      {
        DroppedSlot(y, c, w, u, j);
        assert !InUse(z, u, j);
      }
      assert Hollow(y, u);
    }
  }

  lemma GoneDrop(s: Space, y: Space, c: Tag, a: nat, b: nat)
    requires Unmapped(s, y, a, b, c) && Gone(s, y, a, b) && c in y.at && y.Has(Parent(c), c.region % ENTRIES)
    requires TagInside(c, a, b) || Hollow(y, c)
    ensures Gone(s, Dropped(y, c, NullAt(s, c.depth + 1)), a, b)
  {
    if Hollow(y, c) {
      HollowHolds(y, c);
      LooseBefore(s, y, a, b, c, c);
    }
  }

  lemma HollowHolds(y: Space, c: Tag)
    requires Hollow(y, c)
    ensures NothingLoose(y, c)
  {
  }

  // Results of one call, with the allocator.

  datatype State = State(space: Space, live: Live)

  /** Slots of the table at `self` inside [a, b) map nothing. */
  ghost predicate Swept(s: Space, self: Tag, a: nat, b: nat) {
    forall i: nat {:trigger s.Slot(self, i)} ::
      s.Has(self, i) && a <= Start(SlotRegion(self, i), self.depth) && Start(SlotRegion(self, i) + 1, self.depth) <= b ==>
        !IsTable(s.Slot(self, i), self.depth) && !IsLeaf(s.Slot(self, i), self.depth)
  }

  /** A successful removal of [a, b). */
  ghost predicate Done(x: State, y: State, a: nat, b: nat, self: Tag) {
    && Unmapped(x.space, y.space, a, b, self)
    && NothingBlocks(x.space, a, b)
    && Swept(y.space, self, a, b)
    && Tidy(x.space, y.space, self) && Busy(y.space, a, b, self) && Gone(x.space, y.space, a, b)
    && Own(y.space, y.live) && Released(x.space, x.live, y.space, y.live)
  }

  /** The page at byte `cut` is mapped by slot word w at this depth. */
  ghost predicate StopSlot(s: Space, cut: nat, d: nat, w: Word) {
    var t, i := TagOf(cut / PAGE, d), Index(cut / PAGE, d);
    s.Has(t, i) && s.Slot(t, i) == w && IsLeaf(w, d) && s.Trans(cut / PAGE) == LeafOf(w, d)
  }

  /** The depth-d region around byte `cut` lies within [a, b). */
  predicate LeafInside(cut: nat, d: nat, a: nat, b: nat) {
    var m := Reg(cut / PAGE, d);
    a <= Start(m, d) && Start(m + 1, d) <= b
  }

  /** A removal of [a, b) that stopped at byte `cut`, at the leaf word w of depth d. Everything below
      was removed as by a successful call; the leaf still translates. A leaf only partly inside is
      reported and kept; a large page inside was handed to the allocator before its slot refused the
      update. */
  ghost predicate Stopped(x: State, y: State, a: nat, b: nat, self: Tag, cut: nat, d: nat, w: Word, e: MappingError) {
    && a <= cut < b && d <= self.depth
    && Unmapped(x.space, y.space, a, cut, self)
    && NothingBlocks(x.space, a, cut)
    && StopSlot(x.space, cut, d, w) && StopSlot(y.space, cut, d, w)
    && if d > 0 && LeafInside(cut, d, a, b) then
         && e == MappingOver(Address(w))
         && exists mid: Live :: StoppedOver(x, y, mid, d, w)
       else
         && !LeafInside(cut, d, a, b)
         && e == UnmappingPartOfLargePage(Address(w))
         && Own(y.space, y.live) && Released(x.space, x.live, y.space, y.live)
  }

  /** `mid` are the live blocks after the part below the cut was freed; then the large page was freed
      although it stays mapped. */
  ghost predicate StoppedOver(x: State, y: State, mid: Live, d: nat, w: Word) {
    && Own(y.space, mid) && Released(x.space, x.live, y.space, mid)
    && y.live == Freed(y.space, mid, LeafAddr(w), RegionSize(d))
  }

  lemma SweptCompose(y: Space, z: Space, self: Tag, a: nat, m: nat, c: nat)
    requires Unmapped(y, z, Start(m, self.depth), c, self)
    requires Swept(y, self, a, Start(m, self.depth)) && Swept(z, self, Start(m, self.depth), c)
    ensures Swept(z, self, a, c)
  {
    var d := self.depth;
    forall i: nat | z.Has(self, i) && a <= Start(SlotRegion(self, i), d) && Start(SlotRegion(self, i) + 1, d) <= c
      ensures !IsTable(z.Slot(self, i), d) && !IsLeaf(z.Slot(self, i), d)
    {
      var r := SlotRegion(self, i);
      assert Cleared(y, z, self, i);
      NullMapsNothing(y, d);
      if r < m {
        FirstMonotone(r + 1, m, d);
        assert y.Slot(self, i) == y.Slot(self, i);
      } else {
        FirstMonotone(m, r, d);
      }
    }
  }

  /** Successful removals of adjacent ranges, split at a slot boundary. */
  lemma DoneCompose(x: State, y: State, z: State, a: nat, m: nat, c: nat, self: Tag)
    requires a <= Start(m, self.depth) <= c
    requires Done(x, y, a, Start(m, self.depth), self) && Done(y, z, Start(m, self.depth), c, self)
    ensures Done(x, z, a, c, self)
  {
    hide Unmapped;
    hide NothingBlocks;
    hide Swept;
    hide Own;
    hide Released;
    hide Tidy;
    hide Busy;
    hide Gone;
    var b := Start(m, self.depth);
    UnmappedCompose(x.space, y.space, z.space, a, b, c, self);
    NothingBlocksCompose(x.space, y.space, a, b, c, self);
    SweptCompose(y.space, z.space, self, a, m, c);
    ReleasedCompose(x.space, x.live, y.space, y.live, z.space, z.live);
    UnmappedFixed(y.space, z.space, b, c, self);
    TidyCompose(x.space, y.space, z.space, self);
    BusyCompose(y.space, z.space, a, m, c, self);
    GoneCompose(x.space, y.space, z.space, a, b, c, self);
  }

  /** A removal that stops after a successful part. */
  lemma StopAfter(x: State, y: State, z: State, a: nat, m: nat, c: nat, self: Tag,
                  cut: nat, d: nat, w: Word, e: MappingError)
    requires a <= Start(m, self.depth) <= c
    requires Done(x, y, a, Start(m, self.depth), self)
    requires Stopped(y, z, Start(m, self.depth), c, self, cut, d, w, e)
    ensures Stopped(x, z, a, c, self, cut, d, w, e)
  {
    hide Unmapped;
    hide NothingBlocks;
    hide Swept;
    hide Own;
    hide Released;
    hide Tidy;
    hide StopSlot;
    hide LeafInside;
    var b := Start(m, self.depth);
    UnmappedCompose(x.space, y.space, z.space, a, b, cut, self);
    NothingBlocksCompose(x.space, y.space, a, b, cut, self);
    StopSlotBefore(x.space, y.space, a, b, cut, d, w, self);
    StopAligned(cut, d, a, m, c, self.depth);
    if d > 0 && LeafInside(cut, d, b, c) {
      var mid: Live :| StoppedOver(y, z, mid, d, w);
      ReleasedCompose(x.space, x.live, y.space, y.live, z.space, mid);
      assert StoppedOver(x, z, mid, d, w);
    } else {
      ReleasedCompose(x.space, x.live, y.space, y.live, z.space, z.live);
    }
  }

  lemma StopSlotBefore(x: Space, y: Space, a: nat, b: nat, cut: nat, d: nat, w: Word, self: Tag)
    requires Unmapped(x, y, a, b, self) && StopSlot(y, cut, d, w)
    ensures StopSlot(x, cut, d, w)
  {
    var t, i := TagOf(cut / PAGE, d), Index(cut / PAGE, d);
    assert Cleared(x, y, t, i);
    NullMapsNothing(x, d);
    assert y.Trans(cut / PAGE).Some?;
  }

  /** The region around a page at or above a slot boundary lies at or above the boundary. */
  lemma StopAligned(cut: nat, d: nat, a: nat, m: nat, c: nat, depth: nat)
    requires d <= depth && a <= Start(m, depth) <= cut
    ensures LeafInside(cut, d, a, c) <==> LeafInside(cut, d, Start(m, depth), c)
  {
    var q := cut / PAGE;
    Galois(m, q, depth);
    Nested(q, d, depth);
    FirstMonotone(m, Reg(q, depth), depth);
  }
}
