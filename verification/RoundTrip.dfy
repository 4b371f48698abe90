/** Mapping a range and unmapping it again restores the translation, the tables and the allocator. */
module RoundTrip {
  import opened Common
  import opened PageTableEntry
  import opened Geometry
  import opened PageTables
  import opened Ownership
  import opened Unmapping
  import opened MapSteps
  import opened MapRange
  import opened UnmapSteps
  import opened Overwriting

  /** The table at t translates some page. */
  ghost predicate Populated(s: Space, t: Tag) {
    exists p :: TagOf(p, t.depth) == t && s.Trans(p).Some?
  }

  /** Every sub-table whose region meets [a, b) translates some page. */
  ghost predicate PopulatedIn(s: Space, a: nat, b: nat) {
    forall t {:trigger t in s.at} :: t in s.at && t != s.Top() && TagTouched(t, a, b) ==> Populated(s, t)
  }

  /** Nothing within [a, b) is mapped. */
  ghost predicate ClearIn(s: Space, a: nat, b: nat) {
    forall p {:trigger s.Trans(p)} :: Contained(p, a, b) ==> s.Trans(p).None?
  }

  /** Nothing stands against unmapping where nothing is mapped. */
  lemma ClearIsRemovable(s: Space, a: nat, b: nat)
    requires s.Struct() && ClearIn(s, a, b)
    ensures Removable(s, a, b)
  {
    hide Space.Struct;
    forall t: Tag, i: nat
      ensures !LeafWithin(s, t, i, a, b)
    {
      if LeafWithin(s, t, i, a, b) {
        var p := SlotPage(s, t, i);
        LeafContained(s, t, i, a, b, p);
      }
    }
  }

  lemma LeafContained(s: Space, t: Tag, i: nat, a: nat, b: nat, p: nat)
    requires LeafWithin(s, t, i, a, b) && p == First(SlotRegion(t, i), t.depth)
    ensures Contained(p, a, b)
  {
    NextRegion(SlotRegion(t, i), t.depth);
  }

  /** The frames are mapped from page v on, in a range [a, b) that mapped nothing, and [a, b) is
      unmapped again. */
  ghost predicate ThereAndBack(x: State, y: State, z: State, v: nat, frames: seq<Frame>, flags: bv7, a: nat, b: nat) {
    && x.space.Struct() && Own(x.space, x.live)
    && flags & PRESENT != 0 && flags & GLOBAL == 0 && x.space.low <= v && RangeMapped(x, y, v, frames, flags)
    && a <= PAGE * v && PAGE * (v + |frames|) <= b && ClearIn(x.space, a, b)
    && Done(y, z, a, b, x.space.Top())
  }

  lemma TransBack(x: State, y: State, z: State, v: nat, frames: seq<Frame>, flags: bv7, a: nat, b: nat)
    requires ThereAndBack(x, y, z, v, frames, flags, a, b)
    ensures forall p :: z.space.Trans(p) == x.space.Trans(p)
  {
    forall p: nat
      ensures z.space.Trans(p) == x.space.Trans(p)
    {
      assert z.space.Trans(p) == if Contained(p, a, b) then None else y.space.Trans(p);
      assert v <= p < v + |frames| ==> Contained(p, a, b);
    }
  }

  /** A mapped page's leaf is found through every table on its path. */
  lemma LeafBelow(s: Space, p: nat, d: nat)
    requires s.Struct() && TagOf(p, d) in s.at && s.Trans(p).Some?
    ensures s.Trans(p).value.depth <= d
  {
    WalkThrough(s, p, d);
    WalkLands(s, p, d);
  }

  /** No table is left over. */
  lemma {:induction false} NoLeftover(x: State, y: State, z: State, v: nat, frames: seq<Frame>, flags: bv7,
                                      a: nat, b: nat, t: Tag)
    requires ThereAndBack(x, y, z, v, frames, flags, a, b) && t in z.space.at
    ensures t in x.space.at
    decreases t.depth
  {
    hide Done;
    hide RangeMapped;
    hide Own;
    hide ClearIn;
    if t !in x.space.at {
      TidyBack(x, y, z, v, frames, flags, a, b, t);
      var i: nat :| z.space.Has(t, i) && !z.space.Vacant(t, i);
      BackStruct(x, y, z, v, frames, flags, a, b);
      if IsTable(z.space.Slot(t, i), t.depth) {
        ChildInUse(z.space, t, i);
        NoLeftover(x, y, z, v, frames, flags, a, b, Child(t, i));
        ParentInUse(x.space, t, i);
      } else {
        var p := SlotPage(z.space, t, i);
        TransBack(x, y, z, v, frames, flags, a, b);
        TransLands(x.space, p);
      }
    }
  }

  lemma BackStruct(x: State, y: State, z: State, v: nat, frames: seq<Frame>, flags: bv7, a: nat, b: nat)
    requires ThereAndBack(x, y, z, v, frames, flags, a, b)
    ensures z.space.Struct() && SameFixed(x.space, z.space)
  {
  }

  lemma ChildInUse(s: Space, t: Tag, i: nat)
    requires s.Struct() && s.Has(t, i) && IsTable(s.Slot(t, i), t.depth)
    ensures t.depth > 0 && t.depth <= s.top && Child(t, i) in s.at
  {
    assert s.Edge(t, i) && s.Linked(t);
  }

  lemma ParentInUse(s: Space, t: Tag, i: nat)
    requires s.Struct() && t.depth > 0 && t.depth <= s.top && i < ENTRIES && Child(t, i) in s.at
    ensures t in s.at
  {
    assert s.Linked(Child(t, i)) && Parent(Child(t, i)) == t;
  }

  lemma TidyBack(x: State, y: State, z: State, v: nat, frames: seq<Frame>, flags: bv7, a: nat, b: nat, t: Tag)
    requires ThereAndBack(x, y, z, v, frames, flags, a, b) && t in z.space.at && t !in x.space.at
    ensures exists i: nat :: z.space.Has(t, i) && !z.space.Vacant(t, i)
  {
    hide RangeMapped;
    hide Space.Vacant;
    NewTouched(x, y, v, frames, flags, a, b, t);
    assert !Hollow(z.space, t);
    var i: nat :| i < ENTRIES && InUse(z.space, t, i);
    assert z.space.Slot(t, i) == z.space.Slot(t, i);
    assert Cleared(y.space, z.space, t, i);
    UnusedNull(y.space, t.depth);
    if z.space.Vacant(t, i) { NewSlotVacant(x, y, z, v, frames, flags, t, i); }
  }

  lemma UnusedNull(s: Space, d: nat)
    ensures !Decode(NullAt(s, d), d == 0).Mapped() && !Decode(NULL_WORD, d == 0).Mapped()
  {
  }

  /** A new table lies on the path of a page of the range. */
  lemma NewTouched(x: State, y: State, v: nat, frames: seq<Frame>, flags: bv7, a: nat, b: nat, t: Tag)
    requires RangeMapped(x, y, v, frames, flags) && t in y.space.at && t !in x.space.at
    requires a <= PAGE * v && PAGE * (v + |frames|) <= b
    ensures TagTouched(t, a, b) && t.depth < x.space.top == y.space.top
  {
    hide RangeMapped;
    RangeSlots(x, y, v, frames, flags);
    hide LastSlots;
    hide IdleSlots;
    hide Space.Struct;
    var q :| v <= q < v + |frames| && t == TagOf(q, t.depth);
    Galois(t.region, q, t.depth + 1);
    Galois(t.region + 1, q, t.depth + 1);
  }

  /** An empty slot of a new table is clear. */
  lemma NewSlotVacant(x: State, y: State, z: State, v: nat, frames: seq<Frame>, flags: bv7, t: Tag, i: nat)
    requires RangeMapped(x, y, v, frames, flags) && flags & PRESENT != 0 && y.space.Has(t, i) && t !in x.space.at
    requires z.space.Vacant(t, i) && z.space.Slot(t, i) == y.space.Slot(t, i)
    ensures z.space.Slot(t, i) == NULL_WORD
  {
    hide RangeMapped;
    hide PageWord;
    RangeSlots(x, y, v, frames, flags);
    if t.depth == 0 {
      var q := SlotRegion(t, i);
      if v <= q < v + |frames| { PageWordMeans(x.space, frames[q - v], flags); }
      assert y.space.Slot(t, i) == SlotAfter(x.space, v, frames, flags, t, i);
    } else {
      assert y.space.Vacant(t, i);
    }
  }

  /** No table is lost. */
  lemma NoLoss(x: State, y: State, z: State, v: nat, frames: seq<Frame>, flags: bv7, a: nat, b: nat, t: Tag)
    requires ThereAndBack(x, y, z, v, frames, flags, a, b) && PopulatedIn(x.space, a, b) && t in x.space.at
    ensures t in z.space.at && z.space.at[t] == x.space.at[t]
  {
    assert t in y.space.at && y.space.at[t] == x.space.at[t];
    if t !in z.space.at {
      assert TagTouched(t, a, b);
      var p :| TagOf(p, t.depth) == t && x.space.Trans(p).Some?;
      TransBack(x, y, z, v, frames, flags, a, b);
      LeafBelow(x.space, p, t.depth);
      TransLands(z.space, p);
      assert x.space.Linked(t);
      TagsAbove(z.space, p, x.space.Trans(p).value.depth, t.depth);
    }
  }

  lemma TablesBack(x: State, y: State, z: State, v: nat, frames: seq<Frame>, flags: bv7, a: nat, b: nat)
    requires ThereAndBack(x, y, z, v, frames, flags, a, b) && PopulatedIn(x.space, a, b)
    ensures z.space.at == x.space.at
  {
    forall t
      ensures t in z.space.at <==> t in x.space.at
      ensures t in x.space.at ==> z.space.at[t] == x.space.at[t]
    {
      if t in z.space.at { NoLeftover(x, y, z, v, frames, flags, a, b, t); }
      if t in x.space.at { NoLoss(x, y, z, v, frames, flags, a, b, t); }
    }
  }

  /** Leaf words are back. */
  lemma LeavesBack(x: State, y: State, z: State, v: nat, frames: seq<Frame>, flags: bv7, a: nat, b: nat,
                   t: Tag, i: nat)
    requires ThereAndBack(x, y, z, v, frames, flags, a, b) && z.space.at == x.space.at
    ensures x.space.Has(t, i) && IsLeaf(x.space.Slot(t, i), t.depth) ==>
      z.space.Has(t, i) && z.space.Slot(t, i) == x.space.Slot(t, i)
    ensures z.space.Has(t, i) && IsLeaf(z.space.Slot(t, i), t.depth) ==>
      x.space.Has(t, i) && z.space.Slot(t, i) == x.space.Slot(t, i)
  {
    TransBack(x, y, z, v, frames, flags, a, b);
    if x.space.Has(t, i) && IsLeaf(x.space.Slot(t, i), t.depth) {
      LeafKept(x, y, z, v, frames, flags, a, b, t, i);
    }
    if z.space.Has(t, i) && IsLeaf(z.space.Slot(t, i), t.depth) {
      var p := SlotPage(z.space, t, i);
      TransLands(x.space, p);
      LeafKept(x, y, z, v, frames, flags, a, b, t, i);
    }
  }

  lemma LeafKept(x: State, y: State, z: State, v: nat, frames: seq<Frame>, flags: bv7, a: nat, b: nat,
                 t: Tag, i: nat)
    requires ThereAndBack(x, y, z, v, frames, flags, a, b) && z.space.at == x.space.at
    requires x.space.Has(t, i) && IsLeaf(x.space.Slot(t, i), t.depth)
    ensures z.space.Has(t, i) && z.space.Slot(t, i) == x.space.Slot(t, i)
  {
    var p := SlotPage(x.space, t, i);
    TransBack(x, y, z, v, frames, flags, a, b);
    assert t.depth == 0 ==> p == SlotRegion(t, i);
    assert v <= p < v + |frames| ==> Contained(p, a, b);
    assert y.space.Slot(t, i) == x.space.Slot(t, i);
    assert z.space.Has(t, i) by { assert z.space.at[t] in z.space.mem; }
    assert z.space.Slot(t, i) == z.space.Slot(t, i);
    assert Cleared(y.space, z.space, t, i);
    TransOfSlotOrTable(z.space, p, t, i);
    NullMapsNothing(y.space, t.depth);
  }

  lemma TransOfSlotOrTable(s: Space, p: nat, t: Tag, i: nat)
    requires s.Struct() && s.Has(t, i) && TagOf(p, t.depth) == t && Index(p, t.depth) == i
    ensures !IsTable(s.Slot(t, i), t.depth) ==> s.Trans(p) == LeafOf(s.Slot(t, i), t.depth)
  {
    if !IsTable(s.Slot(t, i), t.depth) { TransOfSlot(s, p, t.depth); }
  }

  lemma OwnedBack(x: State, y: State, z: State, v: nat, frames: seq<Frame>, flags: bv7, a: nat, b: nat)
    requires ThereAndBack(x, y, z, v, frames, flags, a, b) && z.space.at == x.space.at
    ensures Owned(z.space) == Owned(x.space)
  {
    forall t: Tag, i: nat
      ensures OwnedSlot(z.space, t, i) <==> OwnedSlot(x.space, t, i)
      ensures OwnedSlot(z.space, t, i) ==> z.space.Slot(t, i) == x.space.Slot(t, i)
    {
      LeavesBack(x, y, z, v, frames, flags, a, b, t, i);
    }
    forall t
      ensures OwnedTable(z.space, t) <==> OwnedTable(x.space, t)
    {
    }
    assert TableFrames(z.space) == TableFrames(x.space);
    assert LeafFrames(z.space) == LeafFrames(x.space);
  }

  /** Unmapping cannot fail when nothing else was mapped in the range. */
  lemma RemovalSucceeds(x: Space, y: State, z: State, v: nat, frames: seq<Frame>, flags: bv7, a: nat, b: nat,
                        r: MappingResult, stop: Stop)
    requires RangeTrans(x, y.space, v, frames, flags) && ClearIn(x, a, b)
    requires a % PAGE == 0 && b % PAGE == 0 && Outcome(y, z, a, b, y.space.Top(), r, stop)
    ensures r == Ok
  {
    forall p | Touched(p, a, b) && y.space.Trans(p).Some?
      ensures y.space.Trans(p).value.depth == 0 && Contained(p, a, b)
    {
      WholePages(p, a, b);
    }
    SucceedsExactly(y, z, a, b, y.space.Top(), r, stop);
  }

  lemma WholePages(p: nat, a: nat, b: nat)
    requires a % PAGE == 0 && b % PAGE == 0 && Touched(p, a, b)
    ensures Contained(p, a, b)
  {
  }

  /** The round trip. The frames are mapped from page v on, and a removal of [a, b), whatever that was
      extended to, follows. If [a, b) was unmapped before and no table meeting it was empty, then the
      removal succeeds, and translation, tables and allocations are exactly as before. */
  lemma MapUnmap(x: State, y: State, z: State, v: nat, frames: seq<Frame>, flags: bv7, a: nat, b: nat,
                 r: MappingResult, stop: Stop)
    requires x.space.Struct() && Own(x.space, x.live)
    requires flags & PRESENT != 0 && flags & GLOBAL == 0 && x.space.low <= v && RangeMapped(x, y, v, frames, flags)
    requires a % PAGE == 0 && b % PAGE == 0 && a <= PAGE * v && PAGE * (v + |frames|) <= b
    requires ClearIn(x.space, a, b) && PopulatedIn(x.space, a, b)
    requires Outcome(y, z, a, b, y.space.Top(), r, stop)
    ensures r == Ok
    ensures forall p :: z.space.Trans(p) == x.space.Trans(p)
    ensures z.space.at == x.space.at && z.live == x.live
  {
    RemovalSucceeds(x.space, y, z, v, frames, flags, a, b, r, stop);
    assert ThereAndBack(x, y, z, v, frames, flags, a, b);
    hide RangeMapped;
    hide Outcome;
    hide Done;
    hide ThereAndBack;
    TransBack(x, y, z, v, frames, flags, a, b);
    TablesBack(x, y, z, v, frames, flags, a, b);
    OwnedBack(x, y, z, v, frames, flags, a, b);
    RangeOthers(x, y, v, frames, flags, a, b);
    BothOwn(x, y, z, v, frames, flags, a, b);
    LiveBack(x, y, z);
  }

  lemma BothOwn(x: State, y: State, z: State, v: nat, frames: seq<Frame>, flags: bv7, a: nat, b: nat)
    requires ThereAndBack(x, y, z, v, frames, flags, a, b)
    ensures Own(y.space, y.live) && LiveGrew(x.live, y.live) && Released(y.space, y.live, z.space, z.live)
  {
  }

  lemma RangeOthers(x: State, y: State, v: nat, frames: seq<Frame>, flags: bv7, a: nat, b: nat)
    requires RangeMapped(x, y, v, frames, flags) && flags & PRESENT != 0 && flags & GLOBAL == 0 && x.space.low <= v
    requires x.space.Struct() && a <= PAGE * v && PAGE * (v + |frames|) <= b && ClearIn(x.space, a, b)
    ensures Others(y) == Others(x)
  {
    hide RangeMapped;
    hide Others;
    forall q | v <= q < v + |frames|
      ensures x.space.Trans(q).None?
    {
      assert Contained(q, a, b);
    }
    VacatedOwnsNothing(x.space, v, |frames|);
    AllAnswered(x.space.low, v, frames, flags);
    RangeOwn(x, y, v, frames, flags);
  }

  lemma LiveBack(x: State, y: State, z: State)
    requires Own(x.space, x.live) && Own(y.space, y.live) && LiveGrew(x.live, y.live) && Others(y) == Others(x)
    requires Released(y.space, y.live, z.space, z.live) && Owned(z.space) == Owned(x.space)
    ensures z.live == x.live
  {
    OwnedIsLive(x.space, x.live);
    OwnedIsLive(y.space, y.live);
    assert z.live.Keys == Others(y) + Owned(z.space);
    assert x.live.Keys == Others(x) + Owned(x.space);
  }
}
