/** Whether a region can be mapped again after it was unmapped. It can if NULL clears a slot; with
    the x86 encoding, which stores the PS bit, a top-level slot whose table was dropped is lost. */
module Reuse {
  import opened Common
  import opened PageTableEntry
  import opened Geometry
  import opened PageTables
  import opened TableSteps
  import opened Ownership
  import opened Unmapping
  import opened MapSteps
  import opened MapRange
  import opened Runs

  /** What a call does to the tables alone, whoever owns the blocks. */
  ghost predicate TableStep(s: Space, op: Op, z: Space) {
    && SameFixed(s, z) && z.Struct()
    && match op
       case MapOp(v, frames, _) => FirmSlots(s, z, v, |frames|)
       case MapStop(mid, v, frames, _, _, _, _) =>
         SameFixed(s, mid.space) && FirmSlots(s, mid.space, v, |frames|) && OnlyFilled(mid.space, z, v + |frames|)
       case UnmapOp(a, b) => Unmapped(s, z, a, b, s.Top())
       case UnmapStop(a, _, cut, _, _, _) => Unmapped(s, z, a, cut, s.Top())
  }

  ghost predicate TableRun(spaces: seq<Space>, ops: seq<Op>) {
    |spaces| == |ops| + 1 && forall i :: 0 <= i < |ops| ==> TableStep(spaces[i], ops[i], spaces[i + 1])
  }

  lemma StepOnTables(x: State, op: Op, y: State)
    requires Step(x, op, y)
    ensures TableStep(x.space, op, y.space)
  {
    hide RangeMapped;
    hide MapResult;
    hide Done;
    hide Stopped;
    hide Unmapped;
    hide FirmSlots;
    hide OnlyFilled;
    match op
    case MapOp(v, frames, flags) => MappedTables(x, y, v, frames, flags);
    case MapStop(mid, v, frames, g, flags, e, leak) =>
      MappedTables(x, mid, v, frames, flags);
      StoppedTables(State(mid.space, mid.live[g := PAGE]), y, v + |frames|, PageWord(mid.space, g, flags), e, leak);
    case UnmapOp(a, b) => DoneTables(x, y, a, b);
    case UnmapStop(a, b, cut, d, w, e) => CutTables(x, y, a, b, cut, d, w, e);
  }

  lemma DoneTables(x: State, y: State, a: nat, b: nat)
    requires Done(x, y, a, b, x.space.Top())
    ensures Unmapped(x.space, y.space, a, b, x.space.Top()) && SameFixed(x.space, y.space) && y.space.Struct()
  {
  }

  lemma CutTables(x: State, y: State, a: nat, b: nat, cut: nat, d: nat, w: Word, e: MappingError)
    requires Stopped(x, y, a, b, x.space.Top(), cut, d, w, e)
    ensures Unmapped(x.space, y.space, a, cut, x.space.Top()) && SameFixed(x.space, y.space) && y.space.Struct()
  {
  }

  lemma MappedTables(x: State, y: State, v: nat, frames: seq<Frame>, flags: bv7)
    requires RangeMapped(x, y, v, frames, flags)
    ensures SameFixed(x.space, y.space) && y.space.Struct() && FirmSlots(x.space, y.space, v, |frames|)
  {
  }

  lemma StoppedTables(x: State, y: State, p: nat, w: Word, e: MappingError, leak: set<nat>)
    requires MapResult(x, y, p, 0, x.space.top, w, Err(e), leak)
    ensures SameFixed(x.space, y.space) && y.space.Struct() && OnlyFilled(x.space, y.space, p)
  {
  }

  /** The top-level slot i holds the word w and refuses updates. */
  ghost predicate LockedAt(s: Space, i: nat, w: Word) {
    s.Struct() && s.Has(s.Top(), i) && s.Slot(s.Top(), i) == w && Locked(w, s.top == 0)
  }

  lemma UnmapKeepsLock(s: Space, z: Space, a: nat, b: nat, i: nat, w: Word)
    requires Unmapped(s, z, a, b, s.Top()) && LockedAt(s, i, w)
    ensures LockedAt(z, i, w)
  {
    assert s.Top() in z.at && z.Has(z.Top(), i);
    assert z.Slot(z.Top(), i) == z.Slot(z.Top(), i);
    assert Cleared(s, z, z.Top(), i);
  }

  lemma FirmKeepsLock(s: Space, z: Space, v: nat, n: nat, i: nat, w: Word)
    requires SameFixed(s, z) && FirmSlots(s, z, v, n) && LockedAt(s, i, w)
    ensures z.Has(z.Top(), i) && z.Slot(z.Top(), i) == w
  {
    assert Firm(s, s.Top(), i, v, n);
  }

  lemma FillKeepsLock(s: Space, z: Space, p: nat, i: nat, w: Word)
    requires SameFixed(s, z) && OnlyFilled(s, z, p)
    requires s.Has(s.Top(), i) && s.Slot(s.Top(), i) == w && Locked(w, s.top == 0)
    ensures z.Has(z.Top(), i) && z.Slot(z.Top(), i) == w
  {
    assert Filled(s, z, p, s.Top(), i);
  }

  /** No call changes a locked top-level slot. */
  lemma LockStays(s: Space, op: Op, z: Space, i: nat, w: Word)
    requires TableStep(s, op, z) && LockedAt(s, i, w)
    ensures LockedAt(z, i, w)
  {
    hide Unmapped;
    hide FirmSlots;
    hide OnlyFilled;
    match op
    case MapOp(v, frames, _) => FirmKeepsLock(s, z, v, |frames|, i, w);
    case MapStop(mid, v, frames, _, _, _, _) =>
      FirmKeepsLock(s, mid.space, v, |frames|, i, w);
      FillKeepsLock(mid.space, z, v + |frames|, i, w);
    case UnmapOp(a, b) => UnmapKeepsLock(s, z, a, b, i, w);
    case UnmapStop(a, _, cut, _, _, _) => UnmapKeepsLock(s, z, a, cut, i, w);
  }

  lemma TablePrefix(spaces: seq<Space>, ops: seq<Op>)
    requires TableRun(spaces, ops) && |ops| > 0
    ensures TableRun(spaces[..|ops|], ops[..|ops| - 1])
    ensures TableStep(spaces[|ops| - 1], ops[|ops| - 1], spaces[|ops|])
  {
    hide TableStep;
    var n := |ops|;
    forall j | 0 <= j < n - 1
      ensures TableStep(spaces[..n][j], ops[..n - 1][j], spaces[..n][j + 1])
    {
      assert TableStep(spaces[j], ops[j], spaces[j + 1]);
    }
  }

  lemma {:induction false} LockedForever(spaces: seq<Space>, ops: seq<Op>, i: nat, w: Word)
    requires TableRun(spaces, ops) && LockedAt(spaces[0], i, w)
    ensures LockedAt(spaces[|ops|], i, w) && SameFixed(spaces[0], spaces[|ops|])
  {
    hide LockedAt;
    var n := |ops|;
    if n > 0 {
      TablePrefix(spaces, ops);
      LockedForever(spaces[..n], ops[..n - 1], i, w);
      LockStays(spaces[n - 1], ops[n - 1], spaces[n], i, w);
    }
  }

  /** Mapping any page through a locked top-level slot fails and changes nothing. */
  lemma LockedRefuses(x: State, y: State, i: nat, w: Word, p: nat, k: nat, word: Word, r: MappingResult, leak: set<nat>)
    requires LockedAt(x.space, i, w) && p < x.space.Limit() && Index(p, x.space.top) == i && k <= x.space.top
    requires MapResult(x, y, p, k, x.space.top, word, r, leak)
    ensures r == Err(MappingOver(Address(w))) || r == Err(PageAllocationFailed)
    ensures Untouched(x.space, y.space) && forall q :: y.space.Trans(q) == x.space.Trans(q)
  {
    PageTag(x.space, p);
    BarrierHere(x.space, p, k, x.space.top);
  }

  /** A successful removal locks the top-level slots whose tables it drops, if NULL is sticky. */
  lemma DropLocks(x: State, y: State, a: nat, b: nat, i: nat)
    requires Done(x, y, a, b, x.space.Top()) && x.space.Struct() && x.space.sticky && x.space.top > 0
    requires i < ENTRIES && Child(x.space.Top(), i) in x.space.at && Child(x.space.Top(), i) !in y.space.at
    ensures LockedAt(y.space, i, NullAt(x.space, x.space.top))
  {
    var t := x.space.Top();
    assert x.space.Has(t, i) && y.space.Has(t, i);
    ChildFree(x.space, t, i);
    ChildFree(y.space, t, i);
    assert y.space.Slot(t, i) == y.space.Slot(t, i);
    assert Cleared(x.space, y.space, t, i);
    NullMapsNothing(x.space, x.space.top);
  }

  /** Every page mapped in the 4 MiB region of page p lies in [a, b). */
  ghost predicate Empties(s: Space, a: nat, b: nat, p: nat) {
    forall o {:trigger s.Trans(o)} :: Reg(o, 1) == Reg(p, 1) && s.Trans(o).Some? ==> Contained(o, a, b)
  }

  /** The removal of [a, b) takes the table of page p's region away: there is one, the range meets it, no page
      of the region is left, and unless the range takes in all of the region, no slot holds an address alone. */
  ghost predicate Loses(s: Space, a: nat, b: nat, p: nat) {
    var c := Child(Tag(1, 0), Reg(p, 1));
    c in s.at && TagTouched(c, a, b) && Empties(s, a, b, p) && (TagInside(c, a, b) || NothingLoose(s, c))
  }

  /** When a region's table is dropped. */
  lemma EmptiedIsDropped(x: State, y: State, a: nat, b: nat, p: nat)
    requires Done(x, y, a, b, x.space.Top()) && x.space.Struct() && x.space.top == 1
    requires p < x.space.Limit() && Child(x.space.Top(), Reg(p, 1)) in x.space.at
    ensures Child(x.space.Top(), Reg(p, 1)) !in y.space.at <==> Loses(x.space, a, b, p)
  {
    var c := Child(x.space.Top(), Reg(p, 1));
    if c in y.space.at && TagTouched(c, a, b) {
      var j := BusySlot(x, y, a, b, c);
      if IsLeaf(y.space.Slot(c, j), 0) {
        var o := SlotPage(y.space, c, j);
        assert Reg(o, 1) == Reg(p, 1) && x.space.Trans(o).Some? && !Contained(o, a, b);
      } else {
        LooseStays(x, y, a, b, c, j);
      }
    }
    if c !in y.space.at {
      assert TagInside(c, a, b) || NothingLoose(x.space, c);
      forall o | Reg(o, 1) == Reg(p, 1) && x.space.Trans(o).Some?
        ensures Contained(o, a, b)
      {
        OnlyDropped(x, y, a, b, p, o);
      }
    }
  }

  /** A table that the removal meets and leaves has a slot in use. */
  lemma BusySlot(x: State, y: State, a: nat, b: nat, c: Tag) returns (j: nat)
    requires Done(x, y, a, b, x.space.Top()) && x.space.top == 1 && c.depth == 0
    requires c in y.space.at && TagTouched(c, a, b)
    ensures InUse(y.space, c, j) && !IsTable(y.space.Slot(c, j), 0) && !TagInside(c, a, b)
  {
    assert !Hollow(y.space, c);
    j :| j < ENTRIES && InUse(y.space, c, j);
    assert y.space.Edge(c, j);
  }

  /** An address alone in a slot was there before. */
  lemma LooseStays(x: State, y: State, a: nat, b: nat, c: Tag, j: nat)
    requires Done(x, y, a, b, x.space.Top()) && InUse(y.space, c, j) && y.space.Vacant(c, j)
    ensures !NothingLoose(x.space, c)
  {
    assert y.space.Slot(c, j) == y.space.Slot(c, j);
    assert Cleared(x.space, y.space, c, j);
    NullIsUnused(x.space, c.depth);
    assert InUse(x.space, c, j) && x.space.Vacant(c, j);
  }

  lemma NullIsUnused(s: Space, d: nat)
    ensures !Decode(NullAt(s, d), d == 0).Mapped()
  {
  }

  /** Nothing is left of a region whose table is gone. */
  lemma OnlyDropped(x: State, y: State, a: nat, b: nat, p: nat, o: nat)
    requires Done(x, y, a, b, x.space.Top()) && x.space.Struct() && x.space.top == 1
    requires p < x.space.Limit() && Child(x.space.Top(), Reg(p, 1)) in x.space.at
    requires Child(x.space.Top(), Reg(p, 1)) !in y.space.at && Reg(o, 1) == Reg(p, 1) && x.space.Trans(o).Some?
    ensures Contained(o, a, b)
  {
    var t, i := x.space.Top(), Reg(p, 1);
    SameRegion(x.space, y.space, p, o);
    PageTag(y.space, o);
    ChildFree(x.space, t, i);
    ChildFree(y.space, t, i);
    assert y.space.Slot(t, i) == y.space.Slot(t, i);
    assert Cleared(x.space, y.space, t, i);
    NullMapsNothing(x.space, 1);
    TransOfSlot(y.space, o, 1);
  }

  /** Exactly what a removal does to whether pages can be mapped: two levels, sticky NULL, any page q. If
      the removal takes the table of its region away, every mapping of q is refused from then on; if not,
      it is refused if and only if it was before. */
  lemma RegionIsLostExactly(x: State, y: State, a: nat, b: nat, q: nat)
    requires x.space.Struct() && x.space.top == 1 && x.space.sticky && q < x.space.Limit()
    requires Done(x, y, a, b, x.space.Top())
    ensures Barrier(y.space, q, 0, 1)
         == if Loses(x.space, a, b, q) then Some(Word(0, PS)) else Barrier(x.space, q, 0, 1)
    ensures Loses(x.space, a, b, q) ==> LockedAt(y.space, Reg(q, 1), Word(0, PS))
  {
    var t, i := x.space.Top(), Reg(q, 1);
    SameRegion(x.space, x.space, q, q);
    PageTag(x.space, q);
    PageTag(y.space, q);
    DoneTables(x, y, a, b);
    if Child(t, i) in x.space.at { EmptiedIsDropped(x, y, a, b, q); }
    if Child(t, i) in y.space.at {
      DoneShrinks(x, y, a, b, Child(t, i));
      hide Done;
      TableRefusesNothing(x.space, q);
      TableRefusesNothing(y.space, q);
    } else if Child(t, i) in x.space.at {
      hide Done;
      DropLocks(x, y, a, b, i);
      assert NullAt(x.space, 1) == Word(0, PS);
      BarrierHere(y.space, q, 0, 1);
    } else {
      SlotStays(x, y, a, b, i);
      hide Done;
      BarrierHere(x.space, q, 0, 1);
      BarrierHere(y.space, q, 0, 1);
      ChildFree(x.space, t, i);
    }
  }

  lemma DoneShrinks(x: State, y: State, a: nat, b: nat, c: Tag)
    requires Done(x, y, a, b, x.space.Top()) && c in y.space.at
    ensures c in x.space.at
  {
  }

  /** A page whose region has a table is refused nowhere. */
  lemma TableRefusesNothing(s: Space, q: nat)
    requires s.Struct() && s.top == 1 && q < s.Limit() && Child(s.Top(), Reg(q, 1)) in s.at
    ensures Barrier(s, q, 0, 1) == None
  {
    PageTag(s, q);
    SameRegion(s, s, q, q);
    ChildFree(s, s.Top(), Reg(q, 1));
    PathRead(s, q, 1);
    BarrierHere(s, q, 0, 1);
    TagOfChild(q, 1);
    BarrierHere(s, q, 0, 0);
  }

  /** A top-level slot without a table keeps its word. */
  lemma SlotStays(x: State, y: State, a: nat, b: nat, i: nat)
    requires Done(x, y, a, b, x.space.Top()) && x.space.Struct() && x.space.top == 1 && i < ENTRIES
    requires Child(x.space.Top(), i) !in x.space.at
    ensures x.space.Has(x.space.Top(), i) && y.space.Has(y.space.Top(), i) && y.space.Top() == x.space.Top()
    ensures y.space.Slot(y.space.Top(), i) == x.space.Slot(x.space.Top(), i)
  {
    ChildFree(x.space, x.space.Top(), i);
    assert y.space.Slot(y.space.Top(), i) == y.space.Slot(y.space.Top(), i);
    assert Cleared(x.space, y.space, y.space.Top(), i);
  }

  /** The same in terms of a later call: a page of a region that was lost is refused for ever, whatever is
      called in between; another page is, right after the removal, refused only if it was before. */
  lemma EmptiedRegionIsLost(x: State, y: State, a: nat, b: nat, spaces: seq<Space>, ops: seq<Op>, from: State, to: State,
                            q: nat, word: Word, r: MappingResult, leak: set<nat>)
    requires x.space.Struct() && x.space.top == 1 && x.space.sticky && q < x.space.Limit()
    requires Done(x, y, a, b, x.space.Top()) && TableRun(spaces, ops) && spaces[0] == y.space
    requires from.space == spaces[|ops|] && MapResult(from, to, q, 0, 1, word, r, leak)
    ensures Loses(x.space, a, b, q) ==>
      (r == Err(MappingOver(Word(0, 0))) || r == Err(PageAllocationFailed)) && Untouched(from.space, to.space)
    ensures !Loses(x.space, a, b, q) && ops == [] && Barrier(x.space, q, 0, 1) == None ==>
      r == Ok || r == Err(PageAllocationFailed)
  {
    var i := Reg(q, 1);
    hide Done;
    hide TableRun;
    hide LockedAt;
    hide Loses;
    hide Barrier;
    hide Extended;
    hide Untouched;
    RegionIsLostExactly(x, y, a, b, q);
    if Loses(x.space, a, b, q) {
      LockedForever(spaces, ops, i, Word(0, PS));
      DoneTables(x, y, a, b);
      SameRegion(x.space, from.space, q, q);
      LockedRefuses(from, to, i, Word(0, PS), q, 0, word, r, leak);
    }
  }

  lemma SameRegion(s: Space, z: Space, p: nat, q: nat)
    requires SameFixed(s, z) && s.top == 1 && p < s.Limit() && Reg(q, 1) == Reg(p, 1)
    ensures z.top == 1 && q < z.Limit() && Index(q, 1) == Reg(p, 1)
  {
    RegUp(p, q, 1, 2);
    PageTag(s, p);
    PageTag(z, q);
    assert Reg(p, 2) == Reg(p, 1) / ENTRIES;
  }

  // The contract under which NULL clears a slot.

  /** Every locked slot maps a large page. */
  ghost predicate CleanSlots(s: Space) {
    forall t: Tag, i: nat {:trigger s.Vacant(t, i)} :: s.Vacant(t, i) ==> !Locked(s.Slot(t, i), t.depth == 0)
  }

  lemma StepClean(x: State, op: Op, y: State)
    requires CarefulStep(x, op, y) && !x.space.sticky && CleanSlots(x.space) && x.space.Struct()
    ensures CleanSlots(y.space) && y.space.sticky == x.space.sticky
  {
    forall t: Tag, i: nat | y.space.Vacant(t, i)
      ensures !Locked(y.space.Slot(t, i), t.depth == 0)
    {
      if t.depth > 0 {
        match op
        case MapOp(v, frames, flags) =>
          if y.space.Slot(t, i) != NULL_WORD { RangeClean(x.space, y.space, v, frames, t, i); }
        case UnmapOp(a, b) =>
          UnmapClean(x.space, y.space, a, b, t, i);
      }
    }
  }

  lemma RangeClean(s: Space, z: Space, v: nat, frames: seq<Frame>, t: Tag, i: nat)
    requires IdleSlots(s, z) && CleanSlots(s) && z.Vacant(t, i) && t.depth > 0 && z.Slot(t, i) != NULL_WORD
    ensures !Locked(z.Slot(t, i), false)
  {
    assert s.Vacant(t, i);
  }

  lemma UnmapClean(s: Space, z: Space, a: nat, b: nat, t: Tag, i: nat)
    requires Unmapped(s, z, a, b, s.Top()) && !s.sticky && CleanSlots(s) && z.Vacant(t, i) && t.depth > 0
    ensures !Locked(z.Slot(t, i), false)
  {
    assert z.Slot(t, i) == z.Slot(t, i);
    assert Cleared(s, z, t, i);
    NullMapsNothing(s, t.depth);
    assert z.Slot(t, i) == s.Slot(t, i) ==> s.Vacant(t, i);
  }

  /** In a clean space only mapped pages have something in their way. */
  lemma {:induction false} CleanBarrier(s: Space, p: nat, d: nat)
    requires s.Struct() && CleanSlots(s) && d <= s.top && s.Trans(p).None?
    ensures Barrier(s, p, 0, d) == None
    decreases d
  {
    var t, i := TagOf(p, d), Index(p, d);
    if s.Has(t, i) {
      PathRead(s, p, d);
      if IsLeaf(s.Slot(t, i), d) { TransOfSlot(s, p, d); }
      assert !IsTable(s.Slot(t, i), d) ==> s.Vacant(t, i);
      if d > 0 { CleanBarrier(s, p, d - 1); }
    }
  }

  lemma {:induction false} RunClean(states: seq<State>, ops: seq<Op>)
    requires CarefulRun(states, ops) && Fit(states[0]) && !states[0].space.sticky && CleanSlots(states[0].space)
    ensures CleanSlots(states[|ops|].space) && !states[|ops|].space.sticky
  {
    hide CarefulStep;
    hide CleanSlots;
    hide Fit;
    var n := |ops|;
    if n > 0 {
      CarefulPrefix(states, ops);
      RunClean(states[..n], ops[..n - 1]);
      RunConserves(states[..n], ops[..n - 1]);
      FitStruct(states[n - 1]);
      StepClean(states[n - 1], ops[n - 1], states[n]);
    }
  }

  lemma FitStruct(x: State)
    requires Fit(x)
    ensures x.space.Struct()
  {
  }

  /** After every run, a 4 KiB mapping of an unmapped page succeeds unless a frame is refused. */
  lemma UnmappedIsMappable(states: seq<State>, ops: seq<Op>, y: State, p: nat, w: Word, r: MappingResult, leak: set<nat>)
    requires CarefulRun(states, ops) && Fit(states[0]) && !states[0].space.sticky && CleanSlots(states[0].space)
    requires states[|ops|].space.Trans(p).None?
    requires MapResult(states[|ops|], y, p, 0, states[|ops|].space.top, w, r, leak)
    ensures r == Ok || r == Err(PageAllocationFailed)
    ensures r == Ok ==> y.space.Trans(p) == LeafOf(w, 0)
    ensures leak == {}
  {
    RunClean(states, ops);
    RunConserves(states, ops);
    CleanBarrier(states[|ops|].space, p, states[|ops|].space.top);
  }

  /** A GLOBAL page on an allocated frame. The space does not answer for it, because unmapping it means
      freeing the address 0x100 above its frame: that is either no block of any zone, and then the frame is
      never freed, or seems to be one and is not live, and then the page must not be unmapped. */
  lemma GlobalIsNeverOwned(s: Space, live: Live, t: Tag, i: nat, frame: Frame, flags: bv7)
    requires s.Has(t, i) && t.depth == 0 && s.Slot(t, i) == PageWord(s, frame, flags)
    requires flags & PRESENT != 0 && flags & GLOBAL != 0 && forall a :: a in live ==> a % PAGE == 0
    ensures LeafAddr(s.Slot(t, i)) == frame + 0x100 && !OwnedSlot(s, t, i)
    ensures Freeable(s, t, i) <==> !Manages(s.ext, frame + 0x100, PAGE)
    ensures Freeable(s, t, i) ==> Freed(s, live, LeafAddr(s.Slot(t, i)), PAGE) == live
    ensures !Freeable(s, t, i) ==> LeafAddr(s.Slot(t, i)) !in live
  {
    PageWordMeans(s, frame, flags);
    GlobalShiftsAddress(frame, true, flags);
    assert NULL != Page(Word(frame, 0), flags);
  }
}
