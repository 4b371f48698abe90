/** When `map_alloc` fails: exactly if the tables it starts from refuse one of the pages, as far as the
    allocator goes along. */
module Refusal {
  import opened Common
  import opened PageTableEntry
  import opened Geometry
  import opened PageTables
  import opened Unmapping
  import opened MapSteps
  import opened MapRange

  /** Some slot on the page's path refuses updates. */
  ghost predicate Refused(s: Space, p: nat) { Barrier(s, p, 0, s.top).Some? }

  /** A locked inner slot after pages were mapped was there before. */
  lemma LockIsOld(x: State, y: State, v: nat, frames: seq<Frame>, flags: bv7, t: Tag, i: nat)
    requires x.space.Struct() && RangeMapped(x, y, v, frames, flags)
    requires y.space.Has(t, i) && t.depth > 0 && Locked(y.space.Slot(t, i), false)
    ensures x.space.Has(t, i) && x.space.Slot(t, i) == y.space.Slot(t, i)
  {
    if IsLeaf(y.space.Slot(t, i), t.depth) {
      var p := SlotPage(y.space, t, i);
      TransLands(x.space, p);
      assert x.space.Has(t, i) && IsLeaf(x.space.Slot(t, i), t.depth);
      assert Firm(x.space, t, i, v, |frames|);
    } else {
      assert y.space.Vacant(t, i);
      assert NULL_WORD.low & PS == 0;
    }
  }

  /** A table that is new refuses nothing, and neither do those below it. */
  lemma {:induction false} NewRefusesNothing(x: State, y: State, v: nat, frames: seq<Frame>, flags: bv7, p: nat, d: nat)
    requires x.space.Struct() && RangeMapped(x, y, v, frames, flags) && TagOf(p, d) !in x.space.at && d <= x.space.top
    ensures Barrier(y.space, p, 0, d) == None
    decreases d
  {
    hide RangeMapped;
    var t, i := TagOf(p, d), Index(p, d);
    if y.space.Has(t, i) && d > 0 {
      if Locked(y.space.Slot(t, i), false) { LockIsOld(x, y, v, frames, flags, t, i); }
      if TagOf(p, d - 1) in x.space.at { Upwards(x.space, p, d); }
      NewRefusesNothing(x, y, v, frames, flags, p, d - 1);
    }
  }

  lemma Upwards(s: Space, p: nat, d: nat)
    requires s.Struct() && 0 < d <= s.top && TagOf(p, d - 1) in s.at
    ensures TagOf(p, d) in s.at
  {
    TagsAbove(s, p, d - 1, d);
  }

  /** Mapping pages neither adds nor removes a refusal. */
  lemma {:induction false} SameBarrier(x: State, y: State, v: nat, frames: seq<Frame>, flags: bv7, p: nat, d: nat)
    requires x.space.Struct() && RangeMapped(x, y, v, frames, flags) && TagOf(p, d) in x.space.at
    ensures Barrier(y.space, p, 0, d) == Barrier(x.space, p, 0, d)
    decreases d
  {
    hide RangeMapped;
    hide Space.Struct;
    hide Decode;
    hide Flags;
    var t, i := TagOf(p, d), Index(p, d);
    PathRead(x.space, p, d);
    RangeKeeps(x, y, v, frames, flags, t, i);
    BarrierHere(x.space, p, 0, d);
    if d > 0 {
      if Locked(y.space.Slot(t, i), false) { LockIsOld(x, y, v, frames, flags, t, i); }
      if TagOf(p, d - 1) in x.space.at {
        SameBarrier(x, y, v, frames, flags, p, d - 1);
      } else {
        NewRefusesNothing(x, y, v, frames, flags, p, d - 1);
      }
    }
  }

  lemma RangeKeeps(x: State, y: State, v: nat, frames: seq<Frame>, flags: bv7, t: Tag, i: nat)
    requires RangeMapped(x, y, v, frames, flags) && x.space.Has(t, i)
    ensures y.space.Struct() && SameFixed(x.space, y.space) && y.space.Has(t, i)
    ensures Locked(x.space.Slot(t, i), t.depth == 0) ==> y.space.Slot(t, i) == x.space.Slot(t, i)
  {
    assert Firm(x.space, t, i, v, |frames|) || !Locked(x.space.Slot(t, i), t.depth == 0);
  }

  /** Nothing on the path of a page just mapped refuses. */
  lemma {:induction false} MappedRefusesNothing(x: State, y: State, v: nat, frames: seq<Frame>, flags: bv7,
                                                p: nat, d: nat)
    requires RangeMapped(x, y, v, frames, flags) && v <= p < v + |frames| && d <= y.space.top
    ensures Barrier(y.space, p, 0, d) == None
    decreases d
  {
    hide RangeMapped;
    hide Space.Struct;
    var t, i := TagOf(p, d), Index(p, d);
    RangePath(x, y, v, frames, flags, p);
    if d > 0 {
      InnerUsed(y.space, p, t, i);
      PathRead(y.space, p, d);
      MappedRefusesNothing(x, y, v, frames, flags, p, d - 1);
    }
  }

  lemma RangePath(x: State, y: State, v: nat, frames: seq<Frame>, flags: bv7, p: nat)
    requires RangeMapped(x, y, v, frames, flags) && v <= p < v + |frames|
    ensures y.space.Struct() && SameFixed(x.space, y.space)
    ensures forall e {:trigger TagOf(p, e)} :: 0 <= e <= y.space.top ==> TagOf(p, e) in y.space.at
    ensures forall e: nat, i: nat :: e <= y.space.top && i < ENTRIES ==> y.space.Has(TagOf(p, e), i)
  {
  }

  /** The call fails with `MappingOver` exactly if the tables it starts from refuse some page of the range,
      unless the allocator refuses a frame first. It fails at the first such page and reports its slot. */
  lemma FailsExactly(x: State, mid: State, y: State, v: nat, n: nat, frames: seq<Frame>, g: Frame, flags: bv7,
                     r: AllocResult, leak: set<nat>)
    requires x.space.Struct() && v + n <= x.space.Limit()
    requires Allocated(x, mid, y, v, n, frames, g, flags, r, leak)
    ensures r.MappedAt? ==> forall q :: v <= q < v + n ==> !Refused(x.space, q)
    ensures forall q :: v <= q < v + |frames| ==> !Refused(x.space, q)
    ensures r.Failed? && r.error.MappingOver? ==>
      Refused(x.space, v + |frames|) && r.error.addr == Address(Barrier(x.space, v + |frames|, 0, x.space.top).value)
    ensures r.Failed? ==> r.error.MappingOver? || r.error == PageAllocationFailed
    ensures r != Panicked && r != Failed(PageAllocationFailed) ==>
      (r.Failed? <==> exists q :: v <= q < v + n && Refused(x.space, q))
  {
    hide RangeMapped;
    hide MapResult;
    var done := if r.Failed? then mid else y;
    forall q | v <= q < v + |frames|
      ensures !Refused(x.space, q)
    {
      AtTop(x, done, v, frames, flags, q);
      MappedRefusesNothing(x, done, v, frames, flags, q, x.space.top);
    }
    if r.Failed? {
      var p := v + |frames|;
      AtTop(x, mid, v, frames, flags, p);
      ErrorSays(State(mid.space, mid.live[g := PAGE]), y, p, mid.space.top, PageWord(mid.space, g, flags), r.error,
                leak);
    }
  }

  lemma AtTop(x: State, y: State, v: nat, frames: seq<Frame>, flags: bv7, p: nat)
    requires x.space.Struct() && RangeMapped(x, y, v, frames, flags) && p < x.space.Limit()
    ensures y.space.top == x.space.top
    ensures Barrier(y.space, p, 0, y.space.top) == Barrier(x.space, p, 0, x.space.top)
  {
    PageTag(x.space, p);
    SameBarrier(x, y, v, frames, flags, p, x.space.top);
  }

  lemma ErrorSays(x: State, y: State, p: nat, d: nat, w: Word, e: MappingError, leak: set<nat>)
    requires MapResult(x, y, p, 0, d, w, Err(e), leak)
    ensures e.MappingOver? || e == PageAllocationFailed
    ensures e.MappingOver? ==> Barrier(x.space, p, 0, d).Some? && e.addr == Address(Barrier(x.space, p, 0, d).value)
  {
    hide NotMapped;
    hide Barrier;
    hide Untouched;
  }
}
