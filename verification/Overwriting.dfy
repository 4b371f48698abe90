/** Which blocks a call of `map_alloc` leaves without an owner: those of the pages it maps over, and the
    frames of pages that the address space does not answer for. */
module Overwriting {
  import opened Common
  import opened PageTableEntry
  import opened Geometry
  import opened PageTables
  import opened Ownership
  import opened Unmapping
  import opened MapSteps
  import opened MapRange

  /** Page q is a block of the space. */
  ghost predicate OwnedPage(s: Space, q: nat) { OwnedSlot(s, TagOf(q, 0), Index(q, 0)) }

  /** The block of page q. */
  ghost function BlockOf(s: Space, q: nat): nat
    requires OwnedPage(s, q)
  {
    LeafAddr(s.Slot(TagOf(q, 0), Index(q, 0)))
  }

  lemma {:induction false} OverwrittenIs(s: Space, v: nat, n: nat, a: nat)
    ensures a in Overwritten(s, v, n) <==> exists q :: v <= q < v + n && OwnedPage(s, q) && BlockOf(s, q) == a
  {
    if n > 0 {
      OverwrittenIs(s, v, n - 1, a);
      if OwnedPage(s, v + n - 1) && BlockOf(s, v + n - 1) == a { assert a in Held(s, v + n - 1, 0); }
    }
  }

  lemma OverwrittenOwned(s: Space, v: nat, n: nat)
    ensures Overwritten(s, v, n) <= Owned(s)
  {
    forall a | a in Overwritten(s, v, n)
      ensures a in Owned(s)
    {
      OverwrittenIs(s, v, n, a);
      var q :| v <= q < v + n && OwnedPage(s, q) && BlockOf(s, q) == a;
      assert OwnedSlot(s, TagOf(q, 0), Index(q, 0));
      assert a in LeafFrames(s);
    }
  }

  lemma NoneOverwritten(s: Space, v: nat, n: nat)
    ensures Overwritten(s, v, n) == {} <==> forall q :: v <= q < v + n ==> !OwnedPage(s, q)
  {
    if Overwritten(s, v, n) == {} {
      forall q | v <= q < v + n
        ensures !OwnedPage(s, q)
      {
        if OwnedPage(s, q) { OverwrittenIs(s, v, n, BlockOf(s, q)); }
      }
    } else {
      var a :| a in Overwritten(s, v, n);
      OverwrittenIs(s, v, n, a);
    }
  }

  /** Pages that are unmapped are no blocks. */
  lemma VacatedOwnsNothing(s: Space, v: nat, n: nat)
    requires s.Struct() && Vacated(s, v, n)
    ensures Overwritten(s, v, n) == {}
  {
    forall q | v <= q < v + n
      ensures !OwnedPage(s, q)
    {
      if OwnedPage(s, q) { TransOfSlot(s, q, 0); }
    }
    NoneOverwritten(s, v, n);
  }

  lemma AllAnswered(low: nat, v: nat, frames: seq<Frame>, flags: bv7)
    requires flags & PRESENT != 0 && flags & GLOBAL == 0 && low <= v
    ensures Unanswered(low, v, frames, flags) == {}
  {
  }

  /** A mapping of present pages above the identity mapping, not GLOBAL, loses blocks exactly if it maps
      over pages that are blocks of the space. */
  lemma LosesExactly(x: State, y: State, v: nat, frames: seq<Frame>, flags: bv7)
    requires RangeMapped(x, y, v, frames, flags)
    requires flags & PRESENT != 0 && flags & GLOBAL == 0 && x.space.low <= v
    ensures Others(y) == Others(x) + Overwritten(x.space, v, |frames|)
    ensures Others(y) == Others(x) <==> forall q :: v <= q < v + |frames| ==> !OwnedPage(x.space, q)
  {
    hide OwnedPage;
    RangeOwn(x, y, v, frames, flags);
    hide RangeMapped;
    AllAnswered(x.space.low, v, frames, flags);
    OverwrittenOwned(x.space, v, |frames|);
    NoneOverwritten(x.space, v, |frames|);
  }

  /** The frame of a page that is mapped over stays allocated and belongs to no one. */
  lemma OverwriteLeaks(x: State, y: State, v: nat, frames: seq<Frame>, flags: bv7, q: nat)
    requires Own(x.space, x.live) && RangeMapped(x, y, v, frames, flags)
    requires v <= q < v + |frames| && OwnedPage(x.space, q)
    ensures var a := BlockOf(x.space, q); a in y.live && y.live[a] == x.live[a] == PAGE && a !in Owned(y.space)
  {
    var a := BlockOf(x.space, q);
    assert OwnedSlot(x.space, TagOf(q, 0), Index(q, 0)) && RegionSize(0) == PAGE;
    RangeOwn(x, y, v, frames, flags);
    RangeGrew(x, y, v, frames, flags);
    hide RangeMapped;
    OverwrittenIs(x.space, v, |frames|, a);
    assert a in Others(y);
  }

  lemma RangeGrew(x: State, y: State, v: nat, frames: seq<Frame>, flags: bv7)
    requires RangeMapped(x, y, v, frames, flags)
    ensures LiveGrew(x.live, y.live)
  {
  }

  /** The blocks lost by a mapping are frames, and were not blocks of others. */
  lemma LostFrames(x: State, y: State, v: nat, frames: seq<Frame>, flags: bv7)
    requires Own(x.space, x.live) && RangeMapped(x, y, v, frames, flags)
    ensures forall a :: a in Overwritten(x.space, v, |frames|) ==> a in x.live && x.live[a] == PAGE && a in Owned(x.space)
    ensures forall a :: a in Unanswered(x.space.low, v, frames, flags) ==> a !in x.live
  {
    forall a | a in Overwritten(x.space, v, |frames|)
      ensures a in x.live && x.live[a] == PAGE && a in Owned(x.space)
    {
      OverwrittenOwned(x.space, v, |frames|);
      OverwrittenIs(x.space, v, |frames|, a);
      var q :| v <= q < v + |frames| && OwnedPage(x.space, q) && BlockOf(x.space, q) == a;
      assert OwnedSlot(x.space, TagOf(q, 0), Index(q, 0)) && RegionSize(0) == PAGE;
    }
    RangeNew(x, y, v, frames, flags);
  }

  lemma RangeNew(x: State, y: State, v: nat, frames: seq<Frame>, flags: bv7)
    requires RangeMapped(x, y, v, frames, flags)
    ensures NewBlocks(x, y, frames)
  {
  }

  /** A call that fails loses, besides, the frame of the page it failed at and what `map_page` leaked. */
  lemma FailedLoses(x: State, mid: State, y: State, v: nat, frames: seq<Frame>, g: Frame, flags: bv7, e: MappingError,
                    leak: set<nat>)
    requires FailedAt(x, mid, y, v, frames, g, flags, e, leak)
    ensures Others(y)
         == Others(x) + Overwritten(x.space, v, |frames|) + Unanswered(x.space.low, v, frames, flags) + {g} + leak
    ensures y.space.Struct() && Own(y.space, y.live) && LiveGrew(x.live, y.live) && SameFixed(x.space, y.space)
    ensures ({g} + leak) !! x.live.Keys
  {
    hide RangeMapped;
    hide MapResult;
    var taken := State(mid.space, mid.live[g := PAGE]);
    RangeOwn(x, mid, v, frames, flags);
    RangeGrew(x, mid, v, frames, flags);
    RangeLeaves(x, mid, v, frames, flags);
    FailedOthers(taken, y, v + |frames|, mid.space.top, PageWord(mid.space, g, flags), e, leak);
    TakenOthers(mid, g);
    assert x.live.Keys <= mid.live.Keys <= taken.live.Keys;
    hide LiveGrew;
    hide Others;
    hide Overwritten;
    hide Unanswered;
    LiveGrewTwice(x.live, mid.live, taken.live);
    LiveGrewTwice(x.live, taken.live, y.live);
  }

  lemma TakenOthers(mid: State, g: Frame)
    requires Own(mid.space, mid.live) && g !in mid.live
    ensures Others(State(mid.space, mid.live[g := PAGE])) == Others(mid) + {g}
    ensures LiveGrew(mid.live, mid.live[g := PAGE])
  {
    OwnedIsLive(mid.space, mid.live);
  }

  lemma FailedOthers(x: State, y: State, p: nat, d: nat, w: Word, e: MappingError, leak: set<nat>)
    requires MapResult(x, y, p, 0, d, w, Err(e), leak)
    ensures Others(y) == Others(x) + leak
    ensures y.space.Struct() && Own(y.space, y.live) && LiveGrew(x.live, y.live) && SameFixed(x.space, y.space)
    ensures leak !! x.live.Keys
  {
    hide Others;
    hide Barrier;
    hide Untouched;
  }

  /** The space answers for the pages that lie in [a, b), or they are not present. */
  ghost predicate AnsweredIn(low: nat, v: nat, n: nat, flags: bv7, a: nat, b: nat) {
    flags & PRESENT != 0 ==> forall q :: v <= q < v + n && Contained(q, a, b) ==> Answered(q, flags, low)
  }

  /** Whether [a, b) may be unmapped is not changed by mapping pages that the space answers for. */
  lemma MapKeepsRemovable(x: State, y: State, v: nat, frames: seq<Frame>, flags: bv7, a: nat, b: nat)
    requires RangeMapped(x, y, v, frames, flags) && Removable(x.space, a, b)
    requires AnsweredIn(x.space.low, v, |frames|, flags, a, b)
    ensures Removable(y.space, a, b)
  {
    hide RangeMapped;
    hide Space.Struct;
    hide Manages;
    RangeLeaves(x, y, v, frames, flags);
    forall t: Tag, i: nat | LeafWithin(y.space, t, i, a, b)
      ensures Freeable(y.space, t, i)
    {
      assert y.space.Slot(t, i) == y.space.Slot(t, i);
      assert NewLeaf(x.space, y.space, v, frames, flags, t, i);
      if x.space.Has(t, i) && x.space.Slot(t, i) == y.space.Slot(t, i) {
        assert x.space.Slot(t, i) == x.space.Slot(t, i) && LeafWithin(x.space, t, i, a, b);
      } else {
        var q := SlotRegion(t, i);
        PageWordMeans(x.space, frames[q - v], flags);
        assert Contained(q, a, b) && First(q, 0) == q;
      }
    }
  }

  lemma FailKeepsRemovable(x: State, mid: State, y: State, v: nat, frames: seq<Frame>, g: Frame, flags: bv7,
                           e: MappingError, leak: set<nat>, a: nat, b: nat)
    requires FailedAt(x, mid, y, v, frames, g, flags, e, leak) && Removable(x.space, a, b)
    requires AnsweredIn(x.space.low, v, |frames|, flags, a, b)
    ensures Removable(y.space, a, b)
  {
    hide RangeMapped;
    hide MapResult;
    hide Space.Struct;
    hide Manages;
    hide IsLeaf;
    MapKeepsRemovable(x, mid, v, frames, flags, a, b);
    RangeLeaves(x, mid, v, frames, flags);
    forall t: Tag, i: nat | LeafWithin(y.space, t, i, a, b)
      ensures Freeable(y.space, t, i)
    {
      FailedLeaf(mid, y, v, frames, g, flags, e, leak, t, i);
      assert mid.space.Slot(t, i) == mid.space.Slot(t, i) && LeafWithin(mid.space, t, i, a, b);
    }
  }

  /** A leaf after a failed call was one before the failing page. */
  lemma FailedLeaf(mid: State, y: State, v: nat, frames: seq<Frame>, g: Frame, flags: bv7, e: MappingError,
                   leak: set<nat>, t: Tag, i: nat)
    requires mid.space.Struct() && y.space.Has(t, i) && IsLeaf(y.space.Slot(t, i), t.depth)
    requires MapResult(State(mid.space, mid.live[g := PAGE]), y, v + |frames|, 0, mid.space.top,
                       PageWord(mid.space, g, flags), Err(e), leak)
    ensures mid.space.Has(t, i) && mid.space.Slot(t, i) == y.space.Slot(t, i) && SameFixed(mid.space, y.space)
  {
    hide MapResult;
    hide Space.Struct;
    hide IsLeaf;
    ErrorLeaves(State(mid.space, mid.live[g := PAGE]), y, v + |frames|, mid.space.top, PageWord(mid.space, g, flags), e,
                leak);
    var p := SlotPage(y.space, t, i);
    assert y.space.Trans(p) == mid.space.Trans(p);
    TransLands(mid.space, p);
    LeafIs(mid.space.Slot(t, i), y.space.Slot(t, i), t.depth);
    assert mid.space.Slot(t, i) == mid.space.Slot(t, i);
  }

  lemma LeafIs(v: Word, w: Word, d: nat)
    requires LeafOf(v, d) == LeafOf(w, d)
    ensures IsLeaf(v, d) == IsLeaf(w, d)
  {
  }

  lemma ErrorLeaves(x: State, y: State, p: nat, d: nat, w: Word, e: MappingError, leak: set<nat>)
    requires MapResult(x, y, p, 0, d, w, Err(e), leak)
    ensures SameFixed(x.space, y.space) && y.space.Struct() && LeavesKept(x.space, y.space)
    ensures forall q: nat {:trigger y.space.Trans(q)} :: y.space.Trans(q) == x.space.Trans(q)
  {
    hide Others;
    hide Barrier;
    hide Untouched;
    hide Own;
  }
}
