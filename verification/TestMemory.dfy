/** How much memory a call that maps one page into a new region needs: a frame for the page and one for the
    table. */
module TestMemory {
  import opened Common
  import opened PageTableEntry
  import opened Geometry
  import opened PageTables
  import opened Ownership
  import opened MapSteps
  import opened MapRange
  import opened Unmapping
  import opened Overwriting
  import opened Refusal
  import Accounting
  import ZonedBuddy

  /** No slot and no table is owned, as with nothing live. */
  lemma NothingOwned(s: Space, v: nat)
    requires Own(s, map[])
    ensures Owned(s) == {} && Overwritten(s, v, 1) == {}
    ensures (forall t, i :: !OwnedSlot(s, t, i)) && forall t :: !OwnedTable(s, t)
  {
    OwnedIsLive(s, map[]);
    assert Overwritten(s, v, 0) == {};
  }

  /** A call that got no frame for the table has only the page's frame. */
  lemma OneFrameTaken(x: State, y: State, v: nat, g: Frame, flags: bv7, e: MappingError)
    requires x.space.Struct() && Own(x.space, x.live) && x.live == map[] && x.space.top == 1
    requires e == PageAllocationFailed && FailedAt(x, x, y, v, [], g, flags, e, {})
    ensures y.live == map[g := PAGE]
  {
    hide FailedAt;
    hide MapResult;
    hide Space.Struct;
    FailedResult(x, y, v, g, flags, e);
    NothingOwned(x.space, v);
    hide Own;
    var start := State(x.space, map[g := PAGE]);
    ErrorFacts(start, y, v, PageWord(x.space, g, flags), e);
    forall t, i | OwnedSlot(y.space, t, i)
      ensures OwnedSlot(x.space, t, i)
    {
      FailedLeaf(x, y, v, [], g, flags, e, {}, t, i);
    }
    assert forall t :: OwnedTable(y.space, t) ==> OwnedTable(x.space, t);
    assert Owned(y.space) == {};
    assert Others(y) == y.live.Keys && Others(start) == {g};
    assert y.live.Keys == {g} && y.live[g] == PAGE;
  }

  /** Where no slot refuses, no table is lost. */
  lemma NothingLeaks(x: State, y: State, v: nat, g: Frame, flags: bv7, e: MappingError, leak: set<nat>)
    requires FailedAt(x, x, y, v, [], g, flags, e, leak) && !Refused(x.space, v)
    ensures leak == {}
  {
  }

  lemma FailedResult(x: State, y: State, v: nat, g: Frame, flags: bv7, e: MappingError)
    requires FailedAt(x, x, y, v, [], g, flags, e, {}) && x.space.top == 1
    ensures MapResult(State(x.space, x.live[g := PAGE]), y, v, 0, 1, PageWord(x.space, g, flags), Err(e), {})
  {
  }

  lemma ErrorFacts(x: State, y: State, p: nat, w: Word, e: MappingError)
    requires MapResult(x, y, p, 0, 1, w, Err(e), {}) && e == PageAllocationFailed && x.space.top == 1
    ensures SameFixed(x.space, y.space) && y.space.at == x.space.at && Others(y) == Others(x) && LiveGrew(x.live, y.live)
  {
    assert Grown(x.space, y.space, p, 0, 1);
    assert y.space.at.Keys == x.space.at.Keys;
  }

  /** A call that succeeded has both. */
  lemma TwoFramesTaken(x: State, y: State, v: nat, f: Frame, flags: bv7) returns (h: Frame)
    requires x.space.Struct() && Own(x.space, x.live) && x.live == map[] && x.space.low <= v && v < x.space.Limit()
    requires RangeMapped(x, y, v, [f], flags) && TagOf(v, 0) !in x.space.at && x.space.top > 0
    requires NewTablesLive(x.space, x.live, y.space, y.live)
    requires flags & PRESENT != 0 && flags & GLOBAL == 0
    ensures h != f && h in y.live && y.live[h] == PAGE && f in y.live && y.live[f] == PAGE
  {
    var t := TagOf(v, 0);
    NothingOwned(x.space, v);
    RangeFacts(x, y, v, f, flags);
    h := y.space.at[t];
    assert f in Owned(y.space) && h in Owned(y.space);
    if h == f { FrameIsNoTable(x, y, v, f, flags); }
  }

  lemma RangeFacts(x: State, y: State, v: nat, f: Frame, flags: bv7)
    requires RangeMapped(x, y, v, [f], flags) && x.live == map[] && TagOf(v, 0) !in x.space.at
    requires NewTablesLive(x.space, x.live, y.space, y.live) && x.space.low <= v
    requires Overwritten(x.space, v, 1) == {} && flags & PRESENT != 0 && flags & GLOBAL == 0
    ensures f in y.live && TagOf(v, 0) in y.space.at && y.space.at[TagOf(v, 0)] in y.live
    ensures Owned(y.space) >= y.live.Keys && forall a :: a in y.live ==> y.live[a] == PAGE
  {
    hide Space.Struct;
    hide Own;
    hide FirmSlots;
    hide NewLeaves;
    hide RangeTrans;
    hide IdleSlots;
    hide FramesKept;
    hide Owned;
    AllAnswered(x.space.low, v, [f], flags);
    assert [f][0] in y.live;
    assert Others(x) == {} && Others(y) == {};
    forall a | a in y.live
      ensures a in Owned(y.space)
    {
      assert a !in Others(y);
    }
    assert TagOf(v, 0) in y.space.at;
  }

  /** The frame of the page is not that of a table. */
  lemma FrameIsNoTable(x: State, y: State, v: nat, f: Frame, flags: bv7)
    requires RangeMapped(x, y, v, [f], flags) && TagOf(v, 0) !in x.space.at && x.space.low <= v && f in Owned(y.space)
    requires flags & PRESENT != 0 && flags & GLOBAL == 0
    ensures forall t :: t in y.space.at ==> y.space.at[t] != f
  {
    hide RangeMapped;
    hide Space.Struct;
    hide PageWord;
    hide Flags;
    hide Decode;
    RangePage(x, y, v, f, flags);
    var t, i := TagOf(v, 0), Index(v, 0);
    PageWordMeans(x.space, f, flags);
    assert SlotRegion(t, i) == v;
    assert OwnedSlot(y.space, t, i) || f !in TableFrames(y.space);
    assert f in LeafFrames(y.space);
  }

  lemma RangePage(x: State, y: State, v: nat, f: Frame, flags: bv7)
    requires RangeMapped(x, y, v, [f], flags) && TagOf(v, 0) !in x.space.at && flags & PRESENT != 0
    ensures y.space.Has(TagOf(v, 0), Index(v, 0)) && Own(y.space, y.live) && SameFixed(x.space, y.space)
    ensures y.space.Slot(TagOf(v, 0), Index(v, 0)) == PageWord(x.space, f, flags)
  {
    assert y.space.Trans(v) == PageOf(f, flags);
    TransLands(y.space, v);
    assert NewLeaf(x.space, y.space, v, [f], flags, TagOf(v, 0), Index(v, 0));
  }

  /** Bytes in use with one frame, or at least two, handed out. */
  lemma FramesInUse(zones: seq<ZonedBuddy.Zone>, live: Live, some: set<nat>)
    requires ZonedBuddy.ZonesValid(zones) && ZonedBuddy.LiveIs(zones, live)
    requires some <= live.Keys && forall a :: a in some ==> live[a] == PAGE
    ensures PAGE * |some| <= ZonedBuddy.CounterSum(zones)
    ensures some == live.Keys ==> PAGE * |some| == ZonedBuddy.CounterSum(zones)
  {
    Accounting.CounterIsBlocks(zones);
    Accounting.BlocksAreLive(zones, live);
    Accounting.LiveIsDisjoint(zones, live);
    Accounting.SplitBlocks(live, some);
    if some == live.Keys {
      Accounting.SmallBlocks(live, some);
      Accounting.AllOfPart(live);
    }
  }
}
