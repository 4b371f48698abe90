/** What `map_alloc` does: a run of pages, each on a frame of its own. */
module MapRange {
  import opened Common
  import opened PageTableEntry
  import opened Geometry
  import opened PageTables
  import opened TableSteps
  import opened Ownership
  import opened Unmapping
  import opened Consistency
  import opened MapSteps

  /** What a page mapped to a frame with these flags translates to. */
  function PageOf(frame: Frame, flags: bv7): Option<Mapping> {
    if flags & PRESENT != 0 then Some(Mapping(0, frame, flags & ENCODABLE)) else None
  }

  /** The word stored for it. */
  function PageWord(s: Space, frame: Frame, flags: bv7): Word { Encode(Page(Word(frame, 0), flags), true, s.sticky) }

  lemma PageWordMeans(s: Space, frame: Frame, flags: bv7)
    ensures LeafOf(PageWord(s, frame, flags), 0) == PageOf(frame, flags)
    ensures flags & GLOBAL == 0 ==> Address(PageWord(s, frame, flags)) == Word(frame, 0)
    ensures flags & PRESENT != 0 && flags & GLOBAL != 0 ==> Address(PageWord(s, frame, flags)).low != 0
    ensures IsLeaf(PageWord(s, frame, flags), 0) <==> flags & PRESENT != 0
    ensures !IsTable(PageWord(s, frame, flags), 0)
  {
    DecodeEncode(Page(Word(frame, 0), flags), true, s.sticky);
  }

  /** The n pages from v on translate to the frames in order; no other page changes. */
  ghost predicate RangeTrans(s: Space, z: Space, v: nat, frames: seq<Frame>, flags: bv7) {
    forall q: nat {:trigger z.Trans(q)} ::
      z.Trans(q) == if v <= q < v + |frames| then PageOf(frames[q - v], flags) else s.Trans(q)
  }

  ghost predicate PathInRange(t: Tag, v: nat, n: nat) { exists q :: v <= q < v + n && t == TagOf(q, t.depth) }

  /** Tables stay; new ones lie on the paths of the pages, which are complete. */
  ghost predicate TablesAdded(s: Space, z: Space, v: nat, n: nat) {
    && (forall t {:trigger t in s.at} :: t in s.at ==> t in z.at && z.at[t] == s.at[t])
    && (forall t {:trigger t in z.at} :: t in z.at && t !in s.at ==> t.depth < s.top && PathInRange(t, v, n))
    && (forall q, e {:trigger TagOf(q, e)} :: v <= q < v + n && 0 <= e <= s.top ==> TagOf(q, e) in z.at)
  }

  /** The word of this slot survives mapping the n pages from v on. */
  ghost predicate Firm(s: Space, t: Tag, i: nat, v: nat, n: nat)
    requires s.Has(t, i)
  {
    || Locked(s.Slot(t, i), t.depth == 0) || IsTable(s.Slot(t, i), t.depth)
    || (IsLeaf(s.Slot(t, i), t.depth) && !(t.depth == 0 && v <= SlotRegion(t, i) < v + n))
  }

  /** A locked slot keeps its word; so does one that points to a table, or maps another page. */
  ghost predicate FirmSlots(s: Space, z: Space, v: nat, n: nat) {
    forall t: Tag, i: nat {:trigger s.Slot(t, i)} :: s.Has(t, i) ==>
      z.Has(t, i) && (Firm(s, t, i, v, n) ==> z.Slot(t, i) == s.Slot(t, i))
  }

  /** An inner slot that maps nothing kept its word, or is clear in a new table. */
  ghost predicate IdleSlots(s: Space, z: Space) {
    forall t: Tag, i: nat {:trigger z.Vacant(t, i)} :: z.Vacant(t, i) && t.depth > 0 ==>
      z.Slot(t, i) == if s.Has(t, i) then s.Slot(t, i) else NULL_WORD
  }

  ghost predicate NewBlocks(x: State, y: State, frames: seq<Frame>) {
    && (forall i :: 0 <= i < |frames| ==> frames[i] !in x.live && frames[i] in y.live)
    && (forall i, j :: 0 <= i < j < |frames| ==> frames[i] != frames[j])
  }

  ghost predicate Vacated(s: Space, v: nat, n: nat) {
    forall q {:trigger s.Trans(q)} :: v <= q < v + n ==> s.Trans(q).None?
  }

  /** A page mapped with these flags is one that the space answers for. */
  predicate Answered(p: nat, flags: bv7, low: nat) { flags & PRESENT != 0 && flags & GLOBAL == 0 && p >= low }

  /** The blocks owned through the n pages from v on. */
  ghost function Overwritten(s: Space, v: nat, n: nat): set<nat> {
    if n == 0 then {} else Overwritten(s, v, n - 1) + Held(s, v + n - 1, 0)
  }

  /** The frames of pages that the space does not answer for. */
  function Unanswered(low: nat, v: nat, frames: seq<Frame>, flags: bv7): set<nat> {
    set i | 0 <= i < |frames| && !Answered(v + i, flags, low) :: frames[i]
  }

  /** A slot that maps a page did so before with the same word, or is that of one of the pages mapped. */
  ghost predicate NewLeaves(s: Space, z: Space, v: nat, frames: seq<Frame>, flags: bv7) {
    forall t: Tag, i: nat {:trigger z.Slot(t, i)} :: z.Has(t, i) && IsLeaf(z.Slot(t, i), t.depth) ==>
      NewLeaf(s, z, v, frames, flags, t, i)
  }

  ghost predicate NewLeaf(s: Space, z: Space, v: nat, frames: seq<Frame>, flags: bv7, t: Tag, i: nat)
    requires z.Has(t, i)
  {
    || (s.Has(t, i) && s.Slot(t, i) == z.Slot(t, i))
    || (t.depth == 0 && v <= SlotRegion(t, i) < v + |frames|
        && z.Slot(t, i) == PageWord(s, frames[SlotRegion(t, i) - v], flags))
  }

  /** The word of a last-level slot once the frames were mapped from page v on: that of the page's own entry if
      it is one of them, and otherwise as it was, or clear if the table is new. */
  ghost function SlotAfter(s: Space, v: nat, frames: seq<Frame>, flags: bv7, t: Tag, i: nat): Word {
    var q := SlotRegion(t, i);
    if v <= q < v + |frames| then PageWord(s, frames[q - v], flags)
    else if s.Has(t, i) then s.Slot(t, i)
    else NULL_WORD
  }

  ghost predicate LastSlots(s: Space, z: Space, v: nat, frames: seq<Frame>, flags: bv7) {
    forall t: Tag, i: nat {:trigger z.Slot(t, i)} :: z.Has(t, i) && t.depth == 0 ==>
      z.Slot(t, i) == SlotAfter(s, v, frames, flags, t, i)
  }

  /** The frames were mapped in order from page v on. Blocks of overwritten pages, and frames of pages that
      the space does not answer for, end up without an owner. */
  ghost predicate RangeMapped(x: State, y: State, v: nat, frames: seq<Frame>, flags: bv7) {
    && SameFixed(x.space, y.space) && y.space.Struct() && Own(y.space, y.live)
    && RangeTrans(x.space, y.space, v, frames, flags)
    && TablesAdded(x.space, y.space, v, |frames|) && FirmSlots(x.space, y.space, v, |frames|)
    && IdleSlots(x.space, y.space)
    && NewLeaves(x.space, y.space, v, frames, flags)
    && LastSlots(x.space, y.space, v, frames, flags)
    && LiveGrew(x.live, y.live) && NewBlocks(x, y, frames)
    && FramesKept(x.space, x.live, y.space, y.live)
    && Others(y) == Others(x) + Overwritten(x.space, v, |frames|) + Unanswered(x.space.low, v, frames, flags)
  }

  lemma RangeEmpty(x: State, v: nat, flags: bv7)
    requires x.space.Struct() && Own(x.space, x.live)
    ensures RangeMapped(x, x, v, [], flags)
  {
    assert Unanswered(x.space.low, v, [], flags) == {};
    assert forall t: Tag, i: nat :: x.space.Vacant(t, i) ==> x.space.Has(t, i);
  }

  /** One more page: its frame is taken and then mapped. */
  ghost predicate NextPage(y: State, z: State, p: nat, g: Frame, flags: bv7) {
    && g !in y.live
    && Mapped(State(y.space, y.live[g := PAGE]), z, p, 0, y.space.top, PageWord(y.space, g, flags))
  }

  lemma StepTables(s: Space, y: Space, z: Space, v: nat, n: nat)
    requires TablesAdded(s, y, v, n) && s.top == y.top && Grown(y, z, v + n, 0, y.top)
    requires forall e {:trigger TagOf(v + n, e)} :: 0 <= e <= y.top ==> TagOf(v + n, e) in z.at
    ensures TablesAdded(s, z, v, n + 1)
  {
    forall t | t in z.at && t !in s.at
      ensures t.depth < s.top && PathInRange(t, v, n + 1)
    {
      if t in y.at {
        var q :| v <= q < v + n && t == TagOf(q, t.depth);
        assert v <= q < v + (n + 1);
      } else {
        assert t == TagOf(v + n, t.depth);
      }
    }
    forall q, e | v <= q < v + (n + 1) && 0 <= e <= s.top
      ensures TagOf(q, e) in z.at
    {
      if q < v + n { assert TagOf(q, e) in y.at; }
    }
  }

  lemma StepFirm(s: Space, y: Space, z: Space, v: nat, n: nat)
    requires FirmSlots(s, y, v, n) && OnlyFilled(y, z, v + n)
    ensures FirmSlots(s, z, v, n + 1)
  {
    forall t: Tag, i: nat | s.Has(t, i)
      ensures z.Has(t, i) && (Firm(s, t, i, v, n + 1) ==> z.Slot(t, i) == s.Slot(t, i))
    {
      assert s.Slot(t, i) == s.Slot(t, i);
      assert y.Slot(t, i) == y.Slot(t, i);
      assert Filled(y, z, v + n, t, i);
      if OnPath(v + n, t, i) && t.depth == 0 { assert SlotRegion(t, i) == v + n; }
    }
  }

  lemma StepIdle(s: Space, y: State, z: State, p: nat, w: Word)
    requires IdleSlots(s, y.space) && Mapped(y, z, p, 0, y.space.top, w) && y.space.Struct()
    requires forall t: Tag, i: nat :: s.Has(t, i) ==> y.space.Has(t, i)
    ensures IdleSlots(s, z.space)
  {
    hide Own;
    hide FramesKept;
    hide Others;
    hide Held;
    forall t: Tag, i: nat | z.space.Vacant(t, i) && t.depth > 0
      ensures z.space.Slot(t, i) == if s.Has(t, i) then s.Slot(t, i) else NULL_WORD
    {
      if OnPath(p, t, i) { InnerUsed(z.space, p, t, i); }
      if t in y.space.at {
        assert y.space.Has(t, i);
        assert Filled(y.space, z.space, p, t, i);
        assert y.space.Vacant(t, i);
      }
    }
  }

  /** An inner slot on the path of a mapped page points to a table. */
  lemma InnerUsed(z: Space, p: nat, t: Tag, i: nat)
    requires z.Struct() && z.Has(t, i) && OnPath(p, t, i) && t.depth > 0
    requires forall e {:trigger TagOf(p, e)} :: 0 <= e <= z.top ==> TagOf(p, e) in z.at
    ensures IsTable(z.Slot(t, i), t.depth)
  {
    assert z.Linked(t);
    TagOfChild(p, t.depth);
    assert TagOf(p, t.depth - 1) in z.at;
    ChildFree(z, t, i);
  }

  /** Facts about the page just mapped, with its frame counted as taken in the same step. */
  lemma NextFacts(y: State, z: State, p: nat, g: Frame, flags: bv7)
    requires NextPage(y, z, p, g, flags) && y.space.Struct()
    ensures SameFixed(y.space, z.space) && z.space.Struct() && Own(z.space, z.live)
    ensures Grown(y.space, z.space, p, 0, y.space.top) && OnlyFilled(y.space, z.space, p)
    ensures forall e {:trigger TagOf(p, e)} :: 0 <= e <= y.space.top ==> TagOf(p, e) in z.space.at
    ensures forall q: nat {:trigger z.space.Trans(q)} ::
      z.space.Trans(q) == if q == p then PageOf(g, flags) else y.space.Trans(q)
  {
    hide Own;
    hide FramesKept;
    hide NewFrames;
    hide LiveGrew;
    hide Others;
    hide Held;
    hide NewClear;
    hide OnlyFilled;
    hide Space.Struct;
    hide Space.Trans;
    PageWordMeans(y.space, g, flags);
  }

  lemma NextLive(y: State, z: State, p: nat, g: Frame, flags: bv7)
    requires NextPage(y, z, p, g, flags)
    ensures LiveGrew(y.live, z.live) && g in z.live && g !in y.live
    ensures FramesKept(y.space, y.live, z.space, z.live)
    ensures NewFrames(y.space, y.live, z.space, z.live)
  {
    hide Own;
    hide Others;
    hide Held;
    hide NewClear;
    hide OnlyFilled;
    hide Grown;
    hide Space.Struct;
    hide Space.Trans;
    var live := y.live[g := PAGE];
    assert LiveGrew(live, z.live) && FramesKept(y.space, live, z.space, z.live);
    assert NewFrames(y.space, live, z.space, z.live);
    assert g in live;
    forall a | a in y.live
      ensures a in z.live && z.live[a] == y.live[a]
    {
      assert a in live;
    }
    forall a | a in z.live && a !in y.live
      ensures z.live[a] == PAGE
    {
      assert a == g || a !in live;
    }
    forall t | t in z.space.at && t !in y.space.at
      ensures z.space.at[t] in z.live && z.space.at[t] !in y.live
    {
      assert z.space.at[t] !in live;
    }
  }

  /** Who owns what after one page was mapped. */
  lemma NextOthers(y: State, z: State, p: nat, g: Frame, flags: bv7)
    requires NextPage(y, z, p, g, flags) && y.space.Struct() && Own(y.space, y.live) && Manages(y.space.ext, g, PAGE)
    ensures Others(z)
         == Others(y) + Held(y.space, p, 0) + (if Answered(p, flags, y.space.low) then {} else {g})
  {
    hide Mapped;
    hide OnlyFilled;
    hide Space.Struct;
    hide Space.Trans;
    hide IsLeaf;
    var w, taken := PageWord(y.space, g, flags), State(y.space, y.live[g := PAGE]);
    PageWordMeans(y.space, g, flags);
    MappedParts(taken, z, p, 0, y.space.top, w);
    assert SlotRegion(TagOf(p, 0), Index(p, 0)) == p;
    assert Held(z.space, p, 0) == if Answered(p, flags, y.space.low) then {g} else {} by {
      assert flags & GLOBAL == 0 ==> LeafAddr(w) == g;
    }
    OwnedIsLive(y.space, y.live);
    assert Others(taken) == Others(y) + {g};
    assert g !in Others(y) && g !in Held(y.space, p, 0);
  }

  lemma StepTrans(s: Space, y: Space, z: Space, v: nat, frames: seq<Frame>, g: Frame, flags: bv7)
    requires RangeTrans(s, y, v, frames, flags)
    requires forall q: nat {:trigger z.Trans(q)} ::
      z.Trans(q) == if q == v + |frames| then PageOf(g, flags) else y.Trans(q)
    ensures RangeTrans(s, z, v, frames + [g], flags)
  {
  }

  lemma StepFrames(s: Space, sl: Live, y: Space, yl: Live, z: Space, zl: Live)
    requires FramesKept(s, sl, y, yl) && FramesKept(y, yl, z, zl) && LiveGrew(sl, yl) && LiveGrew(yl, zl)
    requires NewTablesLive(s, sl, y, yl)
    ensures FramesKept(s, sl, z, zl)
  {
    forall f | f in s.mem && (forall t :: t in s.at ==> s.at[t] != f) && (f in zl ==> f in sl)
      ensures z.mem[f] == s.mem[f]
    {
      assert f in yl ==> f in zl;
      assert y.mem[f] == s.mem[f];
      forall t | t in y.at
        ensures y.at[t] != f
      {
        assert t in s.at ==> y.at[t] == s.at[t];
      }
    }
  }

  /** New tables use frames taken since. */
  ghost predicate NewTablesLive(s: Space, live: Live, z: Space, live': Live) {
    forall t {:trigger z.at[t]} :: t in z.at ==>
      (t in s.at && z.at[t] == s.at[t]) || (t !in s.at && z.at[t] in live' && z.at[t] !in live)
  }

  lemma StepNewTables(s: Space, sl: Live, y: Space, yl: Live, z: Space, zl: Live, p: nat, k: nat, d: nat)
    requires NewTablesLive(s, sl, y, yl) && LiveGrew(sl, yl) && LiveGrew(yl, zl)
    requires Grown(y, z, p, k, d) && NewFrames(y, yl, z, zl)
    requires forall t :: t in s.at ==> t in y.at
    ensures NewTablesLive(s, sl, z, zl)
  {
  }

  /** Mapping the next page extends the run. */
  lemma RangeStep(x: State, y: State, z: State, v: nat, frames: seq<Frame>, g: Frame, flags: bv7)
    requires x.space.Struct() && Own(x.space, x.live) && NewTablesLive(x.space, x.live, y.space, y.live)
    requires RangeMapped(x, y, v, frames, flags) && NextPage(y, z, v + |frames|, g, flags)
    requires Manages(y.space.ext, g, PAGE)
    ensures RangeMapped(x, z, v, frames + [g], flags)
    ensures NewTablesLive(x.space, x.live, z.space, z.live)
  {
    var p := v + |frames|;
    hide NextPage;
    hide Own;
    hide Owned;
    hide Others;
    hide RangeTrans;
    hide FramesKept;
    hide Space.Struct;
    hide NewFrames;
    hide FirmSlots;
    hide IdleSlots;
    hide LastSlots;
    hide OnlyFilled;
    hide Manages;
    hide Space.Trans;
    NextFacts(y, z, p, g, flags);
    NextLive(y, z, p, g, flags);
    StepTables(x.space, y.space, z.space, v, |frames|);
    StepFirm(x.space, y.space, z.space, v, |frames|);
    StepTrans(x.space, y.space, z.space, v, frames, g, flags);
    StepFrames(x.space, x.live, y.space, y.live, z.space, z.live);
    StepNewTables(x.space, x.live, y.space, y.live, z.space, z.live, p, 0, y.space.top);
    RangeIdle(x, y, z, v, frames, g, flags);
    StepLeaves(x, y, z, v, frames, g, flags);
    StepLast(x, y, z, v, frames, g, flags);
    StepOthers(x, y, z, v, frames, g, flags);
    StepBlocks(x, y, z, frames, g);
    LiveGrewTwice(x.live, y.live, z.live);
  }

  /** A leaf after one page was mapped is the page's, or was there before. */
  lemma MappedLeaf(x: State, y: State, p: nat, k: nat, d: nat, w: Word, t: Tag, i: nat)
    requires x.space.Struct() && Mapped(x, y, p, k, d, w) && y.space.Has(t, i) && IsLeaf(y.space.Slot(t, i), t.depth)
    ensures || (t == TagOf(p, k) && i == Index(p, k) && y.space.Slot(t, i) == w)
            || (x.space.Has(t, i) && x.space.Slot(t, i) == y.space.Slot(t, i))
  {
    hide Mapped;
    hide OnlyFilled;
    hide Space.Struct;
    hide Space.Trans;
    hide First;
    hide Others;
    MappedParts(x, y, p, k, d, w);
    var q := SlotPage(y.space, t, i);
    if Reg(q, k) == Reg(p, k) {
      RegUp(q, p, k, k + 1);
    } else {
      TransLands(x.space, q);
      FilledAt(x.space, y.space, p, t, i);
      LeafUnlocked(x.space.Slot(t, i), t.depth);
    }
  }

  lemma MappedParts(x: State, y: State, p: nat, k: nat, d: nat, w: Word)
    requires Mapped(x, y, p, k, d, w)
    ensures y.space.Struct() && SameFixed(x.space, y.space) && OnlyFilled(x.space, y.space, p)
    ensures forall q: nat {:trigger y.space.Trans(q)} ::
      y.space.Trans(q) == if Reg(q, k) == Reg(p, k) then LeafOf(w, k) else x.space.Trans(q)
    ensures y.space.Has(TagOf(p, k), Index(p, k)) && y.space.Slot(TagOf(p, k), Index(p, k)) == w
    ensures Others(y) == (Others(x) - Held(y.space, p, k)) + Held(x.space, p, k)
  {
    hide Own;
    hide Others;
    hide Held;
    hide Space.Trans;
    hide Space.Struct;
  }

  lemma FilledAt(s: Space, z: Space, p: nat, t: Tag, i: nat)
    requires OnlyFilled(s, z, p) && s.Has(t, i)
    ensures Filled(s, z, p, t, i)
  {
    assert s.Slot(t, i) == s.Slot(t, i);
  }

  lemma LeafUnlocked(w: Word, d: nat)
    ensures IsLeaf(w, d) && !Locked(w, d == 0) ==> d == 0
  {
  }

  lemma StepLeaves(x: State, y: State, z: State, v: nat, frames: seq<Frame>, g: Frame, flags: bv7)
    requires RangeMapped(x, y, v, frames, flags) && NextPage(y, z, v + |frames|, g, flags)
    ensures NewLeaves(x.space, z.space, v, frames + [g], flags)
  {
    hide RangeMapped;
    hide Mapped;
    hide Space.Struct;
    hide IsLeaf;
    hide NewLeaf;
    var p, w := v + |frames|, PageWord(y.space, g, flags);
    RangeLeaves(x, y, v, frames, flags);
    forall t: Tag, i: nat | z.space.Has(t, i) && IsLeaf(z.space.Slot(t, i), t.depth)
      ensures NewLeaf(x.space, z.space, v, frames + [g], flags, t, i)
    {
      MappedLeaf(State(y.space, y.live[g := PAGE]), z, p, 0, y.space.top, w, t, i);
      if t == TagOf(p, 0) && i == Index(p, 0) && z.space.Slot(t, i) == w {
        assert SlotRegion(t, i) == p;
        LastLeaf(x.space, z.space, v, frames, g, flags, t, i);
      } else {
        assert y.space.Slot(t, i) == y.space.Slot(t, i);
        assert NewLeaf(x.space, y.space, v, frames, flags, t, i);
        EarlierLeaf(x.space, y.space, z.space, v, frames, g, flags, t, i);
      }
    }
  }

  lemma StepLast(x: State, y: State, z: State, v: nat, frames: seq<Frame>, g: Frame, flags: bv7)
    requires RangeMapped(x, y, v, frames, flags) && NextPage(y, z, v + |frames|, g, flags)
    ensures LastSlots(x.space, z.space, v, frames + [g], flags)
  {
    hide RangeMapped;
    hide Space.Struct;
    hide PageWord;
    var p := v + |frames|;
    LastBefore(x, y, v, frames, flags);
    MappedSlots(State(y.space, y.live[g := PAGE]), z, p, y.space.top, PageWord(y.space, g, flags));
    hide NextPage;
    SameWord(x.space, y.space, g, flags);
    forall t: Tag, i: nat | z.space.Has(t, i) && t.depth == 0
      ensures z.space.Slot(t, i) == SlotAfter(x.space, v, frames + [g], flags, t, i)
    {
      NextSlotAfter(x.space, v, frames, g, flags, t, i);
      if y.space.Has(t, i) {
        assert y.space.Slot(t, i) == SlotAfter(x.space, v, frames, flags, t, i);
      } else if SlotRegion(t, i) != p {
        assert z.space.Slot(t, i) == NULL_WORD;
        FreshSlot(x, y, v, frames, flags, t, i);
      }
    }
  }

  lemma NextSlotAfter(s: Space, v: nat, frames: seq<Frame>, g: Frame, flags: bv7, t: Tag, i: nat)
    ensures SlotAfter(s, v, frames + [g], flags, t, i)
         == if SlotRegion(t, i) == v + |frames| then PageWord(s, g, flags) else SlotAfter(s, v, frames, flags, t, i)
  {
  }

  /** The tables of the pages mapped so far are there. */
  lemma FreshSlot(x: State, y: State, v: nat, frames: seq<Frame>, flags: bv7, t: Tag, i: nat)
    requires RangeMapped(x, y, v, frames, flags) && !y.space.Has(t, i) && t.depth == 0 && i < ENTRIES
    ensures SlotAfter(x.space, v, frames, flags, t, i) == NULL_WORD
  {
    hide PageWord;
    var q := SlotRegion(t, i);
    LastBefore(x, y, v, frames, flags);
    if v <= q < v + |frames| {
      LastSlot(t, i, q);
      TablesThere(x, y, v, frames, flags, q);
    }
  }

  lemma TablesThere(x: State, y: State, v: nat, frames: seq<Frame>, flags: bv7, q: nat)
    requires RangeMapped(x, y, v, frames, flags) && v <= q < v + |frames|
    ensures y.space.Has(TagOf(q, 0), Index(q, 0))
  {
  }

  /** What mapping one page does to the last-level slots. */
  lemma MappedSlots(x: State, y: State, p: nat, d: nat, w: Word)
    requires x.space.Struct() && Mapped(x, y, p, 0, d, w)
    ensures forall t: Tag, i: nat {:trigger y.space.Slot(t, i)} :: y.space.Has(t, i) && t.depth == 0 ==>
      y.space.Slot(t, i) == if SlotRegion(t, i) == p then w
                            else if x.space.Has(t, i) then x.space.Slot(t, i) else NULL_WORD
  {
    hide Own;
    hide Others;
    hide Held;
    hide Space.Trans;
    hide OnlyFilled;
    hide NewClear;
    ClearAndFilled(x, y, p, d, w);
    forall t: Tag, i: nat | y.space.Has(t, i) && t.depth == 0
      ensures y.space.Slot(t, i) == if SlotRegion(t, i) == p then w
                                    else if x.space.Has(t, i) then x.space.Slot(t, i) else NULL_WORD
    {
      LastSlot(t, i, p);
      if SlotRegion(t, i) != p { SlotElsewhere(x.space, y.space, p, t, i); }
    }
  }

  lemma ClearAndFilled(x: State, y: State, p: nat, d: nat, w: Word)
    requires x.space.Struct() && Mapped(x, y, p, 0, d, w)
    ensures OnlyFilled(x.space, y.space, p) && NewClear(x.space, y.space, p)
    ensures forall t :: t in x.space.at ==> t in y.space.at && y.space.at[t] == x.space.at[t]
    ensures forall t :: t in x.space.at ==> x.space.at[t] in x.space.mem && |x.space.mem[x.space.at[t]]| == ENTRIES
  {
    hide Own;
    hide Others;
    hide Held;
    hide Space.Trans;
  }

  lemma SlotElsewhere(s: Space, z: Space, p: nat, t: Tag, i: nat)
    requires OnlyFilled(s, z, p) && NewClear(s, z, p) && z.Has(t, i) && !OnPath(p, t, i)
    requires t in s.at ==> s.Has(t, i)
    ensures z.Slot(t, i) == if s.Has(t, i) then s.Slot(t, i) else NULL_WORD
  {
    if s.Has(t, i) { FilledAt(s, z, p, t, i); } else { assert z.Slot(t, i) == z.Slot(t, i); }
  }

  /** A last-level slot lies on a page's path exactly if it is the page's. */
  lemma LastSlot(t: Tag, i: nat, p: nat)
    requires t.depth == 0 && i < ENTRIES
    ensures OnPath(p, t, i) <==> SlotRegion(t, i) == p
    ensures SlotRegion(t, i) == p <==> t == TagOf(p, 0) && i == Index(p, 0)
  {
    assert Reg(p, 0) == p && Reg(p, 1) == p / ENTRIES;
  }

  lemma LastBefore(x: State, y: State, v: nat, frames: seq<Frame>, flags: bv7)
    requires RangeMapped(x, y, v, frames, flags)
    ensures LastSlots(x.space, y.space, v, frames, flags) && SameFixed(x.space, y.space) && y.space.Struct()
    ensures forall t: Tag, i: nat :: x.space.Has(t, i) ==> y.space.Has(t, i)
  {
  }

  lemma SameWord(s: Space, y: Space, g: Frame, flags: bv7)
    requires SameFixed(s, y)
    ensures PageWord(s, g, flags) == PageWord(y, g, flags)
  {
  }

  lemma RangeLeaves(x: State, y: State, v: nat, frames: seq<Frame>, flags: bv7)
    requires RangeMapped(x, y, v, frames, flags)
    ensures y.space.Struct() && SameFixed(x.space, y.space) && NewLeaves(x.space, y.space, v, frames, flags)
    ensures FirmSlots(x.space, y.space, v, |frames|)
  {
  }

  lemma LastLeaf(s: Space, z: Space, v: nat, frames: seq<Frame>, g: Frame, flags: bv7, t: Tag, i: nat)
    requires z.Has(t, i) && t.depth == 0 && SlotRegion(t, i) == v + |frames| && z.Slot(t, i) == PageWord(s, g, flags)
    ensures NewLeaf(s, z, v, frames + [g], flags, t, i)
  {
  }

  lemma EarlierLeaf(s: Space, y: Space, z: Space, v: nat, frames: seq<Frame>, g: Frame, flags: bv7, t: Tag, i: nat)
    requires y.Has(t, i) && z.Has(t, i) && z.Slot(t, i) == y.Slot(t, i) && NewLeaf(s, y, v, frames, flags, t, i)
    ensures NewLeaf(s, z, v, frames + [g], flags, t, i)
  {
  }

  /** What is owned through a page that is yet to be mapped is what was owned through it at first. */
  lemma HeldSame(x: State, y: State, v: nat, frames: seq<Frame>, flags: bv7)
    requires RangeMapped(x, y, v, frames, flags)
    ensures Held(y.space, v + |frames|, 0) == Held(x.space, v + |frames|, 0)
  {
    hide RangeMapped;
    hide Space.Struct;
    hide Manages;
    hide IsLeaf;
    var p := v + |frames|;
    var t, i := TagOf(p, 0), Index(p, 0);
    assert SlotRegion(t, i) == p;
    RangeLeaves(x, y, v, frames, flags);
    if OwnedSlot(x.space, t, i) {
      assert x.space.Slot(t, i) == x.space.Slot(t, i);
      assert Firm(x.space, t, i, v, |frames|);
    }
    if OwnedSlot(y.space, t, i) {
      assert y.space.Slot(t, i) == y.space.Slot(t, i);
      assert NewLeaf(x.space, y.space, v, frames, flags, t, i);
    }
  }

  lemma StepOthers(x: State, y: State, z: State, v: nat, frames: seq<Frame>, g: Frame, flags: bv7)
    requires RangeMapped(x, y, v, frames, flags) && NextPage(y, z, v + |frames|, g, flags)
    requires Manages(y.space.ext, g, PAGE)
    ensures Others(z) == Others(x) + Overwritten(x.space, v, |frames| + 1)
                         + Unanswered(x.space.low, v, frames + [g], flags)
  {
    hide RangeMapped;
    hide NextPage;
    hide Others;
    hide Held;
    hide Own;
    hide Space.Struct;
    hide Manages;
    var p := v + |frames|;
    HeldSame(x, y, v, frames, flags);
    RangeOwn(x, y, v, frames, flags);
    NextOthers(y, z, p, g, flags);
    NextUnanswered(x.space.low, v, frames, g, flags);
  }

  lemma RangeOwn(x: State, y: State, v: nat, frames: seq<Frame>, flags: bv7)
    requires RangeMapped(x, y, v, frames, flags)
    ensures y.space.Struct() && Own(y.space, y.live) && y.space.low == x.space.low
    ensures Others(y) == Others(x) + Overwritten(x.space, v, |frames|) + Unanswered(x.space.low, v, frames, flags)
  {
  }

  lemma NextUnanswered(low: nat, v: nat, frames: seq<Frame>, g: Frame, flags: bv7)
    ensures Unanswered(low, v, frames + [g], flags)
         == Unanswered(low, v, frames, flags) + (if Answered(v + |frames|, flags, low) then {} else {g})
  {
    var more := frames + [g];
    forall a
      ensures a in Unanswered(low, v, more, flags) <==>
              a in Unanswered(low, v, frames, flags) || (a == g && !Answered(v + |frames|, flags, low))
    {
      if a in Unanswered(low, v, more, flags) {
        var i :| 0 <= i < |more| && !Answered(v + i, flags, low) && more[i] == a;
        assert i < |frames| ==> frames[i] == a;
      }
      if a in Unanswered(low, v, frames, flags) {
        var i :| 0 <= i < |frames| && !Answered(v + i, flags, low) && frames[i] == a;
        assert more[i] == a;
      }
      assert more[|frames|] == g;
    }
  }

  lemma RangeIdle(x: State, y: State, z: State, v: nat, frames: seq<Frame>, g: Frame, flags: bv7)
    requires RangeMapped(x, y, v, frames, flags) && NextPage(y, z, v + |frames|, g, flags)
    ensures IdleSlots(x.space, z.space)
  {
    hide NextPage;
    LastBefore(x, y, v, frames, flags);
    NextIdle(x.space, y, z, v + |frames|, g, flags);
  }

  lemma NextIdle(s: Space, y: State, z: State, p: nat, g: Frame, flags: bv7)
    requires NextPage(y, z, p, g, flags) && y.space.Struct() && IdleSlots(s, y.space)
    requires forall t: Tag, i: nat :: s.Has(t, i) ==> y.space.Has(t, i)
    ensures IdleSlots(s, z.space)
  {
    StepIdle(s, State(y.space, y.live[g := PAGE]), z, p, PageWord(y.space, g, flags));
  }

  lemma LiveGrewTwice(a: Live, b: Live, c: Live)
    requires LiveGrew(a, b) && LiveGrew(b, c)
    ensures LiveGrew(a, c)
  {
  }

  lemma StepBlocks(x: State, y: State, z: State, frames: seq<Frame>, g: Frame)
    requires NewBlocks(x, y, frames) && LiveGrew(x.live, y.live) && LiveGrew(y.live, z.live)
    requires g !in y.live && g in z.live
    ensures NewBlocks(x, z, frames + [g])
  {
  }

  lemma RangeSlots(x: State, y: State, v: nat, frames: seq<Frame>, flags: bv7)
    requires RangeMapped(x, y, v, frames, flags)
    ensures y.space.Struct() && SameFixed(x.space, y.space) && TablesAdded(x.space, y.space, v, |frames|)
    ensures LastSlots(x.space, y.space, v, frames, flags) && IdleSlots(x.space, y.space)
  {
  }

  /** Present pages leave no table out of use: one that is was there before and was out of use. */
  lemma RangeTidy(x: State, y: State, v: nat, frames: seq<Frame>, flags: bv7, t: Tag)
    requires x.space.Struct() && RangeMapped(x, y, v, frames, flags) && flags & PRESENT != 0
    requires t in y.space.at && Hollow(y.space, t)
    ensures t in x.space.at && Hollow(x.space, t)
  {
    hide RangeMapped;
    hide Space.Struct;
    hide PageWord;
    LastBefore(x, y, v, frames, flags);
    if t !in x.space.at { NewInUse(x, y, v, frames, flags, t); }
    forall i: nat | i < ENTRIES
      ensures !InUse(x.space, t, i)
    {
      if InUse(x.space, t, i) { StaysInUse(x, y, v, frames, flags, t, i); }
    }
  }

  /** A new table lies on the path of one of the pages. */
  lemma NewInUse(x: State, y: State, v: nat, frames: seq<Frame>, flags: bv7, t: Tag)
    requires RangeMapped(x, y, v, frames, flags) && flags & PRESENT != 0 && t in y.space.at && t !in x.space.at
    ensures !Hollow(y.space, t)
  {
    hide RangeMapped;
    hide PageWord;
    hide Decode;
    RangeSlots(x, y, v, frames, flags);
    var q :| v <= q < v + |frames| && t == TagOf(q, t.depth);
    var i := Index(q, t.depth);
    assert y.space.Has(t, i);
    if t.depth > 0 {
      InnerUsed(y.space, q, t, i);
    } else {
      LastSlot(t, i, q);
      PageWordMeans(x.space, frames[q - v], flags);
      assert y.space.Slot(t, i) == SlotAfter(x.space, v, frames, flags, t, i);
    }
    UsedSlot(y.space, t, i);
  }

  lemma UsedSlot(s: Space, t: Tag, i: nat)
    requires s.Has(t, i) && !s.Vacant(t, i)
    ensures InUse(s, t, i)
  {
  }

  lemma StaysInUse(x: State, y: State, v: nat, frames: seq<Frame>, flags: bv7, t: Tag, i: nat)
    requires RangeMapped(x, y, v, frames, flags) && flags & PRESENT != 0 && InUse(x.space, t, i) && y.space.Has(t, i)
    ensures InUse(y.space, t, i)
  {
    hide RangeMapped;
    hide PageWord;
    hide Decode;
    hide Space.Struct;
    RangeSlots(x, y, v, frames, flags);
    if !y.space.Vacant(t, i) { UsedSlot(y.space, t, i); }
    if t.depth == 0 {
      var q := SlotRegion(t, i);
      if v <= q < v + |frames| { PageWordMeans(x.space, frames[q - v], flags); }
      assert y.space.Slot(t, i) == SlotAfter(x.space, v, frames, flags, t, i);
    } else if y.space.Vacant(t, i) {
      assert y.space.Slot(t, i) == x.space.Slot(t, i);
    }
  }

  /** The result of `map_alloc`: the address, an error, or a panic when the allocator refuses. */
  datatype AllocResult = MappedAt(vaddr: nat) | Failed(error: MappingError) | Panicked

  /** A call that failed at the page after `frames`. The frame taken for that page is lost. */
  ghost predicate FailedAt(x: State, mid: State, y: State, v: nat, frames: seq<Frame>, g: Frame, flags: bv7,
                           e: MappingError, leak: set<nat>) {
    && RangeMapped(x, mid, v, frames, flags) && g !in mid.live
    && MapResult(State(mid.space, mid.live[g := PAGE]), y, v + |frames|, 0, mid.space.top,
                 PageWord(mid.space, g, flags), Err(e), leak)
  }

  /** What `map_alloc` guarantees of a call for n pages from v on. */
  ghost predicate Allocated(x: State, mid: State, y: State, v: nat, n: nat, frames: seq<Frame>, g: Frame, flags: bv7,
                            r: AllocResult, leak: set<nat>) {
    && (r.MappedAt? ==> |frames| == n)
    && (!r.MappedAt? ==> |frames| < n)
    && (!r.Failed? ==> RangeMapped(x, y, v, frames, flags))
    && (r.Failed? ==> FailedAt(x, mid, y, v, frames, g, flags, r.error, leak))
  }

  /** A new frame may be mapped. */
  lemma NewFrameMay(s: Space, live: Live, tlb: Tlb, g: Frame, flags: bv7)
    requires Good(s, live, tlb) && Manages(s.ext, g, PAGE) && g !in live
    ensures Good(s, live[g := PAGE], tlb) && MayMap(s, live[g := PAGE], PageWord(s, g, flags), 0)
  {
    PageWordMeans(s, g, flags);
    FreshFrame(s, live, g);
    OwnedIsLive(s, live);
    assert Own(s, live[g := PAGE]);
  }

  lemma MapResultGood(x: State, y: State, p: nat, k: nat, d: nat, w: Word, r: MappingResult, leak: set<nat>, tlb: Tlb)
    requires MapResult(x, y, p, k, d, w, r, leak) && Coherent(y.space, tlb)
    ensures Good(y.space, y.live, tlb)
  {
  }

  /** The page a round of the loop maps lies in the address space. */
  lemma RoundPage(s: Space, vaddr: nat, size: nat, i: nat)
    requires s.Struct() && vaddr % PAGE == 0 && vaddr + size <= Start(1, s.top + 1) && i < size / PAGE
    ensures (vaddr + i * PAGE) / PAGE == vaddr / PAGE + i && Aligned(vaddr + i * PAGE, 0)
    ensures TagOf(vaddr / PAGE + i, s.top) == s.Top() && s.Top() in s.at && s.at[s.Top()] == s.root
  {
    PageTag(s, vaddr / PAGE + i);
    SlotAddress(vaddr / PAGE + i, 0);
    assert Start(vaddr / PAGE + i, 0) == vaddr + i * PAGE;
  }

  /** One round of the loop. */
  lemma RangeRound(x: State, y: State, z: State, v: nat, frames: seq<Frame>, g: Frame, flags: bv7, leak: set<nat>)
    requires x.space.Struct() && Own(x.space, x.live) && NewTablesLive(x.space, x.live, y.space, y.live)
    requires RangeMapped(x, y, v, frames, flags) && Manages(y.space.ext, g, PAGE) && g !in y.live
    requires MapResult(State(y.space, y.live[g := PAGE]), z, v + |frames|, 0, y.space.top, PageWord(y.space, g, flags), Ok,
                       leak)
    ensures RangeMapped(x, z, v, frames + [g], flags)
    ensures NewTablesLive(x.space, x.live, z.space, z.live)
  {
    hide RangeMapped;
    hide MapResult;
    hide Own;
    hide Space.Struct;
    MappedNext(y, z, v + |frames|, g, flags, leak);
    RangeStep(x, y, z, v, frames, g, flags);
  }

  lemma PageAligned(vaddr: nat)
    requires vaddr % PAGE == 0
    ensures Aligned(vaddr, 0)
  {
  }

  lemma TopPlace(s: Space)
    requires s.Struct()
    ensures s.Top() in s.at && s.at[s.Top()] == s.root
  {
  }

  lemma RangeLimit(s: Space, vaddr: nat, size: nat)
    requires vaddr % PAGE == 0 && vaddr + size <= Start(1, s.top + 1)
    ensures vaddr / PAGE + size / PAGE <= s.Limit()
  {
  }

  lemma NewTablesNone(x: State)
    ensures NewTablesLive(x.space, x.live, x.space, x.live)
  {
  }

  lemma WordOf(s: Space, frame: Frame, flags: bv7)
    ensures PageWord(s, frame, flags) == Encode(Page(Word(frame, 0), flags), 0 == 0, s.sticky)
  {
  }

  lemma MappedNext(y: State, z: State, p: nat, g: Frame, flags: bv7, leak: set<nat>)
    requires g !in y.live
    requires MapResult(State(y.space, y.live[g := PAGE]), z, p, 0, y.space.top, PageWord(y.space, g, flags), Ok, leak)
    ensures NextPage(y, z, p, g, flags)
  {
  }
}
