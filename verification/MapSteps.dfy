/** What mapping one page does to an address space, case by case. */
module MapSteps {
  import opened Common
  import opened PageTableEntry
  import opened Geometry
  import opened PageTables
  import opened TableSteps
  import opened Ownership
  import opened Unmapping
  import opened Consistency

  ghost predicate OnPath(p: nat, t: Tag, i: nat) { t == TagOf(p, t.depth) && i == Index(p, t.depth) }

  /** Tables stay where they are; new ones lie on the path to page p, at depths from k up to d. */
  ghost predicate Grown(s: Space, z: Space, p: nat, k: nat, d: nat) {
    && (forall t {:trigger t in s.at} :: t in s.at ==> t in z.at && z.at[t] == s.at[t])
    && (forall t {:trigger t in z.at} :: t in z.at && t !in s.at ==> t == TagOf(p, t.depth) && k <= t.depth < d)
  }

  /** A slot changes only on the path, and only if it was neither locked nor a table's. */
  ghost predicate OnlyFilled(s: Space, z: Space, p: nat) {
    forall t: Tag, i: nat {:trigger s.Slot(t, i)} :: s.Has(t, i) ==> Filled(s, z, p, t, i)
  }

  ghost predicate Filled(s: Space, z: Space, p: nat, t: Tag, i: nat)
    requires s.Has(t, i)
  {
    && z.Has(t, i)
    && (z.Slot(t, i) == s.Slot(t, i)
        || (OnPath(p, t, i) && !Locked(s.Slot(t, i), t.depth == 0) && !IsTable(s.Slot(t, i), t.depth)))
  }

  /** New tables are clear off the path. */
  ghost predicate NewClear(s: Space, z: Space, p: nat) {
    forall t: Tag, i: nat {:trigger z.Slot(t, i)} :: z.Has(t, i) && t !in s.at && !OnPath(p, t, i) ==>
      z.Slot(t, i) == NULL_WORD
  }

  /** New tables use frames that were free before. */
  ghost predicate NewFrames(s: Space, live: Live, z: Space, live': Live) {
    forall t {:trigger z.at[t]} :: t in z.at && t !in s.at ==> z.at[t] in live' && z.at[t] !in live
  }

  /** Frames that are no tables and were not handed out meanwhile keep their contents. */
  ghost predicate FramesKept(s: Space, live: Live, z: Space, live': Live) {
    && z.mem.Keys == s.mem.Keys
    && forall f {:trigger z.mem[f]} ::
         f in s.mem && (forall t :: t in s.at ==> s.at[t] != f) && (f in live' ==> f in live) ==> z.mem[f] == s.mem[f]
  }

  /** Only frames were allocated. */
  ghost predicate LiveGrew(live: Live, live': Live) {
    && (forall a {:trigger a in live} :: a in live ==> a in live' && live'[a] == live[a])
    && (forall a {:trigger a in live'} :: a in live' && a !in live ==> live'[a] == PAGE)
  }

  /** The live blocks that the address space does not own. */
  ghost function Others(x: State): set<nat> { x.live.Keys - Owned(x.space) }

  /** The block owned through the depth-k slot for page p. */
  ghost function Held(s: Space, p: nat, k: nat): set<nat> {
    if OwnedSlot(s, TagOf(p, k), Index(p, k)) then {LeafAddr(s.Slot(TagOf(p, k), Index(p, k)))} else {}
  }

  /** The word that stops a mapping at depth k: the first slot on the path that refuses updates. */
  ghost function Barrier(s: Space, p: nat, k: nat, d: nat): Option<Word>
    decreases d
  {
    if !s.Has(TagOf(p, d), Index(p, d)) then None else
    var w := s.Slot(TagOf(p, d), Index(p, d));
    if Locked(w, d == 0) then Some(w) else if d <= k then None else Barrier(s, p, k, d - 1)
  }

  ghost predicate Extended(x: State, y: State, p: nat, k: nat, d: nat) {
    && SameFixed(x.space, y.space) && y.space.Struct()
    && Grown(x.space, y.space, p, k, d) && OnlyFilled(x.space, y.space, p) && NewClear(x.space, y.space, p)
    && NewFrames(x.space, x.live, y.space, y.live) && FramesKept(x.space, x.live, y.space, y.live)
    && Own(y.space, y.live) && LiveGrew(x.live, y.live)
  }

  /** Page p's depth-k region now has the leaf word w, from the depth-d table on its path. */
  ghost predicate Mapped(x: State, y: State, p: nat, k: nat, d: nat, w: Word) {
    && Extended(x, y, p, k, d)
    && (forall q: nat {:trigger y.space.Trans(q)} ::
          y.space.Trans(q) == if Reg(q, k) == Reg(p, k) then LeafOf(w, k) else x.space.Trans(q))
    && y.space.Has(TagOf(p, k), Index(p, k)) && y.space.Slot(TagOf(p, k), Index(p, k)) == w
    && Others(y) == (Others(x) - Held(y.space, p, k)) + Held(x.space, p, k)
    && (forall e {:trigger TagOf(p, e)} :: k <= e <= d ==> TagOf(p, e) in y.space.at)
  }

  /** Nothing was mapped; `leak` are frames that stay allocated and belong to no one. */
  ghost predicate NotMapped(x: State, y: State, p: nat, k: nat, d: nat, leak: set<nat>) {
    && Extended(x, y, p, k, d)
    && (forall q: nat {:trigger y.space.Trans(q)} :: y.space.Trans(q) == x.space.Trans(q))
    && LeavesKept(x.space, y.space)
    && Others(y) == Others(x) + leak && leak !! x.live.Keys
  }

  /** Slots that map a page keep their words. */
  ghost predicate LeavesKept(s: Space, z: Space) {
    forall t: Tag, i: nat {:trigger s.Slot(t, i)} :: s.Has(t, i) && IsLeaf(s.Slot(t, i), t.depth) ==>
      z.Has(t, i) && z.Slot(t, i) == s.Slot(t, i)
  }

  /** The tables are word for word what they were. */
  ghost predicate Untouched(s: Space, z: Space) {
    && z.at == s.at
    && forall t: Tag, i: nat {:trigger z.Slot(t, i)} :: s.Has(t, i) ==> z.Has(t, i) && z.Slot(t, i) == s.Slot(t, i)
  }

  // The cases.

  lemma UnchangedSelf(x: State, p: nat, k: nat, d: nat)
    requires x.space.Struct() && Own(x.space, x.live)
    ensures NotMapped(x, x, p, k, d, {}) && Untouched(x.space, x.space)
  {
    forall t: Tag, i: nat | x.space.Has(t, i)
      ensures Filled(x.space, x.space, p, t, i)
    {
    }
  }

  /** The leaf slot itself was written. */
  lemma WroteLeaf(s: Space, live: Live, t: Tag, p: nat, w: Word)
    requires s.Struct() && Own(s, live) && t == TagOf(p, t.depth) && s.Has(t, Index(p, t.depth))
    requires !Locked(s.Slot(t, Index(p, t.depth)), t.depth == 0) && !IsTable(s.Slot(t, Index(p, t.depth)), t.depth)
    requires !IsTable(w, t.depth)
    requires MayMap(s, live, w, t.depth)
    ensures Mapped(State(s, live), State(Written(s, t, Index(p, t.depth), w), live), p, t.depth, t.depth, w)
  {
    var i, k := Index(p, t.depth), t.depth;
    var z := Written(s, t, i, w);
    assert SlotRegion(t, i) == Reg(p, k);
    WriteLeaf(s, t, i, w);
    WroteOwn(s, live, t, i, w);
    forall u: Tag, j: nat | s.Has(u, j)
      ensures Filled(s, z, p, u, j)
    {
      WrittenSlot(s, t, i, w, u, j);
    }
    WrittenSlot(s, t, i, w, t, i);
    assert FramesKept(s, live, z, live);
  }

  /** Ownership after a leaf slot got any leaf or empty word. */
  lemma WroteOwn(s: Space, live: Live, t: Tag, i: nat, w: Word)
    requires s.Struct() && Own(s, live) && s.Has(t, i)
    requires !IsTable(s.Slot(t, i), t.depth) && !IsTable(w, t.depth)
    requires MayMap(s, live, w, t.depth)
    ensures var z := Written(s, t, i, w);
            && Own(z, live)
            && var was := if OwnedSlot(s, t, i) then {LeafAddr(s.Slot(t, i))} else {};
               var now := if OwnedSlot(z, t, i) then {LeafAddr(z.Slot(t, i))} else {};
               live.Keys - Owned(z) == ((live.Keys - Owned(s)) - now) + was
  {
    var y := Written(s, t, i, NULL_WORD);
    var z := Written(s, t, i, w);
    var f := s.at[t];
    assert s.mem[f][i := NULL_WORD][i := w] == s.mem[f][i := w];
    assert Written(y, t, i, w).mem == z.mem;
    WriteLeaf(s, t, i, NULL_WORD);
    OwnForget(s, live, t, i, NULL_WORD);
    hide Space.Struct;
    hide IsTable;
    OwnedIsLive(s, live);
    WrittenSlot(s, t, i, NULL_WORD, t, i);
    WrittenSlot(s, t, i, w, t, i);
    if Kept(t, i, w, s.low) {
      OwnFill(y, live, t, i, w);
    } else {
      OwnIdle(y, live, t, i, w);
    }
    OwnedIsLive(z, live);
  }

  /** Mapping through a table that was there. */
  lemma MappedDeeper(x: State, y: State, p: nat, k: nat, d: nat, w: Word)
    requires x.space.Struct() && k < d && TagOf(p, d) in x.space.at && Mapped(x, y, p, k, d - 1, w)
    ensures Mapped(x, y, p, k, d, w)
  {
    hide Extended;
    hide Held;
    hide Others;
    hide Reg;
    hide Space.Trans;
    hide LeafOf;
    ExtendedDeeper(x, y, p, k, d);
    ExtendedKeeps(x, y, p, k, d, TagOf(p, d));
  }

  lemma NotMappedDeeper(x: State, y: State, p: nat, k: nat, d: nat, leak: set<nat>)
    requires k < d && NotMapped(x, y, p, k, d - 1, leak)
    ensures NotMapped(x, y, p, k, d, leak)
  {
  }

  /** A new table hung into the path is clear. */
  lemma HungPath(s: Space, p: nat, k: nat, d: nat, g: Frame)
    requires s.Struct() && k < d && s.Vacant(TagOf(p, d), Index(p, d))
    requires forall u :: u in s.at ==> s.at[u] != g
    ensures var z, c := Hung(s, TagOf(p, d), Index(p, d), g), TagOf(p, d - 1);
            && Child(TagOf(p, d), Index(p, d)) == c && c !in s.at
            && c in z.at && z.at[c] == g && TagOf(p, d) in z.at && z.at[TagOf(p, d)] == s.at[TagOf(p, d)]
            && z.Vacant(c, Index(p, d - 1)) && Barrier(z, p, k, d - 1) == None
            && NewClear(s, z, p)
  {
    var t, i := TagOf(p, d), Index(p, d);
    TagOfChild(p, d);
    ChildFree(s, t, i);
    var z, c := Hung(s, t, i, g), TagOf(p, d - 1);
    HungSlot(s, t, i, g, c, Index(p, d - 1));
    forall u: Tag, j: nat | z.Has(u, j) && u !in s.at && !OnPath(p, u, j)
      ensures z.Slot(u, j) == NULL_WORD
    {
      HungSlot(s, t, i, g, u, j);
    }
    if d - 1 > k { BarrierBelow(z, p, k, d, g, s); }
  }

  /** There is nothing below a clear slot. */
  lemma BarrierBelow(z: Space, p: nat, k: nat, d: nat, g: Frame, s: Space)
    requires s.Struct() && d >= 2 && s.Vacant(TagOf(p, d), Index(p, d))
    requires forall u :: u in s.at ==> s.at[u] != g
    requires z == Hung(s, TagOf(p, d), Index(p, d), g)
    ensures Barrier(z, p, k, d - 2) == None
  {
    TagOfChild(p, d);
    TagOfChild(p, d - 1);
    HangTable(s, TagOf(p, d), Index(p, d), g);
    assert z.Has(TagOf(p, d - 1), Index(p, d - 1));
    ChildFree(z, TagOf(p, d - 1), Index(p, d - 1));
  }

  lemma HungStep(s: Space, live: Live, p: nat, k: nat, d: nat, g: Frame)
    requires s.Struct() && Own(s, live) && k < d && s.Vacant(TagOf(p, d), Index(p, d))
    requires !Locked(s.Slot(TagOf(p, d), Index(p, d)), false)
    requires Manages(s.ext, g, PAGE) && g !in live && g in s.mem && forall u :: u in s.at ==> s.at[u] != g
    ensures var z := Hung(s, TagOf(p, d), Index(p, d), g);
            NotMapped(State(s, live), State(z, live[g := PAGE]), p, k, d, {})
  {
    hide Own;
    hide Owned;
    hide NewClear;
    hide FramesKept;
    hide OnlyFilled;
    hide Space.Struct;
    hide Space.Trans;
    hide Space.Bare;
    hide Manages;
    hide Reg;
    var t, i := TagOf(p, d), Index(p, d);
    var z := Hung(s, t, i, g);
    HungPath(s, p, k, d, g);
    HangTable(s, t, i, g);
    OwnHang(s, live, t, i, g);
    HungKeeps(s, live, t, i, g);
    HungFilled(s, p, d, g);
    OwnedIsLive(s, live);
    assert Grown(s, z, p, k, d);
  }

  lemma HungFilled(s: Space, p: nat, d: nat, g: Frame)
    requires s.Struct() && d > 0 && s.Vacant(TagOf(p, d), Index(p, d))
    requires !Locked(s.Slot(TagOf(p, d), Index(p, d)), false)
    requires forall u :: u in s.at ==> s.at[u] != g
    ensures OnlyFilled(s, Hung(s, TagOf(p, d), Index(p, d), g), p)
  {
    var t, i := TagOf(p, d), Index(p, d);
    ChildFree(s, t, i);
    forall u: Tag, j: nat | s.Has(u, j)
      ensures Filled(s, Hung(s, t, i, g), p, u, j)
    {
      HungSlot(s, t, i, g, u, j);
    }
  }

  lemma HungKeeps(s: Space, live: Live, t: Tag, i: nat, g: Frame)
    requires s.Struct() && s.Has(t, i) && t.depth > 0 && g in s.mem && g !in live
    ensures FramesKept(s, live, Hung(s, t, i, g), live[g := PAGE])
  {
    var z := Hung(s, t, i, g);
    assert z.mem.Keys == s.mem.Keys;
  }

  /** The frame for a new table was taken, but the slot refuses it. */
  lemma LeakStep(s: Space, live: Live, p: nat, k: nat, d: nat, g: Frame)
    requires s.Struct() && Own(s, live) && Manages(s.ext, g, PAGE) && g !in live && g in s.mem
    ensures var z := s.With(s.mem[g := Zeros()], s.at);
            && NotMapped(State(s, live), State(z, live[g := PAGE]), p, k, d, {g})
            && Untouched(s, z)
  {
    var z := s.With(s.mem[g := Zeros()], s.at);
    FreshFrame(s, live, g);
    OtherFrame(s, g, Zeros());
    OwnElsewhere(s, live, g, Zeros());
    OwnedIsLive(s, live);
    forall t: Tag, i: nat | s.Has(t, i)
      ensures Filled(s, z, p, t, i) && z.Has(t, i) && z.Slot(t, i) == s.Slot(t, i)
    {
    }
  }

  /** A mapping after a new table was hung: tables and slots. */
  lemma ExtendedTwice(x: State, y: State, z: State, p: nat, k: nat, d: nat)
    requires Extended(x, y, p, k, d) && Extended(y, z, p, k, d)
    ensures Extended(x, z, p, k, d)
  {
    forall t: Tag, i: nat | x.space.Has(t, i)
      ensures Filled(x.space, z.space, p, t, i)
    {
      assert Filled(x.space, y.space, p, t, i);
      assert Filled(y.space, z.space, p, t, i);
    }
    forall t: Tag, i: nat | z.space.Has(t, i) && t !in x.space.at && !OnPath(p, t, i)
      ensures z.space.Slot(t, i) == NULL_WORD
    {
      if t in y.space.at {
        assert y.space.Has(t, i);
        assert Filled(y.space, z.space, p, t, i);
      }
    }
    forall f | f in x.space.mem && (forall t :: t in x.space.at ==> x.space.at[t] != f) && (f in z.live ==> f in x.live)
      ensures z.space.mem[f] == x.space.mem[f]
    {
      NewTableFrame(x, y, z, p, k, d, f);
    }
  }

  lemma NewTableFrame(x: State, y: State, z: State, p: nat, k: nat, d: nat, f: Frame)
    requires Extended(x, y, p, k, d) && Extended(y, z, p, k, d)
    requires f in x.space.mem && (forall t :: t in x.space.at ==> x.space.at[t] != f) && (f in z.live ==> f in x.live)
    ensures z.space.mem[f] == x.space.mem[f]
  {
    assert f in y.live ==> f in z.live;
    assert y.space.mem[f] == x.space.mem[f];
    forall t | t in y.space.at
      ensures y.space.at[t] != f
    {
    }
  }

  /** The leaf is mapped after a table was hung. */
  lemma MappedAfter(x: State, y: State, z: State, p: nat, k: nat, d: nat, w: Word)
    requires k < d && TagOf(p, d) in x.space.at && Held(x.space, p, k) == Held(y.space, p, k)
    requires NotMapped(x, y, p, k, d, {}) && Mapped(y, z, p, k, d - 1, w)
    ensures Mapped(x, z, p, k, d, w)
  {
    hide Extended;
    hide Held;
    hide Others;
    hide Reg;
    hide Space.Trans;
    hide LeafOf;
    ExtendedDeeper(y, z, p, k, d);
    ExtendedTwice(x, y, z, p, k, d);
    ExtendedKeeps(x, z, p, k, d, TagOf(p, d));
    forall q: nat
      ensures z.space.Trans(q) == if Reg(q, k) == Reg(p, k) then LeafOf(w, k) else x.space.Trans(q)
    {
      assert y.space.Trans(q) == x.space.Trans(q);
    }
  }

  lemma ExtendedKeeps(x: State, y: State, p: nat, k: nat, d: nat, t: Tag)
    requires Extended(x, y, p, k, d) && t in x.space.at
    ensures t in y.space.at && y.space.at[t] == x.space.at[t]
  {
  }

  lemma NotMappedAfter(x: State, y: State, z: State, p: nat, k: nat, d: nat, leak: set<nat>)
    requires k < d
    requires NotMapped(x, y, p, k, d, {}) && NotMapped(y, z, p, k, d - 1, leak)
    ensures NotMapped(x, z, p, k, d, leak)
  {
    ExtendedDeeper(y, z, p, k, d);
    ExtendedTwice(x, y, z, p, k, d);
    forall q: nat
      ensures z.space.Trans(q) == x.space.Trans(q)
    {
      assert y.space.Trans(q) == x.space.Trans(q);
    }
  }

  lemma ExtendedDeeper(x: State, y: State, p: nat, k: nat, d: nat)
    requires k < d && Extended(x, y, p, k, d - 1)
    ensures Extended(x, y, p, k, d)
  {
  }

  // With the processor's cache.

  /** Nothing that may not be owned is mapped by the leaf word w at depth k. */
  ghost predicate MayMap(s: Space, live: Live, w: Word, k: nat) {
    IsLeaf(w, k) && Address(w).low == 0 && Manages(s.ext, LeafAddr(w), RegionSize(k)) ==>
      OwnedBlock(s, live, LeafAddr(w), RegionSize(k)) && LeafAddr(w) !in Owned(s)
  }

  lemma LeafFacts(s: Space, live: Live, tlb: Tlb, t: Tag, p: nat, w: Word, mem: Memory, tlb': Tlb)
    requires Good(s, live, tlb) && t == TagOf(p, t.depth) && s.Has(t, Index(p, t.depth))
    requires !Locked(s.Slot(t, Index(p, t.depth)), t.depth == 0) && !IsTable(s.Slot(t, Index(p, t.depth)), t.depth)
    requires !IsTable(w, t.depth) && MayMap(s, live, w, t.depth)
    requires mem == Store(s.mem, s.at[t], Index(p, t.depth), w)
    requires Refilled(s, s.With(mem, s.at), tlb', p)
    ensures Mapped(State(s, live), State(s.With(mem, s.at), live), p, t.depth, t.depth, w)
    ensures Coherent(s.With(mem, s.at), tlb')
  {
    var z := Written(s, t, Index(p, t.depth), w);
    WroteLeaf(s, live, t, p, w);
    forall q: nat | q != p && Reg(q, t.depth) == Reg(p, t.depth)
      ensures s.Trans(q).None?
    {
      TransOfSlot(s, q, t.depth);
    }
    Recached(s, z, live, tlb', p);
  }

  lemma HangFacts(s: Space, live: Live, tlb: Tlb, p: nat, k: nat, d: nat, g: Frame, mem: Memory, tlb': Tlb, w: Word)
    requires Good(s, live, tlb) && k < d && s.Vacant(TagOf(p, d), Index(p, d))
    requires !Locked(s.Slot(TagOf(p, d), Index(p, d)), false)
    requires Manages(s.ext, g, PAGE) && g !in live && g in s.mem
    requires forall u :: u in s.at ==> s.at[u] != g
    requires mem == Store(s.mem[g := Zeros()], s.at[TagOf(p, d)], Index(p, d), NewPageTable(Word(g, 0)))
    requires Refilled(s.With(s.mem[g := Zeros()], s.at), s.With(s.mem[g := Zeros()], s.at).With(mem, s.at), tlb', p)
    requires MayMap(s, live, w, k)
    ensures var z := s.With(mem, s.at[TagOf(p, d - 1) := g]);
            && z == Hung(s, TagOf(p, d), Index(p, d), g)
            && Good(z, live[g := PAGE], tlb')
            && NotMapped(State(s, live), State(z, live[g := PAGE]), p, k, d, {})
            && MayMap(z, live[g := PAGE], w, k)
  {
    var c, one := TagOf(p, d - 1), s.With(s.mem[g := Zeros()], s.at);
    TagOfChild(p, d);
    var z := Hung(s, TagOf(p, d), Index(p, d), g);
    HungStep(s, live, p, k, d, g);
    OtherFrame(s, g, Zeros());
    OwnHang(s, live, TagOf(p, d), Index(p, d), g);
    RefilledAt(one, one.With(mem, s.at), tlb', p, z.at);
    assert Coherent(z, tlb');
  }

  /** Below a slot without a table nothing is held. */
  lemma HungHeld(s: Space, p: nat, k: nat, d: nat, g: Frame)
    requires s.Struct() && k < d && s.Vacant(TagOf(p, d), Index(p, d))
    requires forall u :: u in s.at ==> s.at[u] != g
    ensures var z := Hung(s, TagOf(p, d), Index(p, d), g);
            && Held(s, p, k) == {} && Held(z, p, k) == {}
            && (k > 0 ==> TagOf(p, k - 1) !in z.at)
  {
    var z := Hung(s, TagOf(p, d), Index(p, d), g);
    HungPath(s, p, k, d, g);
    HangTable(s, TagOf(p, d), Index(p, d), g);
    NoneBelow(s, p, d, k);
    NoneBelow(z, p, d - 1, k);
    if k > 0 { NoneBelow(z, p, d - 1, k - 1); }
  }

  /** No table lies on a path below a vacant slot. */
  lemma {:induction false} NoneBelow(s: Space, p: nat, d: nat, k: nat)
    requires s.Struct() && s.Vacant(TagOf(p, d), Index(p, d)) && k <= d
    ensures k < d ==> TagOf(p, k) !in s.at
    ensures Held(s, p, k) == {}
    decreases d - k
  {
    if k < d {
      NoneBelow(s, p, d, k + 1);
      if TagOf(p, k) in s.at {
        assert s.Linked(TagOf(p, d));
        TagsAbove(s, p, k, k + 1);
        TagOfChild(p, k + 1);
        ChildFree(s, TagOf(p, k + 1), Index(p, k + 1));
      }
    }
  }

  /** The entry that page p's path meets in its depth-d table. */
  lemma PathRead(s: Space, p: nat, d: nat)
    requires s.Struct() && TagOf(p, d) in s.at
    ensures s.Has(TagOf(p, d), Index(p, d)) && d <= s.top
    ensures s.Slot(TagOf(p, d), Index(p, d)) == s.mem[s.at[TagOf(p, d)]][Index(p, d)]
    ensures var w := s.Slot(TagOf(p, d), Index(p, d));
            var e := Decode(w, d == 0);
            && (e.Level? <==> IsTable(w, d))
            && (e.Level? ==> d > 0 && TagOf(p, d - 1) in s.at && s.at[TagOf(p, d - 1)] == e.table.base
                             && !Locked(w, d == 0))
            && (e.Page? ==> e.addr == Address(w))
            && (e.Page? && e.flags & PRESENT != 0 <==> IsLeaf(w, d))
            && (IsLeaf(w, d) && d > 0 ==> Locked(w, false))
            && (IsLeaf(w, d) || IsTable(w, d) <==> Flags(w) & P != 0)
  {
    assert s.Linked(TagOf(p, d));
    assert s.Has(TagOf(p, d), Index(p, d));
    assert s.Edge(TagOf(p, d), Index(p, d));
    if d > 0 { TagOfChild(p, d); }
  }

  /** The barrier, one level at a time. */
  lemma BarrierHere(s: Space, p: nat, k: nat, d: nat)
    requires s.Struct() && TagOf(p, d) in s.at && k <= d
    ensures var w := s.Slot(TagOf(p, d), Index(p, d));
            && (Locked(w, d == 0) ==> Barrier(s, p, k, d) == Some(w))
            && (!Locked(w, d == 0) && k < d ==> Barrier(s, p, k, d) == Barrier(s, p, k, d - 1))
            && (!Locked(w, d == 0) && k == d ==> Barrier(s, p, k, d) == None)
            && (!Locked(w, d == 0) && !IsTable(w, d) ==> Barrier(s, p, k, d) == None)
  {
    PathRead(s, p, d);
    var w := s.Slot(TagOf(p, d), Index(p, d));
    if !Locked(w, d == 0) && !IsTable(w, d) && k < d {
      assert s.Vacant(TagOf(p, d), Index(p, d));
      NoneBelow(s, p, d, d - 1);
    }
  }

  /** A table is allocated before the refusal shows: the refusing word b is not present, and lies above the
      level that takes the page. */
  ghost predicate LosesTable(s: Space, p: nat, k: nat, b: Word) { Flags(b) & P == 0 && TagOf(p, k) !in s.at }

  /** No table is in use below a slot that holds none. */
  lemma NoneAtDepth(s: Space, p: nat, k: nat, d: nat)
    requires s.Struct() && k < d && s.Vacant(TagOf(p, d), Index(p, d))
    ensures TagOf(p, k) !in s.at
  {
    NoneBelow(s, p, d, k);
  }

  /** What `map_page` may report, given what stands in its way. It wants a frame only where the table that
      takes the page is missing. */
  ghost predicate MapResult(x: State, y: State, p: nat, k: nat, d: nat, w: Word, r: MappingResult, leak: set<nat>) {
    && (r.Ok? ==> leak == {} && Mapped(x, y, p, k, d, w))
    && (r.Err? ==> NotMapped(x, y, p, k, d, leak))
    && (r == Err(PageAllocationFailed) ==> TagOf(p, k) !in y.space.at)
    && match Barrier(x.space, p, k, d)
       case None => leak == {} && (r.Ok? || r == Err(PageAllocationFailed))
       case Some(b) =>
         && Untouched(x.space, y.space)
         && ((r == Err(MappingOver(Address(b))) && |leak| == if LosesTable(x.space, p, k, b) then 1 else 0)
             || (r == Err(PageAllocationFailed) && leak == {} && Flags(b) & P == 0))
  }

  // The result of a level from that of the level below.

  /** The slot points to a table. */
  lemma ResultDeeper(x: State, y: State, p: nat, k: nat, d: nat, w: Word, r: MappingResult, leak: set<nat>)
    requires x.space.Struct() && k < d && TagOf(p, d) in x.space.at && MapResult(x, y, p, k, d - 1, w, r, leak)
    requires Barrier(x.space, p, k, d) == Barrier(x.space, p, k, d - 1)
    ensures MapResult(x, y, p, k, d, w, r, leak)
  {
    hide Mapped;
    hide NotMapped;
    hide Untouched;
    hide Space.Struct;
    hide Barrier;
    if r.Ok? { MappedDeeper(x, y, p, k, d, w); } else { NotMappedDeeper(x, y, p, k, d, leak); }
  }

  /** A table was hung into the slot. */
  lemma ResultAfter(x: State, y: State, z: State, p: nat, k: nat, d: nat, w: Word, r: MappingResult, leak: set<nat>)
    requires k < d && TagOf(p, d) in x.space.at && Held(x.space, p, k) == Held(y.space, p, k)
    requires NotMapped(x, y, p, k, d, {}) && MapResult(y, z, p, k, d - 1, w, r, leak)
    requires Barrier(x.space, p, k, d) == None && Barrier(y.space, p, k, d - 1) == None
    ensures MapResult(x, z, p, k, d, w, r, leak)
  {
    hide Mapped;
    hide NotMapped;
    hide Untouched;
    hide Space.Struct;
    hide Barrier;
    hide Held;
    if r.Ok? { MappedAfter(x, y, z, p, k, d, w); } else { NotMappedAfter(x, y, z, p, k, d, leak); }
  }

  /** The slot maps a page. */
  lemma ResultStop(x: State, p: nat, k: nat, d: nat, w: Word)
    requires x.space.Struct() && Own(x.space, x.live) && k < d && TagOf(p, d) in x.space.at
    requires IsLeaf(x.space.Slot(TagOf(p, d), Index(p, d)), d)
    ensures MapResult(x, x, p, k, d, w, Err(MappingOver(Address(x.space.Slot(TagOf(p, d), Index(p, d))))), {})
  {
    hide NotMapped;
    hide Untouched;
    UnchangedSelf(x, p, k, d);
    PathRead(x.space, p, d);
    BarrierHere(x.space, p, k, d);
  }

  /** No table could be hung into the slot. */
  lemma ResultFailed(x: State, y: State, p: nat, k: nat, d: nat, w: Word, r: MappingResult, leak: set<nat>)
    requires x.space.Struct() && k < d && x.space.Vacant(TagOf(p, d), Index(p, d)) && r.Err?
    requires NotMapped(x, y, p, k, d, leak) && Untouched(x.space, y.space)
    requires var b := x.space.Slot(TagOf(p, d), Index(p, d));
             && (r == Err(PageAllocationFailed) ==> leak == {})
             && (r != Err(PageAllocationFailed) ==> Locked(b, false) && |leak| == 1 && r == Err(MappingOver(Address(b))))
    ensures MapResult(x, y, p, k, d, w, r, leak)
  {
    hide NotMapped;
    hide Untouched;
    PathRead(x.space, p, d);
    BarrierHere(x.space, p, k, d);
    NoneAtDepth(x.space, p, k, d);
    assert y.space.at == x.space.at by { UntouchedAt(x.space, y.space); }
  }

  lemma UntouchedAt(s: Space, z: Space)
    requires Untouched(s, z)
    ensures z.at == s.at
  {
  }

  /** The word of a leaf to be stored. */
  lemma LeafWord(s: Space, p: nat, k: nat, paddr: Word, flags: bv7, vaddr: nat)
    requires s.Struct() && TagOf(p, k) in s.at && p == vaddr / PAGE && Aligned(vaddr, k)
    requires k > 0 ==> TagOf(p, k - 1) !in s.at
    ensures !IsTable(Encode(Page(paddr, flags), k == 0, s.sticky), k)
    ensures !IsTable(s.Slot(TagOf(p, k), Index(p, k)), k)
  {
    if k > 0 {
      TagOfChild(p, k);
      ChildFree(s, TagOf(p, k), Index(p, k));
      var h := ToHardware(flags);
      assert (paddr.low | h | PS) & DECLARED & PS != 0;
    }
  }
}
