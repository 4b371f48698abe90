/** The three ways an operation changes the tables: write a leaf slot, hang a new table, drop a
    table that maps nothing. Each keeps the tree and is seen by the hardware walk exactly as said. */
module TableSteps {
  import opened Common
  import opened PageTableEntry
  import opened Geometry
  import opened PageTables

  /** Slot i of the table at t gets the word w. */
  ghost function Written(s: Space, t: Tag, i: nat, w: Word): Space
    requires s.Has(t, i)
  {
    s.With(Store(s.mem, s.at[t], i, w), s.at)
  }

  ghost function Zeros(): seq<Word> { seq(ENTRIES, (k: nat) => NULL_WORD) }

  /** A cleared frame g is hung into slot i of the table at t. */
  ghost function Hung(s: Space, t: Tag, i: nat, g: Frame): Space
    requires s.Has(t, i) && t.depth > 0
  {
    s.With(Store(s.mem[g := Zeros()], s.at[t], i, NewPageTable(Word(g, 0))), s.at[Child(t, i) := g])
  }

  /** The table at c is dropped and its parent's slot gets the word w. */
  ghost function Dropped(s: Space, c: Tag, w: Word): Space
    requires s.Has(Parent(c), c.region % ENTRIES)
  {
    s.With(Store(s.mem, s.at[Parent(c)], c.region % ENTRIES, w), s.at - {c})
  }

  /** Slots of the tables in use after one word was written and unused frames were changed. */
  lemma SlotsAfter(s: Space, z: Space, t: Tag, i: nat, w: Word, m: Memory, u: Tag, j: nat)
    requires s.Struct() && s.Has(t, i) && s.Has(u, j)
    requires forall v :: v in s.at ==> s.at[v] in m && m[s.at[v]] == s.mem[s.at[v]]
    requires z.mem == Store(m, s.at[t], i, w)
    ensures s.at[u] in z.mem && |z.mem[s.at[u]]| == ENTRIES
    ensures z.mem[s.at[u]][j] == if (u, j) == (t, i) then w else s.Slot(u, j)
  {
    assert s.at[u] in m && s.at[t] in m;
    if s.at[u] == s.at[t] {
      assert u == t;
    }
  }

  /** Reading an arbitrary slot after `Written`. */
  lemma WrittenSlot(s: Space, t: Tag, i: nat, w: Word, u: Tag, j: nat)
    requires s.Struct() && s.Has(t, i) && s.Has(u, j)
    ensures var z := Written(s, t, i, w);
            z.Has(u, j) && z.Slot(u, j) == if (u, j) == (t, i) then w else s.Slot(u, j)
  {
    SlotsAfter(s, Written(s, t, i, w), t, i, w, s.mem, u, j);
  }

  lemma WriteKeepsTree(s: Space, t: Tag, i: nat, w: Word)
    requires s.Struct() && s.Has(t, i)
    requires !IsTable(s.Slot(t, i), t.depth) && !IsTable(w, t.depth)
    ensures Written(s, t, i, w).Struct()
    ensures SameSlotsBut(s, Written(s, t, i, w), t, i)
  {
    var z := Written(s, t, i, w);
    forall u: Tag, j: nat | s.Has(u, j)
      ensures z.Has(u, j) && z.Slot(u, j) == if (u, j) == (t, i) then w else s.Slot(u, j)
    {
      WrittenSlot(s, t, i, w, u, j);
    }
    forall u: Tag | u in z.at
      ensures z.at[u] in z.mem && |z.mem[z.at[u]]| == ENTRIES && z.Linked(u)
    {
      assert s.Linked(u) && s.Has(u, 0);
    }
    forall u: Tag, j: nat | z.Has(u, j)
      ensures z.Edge(u, j)
    {
      assert s.Has(u, j) && s.Edge(u, j);
    }
  }

  lemma WriteLeaf(s: Space, t: Tag, i: nat, w: Word)
    requires s.Struct() && s.Has(t, i)
    requires !IsTable(s.Slot(t, i), t.depth) && !IsTable(w, t.depth)
    ensures Written(s, t, i, w).Struct()
    ensures forall p :: Written(s, t, i, w).Trans(p)
              == if Reg(p, t.depth) == SlotRegion(t, i) then LeafOf(w, t.depth) else s.Trans(p)
  {
    var z := Written(s, t, i, w);
    WriteKeepsTree(s, t, i, w);
    WrittenSlot(s, t, i, w, t, i);
    forall p: nat
      ensures z.Trans(p) == if Reg(p, t.depth) == SlotRegion(t, i) then LeafOf(w, t.depth) else s.Trans(p)
    {
      if Reg(p, t.depth) == SlotRegion(t, i) {
        assert TagOf(p, t.depth) == t && Index(p, t.depth) == i;
        TransOfSlot(z, p, t.depth);
      } else {
        TransElsewhere(s, z, t, i, p);
      }
    }
  }

  lemma HungSlot(s: Space, t: Tag, i: nat, g: Frame, u: Tag, j: nat)
    requires s.Struct() && s.Has(t, i) && t.depth > 0 && Child(t, i) !in s.at
    requires forall v :: v in s.at ==> s.at[v] != g
    ensures var z := Hung(s, t, i, g);
            && (s.Has(u, j) ==>
                  && z.Has(u, j)
                  && z.Slot(u, j) == if (u, j) == (t, i) then NewPageTable(Word(g, 0)) else s.Slot(u, j))
            && (u == Child(t, i) && j < ENTRIES ==> z.Has(u, j) && z.Slot(u, j) == NULL_WORD)
  {
    var z := Hung(s, t, i, g);
    if s.Has(u, j) {
      SlotsAfter(s, z, t, i, NewPageTable(Word(g, 0)), s.mem[g := Zeros()], u, j);
    } else if u == Child(t, i) {
      assert z.at[u] == g && g != s.at[t] && z.mem[g] == Zeros();
    }
  }

  lemma ChildFree(s: Space, t: Tag, i: nat)
    requires s.Struct() && s.Has(t, i) && t.depth > 0
    ensures Child(t, i) in s.at <==> IsTable(s.Slot(t, i), t.depth)
  {
    var c := Child(t, i);
    assert Parent(c) == t && c.region % ENTRIES == i;
    assert s.Linked(t) && s.Edge(t, i);
    if c in s.at {
      assert s.Linked(c);
    }
  }

  lemma HangSameSlots(s: Space, t: Tag, i: nat, g: Frame)
    requires s.Struct() && s.Has(t, i) && t.depth > 0 && Child(t, i) !in s.at
    requires forall u :: u in s.at ==> s.at[u] != g
    ensures SameSlotsBut(s, Hung(s, t, i, g), t, i)
  {
    var z := Hung(s, t, i, g);
    forall u: Tag, j: nat | s.Has(u, j) && (u, j) != (t, i)
      ensures s.at[u] in z.mem && |z.mem[s.at[u]]| == ENTRIES && z.mem[s.at[u]][j] == s.Slot(u, j)
    {
      SlotsAfter(s, z, t, i, NewPageTable(Word(g, 0)), s.mem[g := Zeros()], u, j);
    }
  }

  lemma HangKeepsLink(s: Space, t: Tag, i: nat, g: Frame, u: Tag)
    requires s.Struct() && s.Has(t, i) && t.depth > 0 && Child(t, i) !in s.at
    requires forall v :: v in s.at ==> s.at[v] != g
    requires u in Hung(s, t, i, g).at
    ensures Hung(s, t, i, g).Linked(u)
  {
    assert s.Linked(t);
    if u == Child(t, i) {
      assert Parent(u) == t && u.region % ENTRIES == i;
      HungSlot(s, t, i, g, t, i);
    } else {
      assert s.Linked(u);
      if u.depth < s.top {
        HungSlot(s, t, i, g, Parent(u), u.region % ENTRIES);
      }
    }
  }

  lemma HangKeepsTree(s: Space, t: Tag, i: nat, g: Frame)
    requires s.Struct() && s.Has(t, i) && t.depth > 0
    requires !IsTable(s.Slot(t, i), t.depth)
    requires forall u :: u in s.at ==> s.at[u] != g
    ensures Child(t, i) !in s.at
    ensures Hung(s, t, i, g).Struct() && Hung(s, t, i, g).Bare(Child(t, i))
  {
    var c := Child(t, i);
    ChildFree(s, t, i);
    var z := Hung(s, t, i, g);
    forall u: Tag | u in z.at
      ensures z.at[u] in z.mem && |z.mem[z.at[u]]| == ENTRIES && z.Linked(u)
    {
      HungSlot(s, t, i, g, u, 0);
      HangKeepsLink(s, t, i, g, u);
    }
    forall u: Tag, j: nat | z.Has(u, j)
      ensures z.Edge(u, j)
      ensures u == c ==> z.Slot(u, j) == NULL_WORD
    {
      HangEdge(s, t, i, g, u, j);
    }
  }

  lemma HangEdge(s: Space, t: Tag, i: nat, g: Frame, u: Tag, j: nat)
    requires s.Struct() && s.Has(t, i) && t.depth > 0 && Child(t, i) !in s.at
    requires (forall v :: v in s.at ==> s.at[v] != g) && Hung(s, t, i, g).Has(u, j)
    ensures Hung(s, t, i, g).Edge(u, j) && (u == Child(t, i) ==> Hung(s, t, i, g).Slot(u, j) == NULL_WORD)
  {
    HungSlot(s, t, i, g, u, j);
    if u != Child(t, i) { assert s.Edge(u, j); }
  }

  lemma HangTable(s: Space, t: Tag, i: nat, g: Frame)
    requires s.Struct() && s.Has(t, i) && t.depth > 0
    requires !IsTable(s.Slot(t, i), t.depth) && !IsLeaf(s.Slot(t, i), t.depth)
    requires forall u :: u in s.at ==> s.at[u] != g
    ensures Child(t, i) !in s.at
    ensures Hung(s, t, i, g).Struct() && Hung(s, t, i, g).Bare(Child(t, i))
    ensures forall p :: Hung(s, t, i, g).Trans(p) == s.Trans(p)
  {
    var z := Hung(s, t, i, g);
    HangKeepsTree(s, t, i, g);
    HangSameSlots(s, t, i, g);
    forall p: nat
      ensures z.Trans(p) == s.Trans(p)
    {
      if Reg(p, t.depth) == SlotRegion(t, i) {
        assert TagOf(p, t.depth) == t && Index(p, t.depth) == i;
        TransOfSlot(s, p, t.depth);
        TagOfChild(p, t.depth);
        assert z.Has(TagOf(p, t.depth - 1), Index(p, t.depth - 1));
        TransOfSlot(z, p, t.depth - 1);
      } else {
        TransElsewhere(s, z, t, i, p);
      }
    }
  }

  lemma DroppedSlot(s: Space, c: Tag, w: Word, u: Tag, j: nat)
    requires s.Struct() && s.Has(Parent(c), c.region % ENTRIES)
    ensures var z := Dropped(s, c, w);
            && (s.Has(u, j) && u != c ==>
                  && z.Has(u, j)
                  && z.Slot(u, j) == if (u, j) == (Parent(c), c.region % ENTRIES) then w else s.Slot(u, j))
            && (z.Has(u, j) ==> s.Has(u, j) && u != c)
  {
    var z := Dropped(s, c, w);
    if u in s.at && j < ENTRIES {
      SlotsAfter(s, z, Parent(c), c.region % ENTRIES, w, s.mem, u, j);
    }
  }

  lemma DropSameSlots(s: Space, c: Tag, w: Word)
    requires s.Struct() && s.Has(Parent(c), c.region % ENTRIES)
    ensures SameSlotsBut(s, Dropped(s, c, w), Parent(c), c.region % ENTRIES)
  {
    var t, i := Parent(c), c.region % ENTRIES;
    var z := Dropped(s, c, w);
    forall u: Tag, j: nat | s.Has(u, j) && (u, j) != (t, i)
      ensures s.at[u] in z.mem && |z.mem[s.at[u]]| == ENTRIES && z.mem[s.at[u]][j] == s.Slot(u, j)
    {
      SlotsAfter(s, z, t, i, w, s.mem, u, j);
    }
  }

  /** No slot of the table points to another. */
  ghost predicate Childless(s: Space, c: Tag) {
    forall i: nat :: s.Has(c, i) ==> !IsTable(s.Slot(c, i), c.depth)
  }

  lemma DropKeepsTree(s: Space, c: Tag, w: Word)
    requires s.Struct() && c in s.at && c != s.Top() && Childless(s, c)
    requires s.Has(Parent(c), c.region % ENTRIES)
    requires !IsTable(w, c.depth + 1)
    ensures Dropped(s, c, w).Struct()
  {
    var t, i := Parent(c), c.region % ENTRIES;
    assert s.Linked(c) && Child(t, i) == c;
    var z := Dropped(s, c, w);
    forall u: Tag | u in z.at
      ensures z.at[u] in z.mem && |z.mem[z.at[u]]| == ENTRIES
    {
      DroppedSlot(s, c, w, u, 0);
    }
    forall u: Tag | u in z.at
      ensures z.Linked(u)
    {
      DropKeepsLink(s, c, w, u);
    }
    forall u: Tag, j: nat | z.Has(u, j)
      ensures z.Edge(u, j)
    {
      DropEdge(s, c, w, u, j);
    }
  }

  lemma DropEdge(s: Space, c: Tag, w: Word, u: Tag, j: nat)
    requires s.Struct() && c in s.at && c != s.Top() && s.Has(Parent(c), c.region % ENTRIES)
    requires !IsTable(w, c.depth + 1) && Dropped(s, c, w).Has(u, j)
    ensures Dropped(s, c, w).Edge(u, j)
  {
    DroppedSlot(s, c, w, u, j);
    assert s.Edge(u, j);
    if u.depth > 0 {
      assert Child(u, j) == c ==> u == Parent(c) && j == c.region % ENTRIES;
    }
  }

  lemma DropKeepsLink(s: Space, c: Tag, w: Word, u: Tag)
    requires s.Struct() && c in s.at && c != s.Top() && Childless(s, c)
    requires s.Has(Parent(c), c.region % ENTRIES)
    requires u in s.at && u != c
    ensures Dropped(s, c, w).Linked(u)
  {
    assert s.Linked(u) && s.Linked(c);
    if u.depth < s.top {
      if Parent(u) == c {
        assert IsTable(s.Slot(c, u.region % ENTRIES), c.depth);
        assert false;
      }
      DroppedSlot(s, c, w, Parent(u), u.region % ENTRIES);
    }
  }

  lemma DropTable(s: Space, c: Tag, w: Word)
    requires s.Struct() && c in s.at && c != s.Top() && s.Bare(c)
    requires s.Has(Parent(c), c.region % ENTRIES)
    requires !IsTable(w, c.depth + 1) && !IsLeaf(w, c.depth + 1)
    ensures Dropped(s, c, w).Struct()
    ensures forall p :: Dropped(s, c, w).Trans(p) == s.Trans(p)
  {
    var t, i := Parent(c), c.region % ENTRIES;
    assert s.Linked(c) && Child(t, i) == c;
    var z := Dropped(s, c, w);
    DropKeepsTree(s, c, w);
    DropSameSlots(s, c, w);
    DroppedSlot(s, c, w, t, i);
    forall p: nat
      ensures z.Trans(p) == s.Trans(p)
    {
      if Reg(p, t.depth) == SlotRegion(t, i) {
        assert TagOf(p, t.depth) == t && Index(p, t.depth) == i;
        TagOfChild(p, t.depth);
        assert s.Has(c, Index(p, c.depth));
        TransOfSlot(s, p, c.depth);
        TransOfSlot(z, p, t.depth);
      } else {
        TransElsewhere(s, z, t, i, p);
      }
    }
  }

  /** A frame that is no table can change without being noticed. */
  lemma OtherFrame(s: Space, g: Frame, words: seq<Word>)
    requires s.Struct() && forall u :: u in s.at ==> s.at[u] != g
    ensures s.With(s.mem[g := words], s.at).Struct()
    ensures forall p :: s.With(s.mem[g := words], s.at).Trans(p) == s.Trans(p)
  {
    var z := s.With(s.mem[g := words], s.at);
    forall u: Tag | u in z.at
      ensures z.Linked(u)
    {
      assert s.Linked(u);
    }
    forall u: Tag, j: nat | z.Has(u, j)
      ensures s.Has(u, j) && z.Slot(u, j) == s.Slot(u, j) && z.Edge(u, j)
    {
      assert s.Edge(u, j);
    }
    forall u: Tag, j: nat | s.Has(u, j)
      ensures s.at[u] in z.mem && |z.mem[s.at[u]]| == ENTRIES && z.mem[s.at[u]][j] == s.Slot(u, j)
    {
    }
    forall p: nat
      ensures z.Trans(p) == s.Trans(p)
    {
      var i := (Reg(p, s.top) + 1) % ENTRIES;
      assert Reg(p, s.top) != SlotRegion(s.Top(), i);
      TransElsewhere(s, z, s.Top(), i, p);
    }
  }
}
