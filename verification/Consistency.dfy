/** The state an address space keeps between two updates of its tables, and that each update keeps:
    the tables form a tree, every block has one owner, and no cached translation is stale. */
module Consistency {
  import opened Common
  import opened PageTableEntry
  import opened Geometry
  import opened PageTables
  import opened TableSteps
  import opened Ownership
  import opened Unmapping

  /** Translations cached by the processor, page by page. */
  type Tlb = map<nat, Mapping>

  ghost predicate Coherent(s: Space, tlb: Tlb) {
    forall p {:trigger p in tlb} {:trigger tlb[p]} :: p in tlb ==> s.Trans(p) == Some(tlb[p])
  }

  ghost predicate Good(s: Space, live: Live, tlb: Tlb) {
    s.Struct() && Own(s, live) && Coherent(s, tlb)
  }

  lemma GoodParts(s: Space, live: Live, tlb: Tlb)
    requires Good(s, live, tlb)
    ensures s.Struct() && Own(s, live) && Coherent(s, tlb)
  {
  }

  /** What may be cached once a word was written and `page` flushed, with the tables of z in place of
      those of s: the current translation, or one cached before of another page. */
  ghost predicate Refilled(s: Space, z: Space, tlb: Tlb, page: nat) {
    forall p {:trigger p in tlb} {:trigger tlb[p]} :: p in tlb ==>
      z.Trans(p) == Some(tlb[p]) || (p != page && s.Trans(p) == Some(tlb[p]))
  }

  /** The walk only looks at memory. */
  lemma RefilledAt(s: Space, z: Space, tlb: Tlb, page: nat, at: map<Tag, Frame>)
    requires Refilled(s, z, tlb, page)
    ensures Refilled(s, z.With(z.mem, at), tlb, page)
  {
    forall p
      ensures z.With(z.mem, at).Trans(p) == z.Trans(p)
    {
    }
  }

  lemma FreshFrame(s: Space, live: Live, g: Frame)
    requires Own(s, live) && Manages(s.ext, g, PAGE) && g !in live && s.Struct()
    ensures forall u :: u in s.at ==> s.at[u] != g
  {
    forall u | u in s.at
      ensures s.at[u] != g
    {
      assert u == s.Top() || s.at[u] != g || OwnedTable(s, u);
    }
  }

  /** A frame taken from the allocator and cleared, not yet in use. */
  lemma ClearFresh(s: Space, live: Live, tlb: Tlb, g: Frame)
    requires Good(s, live, tlb) && Manages(s.ext, g, PAGE) && g !in live
    ensures var z := s.With(s.mem[g := Zeros()], s.at);
            && Good(z, live[g := PAGE], tlb)
            && Owned(z) == Owned(s)
            && forall p :: z.Trans(p) == s.Trans(p)
    ensures forall u :: u in s.at ==> s.at[u] != g
  {
    FreshFrame(s, live, g);
    OtherFrame(s, g, Zeros());
    OwnElsewhere(s, live, g, Zeros());
  }

  /** Ownership does not look at frames that are no tables. */
  lemma OwnElsewhere(s: Space, live: Live, g: Frame, words: seq<Word>)
    requires s.Struct() && Own(s, live) && g !in live && forall u :: u in s.at ==> s.at[u] != g
    ensures var z := s.With(s.mem[g := words], s.at);
            Own(z, live[g := PAGE]) && Owned(z) == Owned(s)
  {
    var z := s.With(s.mem[g := words], s.at);
    forall u: Tag, j: nat
      ensures OwnedSlot(z, u, j) <==> OwnedSlot(s, u, j)
      ensures OwnedSlot(z, u, j) ==> z.Slot(u, j) == s.Slot(u, j)
    {
    }
    forall u
      ensures OwnedTable(z, u) <==> OwnedTable(s, u)
    {
    }
    assert LeafFrames(z) == LeafFrames(s);
    assert TableFrames(z) == TableFrames(s);
  }

  /** The sub-table at region m of t holds nothing and may be freed and dropped. */
  lemma DropReady(s: Space, live: Live, tlb: Tlb, t: Tag, m: nat)
    requires Good(s, live, tlb) && t in s.at && t.depth > 0 && m / ENTRIES == t.region
    requires Child(t, m % ENTRIES) in s.at && s.Bare(Child(t, m % ENTRIES))
    ensures var c, i := Child(t, m % ENTRIES), m % ENTRIES;
            && s.Has(t, i) && IsTable(s.Slot(t, i), t.depth) && !Locked(s.Slot(t, i), false)
            && Parent(c) == t && c.region % ENTRIES == i && c != s.Top()
            && (Manages(s.ext, s.at[c], PAGE) ==> s.at[c] in live && live[s.at[c]] == PAGE)
  {
    var c, i := Child(t, m % ENTRIES), m % ENTRIES;
    assert s.Linked(t) && s.Linked(c) && Parent(c) == t && c.region % ENTRIES == i;
    assert s.Has(t, i) && IsTable(s.Slot(t, i), t.depth);
    assert Manages(s.ext, s.at[c], PAGE) ==> OwnedTable(s, c);
  }

  /** Freeing the table and clearing the slot does it. */
  lemma DropFacts(s: Space, live: Live, tlb: Tlb, t: Tag, m: nat, mem: Memory, tlb': Tlb, page: nat)
    requires Good(s, live, tlb) && t in s.at && t.depth > 0 && m / ENTRIES == t.region
    requires Child(t, m % ENTRIES) in s.at && s.Bare(Child(t, m % ENTRIES))
    requires s.Has(t, m % ENTRIES) && mem == Store(s.mem, s.at[t], m % ENTRIES, NullAt(s, t.depth))
    requires Refilled(s, s.With(mem, s.at), tlb', page)
    ensures var c := Child(t, m % ENTRIES);
            var z, live' := s.With(mem, s.at - {c}), Freed(s, live, s.at[c], PAGE);
            && s.Has(Parent(c), c.region % ENTRIES)
            && z == Dropped(s, c, NullAt(s, t.depth))
            && Good(z, live', tlb') && Released(s, live, z, live')
  {
    var c := Child(t, m % ENTRIES);
    DropReady(s, live, tlb, t, m);
    NullMapsNothing(s, t.depth);
    OwnDrop(s, live, c, NullAt(s, t.depth));
    DropTable(s, c, NullAt(s, t.depth));
    var z := Dropped(s, c, NullAt(s, t.depth));
    assert Owned(s) - Owned(z) == if Manages(s.ext, s.at[c], PAGE) then {s.at[c]} else {};
    RefilledAt(s, s.With(mem, s.at), tlb', page, z.at);
    Recached(s, z, Freed(s, live, s.at[c], PAGE), tlb', page);
  }

  /** With no translation changed, whatever was cached is current. */
  lemma Recached(s: Space, z: Space, live: Live, tlb: Tlb, page: nat)
    requires z.Struct() && Own(z, live) && Refilled(s, z, tlb, page)
    requires forall p :: p != page ==> z.Trans(p) == s.Trans(p) || s.Trans(p).None?
    ensures Good(z, live, tlb)
  {
  }

  /** The last-level leaf at page m may be freed and cleared. */
  lemma ClearReady(s: Space, live: Live, tlb: Tlb, t: Tag, i: nat)
    requires Good(s, live, tlb) && s.Has(t, i) && IsLeaf(s.Slot(t, i), t.depth) && Freeable(s, t, i)
    ensures var a, size := LeafAddr(s.Slot(t, i)), RegionSize(t.depth);
            Manages(s.ext, a, size) ==> a in live && live[a] == size
  {
    assert OwnedSlot(s, t, i) || !Manages(s.ext, LeafAddr(s.Slot(t, i)), RegionSize(t.depth));
  }

  lemma ClearFacts(s: Space, live: Live, tlb: Tlb, t: Tag, m: nat, mem: Memory, tlb': Tlb)
    requires Good(s, live, tlb) && s.Has(t, m % ENTRIES) && t.depth == 0 && m / ENTRIES == t.region
    requires IsLeaf(s.Slot(t, m % ENTRIES), 0) && Freeable(s, t, m % ENTRIES)
    requires mem == Store(s.mem, s.at[t], m % ENTRIES, NullAt(s, 0))
    requires Refilled(s, s.With(mem, s.at), tlb', m)
    ensures var z, live' := s.With(mem, s.at), Freed(s, live, LeafAddr(s.Slot(t, m % ENTRIES)), PAGE);
            && z == Written(s, t, m % ENTRIES, NullAt(s, 0))
            && Good(z, live', tlb') && Released(s, live, z, live')
  {
    var i := m % ENTRIES;
    var w, a := NullAt(s, 0), LeafAddr(s.Slot(t, i));
    assert SlotRegion(t, i) == m;
    NullMapsNothing(s, 0);
    WriteLeaf(s, t, i, w);
    OwnClear(s, live, t, i, w);
    var z := Written(s, t, i, w);
    assert Owned(s) - Owned(z) == if Manages(s.ext, a, PAGE) then {a} else {};
    Recached(s, z, Freed(s, live, a, PAGE), tlb', m);
  }
}
