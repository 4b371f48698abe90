/** Page tables in physical memory, the hardware's walk over them, and the invariant that makes them
    a tree. */
module PageTables {
  import opened Common
  import opened PageTableEntry
  import opened Geometry

  /** Contents of the frames of physical memory, as 1024 words each. */
  type Memory = map<Frame, seq<Word>>

  /** What a virtual page translates to: the depth of the leaf, the frame it names and its flags. */
  datatype Mapping = Mapping(depth: nat, frame: Frame, flags: bv7)

  predicate IsTable(w: Word, d: nat) { Decode(w, d == 0).Level? }

  predicate IsLeaf(w: Word, d: nat) {
    var e := Decode(w, d == 0);
    e.Page? && e.flags & PRESENT != 0
  }

  predicate OpenToKernel(w: Word) { w.low & (RW | US) == RW }

  function LeafOf(w: Word, d: nat): Option<Mapping> {
    if IsLeaf(w, d) then Some(Mapping(d, w.base, Decode(w, d == 0).flags)) else None
  }

  /** The processor's walk for page p from the depth-d table at frame f. */
  function Walk(mem: Memory, f: Frame, d: nat, p: nat): Option<Mapping>
    decreases d
  {
    if f !in mem || |mem[f]| != ENTRIES then None else
    var w := mem[f][Index(p, d)];
    if IsTable(w, d) && d > 0 then Walk(mem, w.base, d - 1, p) else LeafOf(w, d)
  }

  /** Position of a table: its depth and the region of the next depth that it manages. */
  datatype Tag = Tag(depth: nat, region: nat)

  function TagOf(p: nat, d: nat): Tag { Tag(d, Reg(p, d + 1)) }

  function Child(t: Tag, i: nat): Tag
    requires t.depth > 0
  {
    Tag(t.depth - 1, ENTRIES * t.region + i)
  }

  function Parent(t: Tag): Tag { Tag(t.depth + 1, t.region / ENTRIES) }

  /** The depth-t.depth region managed by slot i of the table at t. */
  function SlotRegion(t: Tag, i: nat): nat { ENTRIES * t.region + i }

  /** A zone of the frame allocator: `size` bytes from `start`. */
  datatype Extent = Extent(start: nat, size: nat)

  /** Some zone passes the allocator's test for the block of `size` bytes at address a. The ends are
      machine sums: a block that ends at the end of the address space seems to lie in every zone below. */
  predicate Manages(ext: seq<Extent>, a: nat, size: nat) {
    exists k :: 0 <= k < |ext| && ext[k].start <= a && Sum32(a, size) <= Sum32(ext[k].start, ext[k].size)
  }

  /** An address space: memory, the positions of the tables in use, and the fixed data. `low` is the
      first page outside the identity mapping left over from boot; `sticky` says whether NULL of an
      inner level is stored with the PS bit, as the code does; `ext` lists the zones of the frame
      allocator. */
  datatype Space = Space(mem: Memory, at: map<Tag, Frame>, root: Frame, top: nat, low: nat, sticky: bool, ext: seq<Extent>) {
    function With(mem: Memory, at: map<Tag, Frame>): Space {
      Space(mem, at, root, top, low, sticky, ext)
    }

    ghost predicate Has(t: Tag, i: nat) {
      t in at && at[t] in mem && |mem[at[t]]| == ENTRIES && i < ENTRIES
    }

    ghost function Slot(t: Tag, i: nat): Word
      requires Has(t, i)
    {
      mem[at[t]][i]
    }

    ghost function Top(): Tag { Tag(top, 0) }

    /** One past the last page of the address space. */
    ghost function Limit(): nat { First(1, top + 1) }

    /** The table at t is where it should be and its parent points to it. */
    ghost predicate Linked(t: Tag)
      requires t in at
    {
      && t.depth <= top
      && (t.depth == top ==> t == Top())
      && (t.depth < top ==>
            Has(Parent(t), t.region % ENTRIES) && IsTable(Slot(Parent(t), t.region % ENTRIES), t.depth + 1))
    }

    /** Slot i of the table at t, if it points to a table, points to the child's, and lets the kernel write
        below, but no user in. */
    ghost predicate Edge(t: Tag, i: nat)
      requires Has(t, i)
    {
      IsTable(Slot(t, i), t.depth) ==>
        && t.depth > 0
        && Decode(Slot(t, i), false) == Level(Word(Slot(t, i).base, 0))
        && OpenToKernel(Slot(t, i))
        && Child(t, i) in at
        && at[Child(t, i)] == Slot(t, i).base
    }

    /** The tables form a tree: every table but the top one hangs from exactly one slot, one level
        below its parent, and no frame serves twice. */
    ghost predicate Struct() {
      && Top() in at && at[Top()] == root
      && (forall t :: t in at ==> at[t] in mem && |mem[at[t]]| == ENTRIES)
      && (forall t: Tag {:trigger Linked(t)} :: t in at ==> Linked(t))
      && (forall t: Tag, i: nat {:trigger Slot(t, i)} :: Has(t, i) ==> Edge(t, i))
      && (forall t, u {:trigger at[t], at[u]} :: t in at && u in at && at[t] == at[u] ==> t == u)
    }

    /** Translation of page p. */
    ghost function Trans(p: nat): Option<Mapping> {
      if p < Limit() then Walk(mem, root, top, p) else None
    }

    /** The slot neither points to a table nor maps a page. */
    ghost predicate Vacant(t: Tag, i: nat) {
      Has(t, i) && !IsTable(Slot(t, i), t.depth) && !IsLeaf(Slot(t, i), t.depth)
    }

    /** No slot points to a table or maps a page. */
    ghost predicate Bare(t: Tag) {
      forall i: nat :: Has(t, i) ==> !IsTable(Slot(t, i), t.depth) && !IsLeaf(Slot(t, i), t.depth)
    }
  }

  lemma PageTag(s: Space, p: nat)
    ensures p < s.Limit() <==> TagOf(p, s.top) == s.Top()
  {
    InRegion(0, p, s.top + 1);
    FirstPositive(0, s.top + 1);
  }

  lemma TagOfChild(p: nat, d: nat)
    requires d > 0
    ensures Child(TagOf(p, d), Index(p, d)) == TagOf(p, d - 1)
    ensures SlotRegion(TagOf(p, d), Index(p, d)) == Reg(p, d)
  {
  }

  lemma TagOfParent(p: nat, d: nat)
    ensures Parent(TagOf(p, d)) == TagOf(p, d + 1)
    ensures TagOf(p, d).region % ENTRIES == Index(p, d + 1)
  {
  }

  /** The walk for a page goes through every table whose region holds the page. */
  lemma {:induction false} WalkThrough(s: Space, p: nat, d: nat)
    requires s.Struct() && TagOf(p, d) in s.at
    ensures d <= s.top && p < s.Limit()
    ensures s.Trans(p) == Walk(s.mem, s.at[TagOf(p, d)], d, p)
    decreases if d < s.top then s.top - d else 0
  {
    var t := TagOf(p, d);
    assert s.Linked(t);
    if d < s.top {
      TagOfParent(p, d);
      TagOfChild(p, d + 1);
      WalkThrough(s, p, d + 1);
      assert s.Edge(TagOf(p, d + 1), Index(p, d + 1));
    } else {
      PageTag(s, p);
    }
  }

  /** A walk below a table ends at a leaf slot of a table that is in use. */
  lemma {:induction false} WalkLands(s: Space, p: nat, d: nat)
    requires s.Struct() && TagOf(p, d) in s.at
    requires Walk(s.mem, s.at[TagOf(p, d)], d, p).Some?
    ensures var mp := Walk(s.mem, s.at[TagOf(p, d)], d, p).value;
            && mp.depth <= d
            && s.Has(TagOf(p, mp.depth), Index(p, mp.depth))
            && LeafOf(s.Slot(TagOf(p, mp.depth), Index(p, mp.depth)), mp.depth) == Some(mp)
    decreases d
  {
    var t, i := TagOf(p, d), Index(p, d);
    assert s.Has(t, i);
    assert s.Edge(t, i);
    if IsTable(s.Slot(t, i), d) {
      TagOfChild(p, d);
      WalkLands(s, p, d - 1);
    }
  }

  /** Translation read off the slots: a page is mapped exactly where a slot above it is a leaf. */
  lemma TransLands(s: Space, p: nat)
    requires s.Struct() && s.Trans(p).Some?
    ensures var mp := s.Trans(p).value;
            && mp.depth <= s.top
            && s.Has(TagOf(p, mp.depth), Index(p, mp.depth))
            && LeafOf(s.Slot(TagOf(p, mp.depth), Index(p, mp.depth)), mp.depth) == Some(mp)
  {
    PageTag(s, p);
    WalkLands(s, p, s.top);
  }

  lemma TransOfSlot(s: Space, p: nat, d: nat)
    requires s.Struct() && TagOf(p, d) in s.at && !IsTable(s.Slot(TagOf(p, d), Index(p, d)), d)
    ensures s.Trans(p) == LeafOf(s.Slot(TagOf(p, d), Index(p, d)), d)
  {
    WalkThrough(s, p, d);
  }

  /** The page at the start of a leaf slot. */
  lemma SlotPage(s: Space, t: Tag, i: nat) returns (p: nat)
    requires s.Struct() && s.Has(t, i) && IsLeaf(s.Slot(t, i), t.depth)
    ensures TagOf(p, t.depth) == t && Index(p, t.depth) == i && p == First(SlotRegion(t, i), t.depth)
    ensures s.Trans(p) == LeafOf(s.Slot(t, i), t.depth)
  {
    p := First(SlotRegion(t, i), t.depth);
    RegOfFirst(SlotRegion(t, i), t.depth);
    TransOfSlot(s, p, t.depth);
  }

  /** Tables above a table in use are in use. */
  lemma {:induction false} TagsAbove(s: Space, p: nat, d: nat, e: nat)
    requires s.Struct() && TagOf(p, d) in s.at && d <= e <= s.top
    ensures TagOf(p, e) in s.at
    decreases e - d
  {
    if d < e {
      assert s.Linked(TagOf(p, d));
      TagOfParent(p, d);
      TagsAbove(s, p, d + 1, e);
    }
  }

  /** Memory with one word of a frame replaced. */
  function Store(mem: Memory, f: Frame, i: nat, w: Word): Memory
    requires f in mem && i < |mem[f]|
  {
    mem[f := mem[f][i := w]]
  }

  /** The two address spaces agree on every slot of the first but slot i of the table at t. */
  ghost predicate SameSlotsBut(s: Space, z: Space, t: Tag, i: nat) {
    && z.root == s.root && z.top == s.top
    && forall u: Tag, j: nat {:trigger s.Slot(u, j)} :: s.Has(u, j) && (u, j) != (t, i) ==>
         s.at[u] in z.mem && |z.mem[s.at[u]]| == ENTRIES && z.mem[s.at[u]][j] == s.Slot(u, j)
  }

  /** A walk that misses the changed slot is unchanged. */
  lemma {:induction false} WalkElsewhere(s: Space, z: Space, t: Tag, i: nat, p: nat, d: nat)
    requires s.Struct() && SameSlotsBut(s, z, t, i) && t in s.at && i < ENTRIES
    requires TagOf(p, d) in s.at
    requires d < t.depth || Reg(p, t.depth) != SlotRegion(t, i)
    ensures Walk(z.mem, s.at[TagOf(p, d)], d, p) == Walk(s.mem, s.at[TagOf(p, d)], d, p)
    decreases d
  {
    var u, j := TagOf(p, d), Index(p, d);
    assert s.Has(u, j);
    assert s.Slot(u, j) == s.mem[s.at[u]][j];
    assert s.Edge(u, j);
    if IsTable(s.Slot(u, j), d) {
      TagOfChild(p, d);
      WalkElsewhere(s, z, t, i, p, d - 1);
    }
  }

  lemma TransElsewhere(s: Space, z: Space, t: Tag, i: nat, p: nat)
    requires s.Struct() && SameSlotsBut(s, z, t, i) && t in s.at && i < ENTRIES
    requires Reg(p, t.depth) != SlotRegion(t, i)
    ensures z.Trans(p) == s.Trans(p)
  {
    PageTag(s, p);
    if p < s.Limit() {
      WalkElsewhere(s, z, t, i, p, s.top);
    }
  }

  /** The words agree but for the bits the processor sets on its own. */
  predicate SameButAccessed(v: Word, w: Word) {
    v.base == w.base && v.low | ACCESSED | DIRTY == w.low | ACCESSED | DIRTY
  }

  /** The walk does not see accessed and dirty bits. */
  lemma {:induction false} WalkIgnoresAccessed(mem: Memory, other: Memory, f: Frame, d: nat, p: nat)
    requires other.Keys == mem.Keys && forall g :: g in mem ==> |other[g]| == |mem[g]|
    requires forall g, i :: g in mem && 0 <= i < |mem[g]| ==> SameButAccessed(mem[g][i], other[g][i])
    ensures Walk(other, f, d, p) == Walk(mem, f, d, p)
    decreases d
  {
    if f in mem && |mem[f]| == ENTRIES {
      var w, v := mem[f][Index(p, d)], other[f][Index(p, d)];
      assert SameButAccessed(w, v);
      AccessedIsIgnored(w, d == 0);
      AccessedIsIgnored(v, d == 0);
      if d > 0 { WalkIgnoresAccessed(mem, other, w.base, d - 1, p); }
    }
  }
}
