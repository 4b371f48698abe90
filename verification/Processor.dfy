/** What the processor makes of page table entries, told by bit numbers alone: 32-bit paging with 4 MiB pages,
    section 4.3 of volume 3 of the Intel 64 and IA-32 Architectures Software Developer's Manual. */
module Processor {
  import opened Common
  import opened PageTableEntry
  import opened Geometry
  import opened PageTables

  /** Bit k of the low part of an entry. */
  predicate Bit(low: bv12, k: nat)
    requires k < 12
  {
    (low >> k) & 1 == 1
  }

  /** Bit k of a set of interface flags. */
  predicate FlagBit(flags: bv7, k: nat)
    requires k < 7
  {
    (flags >> k) & 1 == 1
  }

  predicate Present(w: Word) { Bit(w.low, 0) }
  predicate Writable(w: Word) { Bit(w.low, 1) }
  predicate User(w: Word) { Bit(w.low, 2) }
  predicate Uncached(w: Word) { Bit(w.low, 4) }
  predicate Large(w: Word) { Bit(w.low, 7) }
  predicate Global(w: Word) { Bit(w.low, 8) }

  /** A translation as the processor uses and caches it. */
  datatype Access = Access(frame: Frame, depth: nat, writable: bool, user: bool, uncached: bool, global: bool)

  /** What an entry that maps a page says. */
  function PageAccess(w: Word, depth: nat): Access {
    Access(w.base, depth, Writable(w), User(w), Uncached(w), Global(w))
  }

  /** Rights hold only if every entry on the path grants them. */
  function Through(w: Word, a: Access): Access {
    a.(writable := a.writable && Writable(w), user := a.user && User(w))
  }

  /** The walk. Every page above the last level is a large one. */
  function Reach(mem: Memory, f: Frame, d: nat, p: nat): Option<Access>
    decreases d
  {
    if f !in mem || |mem[f]| != ENTRIES then None else
    var w := mem[f][Index(p, d)];
    if !Present(w) then None
    else if d == 0 || Large(w) then Some(PageAccess(w, d))
    else
      match Reach(mem, w.base, d - 1, p)
      case None => None
      case Some(a) => Some(Through(w, a))
  }

  /** A stored entry sets bits 0, 1, 2, 4 and 8 for the interface flags 0, 2, 4, 5 and 6, and 7 for a large
      page; no others. */
  lemma StoredBits(addr: Word, large: bool, flags: bv7)
    requires addr.low == 0
    ensures var w := NewPage(addr, large, ToHardware(flags));
            && w.base == addr.base
            && Present(w) == FlagBit(flags, 0) && Writable(w) == FlagBit(flags, 2) && User(w) == FlagBit(flags, 4)
            && Uncached(w) == FlagBit(flags, 5) && Global(w) == FlagBit(flags, 6) && Large(w) == large
            && !Bit(w.low, 3) && !Bit(w.low, 5) && !Bit(w.low, 6)
            && !Bit(w.low, 9) && !Bit(w.low, 10) && !Bit(w.low, 11)
  {
  }

  /** A stored table entry is present, writable, not for users, and no large page. */
  lemma TableBits(addr: Word)
    requires addr.low == 0
    ensures var w := NewPageTable(addr);
            && w.base == addr.base && Present(w) && Writable(w) && !User(w) && !Large(w)
            && !Uncached(w) && !Global(w)
  {
  }

  /** What is read back from an entry, by its bits. */
  lemma ReadBits(w: Word, leaf: bool)
    ensures Decode(w, leaf).Level? <==> Present(w) && !leaf && !Large(w)
    ensures Decode(w, leaf).Page? ==>
      var flags := Decode(w, leaf).flags;
      && FlagBit(flags, 0) == Present(w) && FlagBit(flags, 2) == Writable(w) && FlagBit(flags, 4) == User(w)
      && FlagBit(flags, 5) == Uncached(w) && FlagBit(flags, 6) == Global(w)
      && !FlagBit(flags, 1) && !FlagBit(flags, 3)
    ensures Locked(w, leaf) <==> !leaf && Large(w)
    ensures Decode(w, leaf).Mapped() <==>
      Present(w) || w.base != 0 || Bit(w.low, 8) || Bit(w.low, 9) || Bit(w.low, 10) || Bit(w.low, 11)
  {
  }

  lemma OpenBits(w: Word)
    ensures OpenToKernel(w) <==> Writable(w) && !User(w)
  {
  }

  /** The access that the walk of the model grants at depth d. */
  function Granted(m: Mapping, top: nat): Access {
    Access(m.frame, m.depth, FlagBit(m.flags, 2), FlagBit(m.flags, 4) && m.depth == top, FlagBit(m.flags, 5),
           FlagBit(m.flags, 6))
  }

  /** The processor's walk below a table in use finds the page that the tables' walk finds, with the rights of
      the whole path: it may be written if the page's own flags say so, but users get in only through an entry
      of the first table, as no entry for a table lets them. */
  lemma {:induction false} ReachBelow(s: Space, p: nat, d: nat)
    requires s.Struct() && TagOf(p, d) in s.at
    ensures var m := Walk(s.mem, s.at[TagOf(p, d)], d, p);
            Reach(s.mem, s.at[TagOf(p, d)], d, p) == if m.Some? then Some(Granted(m.value, d)) else None
    decreases d
  {
    var t, i := TagOf(p, d), Index(p, d);
    assert s.Linked(t) && s.Has(t, i) && s.Edge(t, i);
    var w := s.Slot(t, i);
    ReadBits(w, d == 0);
    if IsTable(w, d) {
      OpenBits(w);
      TagOfChild(p, d);
      ReachBelow(s, p, d - 1);
      if Walk(s.mem, w.base, d - 1, p).Some? { WalkLands(s, p, d - 1); }
    }
  }

  /** What the processor reaches at a page, for every page of the address space. */
  lemma ReachIsTrans(s: Space, p: nat)
    requires s.Struct() && p < s.Limit()
    ensures var m := s.Trans(p);
            Reach(s.mem, s.root, s.top, p) == if m.Some? then Some(Granted(m.value, s.top)) else None
  {
    PageTag(s, p);
    ReachBelow(s, p, s.top);
  }
}
