/** The 32-bit page table entry format and the conversion of mapping flags to and from it. */
module PageTableEntry {
  import opened Common

  // Interface flags, bit by bit.
  const PRESENT: bv7 := 1
  const READ: bv7 := 2
  const WRITE: bv7 := 4
  const EXECUTE: bv7 := 8
  const USER: bv7 := 16
  const UNCACHED: bv7 := 32
  const GLOBAL: bv7 := 64

  /** The flags a 32-bit entry can express; READ and EXECUTE have no bit of their own. */
  const ENCODABLE: bv7 := PRESENT | WRITE | USER | UNCACHED | GLOBAL

  // Hardware flags.
  const P: bv12 := 0x001
  const RW: bv12 := 0x002
  const US: bv12 := 0x004
  const PWT: bv12 := 0x008
  const PCD: bv12 := 0x010
  const PS: bv12 := 0x080
  const G: bv12 := 0x100

  /** Bits the processor sets on its own: accessed and dirty. They are not declared as flags. */
  const ACCESSED: bv12 := 0x020
  const DIRTY: bv12 := 0x040

  const DECLARED: bv12 := P | RW | US | PWT | PCD | PS | G

  function ToHardware(f: bv7): bv12 {
    (if f & PRESENT != 0 then P else 0)
    | (if f & WRITE != 0 then RW else 0)
    | (if f & USER != 0 then US else 0)
    | (if f & UNCACHED != 0 then PCD else 0)
    | (if f & GLOBAL != 0 then G else 0)
  }

  function FromHardware(h: bv12): bv7 {
    (if h & P != 0 then PRESENT else 0)
    | (if h & RW != 0 then WRITE else 0)
    | (if h & US != 0 then USER else 0)
    | (if h & PCD != 0 then UNCACHED else 0)
    | (if h & G != 0 then GLOBAL else 0)
  }

  const NULL_WORD := Word(0, 0)

  /** A page entry; `large` is every page size above 4 KiB. */
  function NewPage(addr: Word, large: bool, flags: bv12): Word {
    Word(addr.base, addr.low | flags | (if large then PS else 0))
  }

  function NewPageTable(addr: Word): Word { Word(addr.base, addr.low | P | RW) }

  function Flags(w: Word): bv12 { w.low & DECLARED }

  /** Only the low eight bits are cleared. */
  function Address(w: Word): Word { Word(w.base, w.low & 0xf00) }

  /** Decoded entry of a table. A level is known by the address of its table. */
  datatype Entry = Level(table: Word) | Page(addr: Word, flags: bv7) {
    predicate Mapped() {
      Level? || flags & PRESENT != 0 || addr != Word(0, 0)
    }
  }

  const NULL: Entry := Page(Word(0, 0), 0)

  /** What a level reads from a word; `leaf` says that the level is the last one. */
  function Decode(w: Word, leaf: bool): Entry {
    if Flags(w) & P != 0 && !leaf && Flags(w) & PS == 0
    then Level(Address(w))
    else Page(Address(w), FromHardware(Flags(w)))
  }

  /** What a level stores for an entry. With `sticky` the NULL entry of an inner level is encoded
      as written (a large page at address 0, PS bit included); without it NULL clears the word. */
  function Encode(e: Entry, leaf: bool, sticky: bool): Word {
    match e
    case Level(table) => NewPageTable(table)
    case Page(addr, flags) =>
      if !sticky && e == NULL then NULL_WORD else NewPage(addr, !leaf, ToHardware(flags))
  }

  /** The test by which a level refuses to overwrite a slot. */
  predicate Locked(w: Word, leaf: bool) { !leaf && Flags(w) & PS != 0 }

  /** Back and forth keeps what an entry can express; bit by bit, the flags numbered 0, 2, 4, 5 and 6 become the
      bits 0, 1, 2, 4 and 8. */
  lemma FlagsRoundTrip(f: bv7, h: bv12)
    ensures FromHardware(ToHardware(f)) == f & ENCODABLE
    ensures ToHardware(f) & DECLARED == ToHardware(f)
    ensures ToHardware(FromHardware(h)) == h & (P | RW | US | PCD | G)
    ensures ToHardware(f) == (if f & 1 != 0 then 0x001 else 0) + (if f & 4 != 0 then 0x002 else 0)
                             + (if f & 16 != 0 then 0x004 else 0) + (if f & 32 != 0 then 0x010 else 0)
                             + (if f & 64 != 0 then 0x100 else 0)
  {
  }

  /** Reading back a stored entry: exact for tables at aligned frames, and for pages up to the flags
      that cannot be encoded, except that GLOBAL shows up in the address. */
  lemma DecodeEncode(e: Entry, leaf: bool, sticky: bool)
    requires e.Level? ==> !leaf && e.table.low == 0
    requires e.Page? ==> e.addr.low == 0
    ensures e.Level? ==> Decode(Encode(e, leaf, sticky), leaf) == e
    ensures e.Page? ==>
      Decode(Encode(e, leaf, sticky), leaf)
      == Page(Word(e.addr.base, if e.flags & GLOBAL != 0 then 0x100 else 0), e.flags & ENCODABLE)
    ensures Locked(Encode(e, leaf, sticky), leaf) <==> e.Page? && !leaf && (sticky || e != NULL)
  {
    if e.Page? {
      FlagsRoundTrip(e.flags, 0);
      var h := ToHardware(e.flags);
      assert h & PS == 0 && h & 0xf00 == (if e.flags & GLOBAL != 0 then 0x100 else 0);
    }
  }

  /** The address handed back for a page is off by exactly the G bit. */
  lemma GlobalShiftsAddress(frame: Frame, leaf: bool, flags: bv7)
    ensures Value(Address(NewPage(Word(frame, 0), !leaf, ToHardware(flags))))
         == frame + (if flags & GLOBAL != 0 then 0x100 else 0)
  {
    var h := ToHardware(flags);
    assert (h | (if !leaf then PS else 0)) & 0xf00 == (if flags & GLOBAL != 0 then 0x100 else 0);
  }

  /** The bits the processor sets on its own do not change what an entry means. */
  lemma AccessedIsIgnored(w: Word, leaf: bool)
    ensures var v := Word(w.base, w.low | ACCESSED | DIRTY);
            Decode(v, leaf) == Decode(w, leaf) && Locked(v, leaf) == Locked(w, leaf)
  {
    assert (w.low | ACCESSED | DIRTY) & DECLARED == w.low & DECLARED;
    assert (w.low | ACCESSED | DIRTY) & 0xf00 == w.low & 0xf00;
  }
}
