/** The window through which page tables are reached: one virtual page whose entry is redirected to
    the wanted frame, under a lock. */
module TmpPage {
  import opened Common
  import opened PageTableEntry
  import opened PageTables
  import opened Processor

  /** What the processor reads in the window's entry, if it is present. */
  function Translation(w: Word): Option<Access> { if Present(w) then Some(PageAccess(w, 0)) else None }

  /** The word once the processor has set bits in it. */
  function WithBits(w: Word, bits: bv12): Word { Word(w.base, w.low | bits) }

  /** The bits the processor sets, 5 and 6, are none of those it translates by. */
  lemma OwnBits(w: Word, bits: bv12)
    requires bits == 0x020 || bits == 0x040
    ensures Translation(WithBits(w, bits)) == Translation(w) && SameButAccessed(w, WithBits(w, bits))
  {
  }

  lemma SameTwice(u: Word, v: Word, w: Word)
    requires SameButAccessed(u, v) && SameButAccessed(v, w)
    ensures SameButAccessed(u, w)
  {
  }

  lemma SameSelf(w: Word)
    ensures SameButAccessed(w, w)
  {
  }

  /** The entry that the window stores lets the kernel read and write the frame, and no one else in. */
  lemma WindowEntry(addr: Word)
    requires addr.low == 0
    ensures Translation(NewPage(addr, false, P | RW)) == Some(Access(addr.base, 0, true, false, false, false))
  {
  }

  class Window {
    var entry: Word
    /** What the processor has cached for the window address. */
    var cached: Option<Access>
    var locked: bool

    /** Whatever is cached is what the entry says. */
    ghost predicate Valid()
      reads this
    {
      cached.Some? ==> cached == Translation(entry)
    }

    /** Whatever the processor does, the window can be read and written, and is this frame. */
    ghost predicate Shows(frame: Frame)
      reads this
    {
      Valid() && Translation(entry) == Some(Access(frame, 0, true, false, false, false))
    }

    constructor ()
      ensures Valid() && !locked && entry == NULL_WORD
    {
      entry, cached, locked := NULL_WORD, None, false;
    }

    /** The processor may evict the translation, walk to the entry again, and then set the accessed
        and dirty bits in it. It may do so while something outdated is cached. */
    method Hardware()
      modifies `entry, `cached
      ensures SameButAccessed(old(entry), entry) && Translation(entry) == Translation(old(entry))
      ensures cached == old(cached) || cached == None || cached == Translation(entry)
      ensures forall f: Frame :: old(Shows(f)) ==> Shows(f)
    {
      hide SameButAccessed;
      hide Translation;
      hide WithBits;
      SameSelf(entry);
      if * {
        cached := None;
      }
      if * {
        if Translation(entry).Some? && cached.None? {
          OwnBits(entry, 0x020);
          entry := WithBits(entry, 0x020);
          cached := Translation(entry);
        }
      }
      if * {
        OwnBits(entry, 0x040);
        SameTwice(old(entry), entry, WithBits(entry, 0x040));
        entry := WithBits(entry, 0x040);
      }
    }

    /** The frame that an access to the window reaches, by the cached translation if there is one. There is
        none, but a page fault, if the entry is not present, or does not allow the write. */
    method Reaches(write: bool) returns (frame: Option<Frame>)
      ensures var a := if cached.Some? then cached else Translation(entry);
              frame == if a.Some? && (write ==> a.value.writable) then Some(a.value.frame) else None
      ensures forall f: Frame :: Shows(f) ==> frame == Some(f)
    {
      var a := if cached.Some? then cached else Translation(entry);
      frame := if a.Some? && (write ==> a.value.writable) then Some(a.value.frame) else None;
    }

    /** Takes the lock and points the window at a frame. The translation is flushed only if the entry
        changes; accesses reach the frame asked for all the same. */
    method Map(addr: Word)
      requires Valid() && !locked && addr.low == 0
      modifies this
      ensures locked && Shows(addr.base)
      ensures SameButAccessed(NewPage(addr, false, P | RW), entry)
    {
      hide SameButAccessed;
      hide Translation;
      locked := true;
      var wanted := NewPage(addr, false, P | RW);
      WindowEntry(addr);
      SameSelf(wanted);
      Hardware();
      if entry != wanted {
        entry := wanted;
        Hardware();
        SameTwice(wanted, wanted, entry);
        cached := None;
      }
      ghost var was := entry;
      Hardware();
      SameTwice(wanted, was, entry);
    }

    method Unlock()
      requires Valid() && locked
      modifies `locked
      ensures Valid() && !locked
    {
      locked := false;
    }
  }
}
