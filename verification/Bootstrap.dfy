/** The page tables the 32-bit boot code builds before it turns paging on. */
module Bootstrap {
  import opened Common
  import opened PageTableEntry
  import opened Geometry
  import opened PageTables

  const KERNEL_OFFSET: nat := 0xC000_0000
  const LARGE: nat := 0x40_0000
  const LOW_MEGABYTE: nat := 0x10_0000

  /** The symbols of the kernel image; all but `tables` are virtual addresses, `tables` is the physical
      address of the four page tables. */
  datatype Layout = Layout(tables: Frame, bootstrapEnd: nat, kernelStart: nat, dataStart: nat, kernelEnd: nat) {
    /** The page after the kernel, where the window to the page tables goes. */
    function TmpPage(): nat { AlignUp(kernelEnd, PAGE) }

    function ReservedEnd(): nat { TmpPage() + PAGE }

    /** What the linker script lays out: sections in order and page-aligned, above the boot code; the
        tables are part of the data. */
    ghost predicate Linked() {
      && KERNEL_OFFSET + LOW_MEGABYTE <= kernelStart < dataStart < kernelEnd
      && kernelStart % PAGE == 0 && dataStart % PAGE == 0
      && dataStart <= KERNEL_OFFSET + tables && KERNEL_OFFSET + tables + 4 * PAGE <= kernelEnd
      && ReservedEnd() < 0x1_0000_0000
    }
  }

  function Virt2Phys(v: nat): nat
    requires v >= KERNEL_OFFSET
  {
    v - KERNEL_OFFSET
  }

  datatype BootResult = BootstrapTooBig | KernelTooBig | Built(tmpEntry: nat)

  // The order of the tables in memory: 1024 words each.
  const IDENTITY: nat := 1024
  const HIGHER: nat := 2048
  const WORDS: nat := 4096

  function PageAt(start: Frame, j: nat, flags: bv12): Word
    requires start + PAGE * j < TWO32
  {
    Word(start + PAGE * j, flags)
  }

  /** Pages that `mmap` maps: it tests only after the first. */
  function PageCount(start: nat, end: nat): nat {
    if end <= start then 1 else (end - start + PAGE - 1) / PAGE
  }

  /** `mmap`: maps the pages from `esi` up to `eax` by consecutive entries from address `edi` on, which
      is that of word `first`. The tables at physical address `tables` are in `words`. */
  method Mmap(words: array<Word>, tables: Frame, start: Frame, end: nat, entry: nat, flags: bv12, ghost first: nat)
    returns (esi: Frame, edi: nat)
    requires entry == tables + 4 * first && first + PageCount(start, end) <= words.Length
    requires start + PAGE * PageCount(start, end) < TWO32
    modifies words
    ensures esi == start + PAGE * PageCount(start, end) && edi == entry + 4 * PageCount(start, end)
    ensures forall k :: 0 <= k < words.Length ==>
              words[k] == if first <= k < first + PageCount(start, end) then PageAt(start, k - first, flags)
                          else old(words[k])
  {
    ghost var n := 0;
    esi, edi := start, entry;
    while true
      invariant esi == start + PAGE * n && edi == entry + 4 * n && n < PageCount(start, end)
      invariant forall k :: 0 <= k < words.Length ==>
                  words[k] == if first <= k < first + n then PageAt(start, k - first, flags) else old(words[k])
      decreases PageCount(start, end) - n
    {
      words[(edi - tables) / 4] := Word(esi, flags);
      edi := edi + 4;
      esi := esi + PAGE;
      n := n + 1;
      if !(esi < end) { break; }
    }
  }

  /** The word at position k of the four tables once they are built. */
  function BootWord(l: Layout, k: nat): Word
    requires l.Linked()
  {
    if k < IDENTITY then TopWord(l, k)
    else if k < HIGHER then Word(PAGE * (k - IDENTITY), if k - IDENTITY < 256 then P | RW else P)
    else if k < WORDS then KernelWord(l, PAGE * (k - HIGHER))
    else NULL_WORD
  }

  function TopWord(l: Layout, k: nat): Word
    requires l.Linked()
  {
    if k == 0 then Word(l.tables + PAGE, P | RW)
    else if k == 1 then Word(LARGE, P | RW | PS)
    else if k == 768 then Word(l.tables + 2 * PAGE, P | RW)
    else if k == 769 then Word(l.tables + 3 * PAGE, P | RW)
    else NULL_WORD
  }

  /** The entry for the physical page at `a` in the higher half: read-only up to the data, then
      writable, to the end of the kernel. */
  function KernelWord(l: Layout, a: Frame): Word
    requires l.Linked()
  {
    if Virt2Phys(l.kernelStart) <= a < Virt2Phys(l.dataStart) then Word(a, P | G)
    else if Virt2Phys(l.dataStart) <= a < Virt2Phys(l.kernelEnd) then Word(a, P | RW | G)
    else NULL_WORD
  }

  /** Address of the entry of a kernel page in the higher-half tables at address `at`: `shr $10` of the
      offset from the kernel's base. */
  function EntryOf(at: nat, v: nat): nat
    requires v >= KERNEL_OFFSET
  {
    at + Virt2Phys(v) / 1024
  }

  ghost predicate Zero(words: seq<Word>, from: nat) {
    forall k :: from <= k < |words| ==> words[k] == NULL_WORD
  }

  /** The first |built| words of the tables are as they will be. */
  ghost predicate BuiltTo(l: Layout, words: seq<Word>, k: nat)
    requires l.Linked()
  {
    k <= |words| && forall j :: 0 <= j < k ==> words[j] == BootWord(l, j)
  }

  /** The top-level table. The loop over the lower large pages runs once: it goes on only while the
      address is above its bound. */
  method TopTable(words: array<Word>, l: Layout)
    requires l.Linked() && words.Length == WORDS && Zero(words[..], 0)
    modifies words
    ensures BuiltTo(l, words[..], IDENTITY) && Zero(words[..], IDENTITY)
  {
    words[0] := Word(l.tables + PAGE, P | RW);
    var esi: Frame, edi := LARGE, l.tables + 4;
    var again := true;
    while again
      invariant again ==> esi == LARGE && edi == l.tables + 4
      invariant forall k :: 2 <= k < WORDS ==> words[k] == NULL_WORD
      invariant words[0] == TopWord(l, 0) && (!again ==> words[1] == TopWord(l, 1))
      decreases again
    {
      words[(edi - l.tables) / 4] := Word(esi, P | RW | PS);
      esi := esi + LARGE;
      edi := edi + 4;
      again := esi > 2 * LARGE;
    }
    words[KERNEL_OFFSET / LARGE] := Word(l.tables + 2 * PAGE, P | RW);
    words[KERNEL_OFFSET / LARGE + 1] := Word(l.tables + 3 * PAGE, P | RW);
  }

  /** `_start`, up to turning paging on. The tables are zero at first. */
  method BuildTables(words: array<Word>, l: Layout) returns (r: BootResult)
    requires l.Linked() && words.Length == WORDS && Zero(words[..], 0)
    modifies words
    ensures r.BootstrapTooBig? <==> l.bootstrapEnd > LARGE
    ensures r.KernelTooBig? <==> l.bootstrapEnd <= LARGE && l.ReservedEnd() > KERNEL_OFFSET + 2 * LARGE
    ensures r.Built? ==> BuiltTo(l, words[..], WORDS)
    ensures r.Built? ==> r.tmpEntry == EntryOf(KERNEL_OFFSET + l.tables + 4 * HIGHER, l.TmpPage())
  {
    TopTable(words, l);
    if LARGE < l.bootstrapEnd { return BootstrapTooBig; }
    var esi, edi := Mmap(words, l.tables, 0, LOW_MEGABYTE, l.tables + 4 * IDENTITY, P | RW, IDENTITY);
    esi, edi := Mmap(words, l.tables, esi, LARGE, edi, P, IDENTITY + 256);
    assert BuiltTo(l, words[..], HIGHER) && Zero(words[..], HIGHER);
    if KERNEL_OFFSET + 2 * LARGE < l.ReservedEnd() { return KernelTooBig; }
    MapKernel(words, l);
    return Built(EntryOf(KERNEL_OFFSET + l.tables + 4 * HIGHER, l.TmpPage()));
  }

  method MapKernel(words: array<Word>, l: Layout)
    requires l.Linked() && words.Length == WORDS && l.ReservedEnd() <= KERNEL_OFFSET + 2 * LARGE
    requires BuiltTo(l, words[..], HIGHER) && Zero(words[..], HIGHER)
    modifies words
    ensures BuiltTo(l, words[..], WORDS)
  {
    hide BootWord;
    ghost var text, data := Virt2Phys(l.kernelStart) / PAGE, Virt2Phys(l.dataStart) / PAGE;
    ghost var end := data + PageCount(Virt2Phys(l.dataStart), Virt2Phys(l.kernelEnd));
    KernelPages(l, text, data, end);
    var edi := EntryOf(l.tables + 4 * HIGHER, l.kernelStart);
    var esi;
    esi, edi := Mmap(words, l.tables, Virt2Phys(l.kernelStart), Virt2Phys(l.dataStart), edi, P | G, HIGHER + text);
    assert BuiltTo(l, words[..], HIGHER + data) && Zero(words[..], HIGHER + data);
    esi, edi := Mmap(words, l.tables, esi, Virt2Phys(l.kernelEnd), edi, P | RW | G, HIGHER + data);
  }

  /** The higher-half entries by page number: text, data, and nothing around them. */
  lemma KernelPages(l: Layout, text: nat, data: nat, end: nat)
    requires l.Linked() && l.ReservedEnd() <= KERNEL_OFFSET + 2 * LARGE
    requires text == Virt2Phys(l.kernelStart) / PAGE && data == Virt2Phys(l.dataStart) / PAGE
    requires end == data + PageCount(Virt2Phys(l.dataStart), Virt2Phys(l.kernelEnd))
    ensures text < data < end <= 2 * ENTRIES
    ensures Virt2Phys(l.kernelStart) == PAGE * text && Virt2Phys(l.dataStart) == PAGE * data
    ensures forall k {:trigger BootWord(l, k)} :: HIGHER <= k < WORDS ==>
      BootWord(l, k) ==
        if HIGHER + text <= k < HIGHER + data then Word(PAGE * (k - HIGHER), P | G)
        else if HIGHER + data <= k < HIGHER + end then Word(PAGE * (k - HIGHER), P | RW | G)
        else NULL_WORD
  {
    assert PAGE * (end - 1) < Virt2Phys(l.kernelEnd) <= PAGE * end;
  }

  // The tables as an address space.

  /** Physical frame of the n-th table. */
  function TableFrame(l: Layout, n: nat): Frame
    requires l.Linked() && n < 4
  {
    l.tables + PAGE * n
  }

  function TableWords(l: Layout, n: nat): (words: seq<Word>)
    requires l.Linked()
    ensures |words| == ENTRIES && forall i :: 0 <= i < ENTRIES ==> words[i] == BootWord(l, ENTRIES * n + i)
  {
    seq(ENTRIES, i requires 0 <= i < ENTRIES => BootWord(l, ENTRIES * n + i))
  }

  function BootMemory(l: Layout): Memory
    requires l.Linked()
  {
    map[TableFrame(l, 0) := TableWords(l, 0), TableFrame(l, 1) := TableWords(l, 1),
        TableFrame(l, 2) := TableWords(l, 2), TableFrame(l, 3) := TableWords(l, 3)]
  }

  /** The table number of each position in use. */
  const NUMBERS: map<Tag, nat> := map[Tag(1, 0) := 0, Tag(0, 0) := 1, Tag(0, 768) := 2, Tag(0, 769) := 3]

  /** The address space that paging is turned on with; `rest` is the memory outside the tables. Pages
      below 8 MiB are the identity mapping. */
  function BootSpace(l: Layout, ext: seq<Extent>, rest: Memory): Space
    requires l.Linked()
  {
    Space(rest + BootMemory(l), map t | t in NUMBERS :: TableFrame(l, NUMBERS[t]), l.tables, 1, 2 * ENTRIES, true, ext)
  }

  lemma BootSlot(l: Layout, ext: seq<Extent>, rest: Memory, t: Tag, i: nat)
    requires l.Linked() && BootSpace(l, ext, rest).Has(t, i)
    ensures t in NUMBERS && BootSpace(l, ext, rest).Slot(t, i) == BootWord(l, ENTRIES * NUMBERS[t] + i)
  {
  }

  /** What the words of the tables decode to. */
  lemma BootDecodes(a: Frame)
    ensures Decode(Word(a, P | RW), false) == Level(Word(a, 0))
    ensures Decode(Word(a, P | RW | PS), false) == Page(Word(a, 0), PRESENT | WRITE)
    ensures Decode(Word(a, P | RW), true) == Page(Word(a, 0), PRESENT | WRITE)
    ensures Decode(Word(a, P), true) == Page(Word(a, 0), PRESENT)
    ensures Decode(Word(a, P | G), true) == Page(Word(a, 0x100), PRESENT | GLOBAL)
    ensures Decode(Word(a, P | RW | G), true) == Page(Word(a, 0x100), PRESENT | WRITE | GLOBAL)
    ensures forall leaf :: Decode(NULL_WORD, leaf) == Page(Word(0, 0), 0)
  {
  }

  lemma BootStruct(l: Layout, ext: seq<Extent>, rest: Memory)
    requires l.Linked()
    ensures BootSpace(l, ext, rest).Struct()
  {
    var s := BootSpace(l, ext, rest);
    BootFrames(l, ext, rest);
    hide BootSpace;
    hide BootWord;
    forall t: Tag, i: nat | s.Has(t, i)
      ensures s.Edge(t, i)
    {
      BootEdge(l, ext, rest, t, i);
    }
    forall t: Tag | t in s.at
      ensures s.Linked(t)
    {
      BootLinked(l, ext, rest, t);
    }
  }

  lemma BootFrames(l: Layout, ext: seq<Extent>, rest: Memory)
    requires l.Linked()
    ensures var s := BootSpace(l, ext, rest);
            && s.Top() in s.at && s.at[s.Top()] == s.root
            && (forall t :: t in s.at ==> s.at[t] in s.mem && |s.mem[s.at[t]]| == ENTRIES)
            && (forall t, u :: t in s.at && u in s.at && s.at[t] == s.at[u] ==> t == u)
  {
    hide BootWord;
  }

  lemma BootEdge(l: Layout, ext: seq<Extent>, rest: Memory, t: Tag, i: nat)
    requires l.Linked() && BootSpace(l, ext, rest).Has(t, i)
    ensures BootSpace(l, ext, rest).Edge(t, i)
  {
    hide Decode;
    BootSlot(l, ext, rest, t, i);
    BootDecodes(BootSpace(l, ext, rest).Slot(t, i).base);
    BootLeaf(l, ext, rest, t, i);
  }

  lemma BootLeaf(l: Layout, ext: seq<Extent>, rest: Memory, t: Tag, i: nat)
    requires l.Linked() && BootSpace(l, ext, rest).Has(t, i)
    ensures t.depth == 0 ==> !IsTable(BootSpace(l, ext, rest).Slot(t, i), 0)
  {
  }

  lemma BootLinked(l: Layout, ext: seq<Extent>, rest: Memory, t: Tag)
    requires l.Linked() && t in BootSpace(l, ext, rest).at
    ensures BootSpace(l, ext, rest).Linked(t)
  {
    hide Decode;
    var s := BootSpace(l, ext, rest);
    if t.depth == 0 {
      BootSlot(l, ext, rest, Parent(t), t.region % ENTRIES);
      BootDecodes(s.Slot(Parent(t), t.region % ENTRIES).base);
    }
  }

  /** Where page p goes at boot. */
  function BootTrans(l: Layout, p: nat): Option<Mapping>
    requires l.Linked()
  {
    var v := PAGE * p;
    if v < LARGE then Some(Mapping(0, v, if v < LOW_MEGABYTE then PRESENT | WRITE else PRESENT))
    else if v < 2 * LARGE then Some(Mapping(1, LARGE, PRESENT | WRITE))
    else if l.kernelStart <= v < l.dataStart then Some(Mapping(0, Virt2Phys(v), PRESENT | GLOBAL))
    else if l.dataStart <= v < l.kernelEnd then Some(Mapping(0, Virt2Phys(v), PRESENT | WRITE | GLOBAL))
    else None
  }

  /** The walk over the boot tables, for every page of the address space. */
  lemma BootWalk(l: Layout, ext: seq<Extent>, rest: Memory, p: nat)
    requires l.Linked() && l.ReservedEnd() <= KERNEL_OFFSET + 2 * LARGE
    requires p < BootSpace(l, ext, rest).Limit()
    ensures BootSpace(l, ext, rest).Trans(p) == BootTrans(l, p)
  {
    var s := BootSpace(l, ext, rest);
    BootStruct(l, ext, rest);
    PageTag(s, p);
    BootTag(l, ext, rest, p);
    hide BootSpace;
    if TagOf(p, 0) in NUMBERS {
      BootLeaf(l, ext, rest, TagOf(p, 0), Index(p, 0));
      TransOfSlot(s, p, 0);
      BootLow(l, ext, rest, p);
    } else {
      BootEdge(l, ext, rest, TagOf(p, 1), Index(p, 1));
      TransOfSlot(s, p, 1);
      BootHigh(l, ext, rest, p);
    }
  }

  lemma BootTag(l: Layout, ext: seq<Extent>, rest: Memory, p: nat)
    requires l.Linked() && TagOf(p, 1) == Tag(1, 0)
    ensures var s := BootSpace(l, ext, rest);
            && s.Has(TagOf(p, 1), Index(p, 1))
            && (TagOf(p, 0) in NUMBERS ==> s.Has(TagOf(p, 0), Index(p, 0)))
            && (TagOf(p, 0) !in NUMBERS ==> !IsTable(s.Slot(TagOf(p, 1), Index(p, 1)), 1))
  {
  }

  lemma BootLow(l: Layout, ext: seq<Extent>, rest: Memory, p: nat)
    requires l.Linked() && l.ReservedEnd() <= KERNEL_OFFSET + 2 * LARGE
    requires TagOf(p, 0) in NUMBERS && BootSpace(l, ext, rest).Has(TagOf(p, 0), Index(p, 0))
    ensures LeafOf(BootSpace(l, ext, rest).Slot(TagOf(p, 0), Index(p, 0)), 0) == BootTrans(l, p)
  {
    hide Decode;
    BootSlot(l, ext, rest, TagOf(p, 0), Index(p, 0));
    BootDecodes(BootSpace(l, ext, rest).Slot(TagOf(p, 0), Index(p, 0)).base);
  }

  lemma BootHigh(l: Layout, ext: seq<Extent>, rest: Memory, p: nat)
    requires l.Linked() && l.ReservedEnd() <= KERNEL_OFFSET + 2 * LARGE
    requires TagOf(p, 0) !in NUMBERS && TagOf(p, 1) == Tag(1, 0) && BootSpace(l, ext, rest).Has(TagOf(p, 1), Index(p, 1))
    ensures LeafOf(BootSpace(l, ext, rest).Slot(TagOf(p, 1), Index(p, 1)), 1) == BootTrans(l, p)
  {
    hide Decode;
    TopIndex(p);
    BootSlot(l, ext, rest, TagOf(p, 1), Index(p, 1));
    BootDecodes(BootSpace(l, ext, rest).Slot(TagOf(p, 1), Index(p, 1)).base);
  }

  /** In 32-bit paging the top slot of a page is its number divided by 1024. */
  lemma TopIndex(p: nat)
    requires TagOf(p, 1) == Tag(1, 0)
    ensures p < ENTRIES * ENTRIES && Index(p, 1) == p / ENTRIES && TagOf(p, 0) == Tag(0, p / ENTRIES)
  {
    assert Reg(p, 0) == p;
    assert Reg(p, 1) == p / ENTRIES;
    assert Reg(p, 2) == p / ENTRIES / ENTRIES;
  }

  /** The physical address of page p under its mapping. */
  function Physical(mp: Mapping, p: nat): int { mp.frame + PAGE * (p - First(Reg(p, mp.depth), mp.depth)) }

  /** The boot tables realise the offset mapping of the kernel and the identity mapping of the lower
      8 MiB, and nothing else. The large page among them goes beyond the 4 MiB the rest is built for. */
  lemma BootReaches(l: Layout, ext: seq<Extent>, rest: Memory, p: nat)
    requires l.Linked() && l.ReservedEnd() <= KERNEL_OFFSET + 2 * LARGE
    requires p < BootSpace(l, ext, rest).Limit()
    ensures var s, v := BootSpace(l, ext, rest), PAGE * p;
            && (s.Trans(p).Some? <==> v < 2 * LARGE || l.kernelStart <= v < l.kernelEnd)
            && (v < 2 * LARGE ==> Physical(s.Trans(p).value, p) == v)
            && (l.kernelStart <= v < l.kernelEnd ==> Physical(s.Trans(p).value, p) == Virt2Phys(v))
            && (s.Trans(p).Some? && s.Trans(p).value.flags & WRITE != 0 <==>
                  v < LOW_MEGABYTE || LARGE <= v < 2 * LARGE || l.dataStart <= v < l.kernelEnd)
  {
    BootWalk(l, ext, rest, p);
    if LARGE <= PAGE * p < 2 * LARGE {
      assert Reg(p, 0) == p;
      assert Reg(p, 1) == 1;
      assert First(1, 1) == 1024;
    }
  }

  /** The entry of the window page, entry k of the four tables: it is the higher-half tables' entry for
      that page, still empty, and its address lies in the kernel's data. */
  lemma TmpPlace(l: Layout, entry: nat, k: nat, page: nat)
    requires l.Linked() && l.ReservedEnd() <= KERNEL_OFFSET + 2 * LARGE
    requires entry == EntryOf(KERNEL_OFFSET + l.tables + 4 * HIGHER, l.TmpPage())
    requires k == (Virt2Phys(entry) - l.tables) / 4 && page == entry / PAGE
    ensures HIGHER <= k < WORDS && Virt2Phys(entry) == l.tables + 4 * k
    ensures PAGE * (k - HIGHER) == Virt2Phys(l.TmpPage()) && BootWord(l, k) == NULL_WORD
    ensures PAGE * page == KERNEL_OFFSET + l.tables + PAGE * (k / ENTRIES) && entry % PAGE == 4 * (k % ENTRIES)
    ensures l.dataStart <= PAGE * page < l.kernelEnd
  {
    var x := Virt2Phys(l.TmpPage()) / PAGE;
    assert Virt2Phys(l.TmpPage()) == PAGE * x;
    assert entry == KERNEL_OFFSET + l.tables + 4 * HIGHER + 4 * x;
    assert k == HIGHER + x;
    TmpPage(l.tables, x, entry);
  }

  /** The page of entry x of the higher-half tables, and its place there. */
  lemma TmpPage(tables: Frame, x: nat, entry: nat)
    requires entry == KERNEL_OFFSET + tables + 4 * HIGHER + 4 * x
    ensures PAGE * (entry / PAGE) == KERNEL_OFFSET + tables + PAGE * ((HIGHER + x) / ENTRIES)
    ensures entry % PAGE == 4 * ((HIGHER + x) % ENTRIES)
  {
  }

  /** The stored address of that entry reaches the table that holds it, writable. */
  lemma TmpEntry(l: Layout, ext: seq<Extent>, rest: Memory, entry: nat)
    requires l.Linked() && l.ReservedEnd() <= KERNEL_OFFSET + 2 * LARGE
    requires entry == EntryOf(KERNEL_OFFSET + l.tables + 4 * HIGHER, l.TmpPage())
    ensures var k := (Virt2Phys(entry) - l.tables) / 4;
            BootSpace(l, ext, rest).Trans(entry / PAGE)
            == Some(Mapping(0, TableFrame(l, k / ENTRIES), PRESENT | WRITE | GLOBAL))
  {
    TmpPlace(l, entry, (Virt2Phys(entry) - l.tables) / 4, entry / PAGE);
    TmpWalk(l, ext, rest, (Virt2Phys(entry) - l.tables) / 4, entry / PAGE);
  }

  lemma TmpWalk(l: Layout, ext: seq<Extent>, rest: Memory, k: nat, page: nat)
    requires l.Linked() && l.ReservedEnd() <= KERNEL_OFFSET + 2 * LARGE
    requires k < WORDS && PAGE * page == KERNEL_OFFSET + l.tables + PAGE * (k / ENTRIES)
    requires l.dataStart <= PAGE * page < l.kernelEnd
    ensures BootSpace(l, ext, rest).Trans(page) == Some(Mapping(0, TableFrame(l, k / ENTRIES), PRESENT | WRITE | GLOBAL))
  {
    BootLimit(l, ext, rest);
    hide BootSpace;
    BootWalk(l, ext, rest, page);
  }

  lemma BootLimit(l: Layout, ext: seq<Extent>, rest: Memory)
    requires l.Linked()
    ensures BootSpace(l, ext, rest).Limit() == 0x10_0000
  {
    assert First(1, 2) == First(1024, 1);
    assert First(1024, 1) == First(0x10_0000, 0);
  }
}
