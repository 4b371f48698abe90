# The memory subsystem of the SATAN kernel, in Dafny

SATAN is a small x86 kernel. This project models how it manages memory: the nested page tables and the
operations `map_alloc` and `unmap_free` over them, the 32-bit x86 level underneath with its entry format and
its one-page window to physical memory, the zoned frame allocator, alone and under interleaving, and the boot
code that builds the first tables and zones. It proves what these promise together: that the tables behave
like a flat map from pages to frames, that every block of the allocator has exactly one owner, that no cached
translation goes stale, and where the code as written falls short of this.

## How the model is built

Physical memory is a map from frames to 1024 words, and the processor's walk over it (`PageTables.Walk`) is
the meaning of the tables: `Trans(p)` is what the walk finds for page p. A table at depth d has shift
12 + 10 d; the depth of the top table is arbitrary, and 32-bit paging is the case of two levels
(`Paging32`). A `Tag` (depth, region) is the position of a table in the address space, and the ghost map `at`
says which frame is at which position; `Struct` says that these form a tree. `Own` says that the blocks the
tables hold are live in the allocator, with the right size and one owner each; `Good` adds that the
processor's cache is coherent. The address space answers for pages above the boot identity mapping that are
not GLOBAL (`Kept`); other pages are nobody's in the model, and `Removable` says of a range that unmapping it
would not free a block for one of them.

- `Common`, `Geometry`: units and the arithmetic of regions, slots and alignment.
- `PageTableEntry`, `PageTables`: words, entries, the walk and the tree invariant. `Processor` is what the
  processor makes of the same words, told by bit numbers alone, with the rights of every entry on the path;
  `Rights` says who may access what `map_alloc` and the boot code map.
- `TableSteps`, `Ownership`, `Consistency`: what one changed slot, one added and one dropped table do to the
  translation, to ownership and to cached translations.
- `AddressSpace` (module `AddressSpaces`): the code itself, as a class over memory, window and allocator.
  `Unmapping`, `UnmapSteps`, `MapSteps` and `MapRange` are its specification, as relations between states
  that compose over adjacent ranges. `Covering` is the case of a large page mapped over a table;
  `Refusal` says exactly when `map_alloc` fails, and `Overwriting` which blocks it leaves without an owner.
- `Runs`, `RoundTrip`, `Accounting`, `Reuse`: properties of whole runs of calls. `Sessions` serves a list of
  requests with the class and shows that the calls it makes are such a run; `LargePages` maps and unmaps a
  large page.
- `ZonePieces`, `ZonedBuddy`: the frame allocator. What its buddies decide is a `Library`: for each call and
  zone a run or none, and for each attempt whether a buddy can be created. `refusals` records the calls that
  every zone turned down, so a failure for want of memory is a fact about the allocator. `ZoneTotals`: what the
  zones add up to, and when they are used up.
- `ConcurrentBuddy`, `SoloCalls`: the allocator under interleaving, and calls that no one disturbs.
- `TmpPage`: the window.
- `Bootstrap`, `SetupPaging`, `SelfTest`: the boot tables, the boot zones, and the mapping test that paging
  setup makes. `BootCoverage` says which memory the zones manage, `TestMemory` how much the test needs.
  `BootSequence` does all three in order, starting from zeroed tables and any memory map.
- `FormatSize`: sizes as they are printed.

## Where the code departs from what it promises

Each of these is kept as the code has it and is part of a contract or a lemma below.

- `unmap_free` takes a range that starts unaligned and ends in the same top-level region up to the end of
  that region (`Geometry.EffectiveEnd`).
- Storing `NULL` in an inner level stores the PS bit, which later updates refuse. A top-level slot whose table
  was dropped can therefore never be mapped through again (`Reuse.EmptiedRegionIsLost`). A removal does this to
  a 4 MiB region exactly if it meets the region's table, leaves none of its pages and, unless it takes in the
  whole region, finds no entry in it that holds an address without being present; to every other page it makes
  no difference (`Reuse.RegionIsLostExactly`). With a `NULL` that clears the slot a region can always be
  mapped again (`Reuse.UnmappedIsMappable`). The flag `sticky` selects between the two; results that do not
  name it hold for both.
- A removal whose first obstacle is a large page that it covers frees the page's block, and then the slot refuses
  to be cleared: the call fails, and the page still translates to memory that was given back. That is exactly
  when the call fails with `MappingOver` (`LargePages.DanglesExactly`); the calls that lead there are in
  `LargePages.MapAndUnmap`.
- A large page mapped where a table is silently takes the table's place. The table and its pages stay
  allocated with no owner, and only one page is flushed, so the others' translations may stay cached
  (`Covering.CoverLeaks`, `Covering.CoverStale`).
- A 4 KiB page mapped over another silently replaces it, and the frame of the first stays allocated without
  an owner (`Overwriting.OverwriteLeaks`). A call of `map_alloc` loses blocks exactly if it maps over a page that
  is one (`Overwriting.LosesExactly`); over a whole run, exactly those blocks are lost that each call loses
  (`Runs.RunLoses`), and the allocator's byte count shows them (`Accounting.RunAccounting`).
- The address read back from an entry keeps the G bit. A GLOBAL page's frame is therefore never freed, or what
  is freed instead is no live block (`PageTableEntry.GlobalShiftsAddress`, `Reuse.GlobalIsNeverOwned`).
- USER does not make a 4 KiB page accessible to users: the entries that `new_page_table` writes lack the U/S bit,
  and the processor wants it in every entry on the path. A user gets in exactly through a USER entry of the first
  table, so with two levels only to a large page (`Rights.UserReaches`, `Rights.MappedRights`).
- A page of `map_alloc` that cannot be mapped loses the frame taken for it (`Overwriting.FailedLoses`); the frame
  of a table is lost besides exactly if the word that refuses is not present and lies above the level that
  takes the page (`MapSteps.LosesTable`, in the contract of `MapPage`). An allocator that refuses a page's frame
  panics the call.
- The zone test of `free` adds machine words: a block that ends at the end of the address space passes it in
  every zone below, and a zone that ends there takes none of its other blocks back (`ZonedBuddy.CoversMeans`,
  `ZonedBuddy.LastZone`). Zones stay below that end, and tables that map such a block satisfy no ownership
  invariant (`Accounting.EndIsNeverOwned`).
- `allocated_memory` may return more than the total (`ConcurrentBuddy.AllocatedAboveTotal`), by at most what was
  still to be subtracted from each zone when its counter was loaded (`ConcurrentBuddy.ReadFits`).
- The boot loop over lower large pages compares the wrong way round and runs once, so 4 to 8 MiB are mapped
  (`Bootstrap.TopTable`, `Bootstrap.BootReaches`).

## Model

| member | source | states |
|---|---|---|
| PageTableEntry.FlagsRoundTrip | src/arch/x86/paging/page_table_entry.rs:26-76 | converting interface flags to hardware flags and back keeps exactly PRESENT, WRITE, USER, UNCACHED and GLOBAL; the other way drops only what the interface cannot say; by number, flags 0, 2, 4, 5 and 6 become bits 0, 1, 2, 4 and 8 |
| PageTableEntry.DecodeEncode | src/arch/x86/paging/address_space.rs:100-128 | an entry read back after it was stored is the same: tables exactly, pages up to flags without a bit, with GLOBAL showing up in the address; a table never reads as a page or the reverse; the stored word refuses updates exactly if it is an inner page, NULL included when sticky |
| PageTableEntry.GlobalShiftsAddress | src/arch/x86/paging/page_table_entry.rs:118-120 | the address handed back for a page is off by 0x100 exactly when it is GLOBAL |
| PageTableEntry.AccessedIsIgnored | src/arch/x86/paging/page_table_entry.rs:113-120 | accessed and dirty bits set by the processor change neither the decoded entry nor whether it refuses updates |
| PageTables.WalkIgnoresAccessed | src/arch/x86/paging/page_table_entry.rs:113-120 | so the walk over tables that differ only in such bits gives the same translations |
| Geometry.AlignDownRegion | src/memory/address_space/nested_page_table.rs:99-101 | aligning an address down to a region size gives the start of the region that holds it, at every depth |
| Geometry.AlignUpRegion | src/memory/address_space/nested_page_table.rs:99-101 | aligning up gives the least region start at or above the address |
| Paging32.SlotByShift | src/arch/x86/paging/address_space.rs:40-46 | shifting an address by the level's shift and masking ten bits gives the slot the processor's walk uses |
| Paging32.OneLevelTakes | src/arch/x86/paging/page_size.rs:15-36 | exactly one level takes pages of a given size, at or below the top, so the descent of `map_page` stops at it |
| Paging32.Regions32 | src/arch/x86/paging/address_space.rs:27-34 | the two levels of 32-bit paging have regions of 4 KiB and 4 MiB, 4 GiB in all |
| Processor.StoredBits | src/arch/x86/paging/page_table_entry.rs:93-105 | a stored page entry has bits 0, 1, 2, 4 and 8 exactly for the interface flags of numbers 0, 2, 4, 5 and 6, bit 7 exactly for a large page, and no others |
| Processor.TableBits | src/arch/x86/paging/page_table_entry.rs:108-110 | a stored table entry is present and writable, not open to users, and no large page |
| Processor.ReadBits | src/arch/x86/paging/page_table_entry.rs:51-76 | what is read back from any word, by bit numbers: table or page, each flag, whether the slot refuses updates (bit 7 of an inner slot), and whether it counts as mapped |
| Processor.ReachBelow | src/arch/x86/paging/page_table_entry.rs:8-23 | the processor's walk below any table in use, with the rights of every entry on the path, finds the page that the tables say, in its frame: writable if the page's own flags say so, open to users only through the first table |
| Processor.ReachIsTrans | src/arch/x86/paging/page_table_entry.rs:8-23 | so every statement about translations in this project is one about what the processor reaches, and with which rights |
| Rights.MappedRights | src/memory/address_space/nested_page_table.rs:175-183 | a page mapped PRESENT by `map_alloc` is reached in its own frame, and is writable, uncached and global exactly as asked for; it is open to users only if there is no table above its own |
| Rights.OthersReached | src/memory/address_space/nested_page_table.rs:175-183 | every other page is reached as before, with the same rights |
| Rights.UserReaches | src/arch/x86/paging/page_table_entry.rs:108-110 | a user reaches a page if and only if it is a USER entry of the first table |
| Rights.BootRights | src/arch/x86/x32/bootstrap.S:147-205 | at boot nothing is open to users, the kernel's code cannot be written and its data can, and exactly the kernel is global |
| PageTables.WalkThrough | src/memory/address_space/nested_page_table.rs:58-61 | the processor's walk for a page goes through every table whose region holds it |
| PageTables.TransLands | src/memory/address_space/nested_page_table.rs:8-13 | a page is mapped only by a leaf slot of a table in use on its path |
| TableSteps.WriteLeaf | src/arch/x86/paging/address_space.rs:86-110 | writing one leaf slot keeps the tree and changes the translation of exactly that slot's region |
| TableSteps.HangTable | src/memory/address_space/nested_page_table.rs:81-85 | hanging a cleared table from an empty slot keeps the tree and changes no translation |
| TableSteps.DropTable | src/memory/address_space/nested_page_table.rs:123-126 | dropping a table that maps nothing keeps the tree and changes no translation |
| Ownership.OwnClear | src/memory/address_space/nested_page_table.rs:141-145 | clearing a leaf and freeing its block: the block was live with that size and owned once, or was no block of any zone; nothing else changes owner |
| Ownership.OwnFill | src/memory/address_space/nested_page_table.rs:72-73 | mapping a block nothing owns gives it one owner |
| Ownership.OwnHang | src/memory/address_space/nested_page_table.rs:81-85 | a new table adds its frame to what is owned |
| Ownership.OwnDrop | src/memory/address_space/nested_page_table.rs:123-126 | a dropped table's frame was live and owned once; after freeing it nothing else changed owner |
| AddressSpaces.AddressSpace.constructor | src/arch/x86/paging/address_space.rs:27-35 | an address space adopts the tables at the given top-level table |
| AddressSpaces.AddressSpace.LockEntry | src/arch/x86/paging/address_space.rs:40-46 | takes the window's lock, makes the window show the level's own table, and computes the slot by shift and mask: the slot that the processor's walk uses for the address |
| AddressSpaces.AddressSpace.GetEntry | src/arch/x86/paging/address_space.rs:112-128 | the decoded slot of the address in that table; nothing changes and the lock is free again |
| AddressSpaces.AddressSpace.SetEntry | src/arch/x86/paging/address_space.rs:86-110 | refused exactly when an inner slot has PS, reporting its address; otherwise that one word of memory changes and nothing else, and no stale translation of the flushed page stays cached |
| AddressSpaces.AddressSpace.ClearFrame | src/arch/x86/paging/address_space.rs:67-72 | every word of the one frame becomes NULL |
| AddressSpaces.AddressSpace.NewSublevel | src/arch/x86/paging/address_space.rs:65-75 | a cleared frame that was not live, one depth below; or no change at all |
| AddressSpaces.AddressSpace.FreeSublevel | src/arch/x86/paging/address_space.rs:77-84 | exactly the sub-table's frame goes back |
| AddressSpaces.AddressSpace.ScanMapped | src/memory/address_space/nested_page_table.rs:113-122 | finds something if and only if some slot of the sub-table is in use as the code looks at it: a table, a page, or an address alone |
| AddressSpaces.AddressSpace.DropChild | src/memory/address_space/nested_page_table.rs:123-126 | an emptied table is freed and its slot cleared, always successfully, keeping the whole invariant |
| AddressSpaces.AddressSpace.UnmapTable | src/memory/address_space/nested_page_table.rs:106-127 | the part of a range below one slot, with the table dropped if and only if the range covers it or the scan finds nothing in use |
| AddressSpaces.AddressSpace.UnmapPage | src/memory/address_space/nested_page_table.rs:141-146 | a covered page: freed and cleared, or, if large, freed and then refused |
| AddressSpaces.AddressSpace.UnmapRegion | src/memory/address_space/nested_page_table.rs:102-148 | one round of the loop removes exactly the range's part of one region |
| AddressSpaces.AddressSpace.UnmapFree | src/memory/address_space/nested_page_table.rs:93-151 | at any depth: Ok removes exactly the pages up to the effective end and frees exactly the blocks no longer owned; of the tables it meets exactly those stay that reach beyond the range and have a slot in use; Err is a removal up to one leaf that still translates; the allocator is not asked for anything; asserted along the way: no sum of addresses leaves the address space |
| AddressSpaces.AddressSpace.Unmap | src/memory/address_space/nested_page_table.rs:187-195 | the same for the whole address space |
| UnmapSteps.SucceedsExactly | src/memory/address_space/nested_page_table.rs:102-150 | `unmap_free` succeeds if and only if every page the range touches is unmapped or a 4 KiB page inside the range |
| Unmapping.DoneCompose | src/memory/address_space/nested_page_table.rs:102-149 | removing a range and then the adjacent one is removing both, in translation, tables, ownership and freed blocks |
| Unmapping.StopAfter | src/memory/address_space/nested_page_table.rs:102-133 | a removal that stops after a successful part: exactly the pages below the leaf are gone and freed, and the leaf still translates |
| UnmapSteps.PartStop | src/memory/address_space/nested_page_table.rs:128-132 | a large page partly inside stops the removal and is reported, unchanged |
| UnmapSteps.LargeStop | src/memory/address_space/nested_page_table.rs:141-145 | a large page inside is freed and its slot refuses to be cleared |
| Consistency.ClearFacts | src/memory/address_space/nested_page_table.rs:141-145 | clearing and flushing a page keeps tree, ownership and coherence of the cache |
| Consistency.DropFacts | src/memory/address_space/nested_page_table.rs:123-126 | dropping an emptied table leaves no stale translation, although only one page is flushed |
| AddressSpaces.AddressSpace.AddTable | src/memory/address_space/nested_page_table.rs:76-86 | a new table is hung, or the first failure of the two is reported, for want of a frame only if every zone refused; a refusing slot loses exactly the new table's frame |
| AddressSpaces.AddressSpace.MapPage | src/memory/address_space/nested_page_table.rs:64-91 | only the level of the page's size takes it; Ok maps exactly that page's region and leaves every other translation; it fails exactly as the first refusing slot on the path says, or for want of a frame: then the table that takes the page is missing and every zone refused; a table's frame is lost exactly if the refusing word is not present above that level; tables only appear on the path; a large page where a table is replaces the table |
| AddressSpaces.AddressSpace.MapLeaf | src/memory/address_space/nested_page_table.rs:72-73 | storing the page at its level: refused by the slot, mapped, or in place of a table |
| Covering.CoverFacts | src/arch/x86/paging/address_space.rs:86-110 | a large page stored over a table: the region translates to it, tree and single ownership are kept, exactly the blocks owned through the table lose their owner, and one page is flushed |
| Covering.CoverLeaks | src/memory/address_space/nested_page_table.rs:72-73 | the table's frame and its pages' frames stay live and belong to no one |
| Covering.CoverStale | src/arch/x86/paging/address_space.rs:107-109 | any other page the table mapped may stay cached with its old translation, against what the tables then say |
| AddressSpaces.AddressSpace.MapAlloc | src/memory/address_space/nested_page_table.rs:167-185 | with any flags, pages map in order to the frames taken: every last-level word is that of its page, as it was, or clear in a new table; exactly the overwritten blocks and the frames of GLOBAL, identity or absent pages end up without an owner; a panic or a missing table means that every zone refused in this call; if none refuses, it succeeds if and only if no page of the range meets a refusing slot |
| Refusal.FailsExactly | src/memory/address_space/nested_page_table.rs:74-85 | `map_alloc` fails with `MappingOver` if and only if the tables it starts from refuse some page of the range, unless the allocator refuses a frame first; it fails at the first such page and reports its slot |
| Refusal.SameBarrier | src/memory/address_space/nested_page_table.rs:175-183 | mapping pages neither adds nor removes a refusing slot |
| MapRange.RangeStep | src/memory/address_space/nested_page_table.rs:175-183 | one more page extends a mapped range: distinct new frames, new tables only and everywhere on the pages' paths, every slot as it was, the page's own, or clear in a new table, and exactly the overwritten and unanswered blocks without an owner |
| Overwriting.LosesExactly | src/memory/address_space/nested_page_table.rs:72-73 | a mapping of present pages that the space answers for loses exactly the blocks it maps over, so nothing if and only if none of its pages was one |
| Overwriting.OverwriteLeaks | src/memory/address_space/nested_page_table.rs:72-73 | the frame of a page mapped over stays live and belongs to no one |
| Overwriting.FailedLoses | src/memory/address_space/nested_page_table.rs:175-182 | a failed call loses, besides, the frame of the page it failed at and the leaked table |
| Overwriting.MapKeepsRemovable | src/memory/address_space/nested_page_table.rs:141-145 | mapping pages that the space answers for changes nothing about which ranges may be unmapped |
| MapRange.PageWordMeans | src/arch/x86/paging/address_space.rs:100-105 | the stored word of a page translates to its frame with the flags that can be encoded |
| Reuse.LockedRefuses | src/memory/address_space/nested_page_table.rs:74-85 | mapping through a refusing top-level slot fails and leaves tables and translation as they were |
| Runs.RunRefinesFlatMap | src/memory/address_space/nested_page_table.rs:93-195 | after any run of calls, failed ones included, the walk gives, page by page, what the same calls make of a flat map |
| Sessions.Serve | src/memory/address_space/nested_page_table.rs:167-195 | any list of requests whose unmappings would free no block for a page the space does not answer for, told from the list and the first state, is served as such a run until a panic or a dangling large page; a panic means that every zone refused, so every byte is in use if buddies grant what they have; if none refuses, each request to map is granted exactly as its tables allow; afterwards the walk and every translation the processor has cached are those of the flat map |
| Sessions.DisciplinedIsCareful | src/memory/address_space/nested_page_table.rs:167-195 | requests that, judged by themselves, map only present pages and none over another make a careful run if they succeed |
| Sessions.OccupiedIsMapped | src/memory/address_space/nested_page_table.rs:167-195 | what the requests say is mapped is what the tables map |
| Runs.RunConserves | src/memory/address_space/nested_page_table.rs:93-195 | over any careful run the tables stay a tree, every owned block is live with one owner, no block is lost or taken from others, and no sub-table is out of use that was not so at the start |
| Runs.RunLoses | src/memory/address_space/nested_page_table.rs:93-195 | over any run without a dangling large page, failed calls included: a tree, one owner for each block, nothing taken from others, and exactly the blocks lost by each call without an owner, all of them frames |
| RoundTrip.MapUnmap | src/memory/address_space/nested_page_table.rs:93-185 | mapping a range that the space answers for and then unmapping it succeeds and restores translation, tables and live blocks, if the effective range mapped nothing and no table meeting it was empty |
| RoundTrip.RemovalSucceeds | src/memory/address_space/nested_page_table.rs:187-195 | unmapping what was mapped into an unmapped range cannot fail |
| RoundTrip.ClearIsRemovable | src/memory/address_space/nested_page_table.rs:102-148 | a range that maps nothing may be unmapped |
| Accounting.OwnedCount | src/memory/address_space/nested_page_table.rs:167-185 | the blocks owned number the sub-tables plus the mapped pages |
| Accounting.BytesInUse | src/memory/page_allocator/zoned_buddy.rs:106-111 | the bytes in use are those of others plus 4096 for each sub-table and mapped page |
| Accounting.RunAccounting | src/memory/page_allocator/zoned_buddy.rs:73-112 | over any run without a dangling large page the allocated memory changes by exactly 4096 for each sub-table and page gained or gone and for each block lost |
| Reuse.LockedForever | src/arch/x86/paging/address_space.rs:96-98 | no sequence of what calls do to the tables, failed calls included and whoever owns the blocks, changes a top-level slot that has PS |
| Reuse.DropLocks | src/arch/x86/paging/address_space.rs:100-105 | a successful `unmap_free` leaves PS in the top-level slot of every table it drops |
| Reuse.EmptiedIsDropped | src/memory/address_space/nested_page_table.rs:113-126 | a region's table is dropped if and only if the removal meets it, leaves none of its pages and, unless it covers the region, finds no address alone in a slot |
| Reuse.RegionIsLostExactly | src/arch/x86/paging/address_space.rs:86-105 | for every page: after a removal it is refused for ever if the removal took its region's table away, a condition on the state before; otherwise it is refused if and only if it was before |
| Reuse.EmptiedRegionIsLost | src/arch/x86/paging/address_space.rs:86-105 | with the code's NULL: a page of a region that was lost can never be mapped again, whatever is called in between; another page can be, unless it was refused before or a frame is refused |
| Reuse.UnmappedIsMappable | src/memory/address_space/nested_page_table.rs:16-16 | with a NULL that clears the slot, after any careful run an unmapped page can be mapped unless a frame is refused |
| LargePages.LargePageDangles | src/memory/address_space/nested_page_table.rs:141-145 | removing any range that starts with a mapped large page and covers it fails; the block is no longer live and every page of the region still translates to it |
| LargePages.DanglesExactly | src/memory/address_space/nested_page_table.rs:102-149 | a removal fails with `MappingOver`, frees a page and leaves it mapped, if and only if a large page that it covers is the first to stand in its way; what was freed is what lay below and that page's block |
| LargePages.MapAndUnmap | src/memory/address_space/nested_page_table.rs:64-151 | the calls that lead there: a fresh 4 MiB block is had unless every zone refuses it; if no frame is refused it is mapped if and only if no slot on the path refuses; and unmapping it fails whenever the mapping succeeded |
| Reuse.GlobalIsNeverOwned | src/arch/x86/paging/page_table_entry.rs:118-120 | of a GLOBAL page on any frame: what unmapping frees is 0x100 above it; either that passes the test of no zone and the frame is never freed, or it is no live block and the page must not be unmapped |
| TmpPage.Window.Map | src/arch/x86/paging/tmp_page.rs:15-36 | afterwards the window shows the frame asked for: the kernel can read and write it, no one else can, whatever the processor evicts, walks again or sets, although an equal entry skips the flush; the entry is the one for that frame but for accessed and dirty bits; the lock is taken once |
| TmpPage.Window.Hardware | src/arch/x86/paging/tmp_page.rs:26-35 | what the processor may do to the window's entry and cached translation at any time; the window goes on showing what it showed |
| ZonedBuddy.Allocator.AddZone | src/memory/page_allocator/zoned_buddy.rs:40-71 | pushes exactly the pieces up to the first whose buddy cannot be created, and succeeds if and only if there is none; recursion one deep |
| ZonePieces.PiecesTile | src/memory/page_allocator/zoned_buddy.rs:48-56 | the pieces follow one another from start to end, are powers of two and number the bits of the size |
| ZonePieces.PiecesAligned | src/memory/page_allocator/zoned_buddy.rs:41-46 | the pieces of a block-aligned range are block-aligned and inside it |
| ZonedBuddy.Allocator.Alloc | src/memory/page_allocator/zoned_buddy.rs:73-83 | first fit: the block is the one granted by the first zone that grants, all earlier zones refuse, it was free and is counted; nothing is returned if and only if every zone's buddy refuses the call |
| ZonedBuddy.Allocator.Free | src/memory/page_allocator/zoned_buddy.rs:85-95 | exactly one zone takes a live block back although the loop has no break; a block that passes no zone's test, in machine arithmetic, changes nothing |
| ZonedBuddy.Allocator.TotalMemory | src/memory/page_allocator/zoned_buddy.rs:99-104 | the sizes of all zones |
| ZonedBuddy.Allocator.AllocatedMemory | src/memory/page_allocator/zoned_buddy.rs:107-111 | the counters of all zones, never above the total in a state without calls in flight |
| ZoneTotals.TotalIsUnion | src/memory/page_allocator/zoned_buddy.rs:99-104 | that sum is 4096 for each block that some zone manages: nothing counts twice |
| ZoneTotals.TotalFits | src/memory/page_allocator/zoned_buddy.rs:99-104 | it fits a machine word |
| ZoneTotals.TotalConcat | src/memory/page_allocator/zoned_buddy.rs:99-104 | the total of zones added to others is the sum of both totals |
| ZoneTotals.AddedTotal | src/memory/page_allocator/zoned_buddy.rs:40-71 | a range added in full adds its size to the total |
| ZoneTotals.RefusedIsFull | src/memory/page_allocator/zoned_buddy.rs:73-83 | if buddies grant a block whenever they have one, a frame is refused only when every byte of every zone is in use |
| ZonedBuddy.LiveDisjoint | src/memory/page_allocator/zoned_buddy.rs:73-95 | live allocations do not overlap and each lies within one zone |
| ZonedBuddy.TakeInZones | src/memory/page_allocator/zoned_buddy.rs:75-79 | handing out an available run keeps every zone's counter equal to its live bytes |
| ZonedBuddy.ReleaseInZones | src/memory/page_allocator/zoned_buddy.rs:89-92 | taking a live run back does too, and the counter covers it |
| ZonedBuddy.OneZone | src/memory/page_allocator/zoned_buddy.rs:88-89 | at most one zone passes the test of `free` for a block that does not reach the end of the address space |
| ZonedBuddy.CoversMeans | src/memory/page_allocator/zoned_buddy.rs:88-88 | the test, in machine arithmetic, says that the block lies in the zone, but for a block that ends at the end of the address space: that one passes wherever it starts above the zone's start |
| ZonedBuddy.LastZone | src/memory/page_allocator/zoned_buddy.rs:88-88 | a zone that ends at the end of the address space passes the test only for blocks that end there too |
| Accounting.EndIsNeverOwned | src/memory/page_allocator/zoned_buddy.rs:85-95 | no ownership invariant holds of tables that map a block ending at the end of the address space, above the start of some zone |
| ConcurrentBuddy.NextInv | src/memory/page_allocator/zoned_buddy.rs:73-95 | every step of every processor keeps the invariant of the interleaved allocator |
| ConcurrentBuddy.FreeHitsLive | src/memory/page_allocator/zoned_buddy.rs:88-90 | the zone whose test succeeds is the one that handed the block out, and the block is still out |
| ConcurrentBuddy.Accounts | src/memory/page_allocator/zoned_buddy.rs:76-93 | a zone's counter is its live bytes less pending additions plus pending subtractions, modulo the word; pending additions never exceed the live bytes; without a pending subtraction it is exact and within the zone |
| ConcurrentBuddy.NoBorrow | src/memory/page_allocator/zoned_buddy.rs:91-92 | a subtraction never takes more than the true counter holds |
| ConcurrentBuddy.QuietIsSequential | src/memory/page_allocator/zoned_buddy.rs:106-111 | with no call in flight the counters are exact and every block is with its owner: a state of the sequential allocator |
| ConcurrentBuddy.ConcurrentSafety | src/memory/page_allocator/zoned_buddy.rs:73-112 | all of this in every state of every interleaving, with processors reading the counters as well, and blocks that are out together never overlap |
| ConcurrentBuddy.AllocatedAboveTotal | src/memory/page_allocator/zoned_buddy.rs:97-111 | a run of two processors in which `allocated_memory` returns twice the total |
| ConcurrentBuddy.ReadFits | src/memory/page_allocator/zoned_buddy.rs:106-111 | what `allocated_memory` returns, one load after the other while others work, is at most the total and what was still to be subtracted at each load |
| ConcurrentBuddy.SumFits | src/memory/page_allocator/zoned_buddy.rs:106-111 | in a state without a pending subtraction the counters never add up to more than the total |
| SoloCalls.ReadIsExact | src/memory/page_allocator/zoned_buddy.rs:106-111 | a read that begins with no update pending, and during which no counter is updated, returns exactly the bytes of the blocks that were out when it began |
| SoloCalls.SoloAlloc | src/memory/page_allocator/zoned_buddy.rs:73-83 | the steps of an `alloc` that no one disturbs end in the state the sequential one ends in, by the same zone and block, or refuse exactly when it does |
| SoloCalls.SoloFree | src/memory/page_allocator/zoned_buddy.rs:85-95 | the steps of a `free` that no one disturbs take the block back in the one zone that handed it out, and uncount it |
| Bootstrap.Mmap | src/arch/x86/x32/bootstrap.S:95-104 | consecutive pages go to consecutive entries, at least one, and no other word changes |
| Bootstrap.TopTable | src/arch/x86/x32/bootstrap.S:147-174 | the finished top-level table: identity table, one large page, two tables in the higher half, nothing else |
| Bootstrap.BuildTables | src/arch/x86/x32/bootstrap.S:147-211 | each size check fails exactly when its limit is exceeded; otherwise every word of the four tables is the one given for it, and all writes stay inside them |
| Bootstrap.MapKernel | src/arch/x86/x32/bootstrap.S:195-205 | the kernel's pages: read-only up to the data, then writable, to its end |
| Bootstrap.BootStruct | src/arch/x86/x32/bootstrap.S:147-205 | the boot tables are a tree as the paging code expects |
| Bootstrap.BootWalk | src/arch/x86/x32/bootstrap.S:147-205 | the walk over them, for every page of the address space |
| Bootstrap.BootReaches | src/arch/x86/paging/mod.rs:32-40 | kernel pages go to their address less the offset, pages below 8 MiB to themselves, all else nowhere; exactly the first megabyte, the large page and the kernel's data are writable |
| Bootstrap.TmpPlace | src/arch/x86/x32/bootstrap.S:207-211 | the window's entry is that of its page in the higher-half tables and is still empty |
| Bootstrap.TmpEntry | src/arch/x86/x32/bootstrap.S:207-211 | the stored address of that entry reaches, writable, the table that holds it |
| SetupPaging.SetupZones | src/arch/x86/paging/mod.rs:66-95 | the zones are, area by area, the pieces of the area past the kernel, all of them unless a buddy could not be created; then those before that one; all are valid and disjoint, inside available areas and above the kernel |
| BootCoverage.MadeUnlessFailed | src/arch/x86/paging/mod.rs:88-93 | an area gets all its zones unless a buddy could not be created; it is the next one's that failed |
| BootCoverage.BootCovers | src/arch/x86/paging/mod.rs:76-95 | a byte is managed after boot if and only if it lies in the part of an area of which the zones were made; they leave no gap |
| BootCoverage.FullCoverage | src/arch/x86/paging/mod.rs:76-95 | if every buddy can be created, the zones cover each available area past the kernel but for less than a block at either end, and nothing else |
| BootCoverage.BootTotal | src/arch/x86/paging/mod.rs:100-100 | the total memory printed is then the sum of the areas' ranges |
| SetupPaging.AreaRange | src/arch/x86/paging/mod.rs:80-89 | the range of an area is aligned and loses less than 8 KiB beyond the clip at the kernel's end |
| SetupPaging.AreaZonesIn | src/arch/x86/paging/mod.rs:76-95 | each zone lies in its area, aligned and past the kernel |
| SetupPaging.AreaFree | src/arch/x86/paging/mod.rs:88-91 | the range handed to `add_zone` meets no earlier zone |
| SetupPaging.BootGood | src/arch/x86/paging/mod.rs:67-95 | boot hands over tables and zones that satisfy the whole invariant, with nothing allocated |
| SetupPaging.BootRemovable | src/arch/x86/x32/bootstrap.S:181-205 | at boot every range above the identity mapping may be unmapped, and of the identity mapping what lies below the end of the kernel |
| BootSequence.Paging | src/arch/x86/paging/mod.rs:67-126 | adding the zones, adopting the boot tables and mapping the test page, one after the other on any memory map: each step meets the demands of the next; if buddies grant what they have, the test succeeds if and only if the zones hold two frames |
| BootSequence.Start | src/arch/x86/x32/bootstrap.S:147-229 | the same from zeroed tables on: the boot code stops exactly if a size check fails; otherwise, with buddies that can be created and grant what they have, boot gets through its test if and only if the available areas leave two frames past the kernel |
| BootSequence.BootIsPossible | src/arch/x86/x32/linker.ld:6-47 | a kernel at 1 MiB with memory up to 256 MiB and a library of willing buddies meet all demands, and leave 0xFEFA000 bytes |
| SelfTest.TestMapping | src/arch/x86/paging/mod.rs:99-126 | one page mapped and unmapped right after boot: it fails only if every zone refused, and with willing buddies succeeds if and only if there are two frames; in between the kernel can write and read the page; afterwards it faults, no memory is in use and translation and tables are as before, but the top-level slot refuses updates from then on |
| TestMemory.OneFrameTaken | src/memory/address_space/nested_page_table.rs:81-83 | a call that gets no frame for its table has exactly the page's frame, and that is lost |
| TestMemory.TwoFramesTaken | src/memory/address_space/nested_page_table.rs:175-182 | a call that maps a page into a new region has a frame for the page and another for the table |
| FormatSize.Format | src/memory.rs:33-55 | the printed number is the size in the largest unit in which it is at least one, with one truncated decimal below ten units, and the product for that digit stays within 64 bits |

## Left out

- x86_64: its flag conversions are unfinished; the results hold for any number of levels, concrete claims are made of 32-bit paging. Storing NULL in a level that has no page size would panic there and is modelled as the PS-bit case.
- The internals of the per-zone buddy allocator: for each call a function of the call's number, the zone and the size says which available run it grants, or that it refuses, and for each attempt whether a buddy can be created (`ZonedBuddy.Library`); it takes a live run back.
- The entry of the window page is a cell of its own in `TmpPage`, not the word of the higher-half table that holds it; `Bootstrap.TmpPlace` says which word that is.
- Page tables are sequences of words in a map from frames, updated in place through the window's lock; aliasing of a table through its identity or kernel mapping is not modelled, and neither are processors other than the one running the paging code.
- The processor's caches of inner table entries: only page translations are cached.
- AddressSpaces.AddressSpace.MapAlloc: vaddr is page-aligned, because `set_entry` asserts it, and the range lies in the address space.
- AddressSpaces.AddressSpace.MapPage: a block of the allocator that is mapped is live, mapped nowhere else and no table; after a large page has covered a table the cache may be stale, and no call is described from such a state.
- AddressSpaces.AddressSpace.UnmapFree: the range, extended by one region, ends below the end of the address space, because the code's address arithmetic would overflow; and no page in it, GLOBAL or from the identity mapping, would make the allocator free what was never allocated (`Ownership.Removable`).
- AddressSpaces.AddressSpace.Hardware: the processor's accessed and dirty bits are not stored in the words of the tables; nothing the code reads and no translation would differ (`PageTables.WalkIgnoresAccessed`).
- Reuse.LockedForever: what a call does to the tables is the relation `Reuse.TableStep`, which every call from a sound state is shown to follow; after a dangling large page was freed, what further calls do depends on how the per-zone buddy treats a block that is freed twice.
- ZonedBuddy.Allocator.AddZone: the range ends below the end of the address space, where the code's sums of addresses would wrap around.
- ZonedBuddy.Allocator.Free: a block that lies in a zone is live with that size, because the buddy's behaviour for other blocks is not known.
- SetupPaging.SetupZones: available areas lie below 4 GiB, because addresses are truncated to 32 bits; the memory map is a list of (start, end, available), and parsing it is not modelled.
- ConcurrentBuddy.ConcurrentSafety: steps are sequentially consistent, as the counters' ordering asks; a zone is pushed only between calls, as the write lock has it. Fairness and progress are not modelled.
- Processor.ReachIsTrans: writes by the kernel to read-only pages count as faults, which CR0.WP decides; the boot code does not set it.
- READ and EXECUTE, which have no bit in a 32-bit entry, drop out of what a page translates to.
- Loading the GDT, the task segment and the control registers, interrupts, the logger, panics, the heap and the linker scripts beyond the order and alignment of sections.
