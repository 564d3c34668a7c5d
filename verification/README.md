# Memory manager, serial line and console of a small x86-64 kernel

This project is a Dafny model of the stateful core of the kernel, with proofs.

**One memory, three allocators.** RAM is a single sequence of 4 KiB frames of 512 words
(`PhysicalMemory`). Everything the kernel stores lies in those words: the links of the free-frame
ring inside the free frames, the allocator's record in frame 0, the four levels of page tables, the
contents of heap pages, and inside those the headers and free-list links of `kmalloc`. Any of these
could overwrite any other, so the invariant that keeps them apart is the main object of the proofs.

- `FramePool`, `FrameRing`, `FrameAllocation`: the page-frame allocator as a stack plus an unpooled
  range, the circular doubly linked list that realises it in memory, and the class whose methods
  move words the way `pf_alloc.c` does.
- `MemoryState`: the abstract state. A ledger `own` names one owner for every managed frame (record,
  pool, page table, heap page, direct caller). `Inv` says that ledger, pool, tables and pages agree,
  which tables exist for the present heap top, and how many there are.
- `EntryBits`, `EntryMasks`, `PageTables`, `TableWalk`, `MemoryLayout`: entry masks, the page tables in memory, the
  kernel's walk and the processor's walk (section 4.5 of the Intel 64 SDM, Volume 3A), and what
  each kind of write does to memory as a whole.
- `VirtualPages`: class `Mmu`, the methods of `vp_alloc.c` on memory. `Valid()` ties memory to the
  state; each method's new state is the abstract operation, and its effect on heap contents is stated.
- `HeapBlocks`, `HeapMemory`, `KernelHeap`: `kmalloc` as blocks, lists and tallies; the same in heap
  memory; class `Kmalloc` on top of `Mmu`.
- `MemoryRuns`, `MemoryProgram`: theorems over every run of frame allocation and release, page
  reservation and release, faulting accesses, client stores and the accessed and dirty marks that
  the processor sets in page-table entries, and the methods that carry out steps and whole runs on
  memory.
- `HeapRuns`, `HeapProgram`: runs that mix `kmalloc`, `kfree`, stores into blocks and the steps of
  other clients. Seen from frames such a run is a run of `MemoryRuns`, seen from blocks a run of
  `HeapBlocks`, so the theorems of both layers hold of it; a method carries it out on memory.
- `BootInformation`, `Startup`: Multiboot2 tags (section 3.6 of the Multiboot2 Specification 2.0),
  usable regions, and the memory part of `kernel_main`.
- `SmallBoot`: boot information, byte by byte and in RAM, of a machine on which the ring starts empty.

**Beside it.** `SerialLine` (transmit ring and busy protocol against a FIFO), `VgaScreen` (the 25 x 80
screen against a terminal of unbounded height) and `NumberPrinter` (digits against values).

## What the code turns out to do

- `is_empty` compares the head's two links and so also holds of a ring with one frame. The last
  pooled frame is therefore never handed out, and "free then allocate returns the same frame" holds
  exactly when the ring was not empty before (`FramePool.FreeThenAlloc`); otherwise the freed frame
  stays behind (`FramePool.FreedFrameStaysBehind`).
- The ring starts empty exactly if the lower usable region is shorter than two frames
  (`SmallBoot.StartsEmpty`). `SmallBoot.SmallInfo(n)` is such boot information; it passes every assert
  of start-up. With one unpooled frame (`n` = 1) the very first allocation then fails the assert in
  `pop_elem` (`SmallBoot.SmallPool`), although `MMU_pf_alloc` means to return NULL. Once an allocation
  has succeeded the ring is never empty again (`FramePool.AllocOutcome`), so a caller that only frees
  frames it was given always gets the last one back; and from thirteen unpooled frames on the kernel
  starts on such a machine like on any other (`SmallBoot.SmallStarts`, `Startup.StartMemory`).
- Start-up writes ring links into the lower region, and the record into frame 0, before it has read
  all of the boot information. It works on boot information in memory that keeps clear of those words,
  wherever else it lies (`BootInformation.Spared`, `BootInformation.InitFrames`).
- All 512 identity entries have base 0, so every GiB below 512 GiB maps the first one. The shortcut
  of `get_lowest_present_page` for such addresses is right exactly below 1 GiB
  (`TableWalk.IdentityShortcut`).
- Every heap word is also reachable without its heap page: at its physical address and at the 511
  copies of that address one GiB apart, all below 512 GiB (`MemoryLayout.HeapWordAliased`). A store at
  heap address a shows at address b exactly if b = a or b is below 512 GiB and b modulo 1 GiB is the
  physical address of a (`MemoryLayout.HardwareReadOverWrite`).
- `kfree` does not raise `avail`: a freed chunk is handed out again at once only while the pool still has
  chunks that were never used (`HeapBlocks.FreedChunkComesBack`). A pool takes max(1, ceil(n/k)) pages for n allocations with k chunks a page,
  whatever was freed, and its free list is longer than `avail` by the number of frees
  (`HeapBlocks.RunPageCount`).
- A carriage return on the screen goes down one row and keeps the column (core/src/vga.c:72-75), and a
  character code of 128 or more, being a negative `char`, sets the whole colour byte.

## Model

| member | source | states |
|---|---|---|
| FramePool.AllocOutcome | core/src/pf_alloc.c:188-213 | NULL exactly when nothing is unpooled and at most one frame is pooled; the assert of `pop_elem` fails exactly for an empty ring and one unpooled frame; success exactly when more than one frame is owned, taking one, leaving the pool non-empty and the end of managed memory fixed |
| FramePool.AllocConserves | core/src/pf_alloc.c:188-213 | an allocation removes exactly the returned frame from the multiset of owned frames, keeps them distinct and never returns frame 0 |
| FramePool.FreeConserves | core/src/pf_alloc.c:215-222 | a release adds exactly the given frame, once |
| FramePool.GrowKeepsFrames | core/src/pf_alloc.c:343-364 | moving frames from the range to the ring changes neither which frames are owned nor their order |
| FramePool.PopConserves | core/src/pf_alloc.c:416-426 | a pop removes one frame and leaves the others distinct |
| FramePool.FramesAreOwned | core/src/pf_alloc.c:343-364 | the frames in pooling order are those in the ring or in the range |
| FramePool.FreeThenAlloc | core/src/pf_alloc.c:403-426 | free then allocate gives the frame and the pool back if and only if the pool was not empty; otherwise, with nothing unpooled, NULL |
| FramePool.AllocManySplit | core/src/pf_alloc.c:188-213 | a+b allocations are a allocations followed by b |
| FramePool.FreedFramesComeBackReversed | core/src/pf_alloc.c:408-426 | frames freed one by one and then allocated back come in reverse order and leave the pool as it was |
| FramePool.AllocExhausts | core/src/pf_alloc.c:188-213 | a run without frees hands out every owned frame but one, each once, and then gets NULL, also from an empty ring with at least two unpooled frames |
| FramePool.FreedFrameStaysBehind | core/src/pf_alloc.c:188-222 | on an empty ring a freed frame is not the next one allocated: NULL if nothing is unpooled, else the last frame moved from the range, while the freed one stays in the ring |
| FramePool.RefillTakes | core/src/pf_alloc.c:200-212 | a refill moves 500 frames, or all there are if fewer, and returns the last one moved; the others stay in the ring in order |
| FramePool.RingServes | core/src/pf_alloc.c:416-426 | with two frames or more in the ring the last one is returned and the range stays |
| FramePool.RangeUsed | core/src/pf_alloc.c:188-213 | over any number n of allocations without frees, from a ring that can serve r, the range has moved on by min(500 * ceil((n - r)/500), unpooled) frames |
| FrameRing.IsEmptyMeans | core/src/pf_alloc.c:403-406 | the head's links are equal if and only if at most one frame is in the ring |
| FrameRing.TraversalsMirror | core/src/pf_alloc.c:392-426 | following `next` visits the frames in order and returns to the head, following `prev` visits them backwards, step n of one being step length - n of the other |
| FrameRing.ForwardIs | core/src/pf_alloc.c:408-414 | n `next` links lead to the n-th frame |
| FrameRing.BackwardIs | core/src/pf_alloc.c:408-414 | n `prev` links lead to the n-th frame from the end |
| FrameRing.AddKeepsRing | core/src/pf_alloc.c:408-414 | the four link writes turn a ring over c into a ring over c + [f] |
| FrameRing.PopKeepsRing | core/src/pf_alloc.c:416-426 | the two link writes turn a ring into the ring without its last frame |
| FrameRing.AddElem | core/src/pf_alloc.c:408-414 | the four writes in memory append the frame to the ring and change only link words of ring frames |
| FrameRing.PopElem | core/src/pf_alloc.c:416-426 | returns the last frame, removes it, and changes only link words of frames that stay |
| FrameRing.IsEmpty | core/src/pf_alloc.c:403-406 | the comparison of links tells rings of at most one frame |
| FrameAllocation.PoolLower | core/src/pf_alloc.c:392-401 | from any memory: the ring holds frames 1 to n-1 in order, and nothing but the links of the first n frames was written |
| FrameAllocation.FrameAllocator.constructor | core/src/pf_alloc.c:366-389 | beside such a ring the record of the whole upper frames is written, three words and no more |
| FrameAllocation.AddLowerPages | core/src/pf_alloc.c:329-341 | the loop puts frames 1 to n-1 into the ring in order, both asserts hold, and frames from n on stay untouched |
| FrameAllocation.FrameAllocator.Alloc | core/src/pf_alloc.c:188-213 | on memory: returns what the stack-and-range allocator returns (NULL included), record and ring in step, no frame outside the pool touched |
| FrameAllocation.FrameAllocator.Free | core/src/pf_alloc.c:215-222 | on memory: pushes the frame, touching only pool frames |
| FrameAllocation.FrameAllocator.AddNewUpperPages | core/src/pf_alloc.c:343-364 | the loop moves exactly n frames from range to ring; base + length stays |
| MemoryState.TakeKeeps | core/src/pf_alloc.c:188-213 | a frame moved from the pool to a table, a page or a caller had no owner but the pool, and ledger, tables and pages agree again |
| MemoryState.GiveKeeps | core/src/pf_alloc.c:215-222 | a frame moved back from a page or a caller keeps the agreement |
| MemoryState.BootInv | core/src/vp_alloc.c:69-80 | the state after start-up satisfies the invariant, two frames poorer, over the same managed frames |
| MemoryState.AddTableKeeps | core/src/vp_alloc.c:205-213 | one new table makes the path exist one level further down and takes one frame |
| MemoryState.AddTablesRound | core/src/vp_alloc.c:205-213 | each round of the loop lowers the level at which the walk stops by exactly one |
| MemoryState.MissingTables | core/src/vp_alloc.c:205-213 | at the heap top the missing tables are those of which the page is the first |
| MemoryState.ReservePageKeeps | core/src/vp_alloc.c:184-222 | reserving takes at most three frames, all tables; only the page at the top changes, from absent to demand |
| MemoryState.ReservePages | core/src/vp_alloc.c:87-98 | n pages: invariant, top up by n, frames taken equal the tables made |
| MemoryState.ReservedPages | core/src/vp_alloc.c:87-98 | exactly the new range becomes demand pages; every other page keeps its state and no page of the range was in use |
| MemoryState.TableCountMonotone | core/src/vp_alloc.c:205-213 | a larger heap never has fewer tables |
| MemoryState.FaultInKeeps | core/src/vp_alloc.c:290-320 | a handled fault moves only its page, from demand to mapped, and takes one frame |
| MemoryState.TouchedPages | core/src/vp_alloc.c:290-320 | after an access the page is mapped, no other changed, and a frame was taken only if it was on demand |
| MemoryState.ReleasePageKeeps | core/src/vp_alloc.c:115-139 | releasing a page returns its frame if it was mapped and keeps the invariant |
| MemoryState.Releasable | core/src/vp_alloc.c:115-139 | counts the pages in use before the first that is not |
| MemoryState.ReleasePages | core/src/vp_alloc.c:105-140 | exactly the range becomes absent; tables and heap top stay |
| MemoryState.ReleaseNext | core/src/vp_alloc.c:115-139 | within the loop the page is still in use exactly as long as no assert has stopped it |
| MemoryState.ReleasedInOrder | core/src/vp_alloc.c:115-139 | the frames of a freed range go into the ring in page order, so that of its last mapped page is the next one handed out |
| MemoryState.AllocFrameKeeps | core/src/pf_alloc.c:188-213 | a direct allocation keeps the invariant and changes nothing exactly when no frame is available |
| MemoryState.FreeFrameKeeps | core/src/pf_alloc.c:215-222 | returning a held frame keeps the invariant |
| EntryBits.PresentFrame | core/src/vp_alloc.c:210-211 | setting, testing, clearing flags and masking recover a frame address |
| EntryBits.LeadsBits | core/src/vp_alloc.c:244-282 | of an entry for a frame, whatever marks the processor set in it, the masks recover the frame, and clearing the flags leaves marks at most |
| EntryBits.RemarkLeads | core/src/vp_alloc.c:244-282 | replacing the marks keeps what the entry leads to |
| EntryBits.NoFlags | core/src/vp_alloc.c:126-132 | what is left of a freed entry is neither on demand nor present nor writeable |
| EntryMasks.PresentMask | core/src/vp_alloc.c:20-21 | on 64-bit words: setting, clearing and testing the present and write bits are the model's operations on the words' values |
| EntryMasks.DemandMask | core/src/vp_alloc.c:22 | the same for testing, setting and clearing bit 9 |
| EntryMasks.AddressMask | core/src/vp_alloc.c:252-281 | the address mask is the model's base of an entry |
| EntryMasks.IndexMask | core/src/vp_alloc.c:232-235 | the four shifts and masks of an address are the model's table indices |
| PageTables.ChildUnique | core/src/vp_alloc.c:224-283 | tables form a tree: one entry of one table leads to a given table or page |
| PageTables.TableFramesDiffer | core/src/vp_alloc.c:205-213 | no two tables share a frame |
| PageTables.TablesUntouched | core/src/vp_alloc.c:224-283 | a write outside the table frames leaves all tables as they are |
| PageTables.PoolOffOthers | core/src/pf_alloc.c:408-426 | ring writes reach neither tables nor mapped frames |
| PageTables.LinkTable | core/src/vp_alloc.c:208-211 | a zeroed frame linked behind the entry gives exactly the tables of the larger state |
| PageTables.SetPage | core/src/vp_alloc.c:317-319 | rewriting one level-1 entry changes the state of that page only |
| TableWalk.WalkStep | core/src/vp_alloc.c:244-282 | an entry on the path is present exactly if the next table exists (or the page is mapped), and both base computations give it |
| TableWalk.PathTables | core/src/vp_alloc.c:244-282 | a path has its tables from level 4 down to the lowest without gap; a page in use has all of them |
| TableWalk.WalkFinds | core/src/vp_alloc.c:224-283 | on heap addresses the walk returns PHYSICAL, the mapped frame and the level-1 entry exactly for a mapped page, otherwise the entry of the lowest table present, its level and, below level 4, the entry one level up |
| TableWalk.HardwareAgrees | core/src/vp_alloc.c:224-283 | the processor's four-level walk translates a heap address exactly if its page is mapped, to the same frame, and otherwise faults at the level at which the kernel's walk stops |
| TableWalk.HwDown | core/src/vp_alloc.c:244-282 | the same from any level of the path on |
| TableWalk.UpperHalfStops | core/src/vp_alloc.c:244-250 | from 2^47 on the walk stops at a level-4 entry that is 0 |
| TableWalk.IdentityShortcut | core/src/vp_alloc.c:237-242 | below 512 GiB the shortcut returns the address, the processor the address modulo 1 GiB: they agree if and only if the address is below 1 GiB |
| TableWalk.IdentityWords | core/src/vp_alloc.c:153-165 | the root's entry 0 leads to the identity table, whose 512 entries all map the same first GiB, marked or not |
| TableWalk.IdentityWalk | core/src/vp_alloc.c:153-165 | the processor maps every address below 512 GiB into the first GiB |
| MemoryLayout.WalkIn | core/src/vp_alloc.c:224-283 | the walk on a memory in which ring, tables and pages are all laid out |
| MemoryLayout.EntryReadable | core/src/vp_alloc.c:308-315 | the handler can read whatever the walk returns, and its test passes exactly for a demand page |
| MemoryLayout.UnmappedEntry | core/src/vp_alloc.c:126-132 | the level-1 entry of an unmapped page has the demand bit exactly if reserved, never the present or write bit |
| MemoryLayout.LinkRound | core/src/vp_alloc.c:205-213 | one round keeps ring, tables and heap contents in place |
| MemoryLayout.EntryWrite | core/src/vp_alloc.c:215-221 | marking an entry keeps the ring and the contents of all other pages |
| MemoryLayout.FaultLayout | core/src/vp_alloc.c:317-319 | installing a frame adds the page's contents and keeps all others |
| MemoryLayout.MappedEntry | core/src/vp_alloc.c:120-123 | the entry of a mapped page leads to its frame, and rewriting it leaves the ring alone |
| MemoryLayout.ReleaseLayout | core/src/vp_alloc.c:115-139 | clearing the entry and freeing the frame removes that page's contents and nothing else |
| MemoryLayout.ReadOverWrite | core/src/vp_alloc.c:290-320 | a client store changes one word of one page: no ring link, no record, no table, no other page |
| MemoryLayout.HardwareReadOverWrite | core/src/vp_alloc.c:153-165 | through the processor's translation, for every b below 2^47: after a store at a mapped heap address a, b translates as before, fault or not; a load at b gives the stored word if b translates to the word of a, else what it gave before; and it does so if and only if b = a or b is below 512 GiB and b modulo 1 GiB is the physical address of a |
| MemoryLayout.SameTranslation | core/src/vp_alloc.c:153-165 | which addresses share the word of a heap address |
| MemoryLayout.HeapWordAliased | core/src/vp_alloc.c:153-165 | each mapped heap word has 512 other addresses, one in every GiB of the identity table, through which the stored word is read |
| MemoryLayout.LoadAfterStore | core/src/vp_alloc.c:290-320 | a store to physical memory changes the load from that word only |
| MemoryLayout.TranslationKept | core/src/vp_alloc.c:290-320 | a store through one mapped heap address changes the translation of no address below 2^47, mapped, unmapped or identity |
| MemoryLayout.HeldWrite | core/src/pf_alloc.c:188-213 | a caller's store into a frame it holds changes nothing the kernel or a heap page holds |
| MemoryLayout.MarkLayout | core/src/vp_alloc.c:244-282 | the processor's marks in a present entry leave ring, tables, heap contents and held frames as they are |
| MemoryLayout.MarkTranslation | core/src/vp_alloc.c:244-282 | and change the translation of no address below 2^47 |
| MemoryLayout.HeldTake | core/src/pf_alloc.c:188-213 | an allocation writes to no frame that a direct caller holds, and takes none |
| MemoryLayout.HeldLink | core/src/vp_alloc.c:208-211 | nor does a new table or a fault |
| MemoryLayout.HeldClear | core/src/vp_alloc.c:120-123 | nor does freeing a mapped page |
| MemoryLayout.LinkOffPath | core/src/vp_alloc.c:205-213 | a round writes one entry, on the path; every other table word stays, those left by freed pages included |
| VirtualPages.Mmu.constructor | core/src/vp_alloc.c:69-80 | root and identity table are built in memory; the heap is empty at its base |
| VirtualPages.InitTables | core/src/vp_alloc.c:153-165 | the writes of start-up produce the laid-out memory of the boot state |
| VirtualPages.FillIdentity | core/src/vp_alloc.c:161-164 | the loop fills all 512 entries and touches no other frame |
| VirtualPages.NewTable | core/src/vp_alloc.c:208-209 | a frame from the pool, zeroed, outside the pool afterwards |
| VirtualPages.WriteTableEntry | core/src/vp_alloc.c:210-211 | the two writes leave the frame address with present and write flags |
| VirtualPages.Mmu.LinkNewTable | core/src/vp_alloc.c:205-213 | one round in memory is one abstract table; heap contents stay |
| VirtualPages.Mmu.AllocVirtualPage | core/src/vp_alloc.c:184-222 | loop and demand mark in memory are exactly one reserved page; the number of rounds is the number of missing tables; heap contents stay; no table moves and every table word off the path of the address keeps its value |
| VirtualPages.Mmu.ReserveEntry | core/src/vp_alloc.c:215-221 | neither assert fails and the entry becomes on demand |
| VirtualPages.Mmu.AllocPages | core/src/vp_alloc.c:87-98 | returns the old heap top and reserves exactly n pages; contents of mapped pages stay |
| VirtualPages.Mmu.FreePages | core/src/vp_alloc.c:105-140 | for any count: passes all asserts if and only if the address is aligned, the count positive and every page of the range in use, ranges that run past 2^47 included; releases exactly the pages before the failing one; other pages and held frames keep their contents |
| VirtualPages.Mmu.FreeOne | core/src/vp_alloc.c:115-139 | one round succeeds exactly for a page in use and removes it alone |
| VirtualPages.Mmu.ClearReserved | core/src/vp_alloc.c:126-132 | the two asserts on the entry pass exactly for a reserved page |
| VirtualPages.Mmu.ClearMapped | core/src/vp_alloc.c:120-125 | flags are cleared and the frame goes back to the ring |
| VirtualPages.Mmu.PageFaultHandler | core/src/vp_alloc.c:290-320 | handles a fault, in the lower or the upper half, exactly for a demand page and then maps that page only; otherwise halts with nothing changed |
| VirtualPages.Mmu.InstallFrame | core/src/vp_alloc.c:317-319 | the page gets a frame; other contents stay |
| VirtualPages.Mmu.Touch | core/src/vp_alloc.c:290-320 | an access faults at most once; afterwards the processor translates to the page's frame |
| VirtualPages.Mmu.WriteWord | core/src/vp_alloc.c:290-320 | a store changes one word of the page's contents and no other page, fault included |
| VirtualPages.Mmu.ReadWord | core/src/vp_alloc.c:290-320 | a load returns the word that the page holds |
| VirtualPages.Mmu.AllocFrame | core/src/pf_alloc.c:188-213 | a direct caller gets NULL exactly if no frame is available, else a frame that only the pool owned; heap contents stay |
| VirtualPages.Mmu.FreeFrame | core/src/pf_alloc.c:215-222 | a held frame returns to the pool; heap contents stay |
| VirtualPages.Mmu.WriteFrame | core/src/pf_alloc.c:188-213 | a store into a held frame changes that word and no heap page |
| VirtualPages.Mmu.ProcessorMarks | core/src/vp_alloc.c:244-282 | the processor marks an entry at any time: state, heap contents and held frames stay |
| VirtualPages.Mmu.HeapPages | core/src/vp_alloc.c:87-98 | pages with contents are the mapped ones, all between heap base and heap top |
| MemoryRuns.DoKeeps | core/src/vp_alloc.c:87-140 | every operation keeps the invariant and the set of managed frames; only reservation moves the heap top |
| MemoryRuns.RunKeepsInvariant | core/src/pf_alloc.c:188-222 | over every run each managed frame has exactly one owner and none appears or disappears |
| MemoryRuns.Partition | core/src/pf_alloc.c:188-222 | the managed frames are the disjoint union of record, ring, range, tables, mapped and held frames |
| MemoryRuns.FramesAddUp | core/src/pf_alloc.c:343-364 | 1 + ring + range + tables + mapped pages + held frames equals the managed frames |
| MemoryRuns.TableCountClosed | core/src/vp_alloc.c:205-213 | counting tables page by page gives ceil(n/512) + ceil(n/512^2) + ceil(n/512^3) |
| MemoryRuns.RunTableCost | core/src/vp_alloc.c:69-98 | after any run that reserved N pages the table frames number exactly 2 + ceil(N/512) + ceil(N/512^2) + ceil(N/512^3) |
| MemoryRuns.ReserveTakesOnlyTables | core/src/vp_alloc.c:205-221 | reserving pages takes no frame for data |
| MemoryRuns.FreedStaysFree | core/src/vp_alloc.c:87-98 | a page below the top that is not in use never comes back into use |
| MemoryRuns.SecondFreeIsCaught | core/src/vp_alloc.c:126-132 | a later free of any range that contains a freed page, wherever either call starts, stops at an assert, at the latest at that page, whatever happened since |
| MemoryRuns.RangesDisjoint | core/src/vp_alloc.c:87-98 | the ranges returned over a run never overlap, even after frees |
| MemoryRuns.UnstoredStays | core/src/vp_alloc.c:290-320 | a word, in a page or in a held frame, that no step of a run stores to keeps its value |
| MemoryRuns.LastStoreWins | core/src/vp_alloc.c:290-320 | of several stores to a word over a run the last one counts |
| MemoryProgram.Perform | core/src/vp_alloc.c:87-140 | each call on memory is exactly the abstract step; a page not released stays mapped, a frame not returned stays held, and both hold what they held, but for the stored word |
| MemoryProgram.PerformAll | core/src/vp_alloc.c:87-140 | a whole run on memory ends in the state of the abstract run; a page mapped at the start and never released, and a frame held at the start and never returned, hold, word by word, what was stored there last |
| MemoryProgram.BootAndRun | core/src/vp_alloc.c:69-98 | from start-up, after any run on memory: heap top, number of page-table frames and the sum of all frames are as the run says |
| HeapBlocks.BestPoolIsTight | core/src/kmalloc.c:110-123 | the smallest pool that fits; none exactly beyond 2048 bytes; its chunk is under twice the need once that exceeds 32 |
| HeapBlocks.ChunksFillPage | core/src/kmalloc.c:129-130 | chunks fill a page exactly |
| HeapBlocks.ChunkInPage | core/src/kmalloc.c:136-140 | every chunk lies inside its page on a 32-byte boundary |
| HeapBlocks.ChunksApart | core/src/kmalloc.c:136-140 | chunks of a page do not overlap |
| HeapBlocks.AddPageKeeps | core/src/kmalloc.c:125-144 | adding a page to an exhausted pool keeps the invariant and makes a page's worth of chunks available |
| HeapBlocks.PopChunkKeeps | core/src/kmalloc.c:77-88 | whenever `avail` is positive there is a free chunk to pop; popping keeps the invariant |
| HeapBlocks.PushChunkKeeps | core/src/kmalloc.c:105-107 | a freed chunk joins the list, `avail` stays |
| HeapBlocks.FreedChunkComesBack | core/src/kmalloc.c:77-108 | a freed chunk is what the next kmalloc from its pool returns if and only if `avail` is positive; with `avail` 0 kmalloc takes a new page and returns its first chunk |
| HeapBlocks.AddLargeKeeps | core/src/kmalloc.c:68-75 | a run of unused pages becomes a block |
| HeapBlocks.DropLargeKeeps | core/src/kmalloc.c:99-103 | and leaves again, keeping the invariant |
| HeapBlocks.BlockExtent | core/src/kmalloc.c:60-89 | every block lies inside one page or its own run, aligned, and every live block, pooled or large, has room for header and requested bytes |
| HeapBlocks.BlocksApart | core/src/kmalloc.c:60-89 | any two blocks, live or free, are disjoint |
| HeapBlocks.PoolCounts | core/src/kmalloc.c:49-58 | free + live chunks = pages x chunks per page; list length = `avail` + frees; pages = max(1, ceil(allocs/k)) |
| HeapBlocks.LargePagesLeast | core/src/kmalloc.c:70 | the page count of a large block is the least that holds header and size |
| HeapBlocks.RefilledKeeps | core/src/kmalloc.c:77-80 | after the refill check the pool's head is a free chunk of that pool |
| HeapBlocks.DoKeeps | core/src/kmalloc.c:60-108 | every call keeps the invariant; kmalloc returns a block that was not live, recorded for the bytes asked, large exactly if no pool fits, else of the smallest pool that does |
| HeapBlocks.RunKeeps | core/src/kmalloc.c:60-108 | over every run of kmalloc and kfree the invariant holds and allocations are counted |
| HeapBlocks.RunPageCount | core/src/kmalloc.c:49-58 | after n allocations in a pool it has taken exactly max(1, ceil(n/k)) pages, regardless of frees; free + live and list length as in PoolCounts |
| HeapMemory.PayloadWrite | core/src/kmalloc.c:86-88 | an in-bounds client store damages no header and no free-list link |
| HeapMemory.PayloadsSurvive | core/src/kmalloc.c:60-108 | a call that touches block c changes no word of any other block |
| HeapMemory.AddPageInMemory | core/src/kmalloc.c:125-144 | the threaded page is the pool's new list in memory |
| HeapMemory.PopInMemory | core/src/kmalloc.c:82-88 | the header written over the link gives the smaller heap in memory |
| HeapMemory.PushInMemory | core/src/kmalloc.c:105-107 | the link written over the header gives the larger list in memory |
| HeapMemory.LargeInMemory | core/src/kmalloc.c:70-74 | the header of a large block on fresh pages |
| HeapMemory.DropInMemory | core/src/kmalloc.c:99-103 | the rest of the heap survives when its pages go |
| HeapMemory.UsesKept | core/src/kmalloc.c:60-108 | what happens outside kmalloc's pages does not touch its headers and links |
| KernelHeap.Kmalloc.constructor | core/src/kmalloc.c:49-58 | one page for every pool, each list full; the heap top moves by seven pages and the managed frames stay the same |
| KernelHeap.Kmalloc.GetBestPool | core/src/kmalloc.c:110-123 | the loop finds the pool of the specification |
| KernelHeap.Kmalloc.AddPage | core/src/kmalloc.c:125-144 | one page from the heap top, threaded into the pool's list; all words written before stay |
| KernelHeap.Kmalloc.CarvePage | core/src/kmalloc.c:129-143 | the page's chunks link in order, the last to the old head; `avail` and `head` set |
| KernelHeap.Kmalloc.TakeRun | core/src/kmalloc.c:71 | pages from MMU_alloc_pages are on demand, without contents and nobody's, and every other page in use stays so |
| KernelHeap.Kmalloc.UseHead | core/src/kmalloc.c:82-87 | the pool's head moves to the next chunk and the header goes over the link of the one taken |
| KernelHeap.Kmalloc.ThreadPage | core/src/kmalloc.c:136-142 | the loop in memory: every chunk links to the next, other pages keep their words |
| KernelHeap.Kmalloc.Alloc | core/src/kmalloc.c:60-89 | on memory: exactly the abstract call, taking exactly the pages it wants; the result is 16 bytes past the block's header, 16-byte aligned, with room for the requested bytes in the block; no word outside the header changes |
| KernelHeap.AllocatedFits | core/src/kmalloc.c:60-89 | what kmalloc returns is aligned payload of a live block that holds at least the size asked |
| KernelHeap.Kmalloc.AllocLarge | core/src/kmalloc.c:68-75 | when no pool fits: the least number of whole pages |
| KernelHeap.Kmalloc.AllocChunk | core/src/kmalloc.c:77-88 | when a pool fits: one page more exactly if nothing is available, then its head |
| KernelHeap.Kmalloc.TakeChunk | core/src/kmalloc.c:82-88 | pops the head and writes its header |
| KernelHeap.Kmalloc.TakeLarge | core/src/kmalloc.c:68-75 | whole pages at the old heap top with header in front |
| KernelHeap.Kmalloc.Release | core/src/kmalloc.c:91-108 | on memory: exactly the abstract call; a pooled block changes only its own header words and no page, a large one gives back exactly its pages |
| KernelHeap.Kmalloc.ReadHeader | core/src/kmalloc.c:95-97 | the header read back gives pool and size, or the page count of a large block |
| KernelHeap.Kmalloc.DropPages | core/src/kmalloc.c:99-103 | freeing the run passes every assert of MMU_free_pages and removes exactly its pages |
| KernelHeap.Kmalloc.PushHead | core/src/kmalloc.c:105-107 | the block becomes the head of its pool's list |
| KernelHeap.Kmalloc.WritePayload | core/src/kmalloc.c:86-88 | an owner's in-bounds store, fault included, keeps heap and tables valid and changes that word only |
| HeapRuns.StepsRun | core/src/kmalloc.c:60-108 | every call of kmalloc or kfree is, for frames and pages, a run of the layer below: reserve and touch, release, or nothing |
| HeapRuns.DoKeeps | core/src/kmalloc.c:60-108 | kmalloc, kfree, block stores and any step of another client that spares kmalloc's pages keep the invariants of both layers and all of kmalloc's pages in use |
| HeapRuns.RunKeeps | core/src/kmalloc.c:60-108 | the same over every mixed run |
| HeapRuns.FrameView | core/src/vp_alloc.c:87-140 | a mixed run is a run on frames and pages, so conservation, table cost, disjoint ranges and caught double frees hold of it |
| HeapRuns.HeapView | core/src/kmalloc.c:60-108 | a mixed run is a run of kmalloc's calls, so its counts and free lists hold of it |
| HeapRuns.MixedRun | core/src/kmalloc.c:49-58 | after every mixed run no frame was lost, kinds add up, tables follow the heap top, and a pool took max(1, ceil(n/k)) pages for n requests |
| HeapRuns.LiveStays | core/src/kmalloc.c:60-108 | a live block stays where and as it is until it is freed itself |
| HeapRuns.LastStoreWins | core/src/kmalloc.c:60-108 | of several stores to a payload word the last one counts |
| HeapProgram.PerformOther | core/src/kmalloc.c:60-108 | any step of another client on memory leaves kmalloc valid, its state as it was and every word in its pages |
| HeapProgram.PerformEvent | core/src/kmalloc.c:60-108 | one event on memory is the event on the states; every payload word of a block not freed is kept but for the stored one, and kmalloc touches no held frame |
| HeapProgram.PerformEvents | core/src/kmalloc.c:60-108 | a mixed run on memory ends in the state of the abstract run; every payload word of a block never freed, and every word of a frame held throughout, holds what was stored there last |
| BootInformation.WholeFrames | core/src/pf_alloc.c:442-455 | a frame lies within two addresses exactly if it lies within their rounded bounds |
| BootInformation.FindTag | core/src/pf_alloc.c:257-275 | terminates on every closed tag list at the first tag of the type, or reports none exactly if there is none before the end tag |
| BootInformation.FindIsFirst | core/src/pf_alloc.c:257-275 | the walk's result is the first match in the list of tags |
| BootInformation.UsableRegions | core/src/pf_alloc.c:298-327 | the loop finds the usable region at 0 and the one above |
| BootInformation.BytesKept | core/src/pf_alloc.c:277-296 | boot information clear of the words that start-up writes reads the same afterwards |
| BootInformation.FieldIsWord | core/src/pf_alloc.c:224-240 | an aligned 64-bit field of the boot information is the word of memory that holds it |
| BootInformation.InitFrames | core/src/pf_alloc.c:277-296 | on boot information in memory, read again after each write as the source does: pools exactly the frames wholly inside the lower region except frame 0 and leaves unpooled exactly those wholly between the last ELF section and the end of the upper region |
| BootInformation.MemoryEndIsHighest | core/src/pf_alloc.c:433-440 | on a map that ascends without overlap the reported memory size is the highest end of any region: none ends above it and one ends there |
| SmallBoot.StartsEmpty | core/src/pf_alloc.c:329-341 | from boot information that passes the asserts the ring starts empty if and only if the lower region is shorter than two frames |
| SmallBoot.FirstAlloc | core/src/pf_alloc.c:188-213 | on such a machine the first allocation fails the assert of `pop_elem` exactly with one unpooled frame and returns NULL exactly with none |
| SmallBoot.SmallBoots | core/src/pf_alloc.c:165-186 | concrete boot information with such a lower region passes every assert |
| SmallBoot.SmallPool | core/src/pf_alloc.c:366-389 | it leaves an empty ring and n unpooled frames, and with n = 1 the first allocation halts |
| SmallBoot.SmallSize | core/src/pf_alloc.c:433-440 | its memory size is reported as 1 MiB and n + 1 frames |
| SmallBoot.SmallStarts | core/src/kernel_main.c:60-67 | on it the frames suffice for start-up if and only if n is at least 13 |
| SmallBoot.SmallInMemory | core/src/pf_alloc.c:165-186 | a concrete RAM holds it clear of all that start-up writes, so everything asked of a machine at start-up can be met |
| Startup.RoomAtStart | core/src/kernel_main.c:60-66 | twelve frames to take, pooled or not, suffice for tables and the seven first pages |
| Startup.StartMemory | core/src/kernel_main.c:60-67 | from boot information that passes the asserts and twelve frames to take, start-up ends with a working heap of seven pages, five page tables, and exactly frame 0, the whole lower frames and the whole upper frames above the last ELF section under management |
| SerialLine.DoConserves | core/src/serial.c:78-149 | sent + queued bytes grow by exactly what a write accepts, which is a prefix of length min(len, free slots); after a write, flush or TX interrupt a non-empty queue is busy |
| SerialLine.RunIsFifo | core/src/serial.c:78-149 | over every run bytes sent followed by bytes queued are the accepted bytes in order |
| SerialLine.FlushEmpties | core/src/serial.c:102-124 | a flush at the end of any run, from any state, has sent everything accepted and leaves the line empty and idle |
| SerialLine.WriteSends | core/src/serial.c:78-149 | a write queues what fits below 1023 bytes, then sends exactly the oldest byte if the line was idle or bit 5 of the line status is set, else none |
| SerialLine.InterruptSends | core/src/serial.c:213-235 | an interrupt with cause 2 or 3 sends exactly the oldest byte, or idles the line if none waits; any other changes nothing |
| SerialLine.InterruptsDrain | core/src/serial.c:213-235 | n TX interrupts send exactly the first n queued bytes |
| SerialLine.SerialPort.constructor | core/src/serial.c:61-76 | an empty ring, not busy |
| SerialLine.SerialPort.IsEmpty | core/src/serial.c:161-166 | equal pointers mean an empty queue |
| SerialLine.SerialPort.IsFull | core/src/serial.c:168-173 | the pointer test means 1023 bytes are queued |
| SerialLine.SerialPort.Consume | core/src/serial.c:175-192 | removes and returns the first byte exactly if there is one |
| SerialLine.SerialPort.Produce | core/src/serial.c:194-211 | appends exactly if fewer than 1023 bytes are queued |
| SerialLine.SerialPort.InitHwWrite | core/src/serial.c:126-149 | brings `busy` up to date and sends the first byte if the line is idle |
| SerialLine.SerialPort.ProduceAll | core/src/serial.c:87-91 | the loop queues exactly the longest prefix that fits |
| SerialLine.SerialPort.SerWrite | core/src/serial.c:78-100 | is the FIFO's write |
| SerialLine.SerialPort.SerFlush | core/src/serial.c:102-124 | sends everything queued in order and goes idle |
| SerialLine.SerialPort.IrqHandler | core/src/serial.c:213-235 | is the FIFO's interrupt, for every cause register value |
| VgaScreen.TypeSane | core/src/vga.c:56-107 | the cursor stays in its row and goes down at most one row a character |
| VgaScreen.TextRunsOn | core/src/vga.c:67-88 | plain text fills cell after cell across rows and changes no other cell |
| VgaScreen.TypeMoves | core/src/vga.c:67-88 | newline: column 0 of the next row; carriage return: same column, next row; any other character: one cell on |
| VgaScreen.NewlineBreaks | core/src/vga.c:67-71 | text after a newline fills the cells from the left edge of the row below the one in which the text before it ended, the cursor behind it; all other cells keep what they held |
| VgaScreen.ReturnGoesDown | core/src/vga.c:72-75 | text after a carriage return continues one row down in the column reached |
| VgaScreen.EraseUndoesType | core/src/vga.c:122-130 | backspace after a character that did not wrap restores cursor and a blank |
| VgaScreen.EraseMoves | core/src/vga.c:122-130 | backspace in column 0 changes nothing, elsewhere it goes back one cell and blanks it alone |
| VgaScreen.BackspacesUndo | core/src/vga.c:122-130 | text typed within a row and backspaced again leaves the cursor where it was and blanks in place of the text |
| VgaScreen.GlyphColours | core/src/vga.c:132-135 | a 7-bit character shows as its code in light grey on black, one from 128 on with every colour bit set |
| VgaScreen.ScreenShows | core/src/vga.c:143-155 | the screen's rows are the terminal's first 25, or its last 25 once the cursor went below; a cell never written is blank |
| VgaScreen.WriteShows | core/src/vga.c:132-135 | a write on the terminal is a write at x + 80*y of the screen |
| VgaScreen.ScrollShows | core/src/vga.c:143-150 | going below the last row is the window shifted by a row with a blank one below |
| VgaScreen.TypeShows | core/src/vga.c:56-107 | for every character the window after it is the old one with the cell written and, at the bottom, scrolled |
| VgaScreen.Screen.constructor | core/src/vga.c:48-54 | a cleared screen is the window on an empty terminal |
| VgaScreen.Screen.ClearFrom | core/src/vga.c:170-176 | cells from an offset on are blank, those before stay |
| VgaScreen.Screen.Scroll | core/src/vga.c:143-150 | the copies shift the buffer up a row and blank the last |
| VgaScreen.Screen.DisplayChar | core/src/vga.c:56-107 | no assert fails, and buffer, position and cursor are those of the terminal after the character |
| VgaScreen.Screen.DisplayStr | core/src/vga.c:109-120 | the same for a whole string |
| VgaScreen.Screen.BackspaceChar | core/src/vga.c:122-130 | the same for backspace |
| VgaScreen.Screen.PressKeys | core/src/vga.c:56-130 | after every run of characters and backspaces no assert failed, the buffer is the last 25 rows of the terminal and the cursor is x + 80*y |
| VgaScreen.PastRowsStay | core/src/vga.c:143-150 | no run of characters and backspaces changes a row above the cursor's |
| NumberPrinter.CharRoundTrip | core/src/printk.c:276-295 | digits read back, and only zero prints as '0' |
| NumberPrinter.PrintedInCase | core/src/printk.c:276-295 | everything printed is a decimal digit or a letter of the case asked for, and in base 10 there are no letters |
| NumberPrinter.DigitsValue | core/src/printk.c:248-274 | the digits parse back to the value |
| NumberPrinter.DigitsNumeral | core/src/printk.c:248-274 | every character is a digit of the base and the first is not '0' |
| NumberPrinter.PrintedRoundTrip | core/src/printk.c:248-274 | what is printed is a numeral that parses back, zero included |
| NumberPrinter.LengthBound | core/src/printk.c:250-264 | a value below base^n has at most n digits |
| NumberPrinter.FitsBuffer | core/src/printk.c:250-264 | at most 20 decimal or 16 hexadecimal digits, so the 64-byte buffer is never overrun |
| NumberPrinter.FillBackwards | core/src/printk.c:259-264 | the loop stores the digits from the last to the first within the buffer |
| NumberPrinter.PrintUnsigned | core/src/printk.c:248-274 | both loops together print the numeral |
| NumberPrinter.PrintSigned | core/src/printk.c:225-236 | sign and digits, the negation wrapping in 64 bits |
| NumberPrinter.SignedRoundTrip | core/src/printk.c:225-236 | the signed text parses back to the value, the most negative one included |

## Left out

- Boot code, GDT, interrupt descriptors, PIC, keyboard, port I/O: hardware set-up. The transmit register is a list of bytes; line status, interrupt cause and CR2 are inputs.
- Translation caches: a multi-page free invalidates only its first page (core/src/vp_alloc.c:124), so the model's processor walks the tables on every access.
- VirtualPages.Mmu.constructor: requires two frames, because the result of MMU_pf_alloc is used without looking for NULL.
- VirtualPages.Mmu.AllocPages: requires enough frames for the tables and address space below 2^47, for the same reason.
- VirtualPages.Mmu.AllocVirtualPage: likewise; and the second argument is always "on demand", as in the source's one call.
- VirtualPages.Mmu.FreePages: is stated for addresses from 2^39 to 2^48; below, the walk takes the identity shortcut and would use an entry pointer that was never set, above, it drops the high bits of an address that the processor does not accept.
- VirtualPages.Mmu.PageFaultHandler: requires a frame for a demand page, since the handler would map NULL; and is stated for the canonical addresses from 2^39 on, as the identity tables never fault.
- VirtualPages.Mmu.WriteWord: what a freshly faulted page held before is arbitrary, because the handler does not clear the frame.
- alloc_virtual_page without demand and get_physical_addr: no caller.
- Physical memory is at most 1 GiB, since the identity mapping is the identity only there.
- Ram keeps memory as a sequence of frames that methods reassign; `pool_arr` is a field of records at an address of its own, outside the managed frames.
- Page-table walks are functions on memory, as they only read it.
- FrameAllocation.FrameAllocator.constructor: requires the lower region to end below the upper frames, as on every PC; no assert checks it.
- FrameAllocation.FrameAllocator.Free: requires a frame that is not pooled, because MMU_pf_free does not detect a double free of a frame.
- KernelHeap.Kmalloc.Alloc: requires size + 16 not to wrap and pages and frames to suffice.
- KernelHeap.Kmalloc.Release: requires the address of a live block, because kfree trusts the header.
- BootInformation.UsableRegions: requires one usable region at 0 and one above; with two at 0 or two above, which the count assert lets through, the source reads a pointer it never set.
- BootInformation.InitFrames: requires boot information clear of the words that start-up overwrites, and a last ELF section and a lower region that do not reach past the upper frames; no assert checks either.
- SerialLine.SerialPort.SerWrite: is one atomic step, as are SerFlush and IrqHandler. The source means to disable interrupts, but its test of the flag looks at 8 bits of RFLAGS (core/src/interrupt.c:124).
- SerialLine.SerialPort.SerFlush: does not model the time a byte needs; the source writes without waiting.
- VgaScreen.Screen.DisplayStr: strings below 2^16 characters, where the source's 16-bit index does not wrap.
- VGA_clear is modelled at boot, where the position is the origin.
- printk's format strings and the narrower printers: they select one of the printers proved here.
- Interleaving between the allocators: they run one call at a time.
