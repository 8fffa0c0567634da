# A verified model of the kernel's memory manager, loader, keyboard, terminal and printers

The kernel keeps all of its bookkeeping inside the memory it manages. A free page holds the pointer to the next
free page in its own first eight bytes. A page taken from that list becomes a page table of level 4 to 1, or the
contents of a mapped page, and may go back to the list. The routines that do this work on raw bytes through the
direct map, follow physical addresses that they find in 64-bit entries, and share those entries with a page walker
that may read them between any two stores. This project models that code and proves what it keeps over every run.

## How it is put together

Physical memory is one array of bytes. `Words` reads it as page frames of 512 little-endian words, `Entry` reads a
word as a page-table entry, and `Tables` defines the hardware's walk: four levels, 2 MiB and 1 GiB pages, and the
rights of all levels combined (Intel SDM volume 3A, sections 4.5 and 4.6). The ownership state `Own` says what every
frame is for: the free list in order, the tables by their place in the tree, the mappings by page, and one role for
every managed frame. The invariant `Inv` ties it to memory:

* following the `next` words from `freelist` spells the free list (`ChainOk`);
* every entry of every table agrees with the recorded tree and mappings (`TreeOk`);
* every managed frame is exactly one of free, one table, one mapped page, leaked (`RolesOk`).

`Edits` proves what one store into one entry does to the invariant and to every walk. `Growth`, `Unmapping`,
`Teardown` and `Boot` give each routine a specification function on `Own` and prove what that function means.
`Paging` holds the routines themselves as methods on the byte array, with the source's loops, proved against those
functions. `Runs` proves what holds of the ownership state after any sequence of calls, `UserSpace` that the hardware
then finds exactly the abstract map, and `KernelRuns` both together for any sequence of calls on memory. The kernel
class records memory after every store; `Windows` lets the processor cache whatever it could have read in between
(Intel SDM volume 3A, section 4.10), `MapStores` says exactly which states those are for `vm_map` and exactly when
the cache agrees with the tables after the call, and `StaleEntries` when that goes wrong.

`Elf`, `UserMemory`, `Loader` and `Programs` are `exec_setup`: stores go through the walk into physical memory, and
the result is compared with the program image. `Hardware` states the processor's view in plain numbers on the bytes of
memory, and `Images` builds ELF files field by field and follows them to the bytes that the started program reads. `Keyboard`, `KeyboardRuns` and `KeyboardRing` are the ring buffer,
with the reader stepped statement by statement and key presses between any two statements. `Terminal` shows that the 25 by 80 screen
is the end of a page that grows without bound. `Kprint` and `Kprintf` print numbers and formats on it. `Memory` is
`memset` and `memcpy` on overlapping ranges.

## What the code does differently from what its comments say

The code is modelled as written. Where that breaks a property, the project shows an input and the exact condition.

* `vm_unmap` frees `address` without the shift (`kernel/page.c:417`): the frame number is pushed as if it were an
  address. `Unmapping.UnmapConservesIff` says that the invariant survives exactly when nothing was mapped, and
  `Unmapping.UnmapExample` gives a whole machine state in which it is lost; `Unmapping.ShiftedUnmapStep` and
  `Paging.Kernel.VmUnmapShifted` prove the routine with the shift.
* `mem_init` counts every page of the memory map twice (`kernel/page.c:195` and `275`). From then on the distance
  between the counter and the length of the list never changes.
* `vm_map` sets `present` before `address` (`kernel/page.c:350-351`), so for one store a new link points where the
  old contents of the entry say. `unmap_lower_half` leaves such old contents behind: it clears `present` only, and
  the entry keeps naming a page that is free now. `MapStores.MapCoherentIff` gives the exact condition, on memory
  before the call, under which every possible translation cache agrees with the tables when `vm_map` has returned.
  `KernelRuns.SecondProgram` is the run in which it fails, and it is what `exec_setup` does the second time: the page
  that held the level-3 table of the stack's slot becomes that of the first segment's slot, and mapping the stack
  shows the segment at 0x70000400000 for one store, where no flush removes it. `MapStores.AddressFirstCoherent`
  proves that with the two assignments the other way round the cache always agrees.
* `exec_setup` copies `p_memsz` bytes of the file (`kernel/executables.c:135-141`), skips segments without file bytes
  (line 129) and maps one page per segment (line 133). `Programs.LoadMeetsAbiIff` says for a segment that fits its
  page exactly when the result is the one the System V gABI asks for (chapter 5, "Program Header"), and
  `Programs.FaultsIffTooLong` exactly when the copy faults.
* `backspace` moves the reading index (`kernel/systemcalls.c:55-63`). `KeyboardRuns.EraseExample` types two
  characters and erases one: the reader gets neither. `KeyboardRuns.FetchInOrderIff` says when the next fetch is in
  order, in every run.
* `kprint_x` takes 16 for a single digit (`kernel/kprint.c:60`) and prints the letter g. `Kprint.HexRoundTripIff`
  proves that every other value can be read back.

## Model

| member | source | states |
|---|---|---|
| Paging.Kernel.VmMap | kernel/page.c:301-382 | On every well-formed state the result and the new ownership are those of `MapPage`; all invariants hold afterwards, the counter keeps its distance from the list length, other pages translate as before, data pages keep every byte, a failed call changes no translation, a new page is zero; what memory looks like after each single store; and every possible translation cache agrees with the tables on return if and only if no page, other than the one flushed, was found through what the linked entries held before; after success the eight bytes at the page's level-1 slot have their present, writable, user and no-execute bits and the frame number as the arguments say |
| Growth.MapCost | kernel/page.c:319-377 | The exact cost of vm_map: it succeeds exactly when the page is unmapped and as many frames are free as levels are missing, takes just those from the front of the list and gives the page the last of them; a shortage empties the list and maps nothing, a mapped page changes nothing |
| Growth.GrownFree | kernel/page.c:335-376 | Building the missing tables takes frames from the front of the list, as many as are missing or all there are, and touches no mapping |
| Growth.GrownTables | kernel/page.c:335-376 | It keeps every existing table and adds tables only on the way to the page |
| Growth.GrownRoles | kernel/page.c:335-376 | Only frames that were free change their role |
| Paging.Kernel.LinkFresh | kernel/page.c:335-371 | One fresh page is taken, zeroed and linked by the five assignments in their order; without a free page nothing changes |
| Paging.Kernel.Link | kernel/page.c:350-371 | The five field assignments replace one entry, and what memory looks like after each of them |
| Edits.LinkTable | kernel/page.c:335-376 | Linking a zeroed free frame as a new table keeps the whole invariant and changes no translation |
| Edits.LinkLeaf | kernel/page.c:350-365 | Linking a free frame as a mapped page keeps the whole invariant and changes no other translation |
| Edits.LeafEditTree | kernel/page.c:350-358 | Any edit of one level-1 entry keeps the tree right and changes the translation of that page only |
| Snapshots.LinkStep | kernel/page.c:335-376 | One iteration of the loop of vm_map that adds a table keeps everything and stands one level lower |
| Snapshots.LeafStep | kernel/page.c:350-365 | The last iteration ends in the state that `MapPage` gives |
| Snapshots.Descend | kernel/page.c:323-333 | The address in a present entry is the table of the next level on the way to the page |
| Snapshots.OutOfMemory | kernel/page.c:337-341 | Running out of pages at any level ends in the state that `MapPage` gives for failure |
| Snapshots.AlreadyMapped | kernel/page.c:326-329 | A present level-1 entry means that `MapPage` fails |
| Snapshots.LinkKeepsData | kernel/page.c:343-371 | The frame and the table that linking writes are no data page |
| Paging.Kernel.VmProtect | kernel/page.c:453-504 | True exactly for a mapped page, which then has the given rights and its old frame; everything else, every byte of data included, is as before, also as seen between the stores; after success the bits of the eight bytes in memory are as the arguments say |
| Edits.ChangeRights | kernel/page.c:477-487 | New rights in a level-1 entry keep the invariant and every other translation |
| Snapshots.RightsStep | kernel/page.c:477-487 | The same on physical memory, with the data pages and the lower half kept |
| Paging.Kernel.FindLeaf | kernel/page.c:393-437 | The descent finds the level-1 table of a page exactly when the page is mapped, and changes nothing |
| Paging.Kernel.VmUnmap | kernel/page.c:390-442 | As written: true exactly for a mapped page; the link is stored at the frame number taken as an address, then the present bit of the entry is cleared, and the list head is that number |
| Unmapping.UnmapTranslations | kernel/page.c:417-423 | As written: when the eight stray bytes lie in no table, exactly that page stops translating and the tree stays right |
| Unmapping.UnmapConservesIff | kernel/page.c:417-423 | As written: the memory and list head that it leaves satisfy the whole invariant, with the page unmapped and its frame given back, if and only if nothing was mapped |
| Unmapping.UnmapPoisonsList | kernel/page.c:417 | As written: if memory reads as a list of pages afterwards, its head is not the page that was unmapped |
| Unmapping.UnmapExample | kernel/page.c:417-423 | As written: a complete state that satisfies every invariant and has page 0 mapped to frame 5, after which the head is address 5, no list of pages starts there and the invariant is lost |
| Paging.Kernel.VmUnmapShifted | kernel/page.c:390-442 | With the shift: true exactly for a mapped page, which is gone, its frame is at the head of the list, every invariant and every other translation is kept, also as seen between the stores |
| Unmapping.ShiftedUnmapStep | kernel/page.c:412-427 | With the shift, the two stores keep every invariant and the page no longer translates |
| Edits.ReleaseLeaf | kernel/page.c:412-427 | Clearing a level-1 entry and pushing its frame keeps the whole invariant and every other translation |
| Paging.Kernel.PmemAlloc | kernel/page.c:152-172 | Returns 0 exactly when the list is empty, and otherwise its first page, leaving the rest as the list |
| Paging.Kernel.PmemFree | kernel/page.c:178-197 | Whatever address it gets: the old head is stored there, and it becomes the head |
| Tables.ChainPopped | kernel/page.c:163-166 | After the head is taken, the rest is still spelled out in memory |
| Tables.ChainPushed | kernel/page.c:188-192 | Storing the head in a page and pointing at it spells the longer list |
| Paging.Kernel.ZeroPage | kernel/page.c:347 | memset of a page makes it a table of absent entries and leaves all other pages |
| Paging.Kernel.Translate | kernel/page.c:55-118 | The address it prints is that of the mapped frame plus the offset, and it prints none exactly for an unmapped page |
| Tables.WalkSame | kernel/page.c:88-106 | A walk depends only on the entries on its path |
| Tables.WalkDead | kernel/page.c:102-105 | Nothing is translated below an absent entry, at any level |
| UserSpace.UserWalk | kernel/page.c:353-371 | In a lower half that only these routines built, the hardware walk with the rights of all four levels combined is exactly the abstract map, because no higher level restricts anything |
| Entry.DecodeEncode | kernel/page.c:15-28 | An entry survives being stored as a 64-bit word |
| Entry.EncodeDecode | kernel/page.c:15-28 | A 64-bit word survives being read as an entry: no bit is lost |
| Entry.EncodeLayout | kernel/page.c:15-28 | The 64-bit word as a sum: present in bit 0, writable in bit 1, user in bit 2 and so on, the frame number from bit 12 on, no-execute in bit 63 |
| Entry.DecodeLayout | kernel/page.c:15-28 | What each field of any 64-bit word reads as, by quotients and remainders |
| Words.LoadLittleEndian | kernel/page.c:139-142 | A 64-bit load is the sum of its eight bytes, the lowest address counting least |
| Hardware.BytesWalkIsWalk | kernel/page.c:88-112 | The walk over page frames is the processor's walk over bytes, with every shift, bit and page size written out as numbers |
| Hardware.LeafInMemory | kernel/page.c:350-358 | In every state of the kernel, the bytes at the level-1 slot of every mapped page spell its frame and rights |
| Hardware.LowerGoneIsDropped | kernel/page.c:200-242 | After the teardown no address below 2^47 is translated by the walk over bytes, and every other as before |
| Entry.ShiftedIndexIsIndex | kernel/page.c:304-310 | The shift and mask of each level is the nine-bit group of the page number |
| Entry.IndicesRecombine | kernel/page.c:70-76 | The four indices and the offset give the 48 low address bits back |
| Entry.IndicesInjective | kernel/page.c:304-310 | Pages with equal indices at all levels are the same page |
| Paging.Kernel.UnmapLowerHalf | kernel/page.c:200-242 | Afterwards all invariants hold, no lower-half page translates, every upper-half page translates as before, each lower-half table was pushed exactly once and nothing else was, data pages keep every byte, every level-4 entry keeps all but its present bit, and the table of the last slot is the head of the list |
| Paging.Kernel.FreeLevel2 | kernel/page.c:213-233 | The loop over a level-3 table gives back every level-2 table below it, after the level-1 tables below that |
| Paging.Kernel.FreeLevel1 | kernel/page.c:220-228 | The loop over a level-2 table gives back every level-1 table below it and no 2 MiB page |
| Teardown.StillThere | kernel/page.c:200-242 | At every point of the teardown a table not given back yet reads as at the start and is not on the list |
| Teardown.EntryStill | kernel/page.c:206-227 | What the loops read in an entry at any point is whether and where the next table was at the start |
| Teardown.GiveBack | kernel/page.c:225-236 | Freeing the next table, which overwrites its first entry, keeps the list, all tables still to come and all data |
| Teardown.FreedLists | kernel/page.c:200-238 | The pages pushed are the lower-half tables, each exactly once |
| Teardown.TornDownRoles | kernel/page.c:200-238 | Lower-half tables become free, lower-half frames leaked, and every frame still has one role |
| Teardown.TornDownTree | kernel/page.c:200-238 | What is left is a well-formed tree |
| Teardown.TornDownWalks | kernel/page.c:200-242 | Lower-half pages do not translate, upper-half pages as before |
| Teardown.TornDownUser | kernel/page.c:200-242 | The emptied lower half is one in which later mappings are unrestricted |
| Teardown.TornDownAll | kernel/page.c:200-242 | All of that together, with the counter's distance kept |
| Paging.Kernel.MemInit | kernel/page.c:250-285 | From an empty allocator and a sound memory map it establishes the invariant; the free pages are exactly the usable pages and the boot loader's lower-half tables, and the counter is twice the former plus the latter |
| Boot.EmptySpaceOk | kernel/page.c:137-146 | Before anything is freed: memory with one empty level-4 table and an empty list satisfies every invariant, whatever else it holds, and translates no page |
| Boot.PushedParts | kernel/page.c:258-279 | Pushing pages one by one makes exactly those free besides what was free before |
| Boot.UsableIff | kernel/page.c:258-279 | The frames that the loops push are those that lie in a region of type 1 |
| Boot.PushFree | kernel/page.c:271-277 | Pushing a page that nobody owns keeps the invariant and all translations |
| Boot.NextFrame | kernel/page.c:264-277 | Each page that the two loops come to is usable and was not pushed before |
| Boot.BootStep | kernel/page.c:271-277 | One iteration of the inner loop |
| Boot.BootResult | kernel/page.c:258-282 | Which pages are free after the final teardown, and how many |
| Runs.RunConserves | kernel/page.c:152-504 | Over every run of the operations each managed frame has exactly one role, and no frame enters or leaves |
| Runs.RunLeaks | kernel/page.c:200-242 | Over every run the frames lost are exactly those mapped in the lower half whenever unmap_lower_half ran |
| Runs.RunReplays | kernel/page.c:301-504 | After every run the mappings and rights are those of replaying the successful calls on a plain map |
| KernelRuns.RunCalls | kernel/page.c:152-504 | Any sequence of vm_map, vm_protect, vm_unmap (with the shift) and unmap_lower_half calls on lower-half pages, from any state whose lower half only these routines built: every invariant holds at the end, the results and the ownership are those of the run, the counter's distance from the list length never changed, upper-half pages translate as before, and the processor's walk over the bytes of memory finds every address below 2^47 exactly when replaying the successful calls on a plain map has it, with the rights of the last one |
| KernelRuns.Do | kernel/page.c:152-504 | One such call makes one step of the ownership state and keeps all that |
| Runs.StepIsEffect | kernel/page.c:301-504 | One call changes its one page or nothing; vm_protect and vm_unmap succeed exactly on mapped pages, vm_map only on unmapped ones |
| Runs.StepKeepsRoles | kernel/page.c:152-504 | Every single operation keeps one role per frame |
| Runs.StepLeaks | kernel/page.c:200-242 | Only the teardown leaks, and exactly the lower-half frames |
| Windows.FlushIsEnough | kernel/page.c:360-361 | If no store showed another page a changed translation, the one flush makes every possible cache agree with the tables; vm_protect and vm_unmap are such calls |
| MapStores.MapCoherentIff | kernel/page.c:301-382 | For every state in which vm_map can start: when it has returned, every possible cache agrees with the tables if and only if at each level at which it linked a table no page but the one it flushes (none when it fails) was found through the address that the entry held before |
| MapStores.MapQuietIff | kernel/page.c:335-371 | Under the same condition, and only then, no state between the stores gives another page a different translation |
| MapStores.AddressFirstCoherent | kernel/page.c:350-351 | With `address` set before `present` every possible cache agrees, from every state, and no state between the stores shows anything |
| MapStores.TableViewsIff | kernel/page.c:343-371 | Of the six states in which one link leaves memory, only the one with `present` set and `address` not can show a translation |
| MapStores.WindowIff | kernel/page.c:350-351 | That one changes the translation of a page other than a given one exactly when such a page is found through the held address |
| MapStores.LeafViews | kernel/page.c:343-358 | Linking the page itself shows a change for that page only, at every store and in either order |
| MapStores.GrownKeeps | kernel/page.c:319-376 | Between two iterations of the loop the state is one in which vm_map could start, with all translations as at the beginning |
| MapStores.HarmIsSeen | kernel/page.c:350-351 | When the condition fails, some state between the stores shows a page a translation that the tables never give |
| StaleEntries.StaleIsDead | kernel/page.c:335-351 | The condition holds whenever the frame named by the entry above the first missing table, and frame 0, hold nothing present |
| StaleEntries.FirstWindowIff | kernel/page.c:335-351 | While frame 0 holds nothing present, the condition is about the first missing level alone |
| StaleEntries.OtherIsSeen | kernel/page.c:350-351 | If the absent level-4 entry names the level-3 table of another slot, a page mapped there is seen a second time |
| StaleEntries.OtherHarms | kernel/page.c:350-361 | In every such state the condition fails |
| KernelRuns.FirstProgram | kernel/page.c:200-242 | From every state: after a page was mapped and the lower half dropped, the level-4 entry of its slot names the page at the head of the free list |
| KernelRuns.SecondProgram | kernel/executables.c:92-165 | From every state with twelve free pages: dropping the lower half again, mapping a page of another slot and then that page once more ends with success and with a cache that can disagree with the tables |
| KernelRuns.ExecPages | kernel/executables.c:157-165 | A segment at 0x400000 and the stack at 0x70000000000 are such pages, and the segment is seen at 0x70000400000 |
| Windows.StrayStays | kernel/page.c:350-361 | A translation that some store showed for another page, and the final tables do not give, can still be cached after the flush |
| Windows.OpenedIff | kernel/page.c:350-371 | Making an absent entry present keeps all translations exactly when nothing is found through it |
| Windows.LeafViewWalks | kernel/page.c:356-358 | A store into a level-1 entry can change the translation of its page only |
| Windows.ReloadNeededIff | kernel/page.c:240-241 | Without the reload of CR3 every possible cache would agree after the teardown exactly when nothing was mapped in the lower half |
| Loader.ExecSetup | kernel/executables.c:89-173 | Ends in NotFound exactly when no module has the name; with four free pages for every segment and stack page it enters or faults exactly as `Program` says, with exactly that address space; in any case all invariants hold, the upper half translates as before and the lower-half tables were given back |
| Images.ExecImage | kernel/executables.c:89-173 | On a file put together field by field from any header and any segments that fit a page each: it enters at exactly the entry point of that header with stack pointer 0x70000007ff8, and in memory the processor finds every byte of every segment with the rights of bits 1 and 0 of its flags, eight pages of zeros from 0x70000000000 on, writable and not executable, and no other page |
| Images.ImageReads | kernel/executables.c:41-82 | Reading such a file gives back exactly the entry point, the number of program headers and every field of each that the loader uses |
| Images.BuiltProgram | kernel/executables.c:125-165 | The address space that loading such a file gives, page by page and byte by byte |
| Images.BuiltResult | kernel/executables.c:125-171 | With enough free pages the outcome of the loader on such a file is that address space, that entry point and that stack pointer |
| Images.SpaceInMemory | kernel/executables.c:135-149 | The user pages of the model are what the processor finds: same addresses, same rights, same bytes |
| Images.HeldIsStarted | kernel/executables.c:125-171 | So the program finds its segments and stack in memory |
| Loader.LoadProgram | kernel/executables.c:125-173 | The two loops compute `Program` from an empty lower half |
| Loader.LoadSegment | kernel/executables.c:128-150 | One iteration of the header loop: map, copy through the new translation, protect |
| Loader.MapUser | kernel/executables.c:161-165 | vm_map as the loader calls it, its result unused: the page is there afterwards if four pages were free |
| Loader.StoreVirtual | kernel/executables.c:135-141 | A store through the page tables changes that byte of that user page and nothing else, or faults and changes nothing |
| Loader.CopyVirtual | stdlib/memory.c:15-25 | The copy through the page tables is the copy into the program's pages, byte by byte up to the first fault |
| Loader.FindModule | kernel/executables.c:94-114 | Finds the first module of that name, or none exactly when there is none |
| UserMemory.SpaceAfterMap | kernel/page.c:301-382 | On user pages with contents, vm_map adds one zero page or nothing, and exactly when |
| UserMemory.SpaceAfterProtect | kernel/page.c:453-504 | vm_protect changes the rights of one page and keeps its bytes |
| UserMemory.PokeKeeps | kernel/executables.c:135-141 | Storing into a user page disturbs no table and no list node |
| UserMemory.SpaceAfterPoke | kernel/executables.c:135-141 | It changes that byte of that page and no other page |
| UserMemory.UserNoHuge | kernel/executables.c:91-92 | After the teardown no lower-half page lies in a huge page, so vm_map and vm_protect apply |
| Programs.CopyExactly | kernel/executables.c:135-141 | The copy faults exactly when it meets a missing or, with write protection on, read-only page; otherwise it changes the bytes it covers and no others |
| Programs.FittingSegment | kernel/executables.c:128-150 | A segment that fits in one fresh page becomes that page, with its flags and the copied bytes among zeros |
| Programs.FaultsIffTooLong | kernel/executables.c:133-141 | A segment among unmapped pages faults exactly when it does not fit in its first page |
| Programs.AbiIff | kernel/executables.c:135-141 | A fitting segment holds the file bytes and then zeros exactly when the file has zeros there |
| Programs.LoadMeetsAbiIff | kernel/executables.c:129-149 | The loader builds the standard's page exactly when the segment has file bytes and the file has zeros behind them |
| Programs.AbiExample | kernel/executables.c:135-141 | A segment of four file bytes and eight memory bytes for which it does not |
| Programs.SegmentsLoad | kernel/executables.c:125-154 | Segments on pages of their own: after any number of headers exactly their pages are there |
| Programs.StackAdds | kernel/executables.c:157-165 | The stack loop adds its pages, writable and not executable, and keeps the rest |
| Programs.ProgramExactly | kernel/executables.c:125-165 | For every image whose segments fit one page each, apart from each other and from the stack: the lower half holds exactly the segment pages, writable and executable as bits 1 and 0 of p_flags say, with the copied bytes, and the eight zero pages 0x70000000 to 0x70000007 |
| KeyboardRing.Ring.RunStatement | kernel/systemcalls.c:151-177 | Each statement of kgetc as one step of the machine, every access inside the buffer, keeping what `EveryRun` says |
| KeyboardRing.Ring.CharWrite | kernel/systemcalls.c:128-143 | The handler's write as one step that keeps it: NUL is dropped, any other character is echoed on the terminal and put in its slot, both counters and the wrap |
| KeyboardRing.Ring.Backspace | kernel/systemcalls.c:55-63 | Backspace as one step that keeps it: the length and the reading index go back by one |
| KeyboardRing.Ring.KeyboardInterrupt | kernel/boot.c:228-243 | One key press is one step that keeps it |
| KeyboardRing.Ring.constructor | kernel/systemcalls.c:49-53 | The buffer starts empty, with all slots zero and nothing written |
| KeyboardRuns.EveryRun | kernel/systemcalls.c:50-177 | In every interleaving, backspaces included: indices in range, both indices and the wrapped length as the history says, each slot holds the last character written to it, and every character returned is the one at the position it was fetched from |
| KeyboardRuns.StepKeepsIndices | kernel/systemcalls.c:55-177 | Every event keeps the index part of that |
| KeyboardRuns.StepKeepsContents | kernel/systemcalls.c:128-177 | Every event keeps the contents part of it |
| KeyboardRuns.RingRelation | kernel/systemcalls.c:50-168 | At every program point, while the length does not wrap: writing index is reading index plus length plus twice the backspaces modulo 100, corrected for a reader between its two updates or before its reset and for backspaces between its wrap test and its reset |
| KeyboardRuns.FetchInOrderIff | kernel/systemcalls.c:159 | In any run the next fetch takes the next character of the stream exactly when the counted backspaces are a whole number of turns and between 1 and 100 characters are outstanding |
| KeyboardRuns.FifoIff | kernel/systemcalls.c:128-177 | Without backspaces the reader gets the positions 0, 1, 2, ... exactly when it never falls more than 100 behind |
| KeyboardRuns.Fifo | kernel/systemcalls.c:128-177 | Without backspaces and never more than 100 behind, what was handed out is a prefix of the characters of the key presses: in order, nothing lost, nothing twice |
| KeyboardRuns.WrittenIsTyped | kernel/systemcalls.c:128-143 | In every interleaving exactly the characters of the key presses are written, NUL excepted, in order, and every backspace is counted |
| KeyboardRuns.KgetcReads | kernel/systemcalls.c:151-177 | kgetc undisturbed hands out the character at the reading index when the length is not zero, and nothing otherwise |
| KeyboardRuns.Kread | kernel/systemcalls.c:100-113 | The calls of kgetc that return between two moments, n of them, hand out exactly the next n characters of the key presses |
| KeyboardRuns.EraseExample | kernel/systemcalls.c:55-63 | After a, b and backspace the reader gets a NUL |
| Terminal.Vga.TermPutchar | kernel/boot.c:134-187 | For every character the screen and cursor stay exactly the end of the unbounded page with that character put on it |
| Terminal.Vga.TermClear | kernel/boot.c:119-131 | The cleared screen is that of the empty page |
| Terminal.Vga.Scroll | kernel/boot.c:163-175 | Copying upwards in place and blanking the last row shows the page with one more line |
| Terminal.ScrollShows | kernel/boot.c:163-175 | What the screen of a page one line longer holds, cell by cell |
| Terminal.NewLineShows | kernel/boot.c:150-160 | While the screen is not full a new line only moves the cursor |
| Terminal.SetCharShows | kernel/boot.c:178-184 | A character on the cursor line of the page is one cell of the screen |
| Terminal.ScreenBounds | kernel/boot.c:134-187 | On every page the cursor row is below 25, its column at most 80, and the rows under it are blank |
| Terminal.PutAllAppend | kernel/kprint.c:27-30 | Showing two texts one after the other is showing their concatenation |
| Terminal.PlainTextFillsLines | kernel/boot.c:156-184 | Plain text fills lines of 80 from left to right with nothing lost or out of place |
| Terminal.JoinedLines | kernel/boot.c:150-160 | Lines of at most 80 characters joined by newlines become the lines of the page, padded with blanks, with the cursor behind the last |
| Terminal.JoinedLinesShow | kernel/boot.c:119-187 | The bytes of the screen then: the last 25 of the text's lines, blanks behind their ends, attribute 15 in every cell, and the cursor row and column |
| Terminal.TextOverwrites | kernel/boot.c:178-184 | Characters that fit on the cursor line replace those from the cursor on |
| Terminal.OneShown | kernel/boot.c:178-184 | One such character |
| Terminal.OneWraps | kernel/boot.c:156-160 | A character behind column 79 starts a line of its own |
| Terminal.NewlineStarts | kernel/boot.c:150-154 | A newline starts a blank line |
| Terminal.ReturnOverwrites | kernel/boot.c:136-139 | After a return the next characters overwrite the line from column 0 |
| Terminal.BackspaceBlanks | kernel/boot.c:141-148 | A backspace blanks the cell before the cursor and goes there, and does nothing in column 0 |
| Terminal.BackspaceErases | kernel/boot.c:141-148 | A character and a backspace leave its cell blank and the cursor where it was |
| Memory.MemSet | stdlib/memory.c:5-12 | Sets exactly the given bytes, to the low byte of the value |
| Memory.MemCpy | stdlib/memory.c:15-25 | Leaves what an upward byte-by-byte copy leaves, for overlapping ranges too |
| Memory.CopiedUpwardsAt | stdlib/memory.c:15-25 | Every byte of that in terms of the memory before: an upward overlap repeats its first bytes |
| Memory.CopyIsMoveIff | stdlib/memory.c:15-25 | It copies the source range exactly when it does not run upwards into itself or the source repeats with the distance |
| Words.BytesRoundTrip | kernel/page.c:139-142 | A number survives being stored as little-endian bytes |
| Words.NumberRoundTrip | kernel/page.c:139-142 | Bytes survive being read as a number |
| Words.ViewOfStore | kernel/page.c:188-189 | An aligned store changes one word of one page and nothing else |
| Words.ViewOfZeroed | kernel/page.c:343-347 | memset of a page zeroes that page and changes no other |
| Kprint.KprintD | kernel/kprint.c:32-57 | Puts exactly the decimal numeral of any 64-bit value on the terminal, inside its 20 slots |
| Kprint.KprintX | kernel/kprint.c:59-89 | Puts exactly the hexadecimal numeral there, inside its 16 slots, but the letter g for 16 |
| Kprint.KprintP | kernel/kprint.c:91-96 | The same after 0x |
| Kprint.KprintS | kernel/kprint.c:27-30 | Puts exactly the string there |
| Kprint.KprintC | kernel/kprint.c:23-25 | Puts exactly the character there |
| Kprint.DecimalRoundTrip | kernel/kprint.c:32-57 | Every 64-bit value can be read back from its decimal print, which has at most 20 digits and no leading zero |
| Kprint.HexRoundTripIff | kernel/kprint.c:59-89 | A value can be read back from its hexadecimal print exactly when it is not 16 |
| Kprint.DigitsParse | kernel/kprint.c:42-56 | Numerals of any number parse back to it, in both bases |
| Kprint.ParseDigits | kernel/kprint.c:42-56 | A numeral without a leading zero is the one printed for its value |
| Kprint.DigitsLength | kernel/kprint.c:38-39 | How many digit slots a value needs |
| Kprint.DigitAt | kernel/kprint.c:42-56 | The digit k places from the right is the character of "0123456789abcdef" for that digit of the value |
| Kprint.TakeDigit | kernel/kprint.c:42-50 | One iteration of the digit loop keeps the number, split into what is left, what is stored and what is printed |
| Kprintf.Kprintf | kernel/kprint.c:100-143 | Puts exactly the expansion of any well-formed format on the terminal |
| Kprintf.Switch | kernel/kprint.c:112-133 | One conversion uses one argument or none and prints its text |
| Kprintf.ExpandStep | kernel/kprint.c:107-139 | One iteration of the format loop |
| Kprintf.TextExpands | kernel/kprint.c:113-115 | Literal text with its percent signs doubled prints as itself |
| Kprintf.FormatExpands | kernel/kprint.c:100-143 | A format put together from any texts, conversions and unknown letters prints the concatenation of what each of them prints as |
| Kprintf.Conversions | kernel/kprint.c:112-130 | %d prints the decimal numeral, which parses back to the value, %x and %p the hexadecimal one without and with 0x (the letter g for 16), %c the character, %s the string, %% a percent sign |
| Kprintf.OtherConversions | kernel/kprint.c:131-133 | Every other letter prints "<not supported>" and uses no argument |

## Left out

Stated weaker than a reader might expect:

- Paging.Kernel.VmMap: one address space is tracked, the one whose level-4 table the ownership state records, and each of its tables is reached by one path. No 2 MiB or 1 GiB page may lie on the way to the page (`NoHuge`), because the routine never tests `page_size`; in a lower half that these routines built there is none.
- Paging.Kernel.VmProtect: the same restriction to one address space and to pages outside huge pages.
- Paging.Kernel.VmUnmap: as written it states only the bytes of memory, the list head and the counter after the call, since the ownership invariant does not survive it; it assumes that the frame number is an address inside memory.
- Paging.Kernel.VmUnmapShifted: the page's frame must have come from the allocator, which holds for every page that vm_map mapped.
- KernelRuns.RunCalls: calls on lower-half pages, with the shift in vm_unmap; a call on an upper-half page needs the absence of huge pages on its way, which no run guarantees.
- Unmapping.UnmapTranslations: one direction only. Stray bytes inside a table can happen to leave its entries as they were, so an exact condition would have to repeat the property.
- Paging.Kernel.Translate: returns the address that the original prints last; the lines it prints on the way are not modelled, nor is an address inside a huge page, where the original follows the entry as if it named a table.
- Paging.Kernel.UnmapLowerHalf: the reload of CR3 leaves a cache of current translations by definition; what is proved about it is when it is needed. Global pages and caches of single table entries are not modelled.
- Paging.Kernel.MemInit: that usable memory is page-aligned, disjoint, without page 0 and without boot tables is the boot loader's guarantee. `find_tag` and the parsing of its structures are not part of this model.
- Paging.Kernel.PmemFree: the free-page counter is an unbounded integer; its wrap at 32 bits is not modelled.
- MapStores.MapCoherentIff: each assignment to a field of an entry is one atomic store, and the zeroing of a fresh page, which no table names yet, is one step. The accessed and dirty bits that hardware sets are not modelled.
- Loader.ExecSetup: nothing is stated about the translation cache beyond the calls it makes; `KernelRuns.SecondProgram` shows that it can be wrong. With fewer free pages than four for each segment and stack page only safety is stated. Segment bytes are readable kernel memory and land below 2^47, flag bits of CR3 are clear, and the module name lies in kernel memory, which the original reads after the lower half is gone. Whether kernel stores obey write protection (CR0.WP) is a parameter. The image and the program header table are values, 56 bytes a header.
- Images.ExecImage: segments that fit one page each, and a single boot module; the other cases are those of `Loader.ExecSetup`. It puts the calls together and has no counterpart in the source.
- Loader.CopyVirtual: the loop counter of memcpy is unbounded; in the source it is an int.
- KeyboardRing.Ring.RunStatement: each `++` and `--` of the reader counts as one atomic statement, and the handler runs to completion between two of them.
- KeyboardRuns.Kread: the characters that the calls hand out, not the caller's buffer they are stored in.
- KeyboardRuns.Fifo: safety only; that the spinning reader ever returns is not stated.
- Terminal.Vga.TermPutchar: the two colour nibbles of a cell are one byte, and the cursor register of the display is not modelled.
- Kprintf.Kprintf: a lone `%` at the end of the format and arguments of the wrong kind are the caller's fault and excluded.

Not modelled:

- Inline assembly: `invlpg`, CR0 and CR3 moves, port input and output, interrupt controller programming, `usermode_entry`. CR3 is a field, and the entry point and stack pointer are results.
- Descriptor tables (`kernel/gdt.c`, `kernel/interrupts.c`), system-call dispatch, `stdlib/string.c` (names are compared as sequences), user programs and their stubs.
- The scan-code table of `getkey`: a key press is a character, NUL or a backspace.
- The direct map itself: an injective offset that gives no address 0 and keeps every address within 64 bits.
- Helpers that the source writes inline: `FindLeaf`, `Link`, `LinkFresh`, `FreeLevel1`, `FreeLevel2`, `LoadSegment`, `Switch`, `Scroll` and `EchoKey` are pieces of the routines they are cited from.
