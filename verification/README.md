# Lambda OS core algorithms

A Dafny model of the parts of the Lambda OS kernel and shell whose correctness
is not visible from one function, with proofs about them. Each component has a
specification on values and, where the system updates memory in place, methods
and classes proved against that specification.

| component | modules |
|---|---|
| LZO1X block decompressor | LzoFormat, LzoDecoder, LzoRoundTrip, LzoBlock |
| kernel heap | HeapSpec, HeapTiling, HeapAlloc, HeapBlocks, HeapFree, HeapExamples, Heap |
| x86 two-level paging, address space clones, copies between spaces | PageTables, PageMaps, PageClone, PageAccess, Mmu, Machine, WindowExample, SpaceCopy, ForkRegion |
| fork, exit and wait | WaitExit, WaitEffects, Processes |
| circular list and scheduler | Llist, Sched |
| thread lock | Tlock |
| module layout and i386 relocation | ModuleLayout, Relocation, RelocatedWords |
| file tree and CPIO mount | Vfs, Cpio, CpioRoundTrip |
| shell quoting | ShellSplit, ShellQuote |
| execve argument vectors | ExecArgs |
| byte ring and streams | Stream |
| shared | Options, Arith, Bytes, Words |

`dafny verify dfyconfig.toml` checks everything.

## Where the code departs from its intent

The model follows the code; each departure has a lemma that shows it and, where
there is one, the exact condition under which the code does meet its intent.

- Freeing tests adjacency to a preceding block with the freed block's size
  (kernel/src/mm/alloc.c:63): `HeapFree.KfreeIff`, `HeapExamples.BadMergeRun`; with the test
  as meant, `HeapFree.RunIff`.
- The size test of an allocation adds in 32 bits (kernel/src/mm/alloc.c:109):
  `HeapAlloc.CarveIff`, `HeapAlloc.KamallocIff`, `HeapExamples.WrappingRequestIsServed`.
- Table growth happens at exactly four empty slots of one table
  (kernel/src/mm/alloc.c:193-194): `HeapAlloc.KamallocPanicsIff`,
  `HeapExamples.SkippedGrowthPanics`.
- Removing the head of a longer list leaves the head pointer on it
  (kernel/src/data/llist.c:67-74): `Llist.List.Remove`.
- The queue drain tests `lock_try` the wrong way round (kernel/src/proc/sched.c:161):
  `Sched.QueueReachesRing`.
- The loop of `tlock_acquire` tests a shadowed variable
  (kernel/src/proc/atomic/tlock.c:50): `Tlock.AsWrittenNeverReturns`; also with the
  intended loop a hand-off can be lost: `Tlock.HandOffIff`, `Tlock.HandOffCanBeLost`,
  `Tlock.HandOffLostFromStart`.
- `exit` dereferences the parent it looks up, and `wait` goes on after a failed
  `cond_wait`: `WaitExit.ExitFaultsIff`, `WaitExit.OrphanExitFaults`, `WaitExit.WaitKeeps`,
  `WaitExit.FailedWaitPanics`.
- The base of the nobits group ignores the size of the program group
  (kernel/src/mod/module.c:418): `ModuleLayout.GroupsApartIff`, `ModuleLayout.SectionsApart`,
  `ModuleLayout.SectionsOverlap`.
- Variable expansion in the shell steps over the byte behind the name
  (user/utils/lshell/src/shell.c:198): `ShellQuote.ReplacedIffApart`,
  `ShellQuote.QuotedVariableKeepsMarker`.
- An expansion asks realloc for one byte too few and writes its terminator outside
  the block (user/utils/lshell/src/shell.c:186-196), and an argument that is only an
  unset variable asks for no bytes and is refused (user/lib/src/stdlib/alloc.c:314-326):
  `ShellQuote.StaysInBlockIff`, `ShellQuote.LoneVariable`.
- The window page of a copy hides a buffer that has that page number
  while its bytes are copied
  (kernel/src/mm/mmu.c:157-159): `Machine.Machine.WindowHidesIff`, `WindowExample.BufferIsHidden`.
- Kernel pages are meant to be global (kernel/arch/x86/src/mm/paging.c:66), but a space sees a
  later one only through a shared table, and clones have their own:
  `PageMaps.KernelPageElsewhere`, `PageClone.ClonesMissKernelPages`.
- Mapping a kernel page for user mode sets the user bit in the kernel's directory entry and the
  caller's (kernel/arch/x86/src/mm/paging.c:83-88), and spaces that share the table keep entries
  without it: `PageAccess.MapKernelCoherent`.
- A forked region is mapped by its length alone (kernel/src/proc/fork.c:69,
  kernel/arch/x86/src/mm/mmu.c:49), so one that goes over a page end further than that leaves its
  last page shared with the parent: `ForkRegion.RegionPrivateIff`, `ForkRegion.ShortRegionIsShared`.
- A path part that starts with a dot is taken for "." followed by more, so files with such names
  cannot be looked up (kernel/src/fs/fs.c:210-227): `Vfs.DotIsDropped`.
- The comment on `lock_try` promises 0 on success (kernel/inc/proc/atomic/lock.h:38);
  the code returns non-zero when the lock was taken, and the model follows the code.

## Assumptions

- Atomic steps are sequentially consistent. A system call is one step up to the
  point where it gives the processor away; each process has one thread.
- A freshly installed heap table is blank; the code does not clear it
  (kernel/src/mm/alloc.c:156, 164).
- The scan over zero bytes in the decompressor fails at the end of the input; the
  code reads one byte before its bound check (kernel/src/crypto/comp/lzop.c:203).
- Page tables are reached through their physical addresses, and table frames come
  from a pool that lasts as long as the operations need.
- Copies between address spaces: pages that the table maps lead to distinct frames
  below the kernel range that hold no page table, and the buffer shares no frame
  with them. The buffer's own frames hold no page table and do not wait in the heap
  to become one, and no byte of it is on the page at which the frame is shown that
  it is copied to or from.
- A symbol index equal to the number of symbols is an error; the code's test lets
  it through and reads one entry too far (kernel/src/mod/module.c:274).
- An archive is read as if memory ended with it; the code ignores the length.
- Allocations succeed in the stream, exec, shell and mount code.

## Model

| member | source | states |
|---|---|---|
| `LzoFormat.CopyBackIsPeriodic` | kernel/src/crypto/comp/lzop.c:218-222 | a copy from behind the output keeps the output and makes every new byte equal to the one `dist` before it, also where source and destination overlap |
| `LzoFormat.ExtFitsIff` | kernel/src/crypto/comp/lzop.c:176-177 | an extended length is legal if and only if it is between 1 and 2^32 - 256 |
| `LzoDecoder.ReadExtRefusedIff` | kernel/src/crypto/comp/lzop.c:200-214 | a length is refused if and only if the input ends inside its zero run or the run has more than 16843007 zeroes |
| `LzoDecoder.ReadExtComplete` | kernel/src/crypto/comp/lzop.c:200-214 | a length written as a run of zero bytes and a last byte is read back as that length, ending right after it |
| `LzoDecoder.ReadExtSound` | kernel/src/crypto/comp/lzop.c:200-214 | a length that is read successfully stands in the input in its one written form |
| `LzoDecoder.FetchComplete` | kernel/src/crypto/comp/lzop.c:271-338 | the opcode ladder recognises every legal header in every state and stops right after it |
| `LzoDecoder.FetchSound` | kernel/src/crypto/comp/lzop.c:271-338 | whatever header the ladder reports is legal in that state and is exactly the bytes that were there |
| `LzoDecoder.OpcodeMeaning` | kernel/src/crypto/comp/lzop.c:271-338 | bytes to repeat, distance, literals and next state that each opcode asks for, in numbers taken from its own bytes |
| `LzoRoundTrip.RunComplete` | kernel/src/crypto/comp/lzop.c:271-355 | from any point of a legal instruction sequence the loop produces its expansion, if the block has room |
| `LzoRoundTrip.DecodeEncode` | kernel/src/crypto/comp/lzop.c:239-364 | decoding the encoding of any legal stream yields exactly its expansion |
| `LzoRoundTrip.RunSound` | kernel/src/crypto/comp/lzop.c:271-355 | input that the loop accepts is the encoding of a legal instruction sequence, and the output is its expansion |
| `LzoRoundTrip.DecodeSound` | kernel/src/crypto/comp/lzop.c:239-364 | input that is accepted from the start is the encoding of a legal stream with that output |
| `LzoRoundTrip.DecodeIffDenotes` | kernel/src/crypto/comp/lzop.c:239-364 | for every input, block size and output: the decoder answers that output if and only if some legal stream has these bytes and that expansion, and it fits |
| `LzoRoundTrip.MeaningIsUnique` | kernel/src/crypto/comp/lzop.c:239-364 | two legal streams with the same bytes have the same expansion |
| `LzoRoundTrip.EveryStringHasAnEncoding` | kernel/src/crypto/comp/lzop.c:239-364 | every non-empty byte string of up to 2^32 - 238 bytes has an encoding that decodes to it |
| `LzoRoundTrip.EmptyIsNotEncodable` | kernel/src/crypto/comp/lzop.c:256-259 | no input decodes to the empty string: the shortest block is refused as an unsupported extension |
| `LzoBlock.SkipZeroes` | kernel/src/crypto/comp/lzop.c:200-214 | stays inside the input, fails exactly where the length does not read, and counts 255 per zero byte without leaving size_t |
| `LzoBlock.ExtendedLength` | kernel/src/crypto/comp/lzop.c:276-278 | base plus extended length, computed in size_t, is the exact sum |
| `LzoBlock.ReadLongOpcode` | kernel/src/crypto/comp/lzop.c:302-333 | the two long match forms and the end marker, read for any state as the header grammar says, with length arithmetic that never wraps |
| `LzoBlock.ReadOpcode` | kernel/src/crypto/comp/lzop.c:272-338 | one opcode with the cursor moved past it, as the header grammar says |
| `LzoBlock.CopyFromInput` | kernel/src/crypto/comp/lzop.c:282-287 | literals are appended to the output, and the rest of the buffer is untouched |
| `LzoBlock.CopyFromOutput` | kernel/src/crypto/comp/lzop.c:340-344 | a match is appended as the periodic copy, reading only bytes already written, and the rest of the buffer is untouched |
| `LzoBlock.DecompressBlock` | kernel/src/crypto/comp/lzop.c:239-364 | on every input and every output block the goto loop ends, answers exactly what the decoder specification answers, and on success leaves everything past what it reports untouched |
| `HeapSpec.Offset` | kernel/src/mm/alloc.c:105-108 | the correction is smaller than the alignment and brings the address to a multiple of it |
| `HeapTiling.RemarkTiles` | kernel/src/mm/alloc.c:209-209 | marking a block used or free keeps the heap tiled |
| `HeapTiling.SplitTiles` | kernel/src/mm/alloc.c:217-237 | cutting a block in two, the second half in an empty slot, keeps the heap tiled |
| `HeapTiling.JoinTiles` | kernel/src/mm/alloc.c:67-71 | joining two touching blocks and emptying a slot keeps the heap tiled |
| `HeapTiling.ExtendTiles` | kernel/src/mm/alloc.c:156-164 | installing a blank table keeps the heap tiled |
| `HeapTiling.InitTiles` | kernel/src/mm/alloc.c:351-359 | after start-up the one free block tiles the region |
| `HeapTiling.OneOwner` | kernel/src/mm/alloc.c:50-81 | in a tiled heap no byte belongs to two blocks |
| `HeapAlloc.FindHoleIsBestFit` | kernel/src/mm/alloc.c:91-120 | a slot is returned if and only if it is the first of the smallest free blocks that fit; nothing is returned if and only if every fitting block has 0xFFFFFFFF bytes |
| `HeapAlloc.FitsIffRoom` | kernel/src/mm/alloc.c:105-109 | while the sum stays in 32 bits a hole passes the size test if and only if it is free and an aligned block of that size lies inside it |
| `HeapAlloc.CarveKeeps` | kernel/src/mm/alloc.c:208-242 | all three ways to take memory leave the heap tiled with the same total, the block aligned, exactly sized, inside the hole, and every other block as it was |
| `HeapAlloc.CarveBreaks` | kernel/src/mm/alloc.c:217-229 | when size plus correction leaves 32 bits, the result is misaligned or the heap is no longer tiled |
| `HeapAlloc.CarveIff` | kernel/src/mm/alloc.c:208-242 | taking memory from a hole that passed the size test is right if and only if size plus correction stays in 32 bits |
| `HeapAlloc.GrowIsCarve` | kernel/src/mm/alloc.c:147-164 | table growth takes its memory exactly as an allocation of that size would |
| `HeapAlloc.GrowKeeps` | kernel/src/mm/alloc.c:143-166 | growth keeps the heap healthy, keeps every used block, and reserves the new table's own memory |
| `HeapAlloc.MaybeGrowKeeps` | kernel/src/mm/alloc.c:193-196 | so does the conditional growth inside an allocation |
| `HeapAlloc.SmallRequestsAreInRange` | kernel/src/mm/alloc.c:105-109 | requests whose size and alignment add up to at most 2^32 always meet the one condition on requests |
| `HeapAlloc.KamallocIff` | kernel/src/mm/alloc.c:169-243 | a call that hands out memory leaves a healthy heap and hands out an aligned, exact, reserved block of a best-fit hole if and only if the request's size test stays in 32 bits |
| `HeapAlloc.KamallocNoneKeeps` | kernel/src/mm/alloc.c:169-203 | a call that hands out nothing leaves the heap healthy and every used block used |
| `HeapAlloc.AddUsesOneSlot` | kernel/src/mm/alloc.c:23-43 | adding an entry panics if and only if no slot is empty, and otherwise uses up one slot and disturbs no entry |
| `HeapAlloc.CarvePanicsIff` | kernel/src/mm/alloc.c:208-237 | taking memory panics if and only if there are fewer empty slots than the split needs (none, one or two) |
| `HeapAlloc.GrowPanicsIff` | kernel/src/mm/alloc.c:143-166 | with an empty slot to spare growth panics if and only if there is no hole for a table, and overruns if and only if there is one and all 512 places are taken |
| `HeapAlloc.KamallocPanicsIff` | kernel/src/mm/alloc.c:169-243 | for every heap and request: with exactly four empty slots in the hole's table the call panics if and only if there is no hole for a new table, at any other count if and only if the slots do not suffice for the split |
| `HeapBlocks.FreeIffNotUsed` | kernel/src/mm/alloc.c:312-342 | in a tiled heap a byte is free if and only if it is in the heap and in no block in use |
| `HeapBlocks.CarveGains` | kernel/src/mm/alloc.c:208-242 | taking memory brings exactly the block handed out into use, and the used total grows by exactly its size |
| `HeapBlocks.GrowGains` | kernel/src/mm/alloc.c:143-166 | growth brings exactly the new table's block into use |
| `HeapBlocks.KamallocGains` | kernel/src/mm/alloc.c:169-243 | a call brings into use exactly the block it hands out and the block of a table if it made one, and the used total grows by exactly their sizes |
| `HeapBlocks.KamallocNoneIff` | kernel/src/mm/alloc.c:169-203 | a call that does not fail answers NULL if and only if size or alignment is 0, no hole fits, or none fits any more after the growth |
| `HeapBlocks.HandedWasFree` | kernel/src/mm/alloc.c:198-242 | every byte that a request in range is handed was free before |
| `HeapBlocks.KamallocTakes` | kernel/src/mm/alloc.c:169-243 | the free bytes after a request in range are those before without the block handed out and a new table's, and the free total falls by exactly their sizes |
| `HeapExamples.SkippedGrowthPanics` | kernel/src/mm/alloc.c:193-196 | a run of 1022 allocations from start-up, of 16 and 32 bytes, that goes from five empty slots to three and so past the growth test; the next request panics although there is a hole for another table |
| `HeapExamples.WrappingRequestIsServed` | kernel/src/mm/alloc.c:105-109 | a request from start-up whose size test wraps is served, and what it gets is wrong |
| `HeapFree.ReleaseTotal` | kernel/src/mm/alloc.c:50-81 | freeing neither gains nor loses bytes, even where the merge is wrong |
| `HeapFree.ReleaseKeeps` | kernel/src/mm/alloc.c:50-81 | freeing keeps the heap tiled when the block the merge test picks really touches the freed one, or none is picked |
| `HeapFree.ReleaseBreaks` | kernel/src/mm/alloc.c:62-73 | when the picked block does not touch the freed one, the heap is no longer tiled |
| `HeapFree.KfreeIff` | kernel/src/mm/alloc.c:259-284 | a free keeps the heap tiled if and only if the block the merge test picks is adjacent; the total never changes |
| `HeapFree.FreeMergesIff` | kernel/src/mm/alloc.c:56-73 | a free gives an entry slot back if and only if there is a free block that the merge test, as written or as meant, takes for a neighbour |
| `HeapFree.MeantFreesCleanly` | kernel/src/mm/alloc.c:56-65 | with the neighbour's own size in the test, as the comment means it, whatever block is picked is adjacent |
| `HeapExamples.BadMergeRun` | kernel/src/mm/alloc.c:50-81 | a run from start-up (allocate 4, 12 and 16 bytes, free the first, free the third) that the test as written breaks and the test as meant does not |
| `HeapFree.KfreeTables` | kernel/src/mm/alloc.c:259-284 | the entry tables stay reserved if and only if the freed address is not a table's |
| `HeapFree.UsedAfterRelease` | kernel/src/mm/alloc.c:50-81 | freeing ends the use of the freed address and of no other |
| `HeapFree.ReleaseUsed` | kernel/src/mm/alloc.c:50-81 | the used total falls by exactly the freed block, even where the merge is wrong |
| `HeapFree.ReleaseLoses` | kernel/src/mm/alloc.c:50-81 | the blocks in use after a free are those before without the one at the freed address, so what the free leaves or merges is not in use |
| `HeapFree.FreedIsFree` | kernel/src/mm/alloc.c:259-284 | freeing a block in use succeeds, takes it alone out of use and moves both totals by its size; with a clean merge the free bytes are those before and every byte of the block |
| `HeapFree.KfreePanicsIff` | kernel/src/mm/alloc.c:259-284 | a free panics if and only if no block starts at the address |
| `HeapFree.FreeUndoesAllocate` | kernel/src/mm/alloc.c:169-284 | freeing what was just handed out brings back blocks in use, free bytes and totals, with the merge test as meant |
| `HeapFree.StepIff` | kernel/src/mm/alloc.c:169-284 | one allocation or free leaves everything right, the set of blocks in use included, if and only if the caller kept its side, for the merge test as written and as meant |
| `HeapFree.RunIff` | kernel/src/mm/alloc.c:169-284 | every run of allocations and frees stays healthy, call after call, exactly as long as the caller keeps its side; with the merge test as meant that asks nothing about which block a free merges with |
| `HeapFree.InitIsHealthy` | kernel/src/mm/alloc.c:351-359 | the heap is healthy after start-up, so the run theorem holds from boot |
| `HeapFree.UsedPlusFreeIsConstant` | kernel/src/mm/alloc.c:312-342 | in a healthy heap used plus free bytes is the size of the region |
| `Heap.Allocator.constructor` | kernel/src/mm/alloc.c:351-359 | start-up state, healthy for every region that fits in 32 bits |
| `Heap.Allocator.AddAlloc` | kernel/src/mm/alloc.c:23-43 | the scan over the tables puts the entry in the first empty slot, or panics |
| `Heap.Allocator.FindHole` | kernel/src/mm/alloc.c:91-120 | the scan finds the first of the smallest fitting holes |
| `Heap.Allocator.EmptySlots` | kernel/src/mm/alloc.c:123-132 | the number of empty slots of one table |
| `Heap.Allocator.AllocNewBlock` | kernel/src/mm/alloc.c:143-166 | in-place growth has the effect of the growth function, with both of its failures |
| `Heap.Allocator.Kamalloc` | kernel/src/mm/alloc.c:169-243 | the in-place call has the effect of the allocation function in every case, failures included |
| `Heap.Allocator.Take` | kernel/src/mm/alloc.c:208-242 | the in-place split of a hole has the effect of the carve function |
| `Heap.Allocator.Kmamalloc` | kernel/src/mm/alloc.c:251-256 | an allocation of the size rounded up to the alignment, in 32 bits |
| `Heap.Allocator.RmAlloc` | kernel/src/mm/alloc.c:50-81 | the in-place merge or re-mark has the effect of the release function |
| `Heap.Allocator.Kfree` | kernel/src/mm/alloc.c:259-284 | frees the first block at the address, and panics if there is none |
| `Heap.Allocator.GetTotals` | kernel/src/mm/alloc.c:312-342 | the two sums, in 32 bits; in a healthy heap they add up to its size |
| `PageTables.MakeEntry` | kernel/arch/x86/src/mm/paging.c:84-84 | frame and flags of an entry are read back as written |
| `PageTables.OrUser` | kernel/arch/x86/src/mm/paging.c:83-83 | the user flag is set if it was or is asked for; presence, write permission and table stay |
| `PageTables.EnsureTableKeeps` | kernel/arch/x86/src/mm/paging.c:77-81 | a blank table for a missing directory entry changes no lookup in any address space, and spaces stay separate |
| `PageTables.OrUserKeeps` | kernel/arch/x86/src/mm/paging.c:83-83 | the user flag on a directory entry changes no lookup |
| `PageTables.SetPteKeeps` | kernel/arch/x86/src/mm/paging.c:84-84 | writing a table entry changes exactly the lookups that reach that entry |
| `PageMaps.MapUserPage` | kernel/arch/x86/src/mm/paging.c:62-89 | mapping a page below the kernel range gives it the frame and flags asked for, and changes no other lookup in any space |
| `PageMaps.ShareKeeps` | kernel/arch/x86/src/mm/paging.c:86-88 | copying a kernel directory entry makes the space see the kernel's pages there and changes nothing else |
| `PageMaps.MapKernelPage` | kernel/arch/x86/src/mm/paging.c:66-89 | mapping a kernel page changes the kernel's map at that page only, the space shares the whole directory entry, and all other entries of all spaces stay |
| `PageMaps.KernelPageElsewhere` | kernel/arch/x86/src/mm/paging.c:66-89 | a further space sees a newly mapped kernel page if and only if its directory entry leads to the kernel's own table; every other lookup of it stays |
| `PageMaps.UnmapUserPage` | kernel/arch/x86/src/mm/mmu.c:57-65 | unmapping a page makes its lookup fail and changes no other lookup in any space |
| `PageMaps.ApplyIsFlat` | kernel/arch/x86/src/mm/mmu.c:31-68 | one map or unmap of a page acts on the two-level tables as on a flat page map, and on one space only |
| `PageMaps.Run` | kernel/arch/x86/src/mm/mmu.c:31-68 | any sequence of map and unmap operations keeps spaces separate, takes from the heap exactly one frame for each table it is the first to need, and adds exactly those tables |
| `PageMaps.RunIsFlat` | kernel/arch/x86/src/mm/mmu.c:31-68 | any sequence of operations on one space refines the same sequence on a flat page map, and shows in no other space |
| `PageMaps.MapOpsFlat` | kernel/arch/x86/src/mm/mmu.c:45-51 | a range mapping maps exactly the pages of the range to consecutive frames |
| `PageMaps.UnmapOpsFlat` | kernel/arch/x86/src/mm/mmu.c:57-65 | a range unmapping unmaps exactly the pages of the range |
| `PageMaps.TablesForAny` | kernel/arch/x86/src/mm/mmu.c:45-51 | the tables a range mapping needs depend on its pages alone |
| `PageMaps.UnmapNeedsNone` | kernel/arch/x86/src/mm/mmu.c:57-65 | unmapping a range needs no table |
| `PageMaps.RemapKeeps` | kernel/arch/x86/src/mm/mmu.c:45-51 | mapping a range that is already mapped so needs no frame and changes no lookup and no table |
| `PageMaps.BootIsReady` | kernel/arch/x86/src/mm/paging.c:124-150 | the directory set up at start-up, with a table behind entries 0 and 768, meets the invariant that all of this starts from, and shows the low 4 MiB in two places |
| `PageClone.CloneStep` | kernel/arch/x86/src/mm/mmu.c:103-111 | one round of the copy loop extends the part of the directory that leads to own copies |
| `PageClone.CloneLookups` | kernel/arch/x86/src/mm/mmu.c:88-114 | the finished copy looks up every page as its source does, and every other space is unchanged |
| `PageClone.CloneIsFaithful` | kernel/arch/x86/src/mm/mmu.c:88-114 | the clone is one more separate space with the source's lookups |
| `PageClone.ClonesAreIsolated` | kernel/arch/x86/src/mm/mmu.c:88-114 | after cloning, any sequence of user-range operations on either of the two leaves every lookup of the other as it was, and needs as many tables on either |
| `PageClone.ClonesMissKernelPages` | kernel/arch/x86/src/mm/mmu.c:103-111 | a kernel page that is mapped after cloning does not show in the clone, whose lookups all stay as they were |
| `PageClone.Redirect` | kernel/arch/x86/src/mm/mmu.c:105-106 | a redirected directory entry leads to the new table with the same access bits |
| `PageAccess.CoherentIsExact` | kernel/arch/x86/src/mm/mmu.c:70-86 | while no directory entry is in the way, a page allows at both levels together exactly what its own entry says |
| `PageAccess.MapUserWords` | kernel/arch/x86/src/mm/paging.c:77-84 | mapping a page widens its own directory entry, whose permissions once set stay set, and changes no other directory entry of any space |
| `PageAccess.MapUserAccess` | kernel/arch/x86/src/mm/paging.c:62-89 | from any state, what a mapped page allows at both levels together, and what every other page then allows: none loses anything |
| `PageAccess.MapUserCoherent` | kernel/arch/x86/src/mm/paging.c:62-89 | from a coherent state the page allows exactly the write and user access asked for, and the state stays coherent |
| `PageAccess.MapKernelWords` | kernel/arch/x86/src/mm/paging.c:66-89 | mapping a kernel page widens the kernel's directory entry, copies it to the space and changes no other directory entry |
| `PageAccess.MapKernelCoherent` | kernel/arch/x86/src/mm/paging.c:66-89 | the space and the kernel get exactly the access asked for; the state stays coherent if and only if the page is not for user mode or no other space reaches it through an entry without the user bit |
| `PageAccess.UnmapCoherent` | kernel/arch/x86/src/mm/mmu.c:57-65 | unmapping keeps the state coherent |
| `PageAccess.RunCoherent` | kernel/arch/x86/src/mm/mmu.c:31-68 | any sequence of user-range operations acts on what pages allow, at both levels together, as on a flat map, and in its own space alone |
| `PageAccess.BootCoherent` | kernel/arch/x86/src/mm/paging.c:124-150 | the directory of start-up is coherent |
| `PageAccess.CloneAccess` | kernel/arch/x86/src/mm/mmu.c:88-114 | a clone allows at every page exactly what its source does, and no other space's access changes |
| `PageAccess.CloneCoherent` | kernel/arch/x86/src/mm/mmu.c:88-114 | cloning keeps the state coherent |
| `Mmu.Mmu.MapTable` | kernel/arch/x86/src/mm/mmu.c:31-54 | the loop maps exactly the pages that the size asks for, counted from the page of the address |
| `Mmu.Mmu.UnmapTable` | kernel/arch/x86/src/mm/mmu.c:56-68 | the loop unmaps exactly those pages, with any number of frames left in the heap |
| `Mmu.Mmu.CountTables` | kernel/arch/x86/src/mm/mmu.c:89-94 | the number of present directory entries |
| `Mmu.Mmu.MapBlock` | kernel/arch/x86/src/mm/mmu.c:96-98 | mapping the new block onto itself changes no lookup when the heap is already mapped |
| `Mmu.Mmu.CopyTables` | kernel/arch/x86/src/mm/mmu.c:100-111 | both copy loops together yield a complete clone |
| `Mmu.Mmu.CloneTable` | kernel/arch/x86/src/mm/mmu.c:88-114 | the new table looks up every page as the source did before the call, no lookup of an existing space changes, and if every page allowed what its entry says, every page still does, the new table's included |
| `Machine.Chunk` | kernel/src/mm/mmu.c:131-141 | a round copies at least one byte, never crosses a page, and ends at a page end unless it ends the data |
| `Machine.ChunkEndsPage` | kernel/src/mm/mmu.c:126-163 | each round finishes one page, and all its bytes lie in that page |
| `Machine.MovedOn` | kernel/src/mm/mmu.c:126-163 | two copies one after the other are one copy when the second neither reads nor writes what the first wrote |
| `Machine.Machine.Memcpy` | kernel/src/mm/mmu.c:159-159 | a copy through the table in use moves exactly the bytes behind its addresses |
| `Machine.Machine.OpenWindow` | kernel/src/mm/mmu.c:154-157 | saves the current mapping of the page and maps it onto itself, and changes no other lookup |
| `Machine.Machine.CloseWindow` | kernel/src/mm/mmu.c:161-162 | brings back the saved mapping, also where there was none, and changes no other lookup |
| `Machine.Machine.WindowHidesIff` | kernel/src/mm/mmu.c:154-159 | while the window is open a byte of the caller's buffer leads to its own memory if and only if it is not on the window page or lay in the window's frame all along |
| `Machine.Machine.WriteFrame` | kernel/src/mm/mmu.c:150-162 | one round of writing moves the bytes into the frame and leaves every lookup of every space as it was |
| `Machine.Machine.ReadFrame` | kernel/src/mm/mmu.c:197-209 | one round of reading moves the bytes out of the frame and leaves every lookup as it was |
| `Machine.Machine.WriteOnce` | kernel/src/mm/mmu.c:126-163 | a round either extends the written prefix or fails at a byte that is not mapped writable |
| `Machine.Machine.WriteData` | kernel/src/mm/mmu.c:121-166 | the data goes, in order, to the memory behind the target range and nowhere else; it stops exactly at the first page not mapped writable; every lookup is afterwards as before; the heap needs a frame for each window table that is missing and no more |
| `Machine.Machine.ReadOnce` | kernel/src/mm/mmu.c:173-210 | a round either extends the read prefix or fails at a byte that is not mapped |
| `Machine.Machine.ReadData` | kernel/src/mm/mmu.c:168-213 | the same for reading, stopping exactly at the first page not mapped, with the same need of frames |
| `Machine.Machine.RoundTrip` | kernel/src/mm/mmu.c:121-213 | writing a range and reading it back into another buffer returns the same bytes, for every size and offset, and every lookup is as before; the reading needs no frame, because the writing made every table |
| `Machine.NeededNext` | kernel/src/mm/mmu.c:126-163 | each round lowers the number of tables that the rest of the copy needs by the one it makes |
| `WindowExample.BufferIsHidden` | kernel/src/mm/mmu.c:154-159 | two mappings from start-up and one open window after which the buffer's first byte leads to the window's frame and no longer to its own |
| `Machine.PlacesExtend` | kernel/src/mm/mmu.c:131-141 | the memory behind one round continues the memory behind the rounds before it, page by page |
| `SpaceCopy.CopyFrame` | kernel/src/mm/mmu.c:98-115 | one round through two windows moves the bytes from frame to frame and leaves every lookup of every space as it was |
| `SpaceCopy.SharedIsCopied` | kernel/src/mm/mmu.c:93-96 | a page that both spaces map to one frame already holds what a copy would put there |
| `SpaceCopy.CopyRound` | kernel/src/mm/mmu.c:67-116 | one round extends the copied prefix to the end of its page |
| `SpaceCopy.BothHold` | kernel/src/mm/mmu.c:56-119 | what was copied is in the destination and still in the source, shared pages included |
| `SpaceCopy.CopyOnce` | kernel/src/mm/mmu.c:67-116 | a round either extends the copied prefix or fails at a byte that cannot be read there or written here |
| `SpaceCopy.CopyData` | kernel/src/mm/mmu.c:56-119 | afterwards destination and source hold the source's bytes up to the first page that cannot be copied, nothing else in memory has changed, and every lookup of every space is as before; the heap needs a frame for each missing table of the two windows and no more |
| `SpaceCopy.NeededLater` | kernel/src/mm/mmu.c:67-116 | a round through two windows lowers the number of tables still needed by those it makes |
| `ForkRegion.SameOffset` | kernel/src/proc/fork.c:60-65 | the start of the block moves up by less than a page to the offset of the parent's |
| `ForkRegion.CoveredIff` | kernel/arch/x86/src/mm/mmu.c:45-51 | every byte of a region is on a mapped page if and only if its offset and length fit in the pages of its length alone, and its last byte decides |
| `ForkRegion.CloneIsSameMap` | kernel/arch/x86/src/mm/mmu.c:88-114 | the clone and its source show the same pages of a region, which is what the mapping starts from |
| `ForkRegion.BytePrivateIff` | kernel/src/proc/fork.c:68-74 | after the mapping a byte of the region has memory of its own in the child if and only if its page was covered, and then it lies in the block |
| `ForkRegion.RegionPrivateIff` | kernel/src/proc/fork.c:68-74 | a forked region is private to the child byte for byte if and only if its offset and length fit in the pages of its length alone |
| `ForkRegion.ShortRegionIsShared` | kernel/arch/x86/src/mm/mmu.c:45-51 | of four bytes across a page end only the first two are covered |
| `ForkRegion.RegionIsCopyable` | kernel/src/proc/fork.c:76-80 | whether private or not, the region meets what the copy asks of the two spaces |
| `ForkRegion.PlaceRegion` | kernel/src/proc/fork.c:68-74 | the child's pages of the region lead to the block, as the sequence of page mappings says |
| `ForkRegion.CopyRegion` | kernel/src/proc/fork.c:68-80 | mapping and copy together: the child reads the parent's bytes, which stay in the parent; it fails only at a page that stayed shared and is not writable; the region is private if and only if its offset and length fit in the mapped pages; no other space changes |
| `WaitExit.FreeSlot` | kernel/src/proc/proc.c:56-66 | the first free child slot, none only if all are taken |
| `WaitExit.DeadChild` | kernel/src/proc/wait.c:19-29 | the first slot with a zombie child, none only if there is none |
| `WaitExit.ForkKeeps` | kernel/src/proc/fork.c:97-190 | fork keeps the invariant of processes, slots, sleepers and reaped processes, and always succeeds or refuses |
| `WaitExit.ExitFaultsIff` | kernel/src/proc/mtask.c:190-213 | exit dereferences NULL if and only if the parent has already been reaped, and never reaches the panic of wait |
| `WaitExit.ExitEffect` | kernel/src/proc/mtask.c:190-213 | after exit the caller is a zombie, a sleeping parent is awake, and nobody else has changed |
| `WaitExit.ExitKeeps` | kernel/src/proc/mtask.c:190-213 | exit keeps the invariant |
| `WaitExit.NoDeadChild` | kernel/src/proc/wait.c:19-29 | the scan of the slots succeeds if and only if there is a zombie child |
| `WaitExit.WaitKeeps` | kernel/src/proc/wait.c:31-88 | wait keeps the invariant; it reaches its panic if and only if it would sleep and the waiter's list item cannot be allocated, and faults if and only if the condition cannot |
| `WaitExit.ResumeKeeps` | kernel/src/proc/wait.c:69-87 | a woken parent always finds its zombie child |
| `WaitExit.StepKeeps` | kernel/src/proc/wait.c:31-88 | every step of fork, exit and wait keeps the invariant |
| `WaitExit.RunKeeps` | kernel/src/proc/wait.c:31-88 | so does every interleaving |
| `WaitExit.NoLostWakeup` | kernel/src/proc/cond.c:19-63 | in every state reachable from boot no parent sleeps while it has a zombie child, and a woken parent can go on |
| `WaitExit.PanicNeedsExhaustion` | kernel/src/proc/wait.c:69-74 | in every reachable state the "Child missing" panic needs a failed allocation, and a NULL dereference needs one too or a reaped parent |
| `WaitExit.ReapedOnce` | kernel/src/proc/wait.c:75-85 | every process created in a run is at each moment either present or reaped, never both, and reaped at most once |
| `WaitExit.OrphanExitFaults` | kernel/src/proc/mtask.c:201-203 | a run from boot (two forks, an exit and a wait) after which the grandchild's exit dereferences NULL |
| `WaitExit.FailedWaitPanics` | kernel/src/proc/wait.c:66-74 | a run from boot in which a wait whose list item cannot be had panics although the child is alive |
| `WaitEffects.ForkEffect` | kernel/src/proc/fork.c:97-190 | fork puts one living, childless process in the first free slot and changes nothing else, or changes nothing at all if and only if all eight slots are taken |
| `WaitEffects.WaitEffect` | kernel/src/proc/wait.c:31-88 | wait destroys the first dead child, clears its slot and changes nothing else, if there is one; with living children only the caller sleeps alone on a new condition; without children nothing changes |
| `WaitEffects.ResumeEffect` | kernel/src/proc/wait.c:69-87 | a woken parent destroys its first dead child and changes nothing else |
| `WaitEffects.OnlyExitKills` | kernel/src/proc/mtask.c:190-213 | the only step that makes a process a zombie is its own exit |
| `WaitEffects.OnlyDeadAreReaped` | kernel/src/proc/wait.c:75-85 | a process that a step reaps was a zombie and a child of the caller, and the step is a wait |
| `WaitEffects.DeadHaveExited` | kernel/src/proc/wait.c:31-88 | in every run from boot, every zombie and every reaped process has called exit before |
| `WaitEffects.ReapedByParent` | kernel/src/proc/wait.c:31-88 | in every run from boot, a process is reaped by its own parent and only as a zombie |
| `Processes.Table.constructor` | kernel/src/proc/mtask.c:171-186 | the first process alone, in a state that meets the invariant |
| `Processes.Table.FindDeadChild` | kernel/src/proc/wait.c:19-29 | the loop over the slots finds a zombie child exactly when there is one |
| `Processes.Table.SignalAll` | kernel/src/proc/cond.c:50-63 | popping waiters until the list is empty makes every one of them eligible and nobody else |
| `Processes.Table.ForkProcess` | kernel/src/proc/proc.c:56-66 | the in-place effect of fork on the process table |
| `Processes.Table.ExitProcess` | kernel/src/proc/mtask.c:190-213 | the in-place effect of exit, its NULL dereference included |
| `Processes.Table.ReapChild` | kernel/src/proc/wait.c:75-85 | clears the slot and destroys that child only |
| `Processes.Table.WaitForChild` | kernel/src/proc/wait.c:31-88 | the in-place effect of wait up to the point where the caller sleeps; it sleeps exactly when it has children and none is a zombie |
| `Processes.Table.WaitResumes` | kernel/src/proc/wait.c:69-87 | the in-place effect of wait after waking up |
| `Llist.List.constructor` | kernel/src/data/llist.c:13-15 | the empty list |
| `Llist.List.Append` | kernel/src/data/llist.c:18-44 | the ring of the sequence becomes the ring of the sequence with the item at its end |
| `Llist.List.Unlink` | kernel/src/data/llist.c:67-78 | the neighbours are linked to each other, the item's own links are cleared, and no other link changes |
| `Llist.List.Remove` | kernel/src/data/llist.c:60-79 | the list is the ring without the item if and only if the item is not the head or is the only one |
| `Llist.List.Pop` | kernel/src/data/llist.c:160-176 | returns the last item and leaves the ring of the rest |
| `Llist.List.Count` | kernel/src/data/llist.c:178-196 | the walk counts every member once |
| `Llist.List.Get` | kernel/src/data/llist.c:199-217 | the item at the index, or NULL past the end |
| `Llist.List.GetPosition` | kernel/src/data/llist.c:96-119 | the position of a member, and a failure for anything else |
| `Llist.List.IterateAll` | kernel/src/data/llist.c:122-157 | an iteration visits the members once each, in order |
| `Llist.Iterator.Next` | kernel/src/data/llist.c:133-157 | moves on by one and ends when it is back at its first item |
| `Sched.Scan` | kernel/src/proc/sched.c:203-220 | the walk finds the nearest eligible thread after the current one, and fails only if none is eligible |
| `Sched.NeverAllBlocked` | kernel/src/proc/sched.c:203-206 | with the idle thread in the ring and eligible some thread is picked |
| `Sched.NextPicks` | kernel/src/proc/sched.c:186-228 | a pick runs the next thread round the ring that may run, passes only threads that may not, and changes nothing else; it panics if and only if no thread may run |
| `Sched.StepConserves` | kernel/src/proc/sched.c:82-241 | no step loses or doubles a thread, and only a pick or a replacement changes the current one |
| `Sched.DrainThreads` | kernel/src/proc/sched.c:154-175 | a drain puts the whole queue behind the ring, newest first |
| `Sched.StepKeeps` | kernel/src/proc/sched.c:82-241 | picking, draining, enqueueing, replacing and removing keep the idle thread head and eligible, the current thread in the ring, and threads listed once |
| `Sched.RunKeeps` | kernel/src/proc/sched.c:47-241 | in every state reachable from start-up these hold and the "All tasks are blocked" panic is unreachable |
| `Sched.PickApproaches` | kernel/src/proc/sched.c:186-228 | one pick runs an eligible thread or comes strictly closer to it around the ring |
| `Sched.PickedWithin` | kernel/src/proc/sched.c:186-228 | a thread that stays eligible is picked within as many picks as its distance, and each pick on the way runs a thread that may run |
| `Sched.BoundedWaiting` | kernel/src/proc/sched.c:186-228 | among n ring members a thread that stays eligible runs within n picks |
| `Sched.QueueReachesRing` | kernel/src/proc/sched.c:154-175 | a queued thread joins the ring with the first drain if and only if the lock word was set, and with the second drain in any case |
| `Sched.Scheduler.constructor` | kernel/src/proc/sched.c:47-80 | the idle thread alone, and current |
| `Sched.Scheduler.NextProcess` | kernel/src/proc/sched.c:186-228 | the iterator walk picks the next thread round the ring that may run, passing only threads that may not, or panics with everything unchanged if and only if none may |
| `Sched.Scheduler.Processes` | kernel/src/proc/sched.c:154-175 | the drain loop moves the whole queue to the ring, newest first, when the lock word was set, and only sets the word otherwise |
| `Tlock.StepKeeps` | kernel/src/proc/atomic/tlock.c:32-82 | every atomic step keeps: one thread has the lock, one is in the queue section, conditions belong to one thread |
| `Tlock.RunKeeps` | kernel/src/proc/atomic/tlock.c:32-82 | so does every interleaving of any number of threads |
| `Tlock.MutualExclusion` | kernel/src/proc/atomic/tlock.c:32-82 | at most one thread is between the return of acquire and the end of release, hand-off and the window between the two unlocks included |
| `Tlock.HandOffIff` | kernel/src/proc/atomic/tlock.c:72-81 | a release abandons the lock if and only if the thread it hands over to is not yet asleep |
| `Tlock.OnlySignalAbandons` | kernel/src/proc/atomic/tlock.c:32-82 | no other step abandons it |
| `Tlock.NobodyIsForgotten` | kernel/src/proc/atomic/tlock.c:32-82 | in every interleaving, unless the lock has been abandoned, every thread that sleeps or is about to has its condition in the queue or a releaser on its way to signal it |
| `Tlock.QueueLockIsGivenBack` | kernel/src/proc/atomic/tlock.c:32-82 | in every interleaving the second lock is held only while some thread is in its section |
| `Tlock.AcquireThenRelease` | kernel/src/proc/atomic/tlock.c:32-70 | without anybody else, acquiring takes the lock and releasing leaves everything as it was |
| `Tlock.HandsOver` | kernel/src/proc/atomic/tlock.c:63-82 | a release with its oldest waiter asleep gives that waiter the lock and changes nobody else |
| `Tlock.AbandonedForever` | kernel/src/proc/atomic/tlock.c:32-82 | an abandoned lock is never taken again |
| `Tlock.AsWrittenNeverReturns` | kernel/src/proc/atomic/tlock.c:47-56 | in the code as written a thread that found the lock taken never leaves the queueing loop |
| `Tlock.QueuesUp` | kernel/src/proc/atomic/tlock.c:32-56 | a thread that finds the lock taken queues its condition and is not asleep yet |
| `Tlock.Releases` | kernel/src/proc/atomic/tlock.c:63-81 | a release with a waiter takes the oldest condition and keeps the lock word set |
| `Tlock.HandOffLostFromStart` | kernel/src/proc/atomic/tlock.c:32-82 | for any two threads there is an interleaving from the free lock that abandons it |
| `Tlock.HandOffCanBeLost` | kernel/src/proc/atomic/tlock.c:32-82 | from any state with one holder and one newcomer there is an interleaving that abandons the lock, also with the loop as intended |
| `ModuleLayout.AndIsMod` | kernel/src/mod/module.c:362-365 | masking with one less than a power of two is the remainder |
| `ModuleLayout.ForceAlignIsRoundUp` | kernel/src/mod/module.c:362-365 | the alignment macro rounds up to the next multiple, for alignments the ELF rules allow |
| `ModuleLayout.Plan` | kernel/src/mod/module.c:371-418 | the sizing pass accepts exactly the sections without an address and with an alignment up to 0x80, and computes bases and sizes of both groups |
| `ModuleLayout.Place` | kernel/src/mod/module.c:427-477 | the placing pass fills the table and its offsets end at exactly the sizes of the sizing pass |
| `ModuleLayout.NoWrap` | kernel/src/mod/module.c:397-411 | the 32-bit sums are the exact ones while the group fits |
| `ModuleLayout.GroupIsSound` | kernel/src/mod/module.c:437-468 | each section is aligned and inside its group, and sections of a group do not overlap |
| `ModuleLayout.PageBaseStays` | kernel/src/mod/module.c:399-400 | a page-aligned base stays where it is |
| `ModuleLayout.TableEntries` | kernel/src/mod/module.c:431-472 | every entry belongs to one program or nobits section, with that section's size and its place in its group |
| `ModuleLayout.TableOrder` | kernel/src/mod/module.c:431-472 | entries come in section order, each section at most once |
| `ModuleLayout.LayoutIsSound` | kernel/src/mod/module.c:367-477 | placed sections are aligned, inside their group's allocation, at one offset between virtual and physical addresses, and disjoint within the group |
| `ModuleLayout.GroupsApartIff` | kernel/src/mod/module.c:417-418 | the two groups do not overlap if and only if the program group fits in one page, because the second base ignores its size |
| `ModuleLayout.SectionsApart` | kernel/src/mod/module.c:417-472 | while the program group fits in one page no placed program section overlaps a placed nobits section |
| `ModuleLayout.SectionsOverlap` | kernel/src/mod/module.c:417-472 | two accepted sections that are laid over each other |
| `ModuleLayout.BasesShift` | kernel/src/mod/module.c:371-418 | loading elsewhere by whole pages moves both bases alike |
| `ModuleLayout.TableShifts` | kernel/src/mod/module.c:427-477 | moving both bases moves every placed section by the same amount |
| `Relocation.Find` | kernel/src/mod/module.c:185-195 | the entry of a section, none only if it has none |
| `Relocation.OneMore` | kernel/src/mod/module.c:314-331 | one more relocation, clear of the earlier targets, extends the set of targets that hold their formula on the original word |
| `Relocation.ApplyAll` | kernel/src/mod/module.c:333-352 | relocations one after the other, overlapping or not, succeed if and only if each one applies |
| `Relocation.ApplyRelocs` | kernel/src/mod/module.c:333-352 | succeeds if and only if every relocation applies, and then memory is as relocating one after the other leaves it, overlapping targets included |
| `Relocation.ApplyAllIsFormulas` | kernel/src/mod/module.c:333-352 | when the words that are written do not overlap, each holds the formula of the ABI on its original word and every other byte is as it was |
| `Relocation.OrderIsIrrelevant` | kernel/src/mod/module.c:333-352 | when the words that are written do not overlap, any other order of the relocations applies as well and gives the same memory |
| `Relocation.SymbolShifts` | kernel/src/mod/module.c:270-309 | the value of a symbol moves with its section if it has one, and stays otherwise |
| `Relocation.RelocatedShifts` | kernel/src/mod/module.c:217-249 | for every relocation that applies: moving all sections moves its target, and shifts its word, modulo 2^32, by the move where base or symbol moves, minus the move where it is relative to its own place |
| `Relocation.MovedModule` | kernel/src/mod/module.c:208-507 | after all relocations of two loads of one module at page-aligned addresses, each relocated word of the second load is that of the first, shifted as its kind and its symbol say |
| `RelocatedWords.TableOnePerSection` | kernel/src/mod/module.c:431-472 | the placement table has one entry per section |
| `RelocatedWords.SymbolFoundIff` | kernel/src/mod/module.c:270-309 | a symbol is found if and only if it exists and is absolute, known to others, or of a section that is listed |
| `RelocatedWords.SymbolIs` | kernel/src/mod/module.c:270-309 | a symbol that is found is its own value, what others know it as, or its placed section's address plus its value, in 32 bits |
| `RelocatedWords.AppliesIff` | kernel/src/mod/module.c:217-249 | a relocation applies if and only if its address is past the first page, its kind is handled and the symbol it needs is found |
| `RelocatedWords.WordAfter` | kernel/src/mod/module.c:208-352 | what each relocated word is in the loaded module, kind by kind, from the original word, the address of the placed section and the symbol's value |
| `Vfs.FirstNamed` | kernel/src/fs/fs.c:136-149 | the first child with the name, none only if no child has it |
| `Vfs.FindFileIsWalk` | kernel/src/fs/fs.c:202-261 | looking up a path as text follows its names from directory to directory |
| `Vfs.FindFileFollows` | kernel/src/fs/fs.c:202-261 | a path as text, "." and ".." included, leads where its parts lead one by one; above the root is the root, but only on the way to somewhere |
| `Vfs.FindFileFromRoot` | kernel/src/fs/fs.c:228-233 | behind a leading separator the same from the root, whatever the starting file |
| `Vfs.DotIsDropped` | kernel/src/fs/fs.c:210-227 | a name that starts with a dot is looked up without the dot, so a file of that name is never found |
| `Vfs.FindDirAdded` | kernel/src/fs/fs.c:20-43 | after an addition a directory finds what it found before, and the new file only where nothing hides it |
| `Vfs.WalkAdded` | kernel/src/fs/fs.c:20-43 | after an addition every path leads where it led, and the new file's path to it unless something was there |
| `Vfs.FileSystem.constructor` | kernel/src/fs/fs.c:364-389 | the root alone |
| `Vfs.FileSystem.AddFile` | kernel/src/fs/fs.c:20-43 | the file becomes the last child of its parent, of the root if none is given, with the next inode number |
| `Vfs.FileSystem.FindDirectory` | kernel/src/fs/fs.c:136-149 | the scan of the children finds the first with the name |
| `Cpio.ScanSlash` | kernel/src/std/libgen.c:6-41 | the scan that both functions share finds the last separator |
| `Cpio.EntryAt` | kernel/src/fs/initrd.c:126-144 | a file entry is only ever found inside the image, and the next one is looked for further on |
| `Cpio.InitrdMount` | kernel/src/fs/initrd.c:97-220 | the loop over the archive ends on every image, with the tree and the ending that the mount function gives, and counts the files it adds |
| `CpioRoundTrip.HeaderRead` | kernel/src/fs/initrd.c:126-144 | header fields are read as they were written, both 32-bit ones with their halves swapped |
| `CpioRoundTrip.EntryRead` | kernel/src/fs/initrd.c:126-144 | an encoded entry is read back with its name, attributes and size, its data in place and the next entry right behind its padding |
| `CpioRoundTrip.TrailerRead` | kernel/src/fs/initrd.c:136-140 | the trailer entry ends the mount |
| `CpioRoundTrip.NamesOf` | kernel/src/std/libgen.c:6-41 | base name and directory name of a path are its last name and the path of the others |
| `CpioRoundTrip.HomeIsWalk` | kernel/src/fs/initrd.c:152-165 | the directory a file goes to is where all names but the last lead |
| `CpioRoundTrip.MountedStep` | kernel/src/fs/initrd.c:126-219 | mounting one more entry keeps: every path leads to the file of its first entry, and every file holds its entry |
| `CpioRoundTrip.MountThenFind` | kernel/src/fs/initrd.c:97-220 | after mounting any archive that lists parents first, a path leads to the file of the first entry for it, with that entry's name, length, bytes and attributes, and nowhere if the archive has none |
| `CpioRoundTrip.EveryEntryIsFound` | kernel/src/fs/initrd.c:97-220 | with distinct paths every entry is found under its path, with its own length and bytes |
| `ShellSplit.SkipSpaces` | user/utils/lshell/src/shell.c:92-94 | the next byte that is no white space |
| `ShellSplit.ScanBounds` | user/utils/lshell/src/shell.c:66-117 | the parameter begun is never longer than the one the scan yields |
| `ShellSplit.CountPass` | user/utils/lshell/src/shell.c:66-125 | the counting pass succeeds exactly if there are at most 32 parameters, and counts them |
| `ShellSplit.AllocPass` | user/utils/lshell/src/shell.c:66-131 | the allocating pass gives every parameter its own buffer, one byte longer than it |
| `ShellSplit.RealPass` | user/utils/lshell/src/shell.c:66-134 | the writing pass writes inside the buffers only and fills each with its parameter and terminator |
| `ShellSplit.ArgsSplit` | user/utils/lshell/src/shell.c:54-148 | the three passes agree: on success the buffers hold the parameters, and it fails exactly with too many |
| `ShellQuote.ReplacedIsClean` | user/utils/lshell/src/shell.c:157-215 | without variables the clean-up resolves the two markers and changes nothing else |
| `ShellQuote.MeantWeighs` | user/utils/lshell/src/shell.c:41-42 | what is meant holds one dollar for each escaped one and no marker |
| `ShellQuote.ReplacedWeighs` | user/utils/lshell/src/shell.c:161-211 | what the loop yields holds strictly more of them once it has stepped over a special byte |
| `ShellQuote.LongNameFails` | user/utils/lshell/src/shell.c:164-170 | the loop fails if and only if it gets to a name that is too long |
| `ShellQuote.ReplacedIffApart` | user/utils/lshell/src/shell.c:157-215 | in every environment without reserved bytes, unset variables included, the loop works out what the markers are documented for if and only if no variable is directly followed by a variable, a quote or an escaped dollar; with a name that is too long, if and only if it gets to one |
| `ShellQuote.WrittenFrom` | user/utils/lshell/src/shell.c:157-215 | how the clean-up of an argument ends in the blocks the code asks for is decided by its first variable |
| `ShellQuote.StaysInBlockIff` | user/utils/lshell/src/shell.c:186-196 | the clean-up stays in its block if and only if there is no variable, or the first one's name is too long, or it is the whole text and empty; without variables it keeps the cleaned text |
| `ShellQuote.LoneVariable` | user/utils/lshell/src/shell.c:186-196 | the argument "$A" leaves its block if A has a value, and is refused if it has none |
| `ShellQuote.QuotedVariableKeepsMarker` | user/utils/lshell/src/shell.c:198-199 | the text "$A" in double quotes keeps the marker of its closing quote |
| `ShellQuote.NameEnd` | user/utils/lshell/src/shell.c:164-165 | the scan stops at the end of the variable's name |
| `ShellQuote.DeleteAt` | user/utils/lshell/src/shell.c:205-209 | the in-place copy drops one byte and keeps the rest and the terminator |
| `ShellQuote.RefuseOrOverrun` | user/utils/lshell/src/shell.c:162-196 | in the block the code asks for, a variable is refused or the terminator goes one byte outside |
| `ShellQuote.ExpandAt` | user/utils/lshell/src/shell.c:162-201 | in a block with room, the variable is replaced by its value and the cursor is one past the byte behind it; names over 64 bytes fail |
| `ShellQuote.ReplaceArg` | user/utils/lshell/src/shell.c:157-215 | the loop over one argument ends; in the blocks the code asks for it ends as stated above, with the text in its buffer or refused or outside; in blocks with room it leaves the text it works out |
| `ShellQuote.ScanPiece` | user/utils/lshell/src/shell.c:66-117 | a bare, escaped or quoted piece of an argument is scanned to its marked form |
| `ShellQuote.ScanLine` | user/utils/lshell/src/shell.c:54-148 | a printed command line splits into its marked arguments, and fails exactly above 32 |
| `ShellQuote.QuotingRoundTrip` | user/utils/lshell/src/shell.c:54-215 | arguments printed with any mix of bare, escaped and quoted pieces and any white space between them come back as they were after split and clean-up, inside their blocks and whatever the environment; more than 32 fail |
| `ExecArgs.VectorIsUnique` | kernel/src/proc/exec.c:84-191 | memory holds at most one vector of strings at an address |
| `ExecArgs.PlacedIsVector` | kernel/src/proc/exec.c:118-134 | pointers, terminating NULL and strings in place are a vector of exactly these strings |
| `ExecArgs.BlockHoldsBoth` | kernel/src/proc/exec.c:146-191 | the packed block holds both vectors, the second right after the first one's NULL |
| `ExecArgs.Strlen` | kernel/src/proc/exec.c:89-99 | the length up to the terminator |
| `ExecArgs.CountVector` | kernel/src/proc/exec.c:153-160 | the number of strings, and the bytes they need with their pointers |
| `ExecArgs.PlaceVector` | kernel/src/proc/exec.c:172-176 | a placing loop writes its pointers and strings, and nothing outside them |
| `ExecArgs.Pack` | kernel/src/proc/exec.c:84-191 | the block is exactly pointers, NULL, pointers, NULL and the strings in order, and the offset ends at the computed size, so the mismatch branch never runs |
| `ExecArgs.StoreAndCopy` | kernel/src/proc/exec.c:84-191 | storing and then copying gives vectors that lead to the same argument and environment strings |
| `Stream.Ring.Put` | kernel/src/data/cbuff.c:31-40 | a byte goes to the end of the contents unless the ring is full, across every wrap |
| `Stream.Ring.Get` | kernel/src/data/cbuff.c:43-53 | the oldest byte comes off the front unless the ring is empty |
| `Stream.Ring.Write` | kernel/src/data/cbuff.c:57-68 | all bytes or none |
| `Stream.Ring.Read` | kernel/src/data/cbuff.c:71-83 | exactly the bytes asked for or none |
| `Stream.RunIsFifo` | kernel/src/fs/stream.c:56-88 | over any run of writes and reads, what was read followed by what is buffered is what was buffered at first followed by what was accepted |
| `Stream.File.Create` | kernel/src/fs/stream.c:30-53 | no file for lengths below one, else an empty stream of that size |
| `Stream.File.ReadSome` | kernel/src/fs/stream.c:56-72 | returns the oldest bytes, as many as asked for or there are; the file's length stays the number of buffered bytes |
| `Stream.File.WriteSome` | kernel/src/fs/stream.c:74-88 | accepts the leading bytes that fit; the file's length stays the number of buffered bytes |

## Left out

- The LZOP container around the blocks (kernel/src/crypto/comp/lzop.c:63-174): a walk over lengths with skipped checksums.
- Compressed archives: the mount is of an image that is already a CPIO archive.
- The loop of fork's `proc_copy_data` over the regions (kernel/src/proc/fork.c:26-47, 82-85) and its allocation of each block: ForkRegion covers what is done with one region and a block.
- Locking inside the heap, the list and the file system: each call is taken as atomic.
- Register-level context switch, interrupts, TLB and cache behaviour: hardware state.
- Placement of threads on several processors: only one is set up.
- The user-space allocator: the kernel heap's algorithm again.
- Symbolic links, permissions, open handles and the other file system drivers.
- Looking up undefined symbols by name in the kernel and other modules: a parameter of the relocation.
- Drivers, console, printf, system call wrappers.
- SpaceCopy.CopyData: equal addresses in both spaces, as fork passes them; the code compares page numbers only and uses the source's offset for both (kernel/src/mm/mmu.c:62, 98-100).
- Tlock.StepKeeps: tlock_acquire and tlock_release are steps of a transition system on values, not methods that update a lock in place.
- Mmu.Mmu.MapTable: ranges below the kernel range only; single kernel pages are covered by PageMaps.MapKernelPage.
- Mmu.Mmu.UnmapTable: ranges below the kernel range only; the tables of the kernel range are shared by all spaces.
- Machine.Machine.WriteData: no byte of the buffer is on the page that shows its own target frame; Machine.Machine.WindowHidesIff shows that the code reads other memory exactly otherwise, unless the buffer lies in the target itself.
- Machine.Machine.ReadData: the same for the buffer that is read into and the frame that is read.
- Machine.Machine.RoundTrip: the same for both buffers.
- ForkRegion.CopyRegion: before the call the child's pages of the region are the parent's, as after the clone; the parent's pages lead to distinct frames that hold data, and the block's frames are new.
- Sched.StepKeeps: removing the current or the idle thread, and replacing while idle is current, are not steps; the code then follows cleared links or leaves the head pointer on a removed item.
- Sched.RunKeeps: runs of the steps that Sched.StepKeeps covers.
- Mmu.Mmu.CloneTable: the block for the clone is given, free and already mapped onto itself, in place of the call to the heap.
- Llist.List.GetPosition: non-empty lists only, because the code dereferences the head of an empty one.
- ShellSplit.ArgsSplit: a failure stands for the code's failure path, which dereferences the parameter list before it exists.
- ShellQuote.ExpandAt: the expansion with room for the terminator and the old bytes still readable; in the block the code asks for, ShellQuote.RefuseOrOverrun ends at the first access outside.
- LzoRoundTrip.EveryStringHasAnEncoding: strings up to 238 bytes short of 2^32, as one literal run carries the whole string.
- CpioRoundTrip.MountThenFind: archives that list a directory before its files; a file whose directory is missing goes to the root, as Cpio.Home says.
