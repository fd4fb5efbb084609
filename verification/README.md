# Skyline: verified models of its core state machines

Skyline runs Switch software on another machine. This project models, in Dafny, the parts of it whose correctness
rests on long-lived state or on rewriting, and proves what each of them is for. Every file holds one module.

- `Common`, `Paging`: shared small definitions, page arithmetic, half-open intervals.
- `IntervalMap`, `Traps`: groups of guest regions that demand page protection, and the fault handler that runs
  callbacks and re-opens pages found by a recursive, page-aligned lookup.
- `ChunkMap`: the guest memory map, a vector of chunks that is split, trimmed, extended and merged in place.
- `Buffers`, `BufferMerging`, `BufferManager`, `DelegateLock`: coherence of GPU buffers with guest memory, caching by
  sequence number in a megabuffer, merging of overlapping buffers under live views, and the protocol by which a view
  locks its latest buffer.
- `BufferPool`, `FlatMachine`, `BufferSystem`: all of it together. Any number of buffers share guest memory, the trap
  map with its page protection, and one megabuffer; guest accesses go through page protection and the fault handler, lookups
  find or create buffers and merge those in their way, and submissions start over. `FlatMachine` is an abstract machine
  over one flat memory; each of its actions has one event, which the state before it decides.
  `BufferSystems.BufferSystem.Run` states that every run of the real system is a run of that machine, and
  `FlatMachines.ByteAfter` what each step of it does to each byte.
- `Instructions`, `Patcher`, `GuestCpu`, `SvcCall`: the two-pass rewriter of guest code, the layout and control flow of
  what it writes, and the execution of its trampolines, from a system call to the handler of the host and back.
- `Scheduler`: per-core run queues whose running front may be out of order.
- `ShaderCache`: the memo table of translated shaders, keyed on what a translation read.
- `CircularBuffer`: a ring over a fixed array.

Run the verifier on `dfyconfig.toml`.

Classes stand for the objects that the program updates in place. Their `Valid()` is the invariant: it holds after every
way of construction, the merging of buffers included, and every operation requires and ensures it, so it holds in every
run. Mutexes make each method one step, except in `DelegateLock`, where the steps of all threads interleave freely.
Callbacks, fences, the host's page protection, the translator and the GPU appear as parameters or as explicit state; the
system calls behind them are not modelled.

## Where the code does not do what it promises

In each case the model does what the code does, and the contract says exactly when the promise is kept.

- A merge leaves the bytes behind that the GPU has written to a source taking part in the work being recorded; the new
  buffer has the bytes of guest memory there (`BufferMerging.Construct`, `FlatMachines.ByteAfter`,
  `BufferSystems.RecordingLoses`). Which sources these are is up to the test in line 79 of `gpu/buffer.cpp`:
  `owner_before` is an order on owners and false for equal ones, so that for the current cycle itself the code writes
  the source back, although the comment above the test says the opposite. The model leaves the answer of the test open and
  holds for each.
- Deleting a trap can leave a page protected that no trap is on, so that an access there is a fault nobody handles:
  exactly if another trap demands protection on the last region of the deleted one that holds the page
  (`Traps.TrapManager.StrandedExactly`, `Traps.DeletionStrands`). The traps of buffers never do, since a buffer goes
  only when another has taken its pages (`Traps.TrapManager.DeleteTrap`, `BufferSystems.BufferSystem.TrapMerged`).
- The read branch of the fault handler opens pages for writing that a group it has just served still traps, unless a
  group found with the page traps writes only; both callers ask for the write branch
  (`Traps.TrapManager.ReadFault`, `Traps.ReadFaultExposes`).
- A read of nothing from a ring buffer that is full with equal positions forgets its contents
  (`CircularBuffers.CircularBuffer.Read`, `CircularBuffers.EmptyReadForgets`).
- A patched write of the thread pointer register stores the wrong value exactly when its source is X0, because the
  choice of scratch registers looks at the system register field (`GuestCpu.TlsStoreCorrect`).
- The load sequence for a constant emits nothing for zero and so leaves the old register value
  (`Instructions.MoveRegister`).
- The patch layout assumes a host function address with three half words that are not zero; with four, the section is
  overrun exactly when the counted words fill whole pages
  (`Patcher.MainTrampolineSize`, `Patcher.CountedIsWritten`, `Patcher.PatchProgram`).
- Inserting a chunk at the very bottom of the address space that ends inside the first chunk steps before the first
  element, and one that starts past its end leaves a gap (`ChunkMaps.MemoryManager.InsertChunk`,
  `ChunkMaps.BottomInsert`).
- Joining compatible chunks is not complete: an insertion inside the lower neighbour or exactly in the place of a chunk,
  and one that joins the chunk below, can leave equal neighbours apart (`ChunkMaps.StaysMerged`).
- The rescaled counter runs ahead of time unless the frequency of the host is a multiple of 100 kHz, since the frequency
  is rounded down (`SvcCalls.RescaledOnTime`, `SvcCalls.RescaledCounts`).
- The pages of a clean merged buffer that no source was on refuse reads too, if a source refused them, so that a guest
  read takes a fault there (`BufferSystems.BufferSystem.TrapMerged`, `FlatMachines.LevelledStep`).
- The megabuffer checks for space before it aligns, so a push can run over the end (`Buffers.MegaBuffer.Push`,
  `Buffers.PushOverruns`).

## Model

| member | source | states |
|---|---|---|
| Paging.AlignDown | app/src/main/cpp/skyline/common/utils.h:91-93 | the greatest page boundary not above the address |
| Paging.AlignUp | app/src/main/cpp/skyline/common/utils.h:80-83 | the least page boundary not below the address |
| IntervalMaps.LowerBound | app/src/main/cpp/skyline/common/interval_map.h:36-38 | on elements in any order, only the two neighbours of the result are on their proper sides |
| IntervalMaps.Place | app/src/main/cpp/skyline/common/interval_map.h:201-207 | inserting at the lower bound of the start or of the end keeps the chain property of the unsorted list and adds exactly the one interval |
| IntervalMaps.MergeCovers | app/src/main/cpp/skyline/common/interval_map.h:229-234 | joining two touching neighbours covers the same addresses |
| IntervalMaps.Coalesce | app/src/main/cpp/skyline/common/interval_map.h:226-238 | the pass covers exactly the addresses of its input, sorted or not, keeps page alignment, and separates all intervals if the input was sorted |
| IntervalMaps.IntervalMap.Insert | app/src/main/cpp/skyline/common/interval_map.h:114-120 | a fresh group with these intervals, entries sorted and in step with the groups |
| IntervalMaps.IntervalMap.Remove | app/src/main/cpp/skyline/common/interval_map.h:122-130 | exactly this group goes, entries stay in step |
| IntervalMaps.IntervalMap.GetRange | app/src/main/cpp/skyline/common/interval_map.h:146-153 | exactly the groups with an interval overlapping the range, each once |
| IntervalMaps.IntervalMap.ExclusiveTo | app/src/main/cpp/skyline/common/interval_map.h:209-217 | true if and only if no third group overlaps the interval |
| IntervalMaps.IntervalMap.CollectExclusive | app/src/main/cpp/skyline/common/interval_map.h:188-203 | intervals taken from a recursed group keep the query closed |
| IntervalMaps.IntervalMap.CollectWhole | app/src/main/cpp/skyline/common/interval_map.h:182-207 | cases 1 and 3: the whole interval is taken with every group on its pages, and the query stays closed |
| IntervalMaps.IntervalMap.CollectGroup | app/src/main/cpp/skyline/common/interval_map.h:169-223 | an overlapping entry always contributes its own aligned interval, and exactly the groups on that, or on all intervals of its group if it is alone |
| IntervalMaps.IntervalMap.CollectAll | app/src/main/cpp/skyline/common/interval_map.h:164-224 | the scan finds every group on the lookup and none further than one shared page away; on one page, exactly the groups that the last entry on it draws in |
| IntervalMaps.IntervalMap.PageDrawn | app/src/main/cpp/skyline/common/interval_map.h:180-186 | every group on a page comes with any entry on it, so that one entry decides a lookup of one page |
| IntervalMaps.IntervalMap.CoalescedQuery | app/src/main/cpp/skyline/common/interval_map.h:226-240 | closure and reach of the collected list carry over to its coalesced form |
| IntervalMaps.IntervalMap.GetAlignedRecursiveRange | app/src/main/cpp/skyline/common/interval_map.h:160-241 | for one page, the exact groups returned; the query is closed: every group overlapping a returned interval is returned; intervals are page aligned, reach into the lookup when anything does, and hold only pages of returned groups; what a returned group has to itself is opened, and a group alone in the lookup is opened whole |
| Traps.TrapManager.DemandEnforced | app/src/main/cpp/skyline/nce.cpp:415-460 | in every valid state, accesses that a group traps on a page do fault |
| Traps.TrapManager.LevelFor | app/src/main/cpp/skyline/nce.cpp:423-460 | the least level that meets the floor and every demand on the region |
| Traps.TrapManager.ReprotectIntervals | app/src/main/cpp/skyline/nce.cpp:415-460 | each page of the regions gets exactly the strictest level demanded on the last region holding it, other pages keep theirs |
| Traps.TrapManager.StrictestGuards | app/src/main/cpp/skyline/nce.cpp:415-460 | the strictest level of a region guards each of its pages |
| Traps.TrapManager.SoleLevel | app/src/main/cpp/skyline/nce.cpp:415-460 | pages that only one group is on get just the level asked for |
| Traps.TrapManager.TrapRegions | app/src/main/cpp/skyline/nce.cpp:519-525 | a new group with its demand; every page stays at least as strict as every demand on it |
| Traps.TrapManager.RetrapRegions | app/src/main/cpp/skyline/nce.cpp:527-532 | the demand changes and every page stays guarded |
| Traps.TrapManager.RemoveTrap | app/src/main/cpp/skyline/nce.cpp:534-538 | the demand is dropped, pages open only as far as other groups allow |
| Traps.TrapManager.DeleteTrap | app/src/main/cpp/skyline/nce.cpp:540-545 | the group is gone, each of its pages gets the strictest level that other groups demand on the last region holding it, pages elsewhere are untouched, all pages stay guarded; no protected page is left without a group if the pages of this one all belong to others too |
| Traps.TrapManager.StrandedExactly | app/src/main/cpp/skyline/nce.cpp:423-444 | for traps over any regions: a page of a deleted trap stays protected if and only if another group demands protection anywhere on the last region that holds the page |
| Traps.DeletionStrands | app/src/main/cpp/skyline/nce.cpp:540-545 | two traps and a deletion after which a protected page has no handler |
| Traps.TrapManager.FaultQuery | app/src/main/cpp/skyline/nce.cpp:476-480 | in terms of pages: exactly the groups found, all on the faulting page among them, empty exactly when no group is on that page; that page is always among those to open, every page that a found group has to itself is, and all pages of a group alone on the lookup; every group on a page to open is returned |
| Traps.TrapManager.RunCallbacks | app/src/main/cpp/skyline/nce.cpp:482-492 | callbacks run exactly once for exactly the groups that still demand protection |
| Traps.TrapManager.Open | app/src/main/cpp/skyline/nce.cpp:509-512 | opening pages without demands keeps every page guarded |
| Traps.TrapManager.TrapHandler | app/src/main/cpp/skyline/nce.cpp:473-515 | a write fault is handled if and only if a group is on the page, and then the retried access does not fault; callbacks run for exactly the groups found that still demand something; every page that a found group has to itself opens, and all pages of a group alone on the faulting one; no page opens while a group on it has not run its callback, and none that is not shared with the fault's groups |
| Traps.TrapManager.ReadFault | app/src/main/cpp/skyline/nce.cpp:493-512 | the read branch: demands are lowered to write traps, and the faulting page stays guarded if and only if a group found with it trapped writes only or none on it trapped reads; likewise every other page |
| Traps.ReadFaultExposes | app/src/main/cpp/skyline/nce.cpp:493-512 | one trapped page on which a read fault lets the guest write unnoticed |
| ChunkMaps.LookupConcat | app/src/main/cpp/skyline/kernel/memory.cpp:246-255 | the meaning of a list of chunks is that of its parts |
| ChunkMaps.LookupDefined | app/src/main/cpp/skyline/kernel/memory.cpp:76-91 | a tiling gives properties to exactly the addresses between its ends |
| ChunkMaps.UpperBound | app/src/main/cpp/skyline/kernel/memory.cpp:197-201 | the neighbours of the result are on their proper sides of the address |
| ChunkMaps.MergeSame | app/src/main/cpp/skyline/kernel/memory.cpp:223-242 | joining adjacent compatible chunks changes no address |
| ChunkMaps.DropSame | app/src/main/cpp/skyline/kernel/memory.cpp:218-229 | a chunk of size zero may go |
| ChunkMaps.PlainUpdates | app/src/main/cpp/skyline/kernel/memory.cpp:201-221 | cutting the lower neighbour around the new chunk is the pointwise update and keeps the tiling |
| ChunkMaps.ClearAbove | app/src/main/cpp/skyline/kernel/memory.cpp:201-206 | erasing and trimming leaves everything beyond the new chunk as it was |
| ChunkMaps.MemoryManager.constructor | app/src/main/cpp/skyline/kernel/memory.cpp:76-91 | the initial chunks tile the address space, reserved outside the application range |
| ChunkMaps.MemoryManager.Clear | app/src/main/cpp/skyline/kernel/memory.cpp:201-206 | the space above the lower neighbour is cleared up to the end of the chunk |
| ChunkMaps.MemoryManager.Overwrite | app/src/main/cpp/skyline/kernel/memory.cpp:209-212 | same meaning as the plain insertion, and chunks start where they did |
| ChunkMaps.MemoryManager.SplitLower | app/src/main/cpp/skyline/kernel/memory.cpp:213-231 | same meaning as the plain insertion, joined with the chunk below or split off; undefined exactly at the first chunk's own start |
| ChunkMaps.MemoryManager.ReplaceLower | app/src/main/cpp/skyline/kernel/memory.cpp:222-230 | same meaning as the plain insertion; no chunk starts at the new one any more exactly if it extends the chunk below |
| ChunkMaps.MemoryManager.MergeOrInsert | app/src/main/cpp/skyline/kernel/memory.cpp:232-243 | same meaning as the plain insertion; chunks start exactly where the neighbours and the new chunk do, but for those joined to the lower or the upper neighbour |
| ChunkMaps.MemoryManager.JoinUpperOrInsert | app/src/main/cpp/skyline/kernel/memory.cpp:237-242 | same meaning as inserting the chunk between its neighbours; nothing starts at its end exactly if the upper neighbour has the same properties |
| ChunkMaps.MemoryManager.InsertChunk | app/src/main/cpp/skyline/kernel/memory.cpp:194-244 | a pointwise update through all branches: inside the chunk the new properties, elsewhere the old; exactly where chunks start afterwards, that is which neighbours have been joined; the tiling is kept if and only if the chunk does not start past the end; exact conditions for the exception and for the undefined case |
| ChunkMaps.MemoryManager.InsertBeyond | app/src/main/cpp/skyline/kernel/memory.cpp:197-243 | a chunk past the end is a pointwise update too, but leaves a gap |
| ChunkMaps.StartsAfterwards | app/src/main/cpp/skyline/kernel/memory.cpp:207-243 | where chunks start after an insertion, told from the chunks before it alone |
| ChunkMaps.StaysMerged | app/src/main/cpp/skyline/kernel/memory.cpp:207-243 | an insertion into a map without equal neighbours leaves none if and only if it leaves no seam, which happens inside the lower neighbour, exactly in its place, and above a chunk joined to it |
| ChunkMaps.SameChunk | app/src/main/cpp/skyline/kernel/memory.cpp:246-255 | properties and starts of chunks determine every chunk, and so what a query of the guest shows |
| ChunkMaps.Extent | app/src/main/cpp/skyline/kernel/svc.cpp:186-194 | a chunk reaches from its start to the next start |
| ChunkMaps.BottomInsert | app/src/main/cpp/skyline/kernel/memory.cpp:76-91 | right after initialisation an insertion at the bottom is undefined if and only if it is smaller than the reserved chunk |
| ChunkMaps.MemoryManager.Get | app/src/main/cpp/skyline/kernel/memory.cpp:246-255 | finds a chunk for exactly the addresses of the space; it holds the address and reaches from one start of a chunk to the next |
| ChunkMaps.HeapBytesCountAddresses | app/src/main/cpp/skyline/kernel/memory.cpp:257-264 | the sum over chunks is the number of addresses whose state is Heap |
| ChunkMaps.MemoryManager.GetUserMemoryUsage | app/src/main/cpp/skyline/kernel/memory.cpp:257-264 | number of heap addresses plus code and stack sizes |
| Buffers.MegaBuffer.Push | app/src/main/cpp/skyline/gpu/buffer_manager.cpp:108-125 | the data lies at the returned offset, earlier copies are untouched, the offset is never zero; exact conditions for running out of space and for overrunning |
| Buffers.PushOverruns | app/src/main/cpp/skyline/gpu/buffer_manager.cpp:108-125 | two pushes from a fresh megabuffer of which the second runs over the end |
| Buffers.CachedKept | app/src/main/cpp/skyline/gpu/buffer.h:56-58 | cached copies stay valid under further sequence numbers and pushes |
| Buffers.Buffer.constructor | app/src/main/cpp/skyline/gpu/buffer.cpp:37-39 | a new buffer is CPU dirty, write trapped and stands for the guest memory |
| Buffers.Buffer.SynchronizeHost | app/src/main/cpp/skyline/gpu/buffer.cpp:139-157 | contents unchanged, CPU dirtiness gone under a new sequence number, traps strict enough |
| Buffers.Buffer.SynchronizeGuest | app/src/main/cpp/skyline/gpu/buffer.cpp:180-197 | contents unchanged, GPU dirtiness gone if the fence allows, traps strict enough |
| Buffers.Buffer.MarkGpuDirty | app/src/main/cpp/skyline/gpu/buffer.cpp:111-118 | contents unchanged, every access trapped, no number handed out stands for what follows |
| Buffers.Buffer.Fault | app/src/main/cpp/skyline/gpu/buffer.cpp:25-34 | a fault loses nothing: pending GPU contents reach guest memory first, then the buffer is CPU dirty |
| Buffers.Buffer.GuestWrite | app/src/main/cpp/skyline/gpu/buffer.cpp:18-35 | in every reachable state a guest write reaches the contents on top of GPU writes and ends in CPU dirty |
| Buffers.Buffer.GuestRead | app/src/main/cpp/skyline/gpu/buffer.cpp:18-35 | a guest read sees the contents, including GPU writes; one that the trap lets through changes nothing, any other ends in CPU dirty |
| Buffers.Buffer.Read | app/src/main/cpp/skyline/gpu/buffer.cpp:229-234 | yields the contents whatever the state |
| Buffers.Buffer.Write | app/src/main/cpp/skyline/gpu/buffer.cpp:236-257 | the update reaches the contents and both sides, and the buffer is clean when it is applied |
| Buffers.Buffer.AcquireCurrentSequence | app/src/main/cpp/skyline/gpu/buffer.cpp:265-275 | zero exactly while GPU dirtiness remains; otherwise the current contents, and equal numbers stand for equal contents over the whole run |
| Buffers.Buffer.AdoptView | app/src/main/cpp/skyline/gpu/buffer_manager.cpp:60-68 | a view taken over in a merge never returns its old copy |
| Buffers.Buffer.AdoptViews | app/src/main/cpp/skyline/gpu/buffer_manager.cpp:57-75 | all views of a source arrive, moved by the distance of the buffers and with their sequence set back |
| Buffers.Buffer.AcquireMegaBuffer | app/src/main/cpp/skyline/gpu/buffer.cpp:378-402 | a returned offset, cached or new, holds the view's current bytes; an offset taken under the current number comes back and leaves the megabuffer as it is, and one taken under another never does; nothing handed out before is touched, also when space runs out, so the copies of all other buffers stand; exact conditions for returning none |
| BufferMerging.CopyBuffer | app/src/main/cpp/skyline/gpu/buffer.cpp:48-59 | copies exactly the bytes at addresses that both intervals cover |
| BufferMerging.AgreedInside | app/src/main/cpp/skyline/gpu/buffer.cpp:61-95 | with disjoint sources, the one covering an address decides its byte |
| BufferMerging.SettleStep | app/src/main/cpp/skyline/gpu/buffer.cpp:61-95 | transferring one source settles its addresses and leaves the others alone |
| BufferMerging.Transfer | app/src/main/cpp/skyline/gpu/buffer.cpp:61-95 | one source hands over data and state, and the new buffer stays valid |
| BufferMerging.Construct | app/src/main/cpp/skyline/gpu/buffer.cpp:41-96 | a merged buffer is valid, without views or history, with sequence number and trap as its dirtiness demands; an agreed byte survives in it if and only if no source in the recorded work covers it or it equals guest memory, and what is there instead |
| BufferMerging.WriteBackStep | app/src/main/cpp/skyline/gpu/buffer.cpp:102-109 | writing back one source settles its addresses for good |
| BufferMerging.Destroy | app/src/main/cpp/skyline/gpu/buffer.cpp:102-109 | after the destructors of the sources guest memory holds the agreed byte everywhere |
| BufferManagers.FindOverlaps | app/src/main/cpp/skyline/gpu/buffer_manager.cpp:27-31 | exactly the tracked buffers that overlap the mapping, each once |
| BufferManagers.Hull | app/src/main/cpp/skyline/gpu/buffer_manager.cpp:42-50 | holds mapping and overlaps and touches nothing that they do not touch |
| BufferManagers.Choose | app/src/main/cpp/skyline/gpu/buffer_manager.cpp:27-50 | the buffer that holds the mapping if there is one, and otherwise a hull over mapping and overlaps that covers nothing else, with exactly the buffers in its way |
| BufferManagers.BufferManager.GetView | app/src/main/cpp/skyline/gpu/buffer.cpp:259-263 | a delegate for exactly these addresses, without duplicate views |
| BufferManagers.NoCollision | app/src/main/cpp/skyline/gpu/buffer_manager.cpp:59-64 | shifted views of disjoint buffers never equal each other |
| BufferManagers.NothingStaysBehind | app/src/main/cpp/skyline/gpu/buffer_manager.cpp:74-75 | the merge of view sets drops no view |
| BufferManagers.MergeStep | app/src/main/cpp/skyline/gpu/buffer_manager.cpp:53-85 | handing over one buffer keeps views owned, unique and at their guest addresses, and delegates in step |
| BufferManagers.BufferManager.MergeOverlap | app/src/main/cpp/skyline/gpu/buffer_manager.cpp:53-85 | one overlap leaves the vector, every live view keeps its guest address |
| BufferManagers.CoverageOf | app/src/main/cpp/skyline/gpu/buffer_manager.cpp:42-52 | a merge covers the old addresses and the mapping, nothing else |
| BufferManagers.BufferManager.Replace | app/src/main/cpp/skyline/gpu/buffer_manager.cpp:52-87 | the new buffer takes its place in address order, disjoint from all others |
| BufferManagers.HolderIsOnlyOverlap | app/src/main/cpp/skyline/gpu/buffer_manager.cpp:33-40 | a buffer that holds the whole mapping is the only overlap, so it is reused |
| BufferManagers.BufferManager.FindOrCreate | app/src/main/cpp/skyline/gpu/buffer_manager.cpp:15-90 | the view denotes exactly the requested range; buffers stay sorted, page aligned, disjoint; coverage grows by the request's pages only; a buffer that already holds them is reused; all earlier views and delegates keep their addresses |
| BufferSystems.BufferSystem.Settle | app/src/main/cpp/skyline/gpu/buffer.cpp:111-197 | when memory and the trap map follow a buffer that has changed, all other buffers are as coherent as before, and just its own pages change their level |
| BufferSystems.BufferSystem.Retrap | app/src/main/cpp/skyline/nce.cpp:527-538 | the pages of the buffer get the level of its new demand and no other page changes |
| BufferSystems.BufferSystem.Sole | app/src/main/cpp/skyline/gpu/buffer.cpp:18-35 | no trap but its own is on the pages of a buffer |
| BufferSystems.BufferSystem.LevelsWellFormed | app/src/main/cpp/skyline/nce.cpp:415-460 | every page of a buffer is protected as its state calls for, and no page without a buffer is protected |
| BufferSystems.BufferSystem.Stepped | app/src/main/cpp/skyline/gpu/buffer.cpp:378-402 | a change of one buffer and more copies in the megabuffer leave every other buffer coherent and its copies good |
| BufferSystems.BufferSystem.SynchronizeHost | app/src/main/cpp/skyline/gpu/buffer.cpp:139-157 | of any buffer among all: the invariant and flat memory are kept, no guest memory elsewhere changes |
| BufferSystems.BufferSystem.SynchronizeGuest | app/src/main/cpp/skyline/gpu/buffer.cpp:180-197 | of any buffer among all: the invariant and flat memory are kept, no guest memory elsewhere changes |
| BufferSystems.BufferSystem.MarkGpuDirty | app/src/main/cpp/skyline/gpu/buffer.cpp:111-118 | of any buffer among all: the invariant and flat memory are kept, every access to it now faults |
| BufferSystems.BufferSystem.GpuWrite | app/src/main/cpp/skyline/gpu/buffer.cpp:111-118 | what the GPU writes is what flat memory holds from then on |
| BufferSystems.BufferSystem.Write | app/src/main/cpp/skyline/gpu/buffer.cpp:236-257 | an inline update is a write to flat memory |
| BufferSystems.BufferSystem.Read | app/src/main/cpp/skyline/gpu/buffer.cpp:229-234 | yields flat memory, whoever wrote last |
| BufferSystems.BufferSystem.Perform | app/src/main/cpp/skyline/gpu/buffer.cpp:111-257 | whichever of these is done, its event, the state of the buffer and flat memory are as the machine says |
| BufferSystems.BufferSystem.Push | app/src/main/cpp/skyline/gpu/interconnect/graphics_context.h:651-653 | other users of the megabuffer leave all copies good |
| BufferSystems.BufferSystem.Acquire | app/src/main/cpp/skyline/gpu/interconnect/graphics_context.h:1112-1130 | a megabuffer offset, cached or new, of a view of any buffer shows flat memory at the guest addresses of the view, merged or not; exact condition for getting none |
| BufferSystems.BufferSystem.FaultOne | app/src/main/cpp/skyline/gpu/buffer.cpp:29-34 | the callback of one buffer brings it in step with its dropped demand |
| BufferSystems.BufferSystem.ReachedHere | app/src/main/cpp/skyline/common/interval_map.h:160-224 | a fault finds no buffer but the one at its address, since buffers share no page |
| BufferSystems.BufferSystem.AroundFault | app/src/main/cpp/skyline/common/interval_map.h:160-224 | a fault opens exactly the pages of the buffer at its address |
| BufferSystems.BufferSystem.TakeFault | app/src/main/cpp/skyline/nce.cpp:473-515 | a fault always finds a handler: just the pages of the buffer at the address are open afterwards, and only its demand is dropped |
| BufferSystems.BufferSystem.RunFaults | app/src/main/cpp/skyline/nce.cpp:482-492 | after the callbacks of a fault every buffer is coherent again, and exactly the one at the address has become CPU dirty |
| BufferSystems.BufferSystem.OpenPage | app/src/main/cpp/skyline/nce.cpp:415-460 | a buffer on a page that lets the guest write is CPU dirty, on one that lets it read not GPU dirty |
| BufferSystems.BufferSystem.Resolve | app/src/main/cpp/skyline/nce.cpp:98-106 | every access of the guest may proceed; if its page allowed it at once nothing changes, and otherwise exactly the buffer at the address becomes CPU dirty and its pages are opened |
| BufferSystems.BufferSystem.GuestRead | app/src/main/cpp/skyline/gpu/buffer.cpp:18-35 | goes through and yields flat memory; it changes no memory, buffer or page if its page allows reads, and otherwise leaves exactly the buffer that it goes to CPU dirty and open |
| BufferSystems.BufferSystem.GuestWrite | app/src/main/cpp/skyline/gpu/buffer.cpp:18-35 | goes through, reaches flat memory, and leaves a buffer that it goes to CPU dirty and every other as it was; page levels change only if the page refused it |
| BufferSystems.BufferSystem.Execute | app/src/main/cpp/skyline/gpu/interconnect/command_executor.cpp:221-230 | no view keeps a copy when the megabuffer starts over, so none can be handed out stale |
| BufferSystems.BufferSystem.SourcesAgree | app/src/main/cpp/skyline/gpu/buffer.cpp:41-96 | what the sources of a merge agree on is flat memory |
| BufferPools.MergedFit | app/src/main/cpp/skyline/gpu/buffer_manager.cpp:52-85 | the merged buffer with its adopted views and all remaining buffers are coherent |
| BufferPools.MergedState | app/src/main/cpp/skyline/gpu/buffer_manager.cpp:52-87 | buffers stay apart, trapped, linked to memory and reachable from their views |
| BufferSystems.BufferSystem.TrapMerged | app/src/main/cpp/skyline/gpu/buffer.cpp:102-118 | the trap of the new buffer replaces those of its sources and leaves no protected page without a trap; the exact level of every page |
| BufferSystems.BufferSystem.PutTrap | app/src/main/cpp/skyline/gpu/buffer.cpp:41-96 | the new buffer's pages get its demand, or refuse reads as well if a source does |
| BufferSystems.BufferSystem.DropTraps | app/src/main/cpp/skyline/gpu/buffer.cpp:102-109 | when the sources go, exactly their pages get the demand of the new buffer |
| BufferSystems.BufferSystem.Merge | app/src/main/cpp/skyline/gpu/buffer_manager.cpp:52-87 | keeps the invariant, and flat memory but for the bytes of sources still being recorded; the sources are the replaced buffers; every view keeps its guest address |
| BufferSystems.BufferSystem.Chosen | app/src/main/cpp/skyline/gpu/buffer_manager.cpp:27-50 | hull and overlaps that a lookup picks are what a merge requires |
| BufferSystems.BufferSystem.Reuse | app/src/main/cpp/skyline/gpu/buffer_manager.cpp:33-40 | a view of exactly the requested addresses in a tracked buffer; no byte, buffer or other view changes |
| BufferSystems.BufferSystem.Create | app/src/main/cpp/skyline/gpu/buffer_manager.cpp:42-90 | a view of exactly the requested addresses in a new buffer that replaces those in its way |
| BufferSystems.BufferSystem.FindOrCreate | app/src/main/cpp/skyline/gpu/buffer_manager.cpp:15-90 | every lookup keeps the invariant and yields a view of exactly the requested addresses, of a buffer that holds their pages; all other views keep their addresses |
| BufferSystems.BufferSystem.SnapshotWellFormed | app/src/main/cpp/skyline/gpu/buffer.cpp:41-402 | in every state buffers lie apart, views lie in their owners, pages are protected as buffers call for, and guest memory is flat memory wherever no buffer is GPU dirty |
| BufferSystems.BufferSystem.Step | app/src/main/cpp/skyline/gpu/buffer.cpp:41-402 | every action of guest, GPU or executor in every state is that step of the flat machine, with its event and the level of every page; it crashes only at a copy that overruns the megabuffer |
| BufferSystems.BufferSystem.Run | app/src/main/cpp/skyline/gpu/buffer.cpp:41-402 | every run over all buffers is a run of the flat machine, action by action, up to a crash if there is one |
| FlatMachines.ByteAfter | app/src/main/cpp/skyline/gpu/buffer.cpp:60-96 | in every step, a byte of flat memory changes only by a write to it, or by a lookup exactly where that replaces a GPU dirty buffer taking part in the work being recorded |
| FlatMachines.LostExactly | app/src/main/cpp/skyline/gpu/buffer.cpp:76-86 | a lookup leaves a byte behind if and only if no buffer holds the mapping and a GPU dirty one in its way at that address is being recorded |
| FlatMachines.FirstLookup | app/src/main/cpp/skyline/gpu/buffer_manager.cpp:42-90 | the first lookup creates a buffer over just the requested pages |
| FlatMachines.AccessSettles | app/src/main/cpp/skyline/nce.cpp:473-515 | in every state, a guest write ends with the buffer there CPU dirty and a read with it not GPU dirty |
| FlatMachines.UseSettles | app/src/main/cpp/skyline/gpu/buffer.cpp:111-257 | in every state: a host synchronisation leaves no guest write behind, a blocking guest synchronisation no GPU write, an announcement counts unless guest writes are pending, and inline writes and reads take place exactly inside the buffer |
| FlatMachines.LevelledStep | app/src/main/cpp/skyline/nce.cpp:415-460 | no step leaves the pages of a buffer at another level than its state calls for, but that a clean buffer may refuse reads |
| FlatMachines.LevelsFollow | app/src/main/cpp/skyline/nce.cpp:415-460 | this holds in every state of every run that starts without buffers |
| BufferSystems.RecordingLoses | app/src/main/cpp/skyline/gpu/buffer.cpp:76-86 | a run that ends with a byte lost that the GPU has written |
| DelegateLock.RepointSafe | app/src/main/cpp/skyline/gpu/buffer_manager.cpp:77-82 | a delegate that somebody has locked cannot be repointed |
| DelegateLock.StepSafe | app/src/main/cpp/skyline/gpu/buffer.cpp:303-336 | every step of lock, try_lock, unlock and merges keeps mutexes with exactly their holders |
| DelegateLock.HolderIsLatest | app/src/main/cpp/skyline/gpu/buffer.cpp:303-336 | a lock that returned holds the mutex of the delegate's current buffer |
| DelegateLock.RunSafe | app/src/main/cpp/skyline/gpu/buffer.cpp:303-336 | safety of every state of every interleaving |
| DelegateLock.LockedUntilUnlock | app/src/main/cpp/skyline/gpu/buffer.cpp:303-319 | until unlock the delegate points at the same buffer and its mutex stays with the thread, whatever others do |
| DelegateLock.MutualExclusion | app/src/main/cpp/skyline/gpu/buffer.cpp:303-336 | no two threads hold one buffer or one delegate |
| DelegateLock.LockReturns | app/src/main/cpp/skyline/gpu/buffer.cpp:303-315 | a lock of a delegate whose buffer is free returns after its three steps, holding just that buffer |
| DelegateLock.TryLockReturns | app/src/main/cpp/skyline/gpu/buffer.cpp:321-336 | a try_lock alone succeeds if and only if the buffer is free, and else changes nothing |
| DelegateLock.UpToDateStep | app/src/main/cpp/skyline/gpu/buffer.cpp:303-336 | as long as the delegate is not repointed, each own step of a lock brings it nearer to its end and no step of others takes it back |
| DelegateLock.GetsOn | app/src/main/cpp/skyline/gpu/buffer.cpp:303-336 | over any stretch of a run without a repointing, a lock gets on by exactly its own steps |
| DelegateLock.UndisturbedLock | app/src/main/cpp/skyline/gpu/buffer.cpp:303-315 | whatever others do but repoint the delegate, a lock ends with its last own step, holding the buffer it loaded |
| DelegateLock.UndisturbedTry | app/src/main/cpp/skyline/gpu/buffer.cpp:321-336 | whatever others do but repoint the delegate, a try_lock succeeds if and only if the mutex was free when it tried |
| DelegateLock.OutdatedByRepointing | app/src/main/cpp/skyline/gpu/buffer.cpp:309-314 | in every run, a lock or try_lock goes back only if the delegate was repointed since its load |
| DelegateLock.MergeRepoints | app/src/main/cpp/skyline/gpu/buffer_manager.cpp:77-82 | while a merge holds a buffer, its delegates are moved by that merge only, and to its target |
| Instructions.BranchRoundTrip | app/src/main/cpp/skyline/nce/instructions.h:102-156 | an encoded branch decodes to its offset if and only if the offset fits 26 bits |
| Instructions.MovRoundTrip | app/src/main/cpp/skyline/nce/instructions.h:279-311 | the encoding decodes to the register move |
| Instructions.MrsRoundTrip | app/src/main/cpp/skyline/nce/instructions.h:62-78 | the encoding decodes to the system register read |
| Instructions.SvcFields | app/src/main/cpp/skyline/nce/instructions.h:43-58 | a word is taken for a system call with some number exactly if it is the encoding of that call |
| Instructions.SystemFields | app/src/main/cpp/skyline/nce/instructions.h:62-99 | a word is taken for a read or write of a system register exactly if it is the encoding of that |
| Instructions.MovzRoundTrip | app/src/main/cpp/skyline/nce/instructions.h:161-199 | the encoding decodes to the move of the half word |
| Instructions.MovzShortRoundTrip | app/src/main/cpp/skyline/nce/instructions.h:161-199 | the 32-bit encoding decodes to the move of the half word |
| Instructions.MovkRoundTrip | app/src/main/cpp/skyline/nce/instructions.h:204-242 | the encoding decodes to the insertion of the half word |
| Instructions.MoveRegister | app/src/main/cpp/skyline/nce/instructions.h:244-274 | executing the sequence loads the value whatever the register held, if and only if the value is not zero |
| Patcher.MainTrampolineSize | app/src/main/cpp/skyline/nce.cpp:260-292 | the main trampoline has its assumed size if and only if the handler address has three half words that are not zero |
| Patcher.Count | app/src/main/cpp/skyline/nce.cpp:225-248 | an instruction is listed exactly when it needs replacing, and counted with the length of its trampoline |
| Patcher.GetPatchData | app/src/main/cpp/skyline/nce.cpp:210-251 | lists exactly the instructions to replace, in order, and reserves the sum of their trampolines in whole pages |
| Patcher.EmitHeader | app/src/main/cpp/skyline/nce.cpp:257-295 | the shared code is written in order |
| Patcher.EmitSvc | app/src/main/cpp/skyline/nce.cpp:309-329 | the trampoline of a system call is appended, nothing before it changes; SvcCalls.SvcAsks and SvcCalls.SvcReturns say what it does |
| Patcher.EmitTlsLoad | app/src/main/cpp/skyline/nce.cpp:331-353 | the trampoline of a thread pointer read is appended |
| Patcher.EmitClockLoad | app/src/main/cpp/skyline/nce.cpp:355-384 | the trampoline of a counter or frequency read is appended |
| Patcher.EmitTlsStore | app/src/main/cpp/skyline/nce.cpp:391-408 | the trampoline of a thread pointer write is appended |
| Patcher.PatchOne | app/src/main/cpp/skyline/nce.cpp:301-410 | one instruction is redirected, no other word of the text changes |
| Patcher.PatchCode | app/src/main/cpp/skyline/nce.cpp:253-411 | the section is the image of all trampolines, no longer than counted; listed words are redirected to their trampolines, all others unchanged |
| Patcher.CountedIsWritten | app/src/main/cpp/skyline/nce.cpp:202-295 | words written equal words counted, off by the difference of the main trampoline from its assumed size |
| Patcher.TrampolineControlFlow | app/src/main/cpp/skyline/nce.cpp:305-328 | the patched word branches to the trampoline, its last word to the next instruction, and system call trampolines call the shared code at its assumed places |
| Patcher.TrampolinesDisjoint | app/src/main/cpp/skyline/nce.cpp:301-410 | no trampoline reaches into another or into the shared code |
| Patcher.HeaderLayout | app/src/main/cpp/skyline/nce.cpp:257-295 | context save, main trampoline and context load lie where branches expect them |
| Patcher.PatchedProgram | app/src/main/cpp/skyline/nce.cpp:253-411 | in every patched program each replaced instruction goes through its own trampoline and on to the next instruction, and system call trampolines call the context save, main trampoline and context load as written, given the assumed size of the main trampoline |
| Patcher.PatchProgram | app/src/main/cpp/skyline/loader/loader.cpp:26-41 | both passes over any program: exactly the words to replace are redirected through trampolines of their own and back, all others are kept, and the section is overrun if and only if the handler address has four half words that are not zero and the count fills whole pages |
| GuestCpu.TlsLoadEmulated | app/src/main/cpp/skyline/nce.cpp:331-353 | executing a patched thread pointer read yields the emulated register in the destination and preserves everything else above the stack pointer |
| GuestCpu.TlsStoreEmulated | app/src/main/cpp/skyline/nce.cpp:391-408 | executing a patched thread pointer write preserves all registers and stores the source, or the context address for X0 |
| GuestCpu.TlsStoreCorrect | app/src/main/cpp/skyline/nce.cpp:396-407 | thread pointer writes are right in every state if and only if the source is not X0 |
| GuestCpu.FrequencyLoadEmulated | app/src/main/cpp/skyline/nce.cpp:374-383 | executing a patched frequency read yields the frequency of the guest's hardware and changes nothing else |
| SvcCalls.MainAsks | app/src/main/cpp/skyline/nce.cpp:260-282 | executing the main trampoline comes to the call of the handler with stack and thread pointer of the host and the guest's put aside |
| SvcCalls.MainReturns | app/src/main/cpp/skyline/nce.cpp:283-292 | behind the call it restores stack, thread pointer and link register and returns |
| SvcCalls.SvcAsks | app/src/main/cpp/skyline/nce.cpp:309-321 | executing any patched system call comes to the handler with the number of the call in X0, the thread context in X1 and the guest's registers saved there |
| SvcCalls.SvcReturns | app/src/main/cpp/skyline/nce.cpp:324-329 | after the handler execution goes on behind the system call, with stack pointer, thread pointer and all registers that are not saved as they were, and the others from the thread context |
| SvcCalls.StillAside | app/src/main/cpp/skyline/nce.cpp:283-292 | what is put aside outlives a handler that keeps to the calling convention and to its own stack |
| SvcCalls.CounterReplaced | app/src/main/cpp/skyline/nce.cpp:385-389 | without rescaling a patched counter read is the read of the virtual counter into the same register |
| SvcCalls.CounterEmulated | app/src/main/cpp/skyline/nce.cpp:355-373 | executing a patched counter read yields the rescaled count in the destination and preserves everything else above the stack pointer |
| SvcCalls.MagicDivides | app/src/main/cpp/skyline/nce/guest.S:101-108 | the multiplication divides every 64-bit frequency by 100000 |
| SvcCalls.RescaledCounts | app/src/main/cpp/skyline/nce/guest.S:97-114 | the rescaled count is less than 192 ticks behind a counter of the guest's frequency, for a host frequency rounded down to 100 kHz |
| SvcCalls.RescaledOnTime | app/src/main/cpp/skyline/nce/guest.S:97-114 | it is so for the host's own frequency if and only if that is a multiple of 100 kHz |
| SvcCalls.RescaledStops | app/src/main/cpp/skyline/nce/guest.S:97-114 | below 100 kHz the guest's counter stands still |
| Schedulers.UpperBound | app/src/main/cpp/skyline/kernel/scheduler.cpp:95-95 | although the front may be out of order, the result is a proper place, and zero exactly for a thread that beats the first two |
| Schedulers.InsertBehindGood | app/src/main/cpp/skyline/kernel/scheduler.cpp:124-126 | insertion at that place keeps the queue sorted behind its front |
| Schedulers.MoveFrontSorts | app/src/main/cpp/skyline/kernel/scheduler.cpp:220-224 | moving the front to its place sorts the whole queue |
| Schedulers.Scheduler.InsertThread | app/src/main/cpp/skyline/kernel/scheduler.cpp:85-127 | the thread runs exactly when it beats the first two, else waits behind its equals; a front that it displaces is told to yield, by a signal or by itself if it is the caller, and may; nobody else's yield is taken back; invariants of all cores kept |
| Schedulers.Scheduler.Preempt | app/src/main/cpp/skyline/kernel/scheduler.cpp:97-118 | the displaced front is queued by priority and always learns that it has to yield, in the way that fits the caller, and that it may do so although it is no longer in front |
| Schedulers.Scheduler.Displace | app/src/main/cpp/skyline/kernel/scheduler.cpp:97-118 | when the displaced thread then acts on its yield there is no exception, its yields are cleared, and all queues stay as the insertion left them |
| Schedulers.DisplacedMayYield | app/src/main/cpp/skyline/kernel/scheduler.cpp:97-118 | no thread that was told to yield is left unable to |
| Schedulers.Scheduler.Rotate | app/src/main/cpp/skyline/kernel/scheduler.cpp:214-238 | the front moves behind its equals and the queue is sorted; exact condition for the exception, which never befalls a thread that was told to yield |
| Schedulers.Scheduler.RemoveThread | app/src/main/cpp/skyline/kernel/scheduler.cpp:240-263 | only the thread leaves, with its yields, and every other thread may still act on its own; invariants kept |
| Schedulers.Scheduler.UpdatePriority | app/src/main/cpp/skyline/kernel/scheduler.cpp:265-303 | queues stay sorted behind their front, a beaten front always has a yield pending, which it may act on, and a waiting thread never overtakes the running one |
| Schedulers.ReprioritizedMayYield | app/src/main/cpp/skyline/kernel/scheduler.cpp:265-303 | a change of priority leaves no thread that was told to yield unable to |
| Schedulers.Scheduler.Reinsert | app/src/main/cpp/skyline/kernel/scheduler.cpp:287-302 | the moved thread is where its new priority belongs |
| Schedulers.Scheduler.MigrateToCore | app/src/main/cpp/skyline/kernel/scheduler.cpp:129-148 | queued on the target if and only if it was queued, gone from the old core, other cores untouched; every other thread told to yield may still do so |
| Schedulers.RotationTurns | app/src/main/cpp/skyline/kernel/scheduler.cpp:220-224 | among equals one rotation is one turn |
| Schedulers.Scheduler.TakeTurn | app/src/main/cpp/skyline/kernel/scheduler.cpp:214-238 | a call by the front among equals is one turn, whatever turns were taken before |
| Schedulers.Scheduler.RoundRobin | app/src/main/cpp/skyline/kernel/scheduler.cpp:214-238 | k calls by the successive fronts of k equals restore the queue, each is in front exactly once and in order, no other queue or thread is touched |
| ShaderCaches.TranslationUnique | app/src/main/cpp/skyline/gpu/shader_manager.cpp:104-121 | a translation is determined by what it reads |
| ShaderCaches.RecordingsDecide | app/src/main/cpp/skyline/gpu/shader_manager.cpp:189-196 | the two recordings match a state if and only if it gives every answer that the translation got |
| ShaderCaches.SoundEntryIsFresh | app/src/main/cpp/skyline/gpu/shader_manager.cpp:226-236 | a matching entry is what a fresh translation under the caller's state yields |
| ShaderCaches.ShaderManager.Find | app/src/main/cpp/skyline/gpu/shader_manager.cpp:253-257 | hits exactly when an entry matches, with the program of such an entry, which is a fresh result |
| ShaderCaches.ShaderManager.Translate | app/src/main/cpp/skyline/gpu/shader_manager.cpp:261-266 | the fresh result together with recordings that justify it |
| ShaderCaches.ShaderManager.Emplace | app/src/main/cpp/skyline/gpu/shader_manager.cpp:268-271 | the cache stays sound and grows by this entry exactly when its key is new; the result has the same key |
| ShaderCaches.ShaderManager.ParseGraphicsShader | app/src/main/cpp/skyline/gpu/shader_manager.cpp:252-272 | whatever other threads insert in between, the program is the cache's own and that of a fresh translation under the caller's own state; a hit or an exception leaves the cache as it was |
| CircularBuffers.ReadRefines | app/src/main/cpp/skyline/common/circular_buffer.h:37-88 | the positions after a read describe the rest of the contents, except for the lossy empty read |
| CircularBuffers.ReadLeaves | app/src/main/cpp/skyline/common/circular_buffer.h:37-88 | what a read leaves in the caller's buffer and in the ring, copies included |
| CircularBuffers.EmptyReadForgets | app/src/main/cpp/skyline/common/circular_buffer.h:31-144 | a run, for every capacity, of appends and reads that ends with the contents forgotten |
| CircularBuffers.AppendStraight | app/src/main/cpp/skyline/common/circular_buffer.h:102-109 | writing behind the end appends |
| CircularBuffers.AppendWrapped | app/src/main/cpp/skyline/common/circular_buffer.h:110-139 | writing around the end of the array appends, with positions at its end moved to its front |
| CircularBuffers.CircularBuffer.Read | app/src/main/cpp/skyline/common/circular_buffer.h:31-91 | returns and removes the longest prefix that fits, if and only if it is not the lossy empty read; exact positions |
| CircularBuffers.CircularBuffer.Append | app/src/main/cpp/skyline/common/circular_buffer.h:96-144 | within capacity, appending concatenates; exact positions |

## Left out

- Traps.TrapManager.TrapHandler: the write branch, which both callers request; Traps.TrapManager.ReadFault is the other.
- Traps.TrapManager.ReprotectIntervals: does not model paging out memory that became inaccessible.
- IntervalMaps.Coalesce: neighbours may still touch when the input was not sorted; the pass promises coverage only.
- Buffers.Buffer.Write: a copy that the GPU performs for a host immutable buffer is taken to have happened, because sequencing on the GPU is not modelled.
- Buffers.Buffer.MarkGpuDirty: requires a synchronised buffer, as its documentation does.
- Buffers.Buffer.GuestWrite: takes a set trap to fault; BufferSystems.BufferSystem.GuestWrite derives it from the protection of the page.
- Buffers.Buffer.GuestRead: likewise, BufferSystems.BufferSystem.GuestRead derives it.
- BufferSystems.BufferSystem.Merge: the sources are destroyed at once; one that somebody keeps alive would write back later.
- BufferSystems.BufferSystem.Run: all traps are those of buffers, whereas textures set traps in the same map; ends at an overrun of the megabuffer.
- BufferMerging.Construct: which sources pass for being recorded is given, as the answer of an order on owners; host immutability is not passed on.
- CircularBuffers.CircularBuffer.Append: appends beyond capacity are not modelled; the order of elements is promised within it.
- Schedulers.Scheduler.InsertThread: waiting for a paused thread is not modelled.
- Schedulers.Scheduler.MigrateToCore: leaving one queue and entering the other is one step, whereas the lock of the first is released in between.
- ShaderCaches.ShaderManager.ParseGraphicsShader: the translator is assumed to halt and not to depend on the load address.
- SvcCalls.SvcAsks: the assembly that saves the context is given by its effect on general purpose registers and memory; floating point registers are not modelled.
- SvcCalls.SvcReturns: the same for the assembly that loads the context, and the handler is taken to keep to the calling convention.
- SvcCalls.CounterEmulated: the assembly that rescales is given by its effect on the stack; its arithmetic is SvcCalls.Rescaled.
- The other insertions of the interval map and its lookup by address, which the trap code does not use.
- Address and sequence number wrap-around: addresses, sizes and counters are unbounded integers.
- Buffers without guest memory, the choice of a megabuffer slot, fence cycles and their ordering.
- Data races inside one locked method, for instance a guest write between the copy and the new trap of a synchronisation.
- Parking, pausing, preemption timers, load balancing and time slices of the scheduler.
- Combination of vertex shaders and compiled shader modules.
- Audio, textures, input, file systems, services, loaders and settings.
