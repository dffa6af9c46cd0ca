# Vishwakarma engine core, modelled in Dafny

Vishwakarma is a Windows CAD/visualisation engine. This project models the parts of it that make decisions of their own.
The Direct3D, Win32 and library calls around those parts become parameters or are left out.

- **CPU object store (`राम`), three generations.** Each stores objects in fixed-size chunks of 4 MB minus 1 KB. An object is a header (`META_DATA`) followed by its payload, and its space is rounded up to a multiple of 8.
  - `CpuStore` models the newest version (code-core/MemoryManagerCPU.h). It is a first-fit allocator over a free list that is sorted by offset and coalesced.
    - `CpuRam` holds the per-chunk operations.
    - `FreeList` holds the list algebra: `lower_bound` insertion, the two merge steps, and first-fit carving.
  - `BumpRam` models the bump-pointer class version (code-core/CPURAM-Manager.cpp). It never moves `totalUsedSpace`, and the model keeps that quirk.
  - `GlobalRam` models the earlier version built on globals (code-core/CPURAM-Manager.h).
  - `BumpChunk` holds the chunk layout the two bump versions share.
  - Every store is a class with a `Valid()` invariant. Its view `Objects()` maps each id to its header and payload, and every operation states its effect on that view.
- **Ids.**
  - `VishwakarmaId` covers the 48-bit id space: its three ranges and the local-id generator that stops once its range is exhausted.
  - `MemoryIds` covers the process-wide `MemoryID` counter and the 256-way sharded `MemoryIDMap`.
- **PNG loading** (`PngLoad`): the in-memory read callback, the colour normalisation decision table, and the row layout of `LoadPngImageFromMemory`.
- **2D line** (`Line2D`): Bresenham's loop in `Draw2DLine`. The pixels it plots are collected as a sequence.
- **GPU manager** (`GpuMemory`):
  - adapter selection;
  - the deferred-free queue;
  - the effect of the copy thread's commands on a tab's table of resident objects;
  - the render loop's fence and allocator-index counters.
- **Monitor topology** (`MonitorTopology`), from code-core/Main.cpp:
  - the enumeration callback and its `MV_MAX_MONITORS` limit;
  - the headless fallback;
  - the monitor lookups;
  - queue salvage and window remapping in `RestartRenderThreads`;
  - the `WM_EXITSIZEMOVE` handler.
- **Executable directory** (`ExecutablePath`): the two copies of `GetExecutablePath`.
- **DirectX 12 sample fence** (`SampleFence`): `WaitForPreviousFrame` in api-directx12/Main.cpp.
- **SVG-to-ICO script** (`LogoGenerator`): `convert_svg_to_ico` in code-core/logoGenerator.py.
  - The disk is modelled as a map from path to file content.
  - Failures of cairosvg and Pillow become inputs.

Notes on how the model treats the source:

- `sizeof(META_DATA)` is a parameter (`metaSize`), because the header's definition is not part of this model. So is `sizeof(Vertex)`. `FRAMES_PER_RENDERTARGETS` is also a parameter of at least 1.
- `MV_MAX_MONITORS` is 16.
- Integers are unbounded. Wrap-around is written out where the model states it:
  - `uint64_t` counters (`Inc`, `GenerateStep`, `Next`);
  - the 32-bit narrowing of GPU buffer sizes (`BufferSize`);
  - the 32-bit chunk counters in the two as-written members of the findings.
- The comment on `VId()` calls the default id invalid. The code gives it the value 0, which `IsValid` accepts and which is a catalogue id. The model follows the code (`VishwakarmaId.NullIdIsCatalogue`).

## Model

| member | source | states |
|---|---|---|
| RamTypes.Reserved | code-core/MemoryManagerCPU.h:197 | the space reserved for header plus payload is a multiple of 8, at least their sum and less than 8 more |
| RamTypes.NewRecord | code-core/MemoryManagerCPU.h:208-215 | a new object's header carries its id, parent and payload size, version 1, last processed version 0, not deleted |
| RamTypes.MarkDeleted | code-core/MemoryManagerCPU.h:423-424 | a deleted object keeps its payload and every header field except the deleted flag (set) and the version (one more) |
| FreeList.LowerBound | code-core/MemoryManagerCPU.h:435-438 | `lower_bound` by start offset: every earlier range starts before the offset, the one found does not |
| FreeList.FirstFit | code-core/MemoryManagerCPU.h:239-259 | the first range with enough bytes, or none when no range is large enough |
| FreeList.ReleaseSum | code-core/MemoryManagerCPU.h:426-461 | releasing a range adds exactly its size to the sum of the free ranges, whatever merging happens |
| FreeList.CarveSum | code-core/MemoryManagerCPU.h:244-257 | carving `need` bytes from a range (erasing an exact fit, shrinking a larger one from its front) removes exactly `need` bytes from the sum |
| FreeList.SumBound | code-core/MemoryManagerCPU.h:75-86 | disjoint ranges inside the block never add up to more than the block |
| FreeList.ReleaseWellFormed | code-core/MemoryManagerCPU.h:430-461 | releasing a range that overlaps no free range keeps the list sorted, disjoint and inside the block |
| FreeList.CarveWellFormed | code-core/MemoryManagerCPU.h:244-257 | carving keeps the list sorted, disjoint and inside the block |
| FreeList.ReleaseAvoids | code-core/MemoryManagerCPU.h:430-461 | releasing a range leaves every byte range disjoint from it clear of the free list |
| FreeList.CarvedAvoids | code-core/MemoryManagerCPU.h:244-257 | the carved bytes overlap no range left in the list |
| FreeList.ReleaseKeepsSeparated | code-core/MemoryManagerCPU.h:442-461 | with the iterator stepped back after the merge with the previous range, no two neighbouring ranges touch afterwards when none touched before |
| FreeList.CarveSeparated | code-core/MemoryManagerCPU.h:244-257 | allocation never makes two neighbouring ranges touch |
| FreeList.ReleaseBeforeFirst | code-core/MemoryManagerCPU.h:454-461 | a range released just before the first free range merges into it |
| FreeList.ModifyReleaseLeavesTouching | code-core/MemoryManagerCPU.h:367-373 | without the step back, releasing [8,16) between [0,8) and [16,24) leaves two touching ranges, where the stepped-back release leaves one range [0,24) |
| CpuRam.NewChunk | code-core/MemoryManagerCPU.h:75-86 | a new chunk has one free range spanning the block, all bytes free and none used |
| CpuRam.NewChunkValid | code-core/MemoryManagerCPU.h:75-86 | a new chunk satisfies the chunk invariant: free plus used is the block and the free ranges sum to the free counter |
| CpuRam.UsedCoversReservation | code-core/MemoryManagerCPU.h:428 | the used counter covers every single reservation, so releasing one never underflows it |
| CpuRam.TakeAtKeepsLayout | code-core/MemoryManagerCPU.h:239-259 | a first-fit carve keeps the layout and hands out a range clear of the free list and of every object |
| CpuRam.TakeFrontKeepsLayout | code-core/MemoryManagerCPU.h:262-296 | taking the front of a freshly opened chunk keeps the layout and hands out a vacant range at offset 0 |
| CpuRam.PlaceKeepsValid | code-core/MemoryManagerCPU.h:208-222 | writing an object into a vacant range keeps the chunk invariant |
| CpuRam.ReturnRangeKeepsValid | code-core/MemoryManagerCPU.h:426-461 | returning a vacant range to the free list and counters keeps the chunk invariant |
| CpuRam.VacateKeepsValid | code-core/MemoryManagerCPU.h:358-381 | releasing a live object's range keeps the chunk invariant |
| CpuRam.DeleteKeepsValid | code-core/MemoryManagerCPU.h:423-461 | soft delete keeps the chunk invariant (free plus used is the block, list sum is the free counter, list sorted and coalesced) |
| CpuRam.ShrinkTailVacant | code-core/MemoryManagerCPU.h:322-328 | the tail an in-place shrink gives up is vacant once the smaller object is written |
| CpuRam.ShrinkKeepsValid | code-core/MemoryManagerCPU.h:315-350 | an in-place rewrite keeps the chunk invariant, whether or not the leftover above 64 bytes goes back |
| CpuRam.DeleteUncheckedOnLive | code-core/MemoryManagerCPU.h:423-461 | on a live object the as-written delete equals the modelled one, with no counter wrap |
| CpuRam.FirstDeleteFreesBlock | code-core/MemoryManagerCPU.h:423-461 | deleting the only object of a chunk frees the whole block as one range |
| CpuRam.DoubleDeleteCorrupts | code-core/MemoryManagerCPU.h:414-461 | deleting the same id twice inserts its range twice: the free list overlaps itself and the used counter wraps below zero |
| CpuRam.SecondDeleteOverlaps | code-core/MemoryManagerCPU.h:426-440 | the second delete's range overlaps the free range the first one left |
| CpuStore.LiveCovered | code-core/MemoryManagerCPU.h:359-360 | the used counter of a live object's chunk covers the object's aligned size, so the relocation release cannot underflow it |
| CpuStore.CarvedChunks | code-core/MemoryManagerCPU.h:239-296 | the chunks after an allocation keep every record and reservation, may gain one chunk, and no used counter goes down |
| CpuStore.TakeAtStep | code-core/MemoryManagerCPU.h:239-259 | a first-fit hit keeps the store invariant and every object |
| CpuStore.TakeFrontStep | code-core/MemoryManagerCPU.h:262-296 | opening a chunk and taking its front keeps the store invariant and every object |
| CpuStore.NewObjectStep | code-core/MemoryManagerCPU.h:208-222 | writing an object under a new id into vacant space keeps the invariant and adds exactly that object |
| CpuStore.DeleteStep | code-core/MemoryManagerCPU.h:417-461 | soft-deleting a live object keeps the invariant and removes exactly that object |
| CpuStore.ShrinkStep | code-core/MemoryManagerCPU.h:315-350 | an in-place rewrite keeps the invariant and replaces exactly that object's record |
| CpuStore.MoveStep | code-core/MemoryManagerCPU.h:351-404 | relocating an object keeps the invariant and changes exactly that object |
| CpuStore.Ram.constructor | code-core/MemoryManagerCPU.h:122 | a new store has one empty chunk, active, and an empty map |
| CpuStore.Ram.InitializeMemorySystem | code-core/MemoryManagerCPU.h:160-172 | an empty store gets its first chunk; a populated one is left alone |
| CpuStore.Ram.CleanupMemorySystem | code-core/MemoryManagerCPU.h:178-185 | no chunks, no mappings, counters back to 0 |
| CpuStore.Ram.FindSpaceAndAllocate | code-core/MemoryManagerCPU.h:231-297 | requests above the block are refused with no change; otherwise the chunks become `CarvedChunks`: the first fitting range of the active chunk is carved, else a new chunk after it is opened and its front taken; earlier chunks are never searched, and the range handed out is vacant |
| CpuStore.Ram.AllocateNewObject | code-core/MemoryManagerCPU.h:188-224 | a mapped id or an oversized object is refused with no change; otherwise the id maps to the new location, the chunks are the carved chunks with the new record placed there, and the objects gain exactly the new record |
| CpuStore.Ram.ModifyObject | code-core/MemoryManagerCPU.h:299-406 | an unknown or deleted id is refused; otherwise the object gets the new payload and one more version and every other object is unchanged; the used counter covers the old size; in place (the aligned size does not grow) the chunk is `Shrink`: the record rewritten and a leftover above 64 bytes returned to the merged free list and counters; otherwise the chunks are the carved chunks with the old range released (`Vacate`) and the record placed at the new range, the map repointed |
| CpuStore.Ram.DeleteObject | code-core/MemoryManagerCPU.h:408-468 | an unknown or deleted id is refused; otherwise exactly that object leaves the live objects, the id stays mapped, the used counter covers its size, and its chunk becomes `Delete`: header flagged with one more version, range inserted and merged into the sorted free list, counters moved by its size |
| CpuStore.Ram.GetMETA_DATA | code-core/MemoryManagerCPU.h:470-477 | the header at a mapped id's location, none for an unmapped id |
| CpuStore.Ram.GetObjectPayload | code-core/MemoryManagerCPU.h:479-487 | the location `metaSize` bytes past the header; a live object's payload lies inside the block |
| BumpChunk.NewChunk | code-core/CPURAM-Manager.h:60-67 | a new chunk: new space and free space are the whole block, nothing used, bump offset at the block start |
| BumpChunk.AdvanceKeepsLayout | code-core/CPURAM-Manager.cpp:103-109 | advancing the bump offset by an aligned amount that fits keeps the layout and leaves the bytes passed over vacant |
| BumpChunk.WriteVacantKeepsLayout | code-core/CPURAM-Manager.cpp:62-64 | a record written into vacant space keeps the layout |
| BumpChunk.KeptObjects | code-core/CPURAM-Manager.cpp:79-100 | chunks that extend the old ones with the same records keep every mapping and object |
| BumpChunk.DistinctLocations | code-core/CPURAM-Manager.cpp:67 | distinct mapped ids sit at distinct locations |
| BumpRam.NewChunkValid | code-core/CPURAM-Manager.h:60-67 | a new chunk satisfies the chunk invariant of the class version |
| BumpRam.BumpKeepsValid | code-core/CPURAM-Manager.cpp:103-109 | bumping keeps the chunk valid and the used counter at 0, and the bytes handed out are vacant |
| BumpRam.FreeKeepsValid | code-core/CPURAM-Manager.cpp:188-189 | counting bytes free keeps the chunk valid |
| BumpRam.GrowStep | code-core/CPURAM-Manager.cpp:76-112 | reserving space keeps the store invariant and every object, and the placement is vacant |
| BumpRam.PlaceStep | code-core/CPURAM-Manager.cpp:53-67 | writing a record into vacant space and mapping its id keeps the invariant and changes only that object |
| BumpRam.RewriteStep | code-core/CPURAM-Manager.cpp:129-134 | rewriting a record in place, no larger, keeps the invariant and changes only that object |
| BumpRam.FreeStep | code-core/CPURAM-Manager.cpp:188-189 | counting bytes free in one chunk keeps the invariant and every object |
| BumpRam.Ram.constructor | code-core/CPURAM-Manager.cpp:4-16 | a store without a chunk vector, waiting for initialisation; the class declaration of this version is not part of this model, so this starting state is inferred from the `!RAMChunks.empty()` guard at line 6 |
| BumpRam.Ram.InitializeMemorySystem | code-core/CPURAM-Manager.cpp:4-16 | sets up the vector and its first chunk unless the vector is already there |
| BumpRam.Ram.CleanupMemorySystem | code-core/CPURAM-Manager.cpp:23-30 | drops every chunk and mapping and resets the counters |
| BumpRam.Ram.FindSpaceAndAllocate | code-core/CPURAM-Manager.cpp:76-112 | requests above the block are refused; the result is the active chunk's old bump offset, or offset 0 of the next chunk when the new space is short; bump offset, new space and free counter move by the request |
| BumpRam.Ram.AllocateNewObject | code-core/CPURAM-Manager.cpp:33-69 | a mapped id or an oversized object is refused with no change; otherwise the new record (version 1, not deleted) is mapped at the placement and the objects gain exactly it |
| BumpRam.Ram.ModifyObject | code-core/CPURAM-Manager.cpp:114-169 | an unknown id is refused; in place with one more version when the aligned size does not grow, else relocated with the map repointed and the old chunk's free counter raised by the old size |
| BumpRam.Ram.DeleteObject | code-core/CPURAM-Manager.cpp:171-196 | an unknown id is refused; otherwise the header is flagged deleted with one more version, the free counter grows by its size and the id stays mapped |
| BumpRam.Ram.GetMETA_DATA | code-core/CPURAM-Manager.cpp:198-205 | the header of a mapped id, none for an unmapped one |
| BumpRam.Ram.GetObjectPayload | code-core/CPURAM-Manager.cpp:207-215 | `metaSize` bytes past the id's location; the declared payload lies inside the block |
| GlobalRam.NewChunkValid | code-core/CPURAM-Manager.h:60-67 | a new chunk satisfies the chunk invariant: free and used counters make up the block |
| GlobalRam.TakeKeepsValid | code-core/CPURAM-Manager.h:137-144 | an insert moves the aligned size from free to used, so free plus used stays the block |
| GlobalRam.GrowStep | code-core/CPURAM-Manager.h:114-124 | opening the next chunk when the active one is short keeps the invariant and every object |
| GlobalRam.PlaceStep | code-core/CPURAM-Manager.h:127-134 | writing the record and mapping its id keeps the invariant and changes only that object |
| GlobalRam.Balanced | code-core/CPURAM-Manager.h:142-144 | in a valid chunk free plus used is the block |
| GlobalRam.InsertStep | code-core/CPURAM-Manager.h:112-144 | one insert keeps the invariant, adds the record under its id, places it 8-aligned in the last chunk |
| GlobalRam.OversizedPayloadOverruns | code-core/CPURAM-Manager.h:107-144 | a payload of exactly the block passes the guard, overruns even a fresh chunk, and leaves its new-space counter near 4 GiB |
| GlobalRam.MemorySystem.constructor | code-core/CPURAM-Manager.h:76-93 | the globals' initial values: empty slots, nothing allocated, an empty map |
| GlobalRam.MemorySystem.InitializeMemorySystem | code-core/CPURAM-Manager.h:95-100 | chunk 0 is built and active, one chunk allocated |
| GlobalRam.MemorySystem.CleanupMemorySystem | code-core/CPURAM-Manager.h:161-167 | no chunk slots, an empty map, counters at 0 |
| GlobalRam.MemorySystem.AllocateNewObject | code-core/CPURAM-Manager.h:102-145 | an oversized object, null data or a mapped id change nothing; otherwise the object is stored at the old bump offset of the active chunk or of a new chunk after it (the old one flagged full, the vector grown by 16 when needed), and the objects gain exactly it |
| VishwakarmaId.IsValid | code-core/VishwakarmaID64bit.h:73-75 | an id is valid exactly when its top 16 bits are clear |
| VishwakarmaId.IsCatalogueId | code-core/VishwakarmaID64bit.h:82-84 | an id is a catalogue id exactly when its top 24 bits are clear |
| VishwakarmaId.IsLocalId | code-core/VishwakarmaID64bit.h:91-93 | an id is local exactly when bit 40 is set and every bit above it is clear |
| VishwakarmaId.IsServerId | code-core/VishwakarmaID64bit.h:100-103 | an id is a server id exactly when it is valid and has a bit set at position 42 or above |
| VishwakarmaId.EqualityIsIdentity | code-core/VishwakarmaID64bit.h:38-39 | `==` is equality of the raw value and `!=` its negation |
| VishwakarmaId.LessIsStrictTotalOrder | code-core/VishwakarmaID64bit.h:40 | `<` is irreflexive, transitive and total on ids |
| VishwakarmaId.NullIdIsCatalogue | code-core/VishwakarmaID64bit.h:30-84 | the default id is 0, valid and a catalogue id |
| VishwakarmaId.RangesDisjointAndValid | code-core/VishwakarmaID64bit.h:47-103 | catalogue, local and server ranges are pairwise disjoint, and every id in one is valid |
| VishwakarmaId.UnclassifiedGap | code-core/VishwakarmaID64bit.h:56-103 | the valid ids in no range are exactly those in [2^41, 2^42) |
| VishwakarmaId.GenerateStep | code-core/VishwakarmaID64bit.h:134-147 | an issued id is the counter's value and the counter moves on by one; a counter at most one past the local range never moves further |
| VishwakarmaId.GenerateStepIssues | code-core/VishwakarmaID64bit.h:135-147 | a call issues the counter's value while it is in the local range and moves it on by one; past the range it fails and pins the counter just after the range |
| VishwakarmaId.GenerateRunIssues | code-core/VishwakarmaID64bit.h:131-148 | call `i` issues `next + i` while that is local, and every call from then on fails |
| VishwakarmaId.FreshRun | code-core/VishwakarmaID64bit.h:118-148 | a fresh generator issues 2^40, 2^40 + 1, ...: local, strictly increasing ids; after 2^40 calls every call fails |
| VishwakarmaId.LocalIdGenerator.constructor | code-core/VishwakarmaID64bit.h:118 | the counter starts at the local range's start |
| VishwakarmaId.LocalIdGenerator.Generate | code-core/VishwakarmaID64bit.h:131-148 | result and new counter are one `GenerateStep`; the generator stays in range or pinned |
| MemoryIds.MemoryId.constructor | code-core/ID.h:14 | the counter starts at 1 |
| MemoryIds.MemoryId.Next | code-core/ID.h:20-22 | returns the counter and increments it, wrapping like `uint64_t` |
| MemoryIds.NextIdsCount | code-core/ID.h:20-22 | call `i` returns `start + i` modulo 2^64 |
| MemoryIds.FirstIds | code-core/ID.h:14-22 | from the initial counter the ids are 1, 2, ...: nonzero and distinct until the wrap, which comes at call 2^64 - 1 |
| MemoryIds.LowByte | code-core/ID.h:70 | masking with 255 gives the remainder mod 256 |
| MemoryIds.ShardOf | code-core/ID.h:69-71 | the shard index is below 256 and equals the id mod 256 |
| MemoryIds.EmptyShards | code-core/ID.h:66-68 | 256 empty shards map nothing, so every `get` is null |
| MemoryIds.GetReadsTable | code-core/ID.h:79-84 | `get` reads the combined table, null for an absent id |
| MemoryIds.SetUpdates | code-core/ID.h:74-78 | `set` keeps shards to their own ids; `get` then returns the new pointer for the id and the old answer for every other id |
| MemoryIds.EraseRemoves | code-core/ID.h:85-89 | `erase` keeps shards to their own ids; `get` then returns null for the id and the old answer for every other id |
| MemoryIds.EraseAbsentIsNoop | code-core/ID.h:85-89 | erasing an absent id changes nothing |
| MemoryIds.MemoryIdMap.constructor | code-core/ID.h:66-68 | 256 empty shards |
| MemoryIds.MemoryIdMap.Set | code-core/ID.h:74-78 | the id's entry is inserted or overwritten in its shard |
| MemoryIds.MemoryIdMap.Get | code-core/ID.h:79-84 | `get` returns the id's entry in the combined table of all shards, null when it has none |
| MemoryIds.MemoryIdMap.Erase | code-core/ID.h:85-89 | the id's entry is dropped from its shard |
| PngLoad.ReadsConcatenate | code-core/ImageHandling.cpp:17-26 | successive reads fail exactly when they ask for more than is left; otherwise they return the next bytes in order and move the cursor past them, within the buffer |
| PngLoad.PngMemoryReader.constructor | code-core/ImageHandling.cpp:47 | a reader at position 0 of the data |
| PngLoad.PngMemoryReader.Read | code-core/ImageHandling.cpp:17-26 | a short buffer is an error that copies nothing and keeps the cursor; otherwise the next `n` bytes are copied and the cursor moves by `n` |
| PngLoad.NormalisesToRgba8 | code-core/ImageHandling.cpp:58-68 | every well-formed colour type and depth ends as four 8-bit channels under the decision table |
| PngLoad.FillerNeeded | code-core/ImageHandling.cpp:64-65 | without the filler an opaque RGB image would stay at three channels |
| PngLoad.RowOffsets | code-core/ImageHandling.cpp:72-77 | row `y` starts at `y * rowbytes` |
| PngLoad.RowsInside | code-core/ImageHandling.cpp:72-77 | every row lies inside the `rowbytes * height` buffer and rows do not overlap |
| PngLoad.LoadPngImageFromMemory | code-core/ImageHandling.cpp:29-77 | succeeds exactly when the data is non-null and non-empty, every byte the decoder requests lies inside the buffer, the header is well formed and the decoder accepts the stream; every failure aborts; on success the decisions give RGBA8 and the rows are laid out in a `rowbytes * height` buffer |
| Line2D.XStaysAtEnd | code-core/vishwakarma-2D.h:23-27 | once all x-steps are taken the error forbids another |
| Line2D.YStaysAtEnd | code-core/vishwakarma-2D.h:23-31 | once all y-steps are taken the error forbids another |
| Line2D.AdvanceOnTrack | code-core/vishwakarma-2D.h:23-31 | a pass short of the end keeps the walk on track, moves at least one axis by one and always the longer axis |
| Line2D.DrawnExtend | code-core/vishwakarma-2D.h:19-31 | plotting the current pixel and one loop pass keep the drawn-so-far invariant |
| Line2D.DrawnComplete | code-core/vishwakarma-2D.h:19-22 | plotting the last pixel completes the line |
| Line2D.Draw2DLine | code-core/vishwakarma-2D.h:12-33 | the pixels start at (x1, y1) and end at (x2, y2); there are max(dx, dy) + 1 of them; each step moves each coordinate by 0 or 1 toward the end and never stays; all stay in the box and within half a pixel of the true line |
| GpuMemory.SelectionUnique | code-core/MemoryManagerGPU-DirectX12.cpp:38-46 | the selection rule picks at most one adapter |
| GpuMemory.SelectStep | code-core/MemoryManagerGPU-DirectX12.cpp:34-46 | one pass of the loop keeps the best-so-far state |
| GpuMemory.SelectAdapter | code-core/MemoryManagerGPU-DirectX12.cpp:27-62 | never a software or non-D3D12 adapter; the first with the most dedicated memory when any has some, else the first with the most shared memory when any has some, else none (WARP) |
| GpuMemory.PendingConcat | code-core/MemoryManagerGPU-DirectX12.cpp:655-666 | reclaiming distributes over a split queue, so kept entries keep their order |
| GpuMemory.PendingMembers | code-core/MemoryManagerGPU-DirectX12.cpp:657 | an entry is kept exactly when it is in the queue and its frame is after `n` |
| GpuMemory.PendingKeepsLater | code-core/MemoryManagerGPU-DirectX12.cpp:663-665 | a queue whose entries are all after `n` is kept whole |
| GpuMemory.PendingAllLater | code-core/MemoryManagerGPU-DirectX12.cpp:657-661 | every kept entry is after `n` |
| GpuMemory.PendingIdempotent | code-core/MemoryManagerGPU-DirectX12.cpp:655-666 | a second reclaim up to the same frame changes nothing |
| GpuMemory.GpuMemoryManager.constructor | code-core/MemoryManagerGPU-DirectX12.cpp:652 | the deferred-free queue starts empty |
| GpuMemory.GpuMemoryManager.ProcessDeferredFrees | code-core/MemoryManagerGPU-DirectX12.cpp:652-667 | the queue becomes exactly its entries after the frame, in order |
| GpuMemory.RenderLoopHorizon | code-core/MemoryManagerGPU-DirectX12.cpp:1026-1030 | `lastRenderedFrame` starts at -1 (line 850) and stays at 2^64 - 1, so each pass reclaims everything except the last two representable frames |
| GpuMemory.BufferSize | code-core/MemoryManagerGPU-DirectX12.cpp:705-706 | the byte size narrowed to 32 bits: exact when it fits, 0 for an empty buffer |
| GpuMemory.EmptyGeometrySkipped | code-core/MemoryManagerGPU-DirectX12.cpp:708-711 | empty vertex or index data leaves the table unchanged |
| GpuMemory.UploadStores | code-core/MemoryManagerGPU-DirectX12.cpp:713-800 | a non-empty upload inserts or overwrites the id's entry: index count, 2 bytes per index and one stride per vertex; other ids keep theirs |
| GpuMemory.RemoveErasesOnly | code-core/MemoryManagerGPU-DirectX12.cpp:804-808 | REMOVE erases just the id |
| GpuMemory.MissingGeometryThrows | code-core/MemoryManagerGPU-DirectX12.cpp:704 | ADD or MODIFY without geometry throws and changes nothing |
| GpuMemory.NarrowedSizeSkips | code-core/MemoryManagerGPU-DirectX12.cpp:705-711 | 2^31 indices narrow to an index size of 0 and are skipped like empty geometry |
| GpuMemory.CopyThread.constructor | code-core/MemoryManagerGPU-DirectX12.cpp:76 | every tab's table empty, copy fence value 1 |
| GpuMemory.CopyThread.Process | code-core/MemoryManagerGPU-DirectX12.cpp:697-810 | the target tab's table changes as `Applied` says and no other tab's does; an upload signals the copy fence at its value and moves it on by one |
| GpuMemory.CopyThread.Upload | code-core/MemoryManagerGPU-DirectX12.cpp:701-803 | the ADD/MODIFY case: the tab's table gets the id's new entry, or stays when there is nothing to upload |
| GpuMemory.RenderThread.constructor | code-core/MemoryManagerGPU-DirectX12.cpp:855 | fence value 1, allocator index 0 |
| GpuMemory.RenderThread.EndFrame | code-core/MemoryManagerGPU-DirectX12.cpp:983-999 | signals the current value; waits for `fenceValue - frames + 1` only once the value reaches `frames`; the fence value and the allocator index (mod frames) each advance by one |
| GpuMemory.CycleStep | code-core/MemoryManagerGPU-DirectX12.cpp:999 | the allocator index after `k` frames is one past that after `k - 1`, mod the frame count |
| GpuMemory.FramesClosedForm | code-core/MemoryManagerGPU-DirectX12.cpp:983-999 | before the fence wraps, frame `k` signals `k + 1` from allocator `k mod frames` |
| GpuMemory.WaitGuardsReuse | code-core/MemoryManagerGPU-DirectX12.cpp:986-999 | the wait target is exactly the fence value of the earlier frame whose allocator is reused next |
| MonitorTopology.SlotFromReport | code-core/Main.cpp:123-215 | a report with monitor info fills an initialised, non-virtual slot with its handle, name, sizes, primary flag and DPI (default 96); traces of failed reports make no difference and the queue is kept |
| MonitorTopology.FirstIndex | code-core/Main.cpp:290-297 | -1 exactly when no key matches, else the smallest matching index |
| MonitorTopology.FindMonitorIndexByName | code-core/Main.cpp:290-297 | the first of the first `count` screens with the name, -1 exactly when none has it |
| MonitorTopology.FillStep | code-core/Main.cpp:117-217 | one callback with room in the table keeps the table filled with the usable reports in order |
| MonitorTopology.FillFull | code-core/Main.cpp:119-122 | once the table is full further usable reports change nothing |
| MonitorTopology.EnumerateStep | code-core/Main.cpp:117-217 | the enumeration loop's step over one report keeps the fill invariant |
| MonitorTopology.StopKeepsTable | code-core/Main.cpp:119-122 | the callback stops the enumeration only with a full table, which is then final |
| MonitorTopology.FindMonitorIndexByHandle | code-core/Main.cpp:973-976 | the first of the `count` screens on the monitor, -1 for none |
| MonitorTopology.RemapIndex | code-core/Main.cpp:409-415 | the first of the `count` screens on the window's monitor, 0 when none is |
| MonitorTopology.Migrated | code-core/Main.cpp:314-352 | the window moves to the screen with a swap chain on its queue |
| MonitorTopology.Remapped | code-core/Main.cpp:417-440 | the window is on the new index; it is reinitialised exactly when the index differs |
| MonitorTopology.SizeMoved | code-core/Main.cpp:977-994 | migrates exactly when a screen was found and differs from the current one; current size equals requested size afterwards |
| MonitorTopology.SizeMovedSettles | code-core/Main.cpp:979-994 | a second `WM_EXITSIZEMOVE` on the same monitor with no new request changes nothing |
| MonitorTopology.RemappedSettles | code-core/Main.cpp:426-440 | remapping again to the same screen changes nothing |
| MonitorTopology.SalvageStep | code-core/Main.cpp:382-399 | one turn of the merge loop keeps the salvage invariant |
| MonitorTopology.SalvagedQueuesDistinct | code-core/Main.cpp:382-399 | with distinct old queues and distinct new names, the new screens have distinct queues |
| MonitorTopology.WindowHandles | code-core/Main.cpp:963-968 | the handles of the listed windows, in list order |
| MonitorTopology.Display.constructor | code-core/Main.cpp:227-249 | every screen slot holds the default values listed there, which are also the `OneMonitorController` member initialisers (not set up, 800 by 600, 96 DPI, no queue), no monitor is counted, no queue has been created, every window slot is empty |
| MonitorTopology.Display.MonitorEnumProc | code-core/Main.cpp:117-217 | stops once the table is full; otherwise fills the next slot and counts it only when its monitor info was available |
| MonitorTopology.Display.EnumerateMonitors | code-core/Main.cpp:222-225 | the table ends with the first usable reports, at most `MV_MAX_MONITORS`, in order; no queue changes |
| MonitorTopology.Display.FetchAllMonitorDetails | code-core/Main.cpp:219-288 | the table is refilled from the usable reports; with none, exactly one virtual primary monitor at 96 DPI and 60 Hz is added in slot 0 and the other slots are kept; the count ends between 1 and `MV_MAX_MONITORS`; no command queue is created or changed |
| MonitorTopology.Display.MergeQueues | code-core/Main.cpp:380-399 | each counted screen takes the queue of its first old namesake, else a newly created queue; nothing else changes |
| MonitorTopology.Display.RemapWindows | code-core/Main.cpp:401-441 | every listed window goes to its remapped index, migrating to that screen's queue exactly when the index changed; unlisted windows are untouched |
| MonitorTopology.Display.RestartRenderThreads | code-core/Main.cpp:354-441 | snapshot the counted screens, enumerate afresh, salvage or create queues and remap the listed windows, as the three steps above state |
| MonitorTopology.Display.UpdateWindowMonitorAffinity | code-core/Main.cpp:314-352 | the window in the slot is migrated to the screen and nothing else changes |
| MonitorTopology.Display.FindWindow | code-core/Main.cpp:962-969 | the first listed window slot with the handle, -1 for none |
| MonitorTopology.Display.ExitSizeMove | code-core/Main.cpp:960-996 | the first listed window with the handle becomes `SizeMoved` for the screen found on its monitor; no window found changes nothing |
| ExecutablePath.ModuleBuffer | code-core/Main.cpp:71-72 | the buffer holds the module name truncated below `MAX_PATH`, a prefix of it |
| ExecutablePath.FindLastOf | code-core/Main.cpp:73 | `npos` exactly when no separator occurs, else the last position of one |
| ExecutablePath.Substr | code-core/Main.cpp:76 | at most `count` characters from `pos`, fewer at the end of the string |
| ExecutablePath.GetExecutablePathGuarded | code-core/Main.cpp:70-77 | a prefix of the buffer; the whole buffer when it has no separator |
| ExecutablePath.GetExecutablePath | api-directx12/Main.cpp:90-96 | a prefix of the buffer |
| ExecutablePath.GuardRedundant | api-directx12/Main.cpp:90-96 | both copies agree on every buffer, so the `npos` guard is redundant |
| ExecutablePath.DirectorySplitsPath | api-directx12/Main.cpp:93-95 | the whole buffer exactly when there is no separator; otherwise the buffer is the result, the last separator and a name without separators |
| SampleFence.Inc | api-directx12/Main.cpp:861 | `UINT64` increment: one more, or 0 after the largest value |
| SampleFence.SampleFrame.constructor | api-directx12/Main.cpp:799 | the fence value starts at 1 |
| SampleFence.SampleFrame.WaitForPreviousFrame | api-directx12/Main.cpp:857-870 | signals the current value, increments it by exactly 1, waits exactly when the GPU is below the value signalled, and takes the back buffer index |
| SampleFence.SignalsIncrease | api-directx12/Main.cpp:857-861 | before the wrap, wait `i` signals `i + 1`, so signals strictly increase |
| LogoGenerator.SplitExt | code-core/logoGenerator.py:29-33 | `os.path.splitext` on Windows: the parts concatenate to the path; the extension starts at the last dot of the file name, with a non-dot before it |
| LogoGenerator.DefaultIcoPathSplits | code-core/logoGenerator.py:28-29 | `splitext` recovers the stem from the default output path exactly when the stem's file name holds a non-dot |
| LogoGenerator.ExtensionSplitsOff | code-core/logoGenerator.py:29-33 | an extension appended to a stem is split off again exactly when the stem's file name holds a non-dot |
| LogoGenerator.TempIsNotDefaultIcon | code-core/logoGenerator.py:29-33 | the temporary PNG path is never the default output path |
| LogoGenerator.TempIsSourceOnlyForPng | code-core/logoGenerator.py:33-36 | the temporary PNG path is the SVG path exactly when that path's extension is ".png" |
| LogoGenerator.IconSizes | code-core/logoGenerator.py:42 | one `(s, s)` per size, same length and order, duplicates kept |
| LogoGenerator.Converted | code-core/logoGenerator.py:13-51 | the call succeeds exactly when no step fails, a failure carries the prefix and the first failing step's message, and every file other than the temporary PNG and the target is unchanged |
| LogoGenerator.SuccessWritesIcon | code-core/logoGenerator.py:25-48 | on success the output path (given, or stem + ".ico") is returned and holds an icon saved with the sizes requested, one `(s, s)` pair each (defaults when omitted), the temporary PNG is gone, nothing else changed |
| LogoGenerator.FailureKeepsTemp | code-core/logoGenerator.py:31-51 | on failure the message is the prefix plus the failing step's message; the PNG stays exactly when rasterising succeeded |
| LogoGenerator.IconAtTempPathIsRemoved | code-core/logoGenerator.py:28-48 | an explicit output path equal to the PNG path is written and then removed, yet the call succeeds |
| LogoGenerator.Disk.ConvertSvgToIco | code-core/logoGenerator.py:13-51 | rasterise, open, save, remove, return, any failure wrapped: the outcome and the new disk are those `Converted` describes |

## Left out

- The mutex of `राम`, the shard `shared_mutex`es, the atomics and their memory orders. All operations are modelled sequentially.
- The copy and render threads, their queues, condition variables, pause and shutdown flags, and the restart of render threads. Only the data operations are modelled.
- All Direct3D 12, DXGI and Win32 calls. This covers devices, swap chains, descriptor heaps, command lists, `Present`, fence waits, window messages other than `WM_EXITSIZEMOVE`, and `EnumDisplayDevicesW`/`GetDpiForMonitor` queries. Their results become inputs: adapter descriptions, monitor reports, completed fence values, back-buffer indices and the window's monitor.
- `ResizeD3DWindow`, `CleanupWindowResources`, `InitD3DPerWindow` and the `isMigrating`/`isResizing` flags. Only their effect on the window's monitor index, queue and size is modelled.
- GPU buffer contents and virtual addresses. A resident object is its index count and its two view sizes.
- The byte layout of chunks. Headers and payloads are records at offsets, with no `memcpy`, pointers or partial overlap of stale bytes. `sizeof(META_DATA)` is a parameter.
- `GetIdMapSnapshot`, `DefragmentRAMChunks` and `DeleteDataFromRAM`: a copy, a print, and an empty body.
- The `dataType` and reserved header fields. They are only copied.
- `CpuStore.Ram.ModifyObject`: the relocation release steps the iterator back after merging with the previous range, as `DeleteObject` does. The source does not (lines 367-373, see the first finding), so the model keeps the free list fully coalesced where the source can leave two touching ranges.
- `CpuStore.Ram.ModifyObject`: refuses an id whose object is already deleted. The source does not check this (see the second finding), and modifying a deleted object would release its range a second time.
- `CpuStore.Ram.FindSpaceAndAllocate`: does not model the soft-limit warning or the 32-bit truncation of payload sizes and counters. Sizes are unbounded.
- `BumpRam.Ram.FindSpaceAndAllocate`: does not model a slot left null inside the initial vector. Chunks are created when first reached.
- `GlobalRam.MemorySystem.InitializeMemorySystem`: requires an untouched system with at least one slot, because the source calls it once at startup on the initial slots.
- `GlobalRam.MemorySystem.AllocateNewObject`: assumes `dataBlock` is 8-aligned, as the bump offsets are taken relative to it.
- The physical monitor sizes computed from DPI, the refresh-rate division and the camera: these are floating point.
- The friendly names, adapter names and console output of `MonitorEnumProc`.
- The `else` branch of `WM_EXITSIZEMOVE` only prints. With the index -1 it would read outside the screen table (code-core/Main.cpp:984).
- `MonitorTopology.Display.FetchAllMonitorDetails`: the headless block's guard against a full table is dead code after a count of 0, and is not modelled as a separate branch.
- `MonitorTopology.Display.RestartRenderThreads`: like the source, it has no headless fallback. With no monitor found, every window is remapped to index 0 of an empty table.
- After a restart, a window whose index is unchanged keeps its old swap chain even when its screen's queue was newly created. The model states only what the source decides.
- `PngLoad.LoadPngImageFromMemory`: libpng's parsing is not modelled. The byte counts it requests through the read callback, the header it decodes, and whether its own checks of the bytes (signature, CRCs, compressed stream) pass are inputs. A request past the end of the buffer aborts, as in the source. The model does not derive these requests from the bytes, so it does not show that a buffer too short for a PNG signature and header aborts.
- FreeType glyph rendering, cairosvg rasterising and Pillow's ICO encoding. Their failures are inputs. An icon records the sizes the script asks for, not the ones the encoder keeps after sorting, removing duplicates and dropping sizes above 256 or above the image.
- `LoadPngImage` (code-core/ImageHandling.cpp:85-147): it writes through pointers it has just set to null, so it has no defined behaviour to model.
- Integer overflow of `2 * err` and of the coordinates in `Draw2DLine`. `int` is modelled as unbounded.
- `size_t` overflow of `current_pos + byteCountToRead` and of `rowbytes * height`.
- The `__main__` example block of the logo script, and Python exceptions other than the wrapped one.
- `CameraState`, view and projection matrices, and the FPS counter: floating point.

## Findings

| source | as written | input that shows it | evidently intended | confidence | as-written member | corrected member |
|---|---|---|---|---|---|---|
| code-core/MemoryManagerCPU.h:367-373 | when an object is relocated, `ModifyObject` merges its released range into the previous range but does not step the iterator back, so the next-range merge looks one range too far | header size 8; free ranges [0,8), [16,24) and [32,end); live objects at [8,16) and [24,32); the first grows to 16 bytes, first fit carves [32,48), and releasing [8,16) leaves [0,16) touching [16,24) | step back as `DeleteObject` does (lines 449-450), leaving one range [0,24) | not executed | FreeList.ModifyReleaseLeavesTouching | FreeList.ReleaseKeepsSeparated |
| code-core/MemoryManagerCPU.h:414-440 | `DeleteObject` does not check `isDeleted`, so a second delete returns the range to the free list again and subtracts it from the used counter again | one object filling a chunk, deleted twice | refuse an already deleted object | not executed | CpuRam.DoubleDeleteCorrupts | CpuStore.Ram.DeleteObject |
| code-core/CPURAM-Manager.h:107 | the size guard compares the payload alone with the block size, so header plus payload can exceed a block | a payload of exactly `dataBlockSize` bytes | compare the aligned header-plus-payload size with the block | not executed | GlobalRam.OversizedPayloadOverruns | GlobalRam.MemorySystem.AllocateNewObject |
