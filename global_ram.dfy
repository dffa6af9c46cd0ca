/**
 * The earliest version of the object store (CPURAM-Manager.h): global
 * chunk vector, id map and counters, and one operation that appends an
 * object to the active chunk. Here the counters are exact: every byte
 * handed out moves from `totalFreeSpace` to `totalUsedSpace`.
 *
 * The source refuses a payload larger than a block, but compares the bare
 * payload size, not the aligned size with the header; the corrected guard
 * is used by `MemorySystem.AllocateNewObject`, and `OversizedPayloadOverruns`
 * shows what the guard as written lets through.
 */
module GlobalRam {
  import opened Wrappers
  import opened RamTypes
  import opened BumpChunk

  /**
   * The chunk invariant of this version: the shared layout; the free counter
   * is exactly the space behind the bump offset and the used counter exactly
   * the space before it, so together they make up the block.
   */
  ghost predicate ChunkValid(meta: nat, c: Chunk)
  {
    && Layout(meta, c)
    && c.totalFreeSpace == c.newDataSpace
    && c.totalUsedSpace == c.nextOffset
    && c.isChunkAllocated
  }

  /** An insert on a chunk: the bump offset advances, `need` bytes go from free to used. */
  function Take(c: Chunk, need: nat): Chunk
    requires need <= c.newDataSpace && need <= c.totalFreeSpace
  {
    Advance(c, need).(totalFreeSpace := c.totalFreeSpace - need, totalUsedSpace := c.totalUsedSpace + need)
  }

  lemma NewChunkValid(meta: nat)
    ensures ChunkValid(meta, NewChunk())
  {
    NewChunkLayout(meta);
  }

  /**
   * Taking space keeps the chunk valid, so free and used still add up to
   * the block; the bytes taken, from the old bump offset on, are vacant.
   */
  lemma TakeKeepsValid(meta: nat, c: Chunk, need: nat)
    requires ChunkValid(meta, c) && need % 8 == 0 && need <= c.newDataSpace
    ensures ChunkValid(meta, Take(c, need))
    ensures Take(c, need).totalFreeSpace + Take(c, need).totalUsedSpace == DATA_BLOCK_SIZE
    ensures Vacant(meta, Take(c, need), c.nextOffset, need)
  {
    AdvanceKeepsLayout(meta, c, need);
  }

  ghost predicate ChunksValid(meta: nat, cs: seq<Chunk>)
  {
    forall k :: 0 <= k < |cs| ==> ChunkValid(meta, cs[k])
  }

  ghost predicate Inv(meta: nat, cs: seq<Chunk>, m: map<nat, Location>)
  {
    0 < meta && ChunksValid(meta, cs) && Mapped(cs, m)
  }

  /**
   * The chunks after taking `need` bytes at `PlacementIn(cs, active, need)`:
   * when the active chunk lacks the space it is flagged full and a new
   * chunk after it supplies the bytes.
   */
  ghost function GrownIn(cs: seq<Chunk>, active: nat, need: nat): seq<Chunk>
    requires active < |cs| && need <= DATA_BLOCK_SIZE
    requires cs[active].newDataSpace <= cs[active].totalFreeSpace
  {
    if need <= cs[active].newDataSpace then cs[active := Take(cs[active], need)]
    else cs[active := cs[active].(isChunkFull := true)] + [Take(NewChunk(), need)]
  }

  lemma ChunksValidUpdate(meta: nat, cs: seq<Chunk>, k: nat, c: Chunk)
    requires ChunksValid(meta, cs) && k < |cs| && ChunkValid(meta, c)
    ensures ChunksValid(meta, cs[k := c])
  {
    hide ChunkValid;
    var cs2 := cs[k := c];
    forall j | 0 <= j < |cs2|
      ensures ChunkValid(meta, cs2[j])
    {
      if j != k {
        assert cs2[j] == cs[j];
      }
    }
  }

  /**
   * Taking space keeps the invariant and every object; the placement is in
   * the last chunk and the bytes taken there are vacant.
   */
  lemma GrowStep(meta: nat, cs: seq<Chunk>, m: map<nat, Location>, active: nat, need: nat)
    requires Inv(meta, cs, m) && active == |cs| - 1
    requires need % 8 == 0 && need <= DATA_BLOCK_SIZE
    ensures cs[active].newDataSpace <= cs[active].totalFreeSpace
    ensures var cs2 := GrownIn(cs, active, need);
      var loc := PlacementIn(cs, active, need);
      && Inv(meta, cs2, m) && ObjectsIn(cs2, m) == ObjectsIn(cs, m)
      && loc.chunkIndex == |cs2| - 1
      && Vacant(meta, cs2[loc.chunkIndex], loc.offsetInChunk, need)
  {
    var c := cs[active];
    assert ChunkValid(meta, c);
    var cs2 := GrownIn(cs, active, need);
    if need <= c.newDataSpace {
      TakeKeepsValid(meta, c, need);
      ChunksValidUpdate(meta, cs, active, Take(c, need));
    } else {
      NewChunkValid(meta);
      TakeKeepsValid(meta, NewChunk(), need);
      var flagged := cs[active := c.(isChunkFull := true)];
      ChunksValidUpdate(meta, cs, active, c.(isChunkFull := true));
      hide ChunkValid;
      assert forall k :: 0 <= k < |cs2| ==> ChunkValid(meta, cs2[k]) by {
        forall k | 0 <= k < |cs2|
          ensures ChunkValid(meta, cs2[k])
        {
          if k < |cs| {
            assert cs2[k] == flagged[k];
          }
        }
      }
    }
    hide ChunkValid;
    KeptObjects(cs, cs2, m);
  }

  /**
   * Writing record `r` into vacant space keeps the invariant; its id now maps
   * to the new location and shows `r`, every other object is unchanged.
   */
  lemma PlaceStep(meta: nat, cs: seq<Chunk>, m: map<nat, Location>, loc: Location, need: nat, r: Record)
    requires Inv(meta, cs, m) && loc.chunkIndex < |cs| && r.header.id !in m
    requires Vacant(meta, cs[loc.chunkIndex], loc.offsetInChunk, need) && Span(meta, r) <= need
    ensures ChunksValid(meta, Placed(cs, loc, r))
    ensures var m2 := m[r.header.id := loc];
      Inv(meta, Placed(cs, loc, r), m2) && ObjectsIn(Placed(cs, loc, r), m2) == ObjectsIn(cs, m)[r.header.id := r]
  {
    var k: nat, off: nat := loc.chunkIndex, loc.offsetInChunk;
    var cs2, m2 := Placed(cs, loc, r), m[r.header.id := loc];
    assert ChunkValid(meta, cs[k]);
    WriteVacantKeepsLayout(meta, cs[k], off, need, r);
    ChunksValidUpdate(meta, cs, k, cs2[k]);
    hide ChunkValid, ChunksValid;
    assert forall other :: other in m ==> m[other] != loc;
    WrittenAgree(cs, m, loc, r.header.id, r);
    hide Mapped;
    ObjectsReplaced(cs, m, cs2, m2, r.header.id, r);
  }

  /** In a valid chunk the free and used counters add up to the block. */
  lemma Balanced(meta: nat, cs: seq<Chunk>, k: nat)
    requires ChunksValid(meta, cs) && k < |cs|
    ensures cs[k].totalFreeSpace + cs[k].totalUsedSpace == DATA_BLOCK_SIZE
  {
    assert ChunkValid(meta, cs[k]);
  }

  /**
   * One insert on the values: taking `need` bytes at the placement and
   * writing `r` there keeps the invariant, adds `r` under its id and leaves
   * every other object alone; the placement is 8-aligned, in the last
   * chunk, whose counters still add up to the block.
   */
  lemma InsertStep(meta: nat, cs: seq<Chunk>, m: map<nat, Location>, active: nat, need: nat, r: Record)
    requires Inv(meta, cs, m) && active == |cs| - 1 && r.header.id !in m
    requires need % 8 == 0 && need <= DATA_BLOCK_SIZE && Span(meta, r) <= need
    ensures cs[active].newDataSpace <= cs[active].totalFreeSpace
    ensures var loc := PlacementIn(cs, active, need);
      var cs2 := GrownIn(cs, active, need);
      && loc.chunkIndex == |cs2| - 1
      && Inv(meta, Placed(cs2, loc, r), m[r.header.id := loc])
      && ObjectsIn(Placed(cs2, loc, r), m[r.header.id := loc]) == ObjectsIn(cs, m)[r.header.id := r]
      && loc.offsetInChunk % 8 == 0
      && Placed(cs2, loc, r)[loc.chunkIndex].totalFreeSpace + Placed(cs2, loc, r)[loc.chunkIndex].totalUsedSpace == DATA_BLOCK_SIZE
  {
    GrowStep(meta, cs, m, active, need);
    var loc := PlacementIn(cs, active, need);
    var cs2 := GrownIn(cs, active, need);
    PlaceStep(meta, cs2, m, loc, need, r);
    Balanced(meta, Placed(cs2, loc, r), loc.chunkIndex);
  }

  // ---------------------------------------------------------------------------
  // The guard as written

  /** The source's size guard lets a payload through when it is no larger than a block. */
  predicate AdmittedAsWritten(dataSize: nat)
  {
    dataSize <= DATA_BLOCK_SIZE
  }

  /** The counter updates of an insert as the source performs them on `uint32_t` fields, wrapping below 0. */
  function TakeAsWritten(c: Chunk, aligned: nat): Chunk
  {
    c.(nextOffset := c.nextOffset + aligned,
       newDataSpace := (c.newDataSpace - aligned) % UINT32_LIMIT,
       totalFreeSpace := (c.totalFreeSpace - aligned) % UINT32_LIMIT,
       totalUsedSpace := (c.totalUsedSpace + aligned) % UINT32_LIMIT)
  }

  /**
   * A payload of exactly a block passes the guard, yet with its header it
   * needs more than a block: even the fresh chunk opened for it lacks the
   * room, the write runs past the end of its data block, and the chunk
   * then reports nearly 4 GiB of new space.
   */
  lemma OversizedPayloadOverruns(meta: nat)
    requires 0 < meta < 0x1000
    ensures var aligned := Reserved(meta, DATA_BLOCK_SIZE);
      var after := TakeAsWritten(NewChunk(), aligned);
      && AdmittedAsWritten(DATA_BLOCK_SIZE)
      && NewChunk().newDataSpace < aligned
      && after.nextOffset > DATA_BLOCK_SIZE
      && after.newDataSpace == UINT32_LIMIT - (aligned - DATA_BLOCK_SIZE)
      && after.newDataSpace > DATA_BLOCK_SIZE
  {
    var aligned := Reserved(meta, DATA_BLOCK_SIZE);
    assert DATA_BLOCK_SIZE < aligned < DATA_BLOCK_SIZE + 0x1008;
    assert (DATA_BLOCK_SIZE - aligned) % UINT32_LIMIT == UINT32_LIMIT - (aligned - DATA_BLOCK_SIZE);
  }

  // ---------------------------------------------------------------------------
  // The global state

  /** The globals of the store; `metaSize` stands for `sizeof(META_DATA)`. */
  class MemorySystem {
    const metaSize: nat
    /** `cpuRAMChunkLimit`: installed RAM over the chunk size, raised along with the vector. */
    var chunkLimit: nat
    /** `RAMChunks.size()`: slots, allocated or not. */
    var slotCount: nat
    /** The allocated chunks `RAMChunks[0 .. RAMChunksAllocatedCount)`. */
    var chunks: seq<Chunk>
    var allocatedCount: nat
    var activeChunkIndex: nat
    var id2ChunkMap: map<nat, Location>

    ghost predicate Valid()
      reads this
    {
      0 < metaSize
      && |chunks| == allocatedCount <= slotCount
      && activeChunkIndex == (if allocatedCount == 0 then 0 else allocatedCount - 1)
      && Inv(metaSize, chunks, id2ChunkMap)
    }

    /** Initialised and not yet cleaned up: there is an active chunk. */
    ghost predicate Ready()
      reads this
    {
      Valid() && 0 < |chunks|
    }

    /** Every stored object by id. */
    ghost function Objects(): map<nat, Record>
      reads this
      requires Valid()
    {
      ObjectsIn(chunks, id2ChunkMap)
    }

    /** The active chunk lacks `need` bytes, so an insert opens the next chunk. */
    ghost predicate Grows(need: nat)
      reads this
      requires Ready()
    {
      chunks[activeChunkIndex].newDataSpace < need
    }

    /** Where the next insert of `need` bytes lands. */
    ghost function Placement(need: nat): Location
      reads this
      requires Ready()
    {
      PlacementIn(chunks, activeChunkIndex, need)
    }

    /** The chunks once `need` bytes are taken at `Placement(need)`. */
    ghost function Grown(need: nat): seq<Chunk>
      reads this
      requires Ready() && need <= DATA_BLOCK_SIZE
    {
      assert ChunkValid(metaSize, chunks[activeChunkIndex]);
      GrownIn(chunks, activeChunkIndex, need)
    }

    /** The globals' initial values: `chunkLimit` empty slots, nothing allocated, an empty map. */
    constructor (metaSize: nat, chunkLimit: nat)
      requires 0 < metaSize
      ensures Valid() && !Ready() && Objects() == map[]
      ensures this.metaSize == metaSize && this.chunkLimit == chunkLimit && slotCount == chunkLimit
      ensures chunks == [] && allocatedCount == 0 && activeChunkIndex == 0 && id2ChunkMap == map[]
    {
      this.metaSize := metaSize;
      this.chunkLimit := chunkLimit;
      slotCount := chunkLimit;
      chunks := [];
      allocatedCount := 0;
      activeChunkIndex := 0;
      id2ChunkMap := map[];
    }

    /**
     * Builds chunk 0 and makes it active. Meant to run once at startup, on
     * slots that are all empty; slot 0 must exist.
     */
    method InitializeMemorySystem()
      requires Valid() && allocatedCount == 0 && 0 < slotCount
      modifies this`chunks, this`allocatedCount, this`activeChunkIndex
      ensures Ready() && Objects() == old(Objects())
      ensures chunks == [NewChunk()] && allocatedCount == 1 && activeChunkIndex == 0
    {
      chunks := [NewChunk()];
      allocatedCount := 1;
      activeChunkIndex := 0;
      NewChunkValid(metaSize);
    }

    /** Drops every chunk slot and mapping and resets the counters; the soft limit stays. */
    method CleanupMemorySystem()
      requires Valid()
      modifies this
      ensures Valid() && !Ready() && Objects() == map[]
      ensures slotCount == 0 && chunks == [] && id2ChunkMap == map[]
      ensures allocatedCount == 0 && activeChunkIndex == 0 && chunkLimit == old(chunkLimit)
    {
      chunks := [];
      slotCount := 0;
      id2ChunkMap := map[];
      allocatedCount := 0;
      activeChunkIndex := 0;
    }

    /**
     * Append the object with header `metaData` and the first `dataSize`
     * bytes of `data` to the active chunk, or to a new chunk after it when
     * the active one lacks the aligned space. Nothing happens when the
     * object with its header would not fit a block, when `data` is null or
     * when the header's id is already mapped.
     */
    method AllocateNewObject(metaData: Header, data: Option<seq<byte>>, dataSize: nat)
      requires Ready()
      requires data.Some? ==> dataSize <= |data.value|
      modifies this
      ensures Ready()
      ensures Reserved(metaSize, dataSize) > DATA_BLOCK_SIZE || data.None? || metaData.id in old(id2ChunkMap) ==>
        unchanged(this)
      ensures Reserved(metaSize, dataSize) <= DATA_BLOCK_SIZE && data.Some? && metaData.id !in old(id2ChunkMap) ==>
        var need := Reserved(metaSize, dataSize);
        var r := Record(metaData, data.value[..dataSize]);
        && Objects() == old(Objects())[metaData.id := r]
        && id2ChunkMap == old(id2ChunkMap)[metaData.id := old(Placement(need))]
        && id2ChunkMap[metaData.id].offsetInChunk % 8 == 0
        && chunks == Placed(old(Grown(need)), old(Placement(need)), r)
        && chunks[activeChunkIndex].totalFreeSpace + chunks[activeChunkIndex].totalUsedSpace == DATA_BLOCK_SIZE
        && SlotsAfter(old(slotCount), old(allocatedCount), old(chunkLimit),
             slotCount, allocatedCount, chunkLimit, old(Grows(need)))
    {
      hide Inv;
      var need := Reserved(metaSize, dataSize);
      if need > DATA_BLOCK_SIZE {
        return;
      }
      if data.None? {
        return;
      }
      if metaData.id in id2ChunkMap {
        return;
      }
      var r := Record(metaData, data.value[..dataSize]);
      ghost var place := PlacementIn(chunks, activeChunkIndex, need);
      InsertStep(metaSize, chunks, id2ChunkMap, activeChunkIndex, need, r);
      ghost var grown := GrownIn(chunks, activeChunkIndex, need);
      hide ObjectsIn;
      if chunks[activeChunkIndex].newDataSpace < need {
        // Grow the vector first if slot `activeChunkIndex + 1` does not exist.
        if activeChunkIndex + 1 >= slotCount {
          slotCount := slotCount + 16;
          chunkLimit := chunkLimit + 16;
        }
        chunks := chunks[activeChunkIndex := chunks[activeChunkIndex].(isChunkFull := true)] + [NewChunk()];
        allocatedCount := allocatedCount + 1;
        activeChunkIndex := activeChunkIndex + 1;
      }
      var loc := Location(activeChunkIndex, chunks[activeChunkIndex].nextOffset);
      assert loc == place;
      // Writing the record and moving the bump offset touch different fields; the order does not matter.
      chunks := chunks[activeChunkIndex := Take(chunks[activeChunkIndex], need)];
      assert chunks == grown;
      hide PlacementIn, GrownIn, Take, Placed;
      chunks := Placed(chunks, loc, r);
      id2ChunkMap := id2ChunkMap[metaData.id := loc];
    }
  }
}
