/**
 * The bump-pointer version of the object store `राम` (CPURAM-Manager.cpp).
 * Each chunk hands out space only at its end. Freed space is only counted
 * (`totalFreeSpace`), never reused, and `totalUsedSpace` is never written
 * after the chunk is built, so it stays 0 in every chunk.
 */
module BumpRam {
  import opened Wrappers
  import opened RamTypes
  import opened BumpChunk

  /**
   * The chunk invariant of this version: the shared layout; the used
   * counter is 0; freed bytes only ever add to the free counter; each
   * record's header declares the size of its payload.
   */
  ghost predicate ChunkValid(meta: nat, c: Chunk)
  {
    && Layout(meta, c)
    && c.totalUsedSpace == 0
    && c.newDataSpace <= c.totalFreeSpace
    && (forall p :: p in c.records ==> c.records[p].header.dataSize == |c.records[p].payload|)
  }

  /** `FindSpaceAndAllocate` on a chunk: the bump offset advances and both counters drop by `need`. */
  function Bump(c: Chunk, need: nat): Chunk
    requires need <= c.newDataSpace <= c.totalFreeSpace
  {
    Advance(c, need).(totalFreeSpace := c.totalFreeSpace - need)
  }

  /** Count `n` more bytes as free. */
  function Free(c: Chunk, n: nat): Chunk
  {
    c.(totalFreeSpace := c.totalFreeSpace + n)
  }

  /** The chunks with `n` more bytes counted free in chunk `k`. */
  function Freed(cs: seq<Chunk>, k: nat, n: nat): seq<Chunk>
    requires k < |cs|
  {
    cs[k := Free(cs[k], n)]
  }

  lemma NewChunkValid(meta: nat)
    ensures ChunkValid(meta, NewChunk())
  {
    NewChunkLayout(meta);
  }

  /**
   * Bumping keeps the chunk valid and leaves the used counter at 0; the
   * bytes handed out, from the old bump offset on, are vacant.
   */
  lemma BumpKeepsValid(meta: nat, c: Chunk, need: nat)
    requires ChunkValid(meta, c) && need % 8 == 0 && need <= c.newDataSpace
    ensures ChunkValid(meta, Bump(c, need)) && Bump(c, need).totalUsedSpace == 0
    ensures Vacant(meta, Bump(c, need), c.nextOffset, need)
  {
    AdvanceKeepsLayout(meta, c, need);
  }

  /** A record whose header declares its payload, of at most `need` bytes, written into vacant space keeps the chunk valid. */
  lemma WriteVacantKeepsValid(meta: nat, c: Chunk, off: nat, need: nat, r: Record)
    requires 0 < meta && ChunkValid(meta, c) && Vacant(meta, c, off, need)
    requires Span(meta, r) <= need && r.header.dataSize == |r.payload|
    ensures off !in c.records && ChunkValid(meta, Write(c, off, r))
  {
    WriteVacantKeepsLayout(meta, c, off, need, r);
  }

  /** Rewriting a record in place with a no larger one that declares its payload keeps the chunk valid. */
  lemma RewriteKeepsValid(meta: nat, c: Chunk, off: nat, r: Record)
    requires ChunkValid(meta, c) && off in c.records
    requires Span(meta, r) <= Span(meta, c.records[off]) && r.header.dataSize == |r.payload|
    ensures ChunkValid(meta, Write(c, off, r))
  {
    RewriteKeepsLayout(meta, c, off, r);
  }

  /** Counting bytes free keeps the chunk valid; the free counter runs `n` further ahead of the new space. */
  lemma FreeKeepsValid(meta: nat, c: Chunk, n: nat)
    requires ChunkValid(meta, c)
    ensures ChunkValid(meta, Free(c, n))
    ensures Free(c, n).totalFreeSpace - Free(c, n).newDataSpace == c.totalFreeSpace - c.newDataSpace + n
  { }

  // ---------------------------------------------------------------------------
  // The store's chunk vector and id map

  ghost predicate ChunksValid(meta: nat, cs: seq<Chunk>)
  {
    forall k :: 0 <= k < |cs| ==> ChunkValid(meta, cs[k])
  }

  ghost predicate Inv(meta: nat, cs: seq<Chunk>, m: map<nat, Location>)
  {
    0 < meta && ChunksValid(meta, cs) && Mapped(cs, m)
  }

  /** The chunks after reserving `need` bytes at `PlacementIn(cs, active, need)`. */
  ghost function GrownIn(cs: seq<Chunk>, active: nat, need: nat): seq<Chunk>
    requires active < |cs| && need <= DATA_BLOCK_SIZE
    requires cs[active].newDataSpace <= cs[active].totalFreeSpace
  {
    if need <= cs[active].newDataSpace then cs[active := Bump(cs[active], need)] else cs + [Bump(NewChunk(), need)]
  }

  /**
   * A mapped id holds its own record, whose header declares its payload and
   * whose reservation fits the block from its offset.
   */
  lemma MappedAt(meta: nat, cs: seq<Chunk>, m: map<nat, Location>, id: nat)
    requires Inv(meta, cs, m) && id in m
    ensures Holds(cs, m[id]) && At(cs, m[id]).header.id == id
    ensures At(cs, m[id]).header.dataSize == |At(cs, m[id]).payload|
    ensures m[id].offsetInChunk + Footprint(meta, At(cs, m[id])) <= DATA_BLOCK_SIZE
    ensures m[id].offsetInChunk + meta + At(cs, m[id]).header.dataSize <= DATA_BLOCK_SIZE
  {
    assert ChunkValid(meta, cs[m[id].chunkIndex]);
  }

  lemma ChunksValidUpdate(meta: nat, cs: seq<Chunk>, k: nat, c: Chunk)
    requires ChunksValid(meta, cs) && k < |cs| && ChunkValid(meta, c)
    ensures ChunksValid(meta, cs[k := c])
  {
    hide ChunkValid;
    var cs2 := cs[k := c];
    forall j | 0 <= j < |cs2|
      ensures ChunkValid(meta, cs2[j])
    {
      if j != k {
        assert cs2[j] == cs[j];
      }
    }
  }

  /**
   * Reserving space keeps the invariant and every object; the placement is
   * the last chunk, the reserved bytes there are vacant and its used counter is 0.
   */
  lemma GrowStep(meta: nat, cs: seq<Chunk>, m: map<nat, Location>, active: nat, need: nat)
    requires Inv(meta, cs, m) && active == |cs| - 1
    requires need % 8 == 0 && need <= DATA_BLOCK_SIZE
    ensures cs[active].newDataSpace <= cs[active].totalFreeSpace
    ensures var cs2 := GrownIn(cs, active, need);
      var loc := PlacementIn(cs, active, need);
      && Inv(meta, cs2, m) && ObjectsIn(cs2, m) == ObjectsIn(cs, m)
      && loc.chunkIndex == |cs2| - 1
      && Vacant(meta, cs2[loc.chunkIndex], loc.offsetInChunk, need)
      && cs2[loc.chunkIndex].totalUsedSpace == 0
  {
    var c := cs[active];
    assert ChunkValid(meta, c);
    var cs2 := GrownIn(cs, active, need);
    if need <= c.newDataSpace {
      BumpKeepsValid(meta, c, need);
      ChunksValidUpdate(meta, cs, active, Bump(c, need));
    } else {
      NewChunkValid(meta);
      BumpKeepsValid(meta, NewChunk(), need);
      hide ChunkValid;
      assert forall k :: 0 <= k < |cs2| ==> ChunkValid(meta, cs2[k]) by {
        forall k | 0 <= k < |cs2|
          ensures ChunkValid(meta, cs2[k])
        {
          if k < |cs| {
            assert cs2[k] == cs[k];
          }
        }
      }
    }
    hide ChunkValid;
    KeptObjects(cs, cs2, m);
  }

  /**
   * Writing record `r`, whose header declares its payload, into vacant space
   * keeps the invariant; its id now maps to the new location and shows `r`,
   * every other object is unchanged.
   */
  lemma PlaceStep(meta: nat, cs: seq<Chunk>, m: map<nat, Location>, loc: Location, need: nat, r: Record)
    requires Inv(meta, cs, m) && loc.chunkIndex < |cs|
    requires Vacant(meta, cs[loc.chunkIndex], loc.offsetInChunk, need)
    requires Span(meta, r) <= need && r.header.dataSize == |r.payload|
    ensures var m2 := m[r.header.id := loc];
      Inv(meta, Placed(cs, loc, r), m2) && ObjectsIn(Placed(cs, loc, r), m2) == ObjectsIn(cs, m)[r.header.id := r]
  {
    var k: nat, off: nat := loc.chunkIndex, loc.offsetInChunk;
    var cs2, m2 := Placed(cs, loc, r), m[r.header.id := loc];
    assert ChunkValid(meta, cs[k]);
    WriteVacantKeepsValid(meta, cs[k], off, need, r);
    ChunksValidUpdate(meta, cs, k, cs2[k]);
    hide ChunkValid, ChunksValid;
    assert forall other :: other in m ==> m[other] != loc;
    WrittenAgree(cs, m, loc, r.header.id, r);
    hide Mapped;
    ObjectsReplaced(cs, m, cs2, m2, r.header.id, r);
  }

  lemma RewriteChunksValid(meta: nat, cs: seq<Chunk>, loc: Location, r: Record)
    requires ChunksValid(meta, cs) && Holds(cs, loc)
    requires r.header.dataSize == |r.payload| && Span(meta, r) <= Span(meta, At(cs, loc))
    ensures ChunksValid(meta, Placed(cs, loc, r))
  {
    var k := loc.chunkIndex;
    assert ChunkValid(meta, cs[k]);
    RewriteKeepsValid(meta, cs[k], loc.offsetInChunk, r);
    ChunksValidUpdate(meta, cs, k, Placed(cs, loc, r)[k]);
  }

  /**
   * Rewriting the record of a mapped id in place, no larger and declaring
   * its payload, keeps the invariant and changes only that object.
   */
  lemma RewriteStep(meta: nat, cs: seq<Chunk>, m: map<nat, Location>, id: nat, r: Record)
    requires Inv(meta, cs, m) && id in m && Holds(cs, m[id])
    requires r.header.id == id && r.header.dataSize == |r.payload|
    requires Span(meta, r) <= Span(meta, At(cs, m[id]))
    ensures Inv(meta, Placed(cs, m[id], r), m)
    ensures ObjectsIn(Placed(cs, m[id], r), m) == ObjectsIn(cs, m)[id := r]
  {
    var loc := m[id];
    var cs2 := Placed(cs, loc, r);
    RewriteChunksValid(meta, cs, loc, r);
    hide ChunkValid, ChunksValid;
    DistinctLocations(cs, m, id);
    WrittenAgree(cs, m, loc, id, r);
    assert m[id := loc] == m;
    hide Mapped;
    ObjectsReplaced(cs, m, cs2, m, id, r);
  }

  /** Counting bytes free keeps the invariant and every object. */
  lemma FreeStep(meta: nat, cs: seq<Chunk>, m: map<nat, Location>, k: nat, n: nat)
    requires Inv(meta, cs, m) && k < |cs|
    ensures Inv(meta, Freed(cs, k, n), m) && ObjectsIn(Freed(cs, k, n), m) == ObjectsIn(cs, m)
  {
    var cs2 := Freed(cs, k, n);
    assert ChunkValid(meta, cs[k]);
    FreeKeepsValid(meta, cs[k], n);
    ChunksValidUpdate(meta, cs, k, cs2[k]);
    hide ChunkValid, ChunksValid;
    KeptObjects(cs, cs2, m);
  }

  /** The store: chunk vector, active chunk, id map; `metaSize` stands for `sizeof(META_DATA)`. */
  class Ram {
    const metaSize: nat
    /** What `InitializeMemorySystem` computes as installed RAM over the chunk size. */
    const initialChunkLimit: nat
    /** `cpuRAMChunkLimit`: the soft limit, raised along with the vector. */
    var chunkLimit: nat
    /** `RAMChunks.size()`: slots, allocated or not. */
    var slotCount: nat
    /** The allocated chunks `RAMChunks[0 .. RAMChunksAllocatedCount)`. */
    var chunks: seq<Chunk>
    var allocatedCount: nat
    var activeChunkIndex: nat
    var id2ChunkMap: map<nat, Location>

    ghost predicate Valid()
      reads this
    {
      0 < metaSize && 0 < initialChunkLimit
      && |chunks| == allocatedCount <= slotCount
      && (slotCount == 0 <==> allocatedCount == 0)
      && activeChunkIndex == (if allocatedCount == 0 then 0 else allocatedCount - 1)
      && Inv(metaSize, chunks, id2ChunkMap)
    }

    /** Initialised and not yet cleaned up: there is an active chunk. */
    ghost predicate Ready()
      reads this
    {
      Valid() && 0 < |chunks|
    }

    /** Every mapped object, deleted ones included, with its record. */
    ghost function Objects(): map<nat, Record>
      reads this
      requires Valid()
    {
      ObjectsIn(chunks, id2ChunkMap)
    }

    /** The active chunk lacks `need` bytes at its end, so an allocation opens the next chunk. */
    ghost predicate Grows(need: nat)
      reads this
      requires Ready()
    {
      chunks[activeChunkIndex].newDataSpace < need
    }

    /** Where the next request of `need` bytes lands. */
    ghost function Placement(need: nat): Location
      reads this
      requires Ready()
    {
      PlacementIn(chunks, activeChunkIndex, need)
    }

    /** The chunks once `need` bytes are reserved at `Placement(need)`. */
    ghost function Grown(need: nat): seq<Chunk>
      reads this
      requires Ready() && need <= DATA_BLOCK_SIZE
    {
      assert ChunkValid(metaSize, chunks[activeChunkIndex]);
      GrownIn(chunks, activeChunkIndex, need)
    }

    /** A store with no chunk vector yet, waiting for `InitializeMemorySystem`. */
    constructor (metaSize: nat, initialChunkLimit: nat)
      requires 0 < metaSize && 0 < initialChunkLimit
      ensures Valid() && !Ready() && Objects() == map[]
      ensures this.metaSize == metaSize && this.initialChunkLimit == initialChunkLimit
      ensures chunkLimit == 0 && slotCount == 0 && chunks == []
      ensures allocatedCount == 0 && activeChunkIndex == 0 && id2ChunkMap == map[]
    {
      this.metaSize := metaSize;
      this.initialChunkLimit := initialChunkLimit;
      chunkLimit := 0;
      slotCount := 0;
      chunks := [];
      allocatedCount := 0;
      activeChunkIndex := 0;
      id2ChunkMap := map[];
    }

    /** Sets up the vector and its first chunk, unless the vector is already there. */
    method InitializeMemorySystem()
      requires Valid()
      modifies this
      ensures Ready()
      ensures old(slotCount) != 0 ==> unchanged(this)
      ensures old(slotCount) == 0 ==>
        chunkLimit == slotCount == initialChunkLimit && chunks == [NewChunk()] && allocatedCount == 1
        && activeChunkIndex == 0 && id2ChunkMap == old(id2ChunkMap) == map[]
    {
      if slotCount != 0 {
        return;
      }
      chunkLimit := initialChunkLimit;
      slotCount := initialChunkLimit;
      chunks := [NewChunk()];
      allocatedCount := 1;
      activeChunkIndex := 0;
      NewChunkValid(metaSize);
    }

    /** Drops every chunk and mapping and resets the counters; the soft limit stays. */
    method CleanupMemorySystem()
      requires Valid()
      modifies this
      ensures Valid() && !Ready() && Objects() == map[]
      ensures slotCount == 0 && chunks == [] && id2ChunkMap == map[]
      ensures allocatedCount == 0 && activeChunkIndex == 0 && chunkLimit == old(chunkLimit)
    {
      chunks := [];
      slotCount := 0;
      id2ChunkMap := map[];
      allocatedCount := 0;
      activeChunkIndex := 0;
    }

    /**
     * Reserve `need` bytes at the bump offset of the active chunk, or at the
     * start of a new chunk after it. Requests larger than a block are refused.
     */
    method FindSpaceAndAllocate(need: nat) returns (loc: Option<Location>)
      requires Ready() && need % 8 == 0
      modifies this
      ensures Ready() && id2ChunkMap == old(id2ChunkMap) && Objects() == old(Objects())
      ensures loc.None? <==> need > DATA_BLOCK_SIZE
      ensures loc.None? ==> unchanged(this)
      ensures loc.Some? ==> loc == Some(old(Placement(need))) && chunks == old(Grown(need))
      ensures loc.Some? ==>
        && loc.value.chunkIndex == activeChunkIndex
        && Vacant(metaSize, chunks[activeChunkIndex], loc.value.offsetInChunk, need)
        && chunks[activeChunkIndex].totalUsedSpace == 0
      ensures loc.Some? ==> SlotsAfter(old(slotCount), old(allocatedCount), old(chunkLimit),
        slotCount, allocatedCount, chunkLimit, old(Grows(need)))
    {
      hide Inv;
      if need > DATA_BLOCK_SIZE {
        return None;
      }
      GrowStep(metaSize, chunks, id2ChunkMap, activeChunkIndex, need);
      if chunks[activeChunkIndex].newDataSpace < need {
        // No room left at the end of the active chunk: move to the next one.
        activeChunkIndex := activeChunkIndex + 1;
        if activeChunkIndex >= allocatedCount {
          // Reaching `chunkLimit` only prints a soft-limit warning.
          if allocatedCount >= slotCount {
            slotCount := slotCount + 16;
            chunkLimit := chunkLimit + 16;
          }
          chunks := chunks + [NewChunk()];
          allocatedCount := allocatedCount + 1;
        } else {
          assert false;
        }
      }
      var offset := chunks[activeChunkIndex].nextOffset;
      chunks := chunks[activeChunkIndex := Bump(chunks[activeChunkIndex], need)];
      assert chunks == old(GrownIn(chunks, activeChunkIndex, need));
      loc := Some(Location(activeChunkIndex, offset));
    }

    /**
     * Store a new object under `id`, header and payload at the space
     * `FindSpaceAndAllocate` hands out. A mapped id (deleted ones included)
     * and an object whose aligned size exceeds a block are refused.
     */
    method AllocateNewObject(id: nat, parentId: nat, data: seq<byte>) returns (ok: bool)
      requires Ready()
      modifies this
      ensures Ready()
      ensures ok <==> id !in old(id2ChunkMap) && Reserved(metaSize, |data|) <= DATA_BLOCK_SIZE
      ensures !ok ==> unchanged(this)
      ensures ok ==> Objects() == old(Objects())[id := NewRecord(id, parentId, data)]
      ensures ok ==> id2ChunkMap == old(id2ChunkMap)[id := old(Placement(Reserved(metaSize, |data|)))]
      ensures ok ==> chunks == Placed(old(Grown(Reserved(metaSize, |data|))),
        old(Placement(Reserved(metaSize, |data|))), NewRecord(id, parentId, data))
      ensures ok ==> SlotsAfter(old(slotCount), old(allocatedCount), old(chunkLimit),
        slotCount, allocatedCount, chunkLimit, old(Grows(Reserved(metaSize, |data|))))
    {
      hide Inv;
      if id in id2ChunkMap {
        return false;
      }
      var need := Reserved(metaSize, |data|);
      var found := FindSpaceAndAllocate(need);
      if found.None? {
        return false;
      }
      var loc := found.value;
      var r := NewRecord(id, parentId, data);
      PlaceStep(metaSize, chunks, id2ChunkMap, loc, need, r);
      chunks := Placed(chunks, loc, r);
      id2ChunkMap := id2ChunkMap[id := loc];
      ok := true;
    }

    /**
     * Give the object `id` a new payload and one more version. A record
     * whose aligned size does not grow is rewritten in place; otherwise the
     * object is written, with its other header fields, at newly reserved
     * space, the id is repointed there and the old chunk counts the old
     * record's bytes as free.
     */
    method ModifyObject(id: nat, newData: seq<byte>) returns (ok: bool)
      requires Ready()
      modifies this
      ensures Ready()
      ensures ok <==> id in old(id2ChunkMap) && Reserved(metaSize, |newData|) <= DATA_BLOCK_SIZE
      ensures !ok ==> unchanged(this)
      ensures ok ==> Objects() == old(Objects())[id := Rewritten(old(Objects())[id], newData)]
      ensures ok && Reserved(metaSize, |newData|) <= Footprint(metaSize, old(Objects())[id]) ==>
        && id2ChunkMap == old(id2ChunkMap)
        && chunks == old(Placed(chunks, id2ChunkMap[id], Rewritten(Objects()[id], newData)))
        && slotCount == old(slotCount) && allocatedCount == old(allocatedCount) && chunkLimit == old(chunkLimit)
      ensures ok && Footprint(metaSize, old(Objects())[id]) < Reserved(metaSize, |newData|) ==>
        && id2ChunkMap == old(id2ChunkMap)[id := old(Placement(Reserved(metaSize, |newData|)))]
        && old(id2ChunkMap[id].chunkIndex) < |old(Grown(Reserved(metaSize, |newData|)))|
        && chunks == Placed(
             Freed(old(Grown(Reserved(metaSize, |newData|))), old(id2ChunkMap[id].chunkIndex), Footprint(metaSize, old(Objects())[id])),
             old(Placement(Reserved(metaSize, |newData|))),
             Rewritten(old(Objects())[id], newData))
        && SlotsAfter(old(slotCount), old(allocatedCount), old(chunkLimit),
             slotCount, allocatedCount, chunkLimit, old(Grows(Reserved(metaSize, |newData|))))
    {
      hide Inv;
      if id !in id2ChunkMap {
        return false;
      }
      MappedAt(metaSize, chunks, id2ChunkMap, id);
      var loc := id2ChunkMap[id];
      var r := chunks[loc.chunkIndex].records[loc.offsetInChunk];
      var oldNeed := Footprint(metaSize, r);
      var newNeed := Reserved(metaSize, |newData|);
      var r2 := Rewritten(r, newData);
      if newNeed <= oldNeed {
        RewriteStep(metaSize, chunks, id2ChunkMap, id, r2);
        chunks := Placed(chunks, loc, r2);
        return true;
      }
      var found := FindSpaceAndAllocate(newNeed);
      if found.None? {
        return false;
      }
      var dest := found.value;
      // Count the old record's bytes as free; they are not reused.
      FreeStep(metaSize, chunks, id2ChunkMap, loc.chunkIndex, oldNeed);
      chunks := Freed(chunks, loc.chunkIndex, oldNeed);
      PlaceStep(metaSize, chunks, id2ChunkMap, dest, newNeed, r2);
      chunks := Placed(chunks, dest, r2);
      id2ChunkMap := id2ChunkMap[id := dest];
      ok := true;
    }

    /**
     * Soft-delete the object `id`: flag its header deleted, raise its
     * version and count its bytes as free in its chunk. The id stays mapped.
     * Only an unmapped id is refused.
     */
    method DeleteObject(id: nat) returns (ok: bool)
      requires Ready()
      modifies this`chunks
      ensures Ready()
      ensures ok <==> id in old(id2ChunkMap)
      ensures !ok ==> chunks == old(chunks)
      ensures ok ==> Objects() == old(Objects())[id := MarkDeleted(old(Objects())[id])]
      ensures ok ==> chunks == Freed(old(Placed(chunks, id2ChunkMap[id], MarkDeleted(Objects()[id]))),
        id2ChunkMap[id].chunkIndex, Footprint(metaSize, old(Objects())[id]))
    {
      hide Inv;
      if id !in id2ChunkMap {
        return false;
      }
      MappedAt(metaSize, chunks, id2ChunkMap, id);
      var loc := id2ChunkMap[id];
      var r := chunks[loc.chunkIndex].records[loc.offsetInChunk];
      RewriteStep(metaSize, chunks, id2ChunkMap, id, MarkDeleted(r));
      chunks := Placed(chunks, loc, MarkDeleted(r));
      FreeStep(metaSize, chunks, id2ChunkMap, loc.chunkIndex, Footprint(metaSize, r));
      chunks := Freed(chunks, loc.chunkIndex, Footprint(metaSize, r));
      ok := true;
    }

    /** The header of a mapped object (deleted ones included); none for an unmapped id. */
    method GetMETA_DATA(id: nat) returns (h: Option<Header>)
      requires Valid()
      ensures h.Some? <==> id in Objects()
      ensures h.Some? ==> h.value == Objects()[id].header && h.value.id == id
    {
      if id !in id2ChunkMap {
        return None;
      }
      MappedAt(metaSize, chunks, id2ChunkMap, id);
      var loc := id2ChunkMap[id];
      h := Some(chunks[loc.chunkIndex].records[loc.offsetInChunk].header);
    }

    /**
     * Where the id's payload starts: `metaSize` bytes past its location. The
     * payload its header declares lies inside the block.
     */
    method GetObjectPayload(id: nat) returns (p: Option<Location>)
      requires Valid()
      ensures p.Some? <==> id in Objects()
      ensures p.Some? ==> p.value == Location(id2ChunkMap[id].chunkIndex, id2ChunkMap[id].offsetInChunk + metaSize)
      ensures p.Some? ==> p.value.offsetInChunk + Objects()[id].header.dataSize <= DATA_BLOCK_SIZE
    {
      if id !in id2ChunkMap {
        return None;
      }
      MappedAt(metaSize, chunks, id2ChunkMap, id);
      var loc := id2ChunkMap[id];
      p := Some(Location(loc.chunkIndex, loc.offsetInChunk + metaSize));
    }
  }
}
