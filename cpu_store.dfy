/**
 * The object store `राम` of code-core/MemoryManagerCPU.h: a growing
 * sequence of chunks, the active chunk index, and `id2ChunkMap` from object
 * ids to locations.
 *
 * What the store holds, seen from outside, is `Objects()`: every mapped id
 * whose location still holds that id's own header, not flagged deleted,
 * together with the record found there. Deleted ids stay mapped (the
 * source leaves pruning to its caller) but drop out of `Objects()`.
 */
module CpuStore {
  import opened Wrappers
  import opened RamTypes
  import opened FreeList
  import opened CpuRam

  // ---------------------------------------------------------------------------
  // The object view of a chunk sequence and an id map

  /** Something was written at `loc`. */
  ghost predicate Holds(cs: seq<Chunk>, loc: Location)
  {
    loc.chunkIndex < |cs| && loc.offsetInChunk in cs[loc.chunkIndex].records
  }

  ghost function At(cs: seq<Chunk>, loc: Location): Record
    requires Holds(cs, loc)
  {
    cs[loc.chunkIndex].records[loc.offsetInChunk]
  }

  /** `id` is mapped to a location that holds its own header, not flagged deleted. */
  ghost predicate LiveIn(cs: seq<Chunk>, m: map<nat, Location>, id: nat)
  {
    id in m && Holds(cs, m[id]) && At(cs, m[id]).header.id == id && !At(cs, m[id]).header.isDeleted
  }

  /** The objects of the store: each live id with the record at its location. */
  ghost function ObjectsIn(cs: seq<Chunk>, m: map<nat, Location>): map<nat, Record>
  {
    map id | id in m && LiveIn(cs, m, id) :: At(cs, m[id])
  }

  /** Every mapped id points at a written record. */
  ghost predicate Mapped(cs: seq<Chunk>, m: map<nat, Location>)
  {
    forall id :: id in m ==> Holds(cs, m[id])
  }

  /** If `id` is live, its range is reserved. */
  ghost predicate Reserves(cs: seq<Chunk>, m: map<nat, Location>, id: nat)
  {
    LiveIn(cs, m, id) ==> m[id].offsetInChunk in cs[m[id].chunkIndex].reserved
  }

  /** The map and the chunks agree: every live object owns a reserved range. */
  ghost predicate Tracked(cs: seq<Chunk>, m: map<nat, Location>)
  {
    Mapped(cs, m) && forall id :: Reserves(cs, m, id)
  }

  /** `Tracked` for every id but `id`, whose range is being moved. */
  ghost predicate TrackedBut(cs: seq<Chunk>, m: map<nat, Location>, id: nat)
  {
    Mapped(cs, m) && forall x :: x != id ==> Reserves(cs, m, x)
  }

  /** `cs2` extends `cs` and agrees with it on every record and reservation. */
  ghost predicate SameObjects(cs: seq<Chunk>, cs2: seq<Chunk>)
  {
    |cs| <= |cs2|
    && forall k :: 0 <= k < |cs| ==> cs2[k].records == cs[k].records && cs2[k].reserved == cs[k].reserved
  }

  // ---------------------------------------------------------------------------
  // How each chunk update moves the object view

  /** Chunks that keep every record and reservation keep the objects and the tracking. */
  lemma KeptObjects(cs: seq<Chunk>, cs2: seq<Chunk>, m: map<nat, Location>)
    requires Tracked(cs, m) && SameObjects(cs, cs2)
    ensures Tracked(cs2, m)
    ensures ObjectsIn(cs2, m) == ObjectsIn(cs, m)
  {
    forall id | id in m
      ensures Holds(cs2, m[id]) && At(cs2, m[id]) == At(cs, m[id])
    {
      assert cs2[m[id].chunkIndex].records == cs[m[id].chunkIndex].records;
    }
    forall id ensures Reserves(cs2, m, id)
    {
      if LiveIn(cs2, m, id) {
        assert Reserves(cs, m, id);
      }
    }
  }

  /** Every id but `id` is live in both views or in neither, with the same record. */
  ghost predicate OthersAgree(cs: seq<Chunk>, m: map<nat, Location>, cs2: seq<Chunk>, m2: map<nat, Location>, id: nat)
  {
    forall x :: x != id ==>
      (LiveIn(cs2, m2, x) <==> LiveIn(cs, m, x))
      && (LiveIn(cs, m, x) ==> At(cs2, m2[x]) == At(cs, m[x]))
  }

  /** When only `id` changes and stays live, the objects differ by that id's record. */
  lemma ObjectsReplaced(cs: seq<Chunk>, m: map<nat, Location>, cs2: seq<Chunk>, m2: map<nat, Location>, id: nat)
    requires OthersAgree(cs, m, cs2, m2, id) && LiveIn(cs2, m2, id)
    ensures ObjectsIn(cs2, m2) == ObjectsIn(cs, m)[id := At(cs2, m2[id])]
  {
    var o, o2 := ObjectsIn(cs, m), ObjectsIn(cs2, m2);
    var r := At(cs2, m2[id]);
    assert forall x :: x in o2 <==> x in o[id := r];
    assert forall x :: x in o2 ==> o2[x] == o[id := r][x];
  }

  /** When only `id` changes and is no longer live, the objects lose that id. */
  lemma ObjectsRemoved(cs: seq<Chunk>, m: map<nat, Location>, cs2: seq<Chunk>, m2: map<nat, Location>, id: nat)
    requires OthersAgree(cs, m, cs2, m2, id) && !LiveIn(cs2, m2, id)
    ensures ObjectsIn(cs2, m2) == ObjectsIn(cs, m) - {id}
  {
    var o, o2 := ObjectsIn(cs, m), ObjectsIn(cs2, m2);
    assert forall x :: x in o2 <==> x in o - {id};
    assert forall x :: x in o2 ==> o2[x] == (o - {id})[x];
  }

  /**
   * Writing `r` at `loc`, where no live object has its range, and pointing
   * `r`'s id there makes `r` the object of that id. `c2` is the chunk after
   * the write: only its records and reservations matter here.
   */
  lemma PlacedObjects(cs: seq<Chunk>, m: map<nat, Location>, loc: Location, r: Record, c2: Chunk)
    requires TrackedBut(cs, m, r.header.id) && !r.header.isDeleted
    requires loc.chunkIndex < |cs| && loc.offsetInChunk !in cs[loc.chunkIndex].reserved
    requires c2.records == cs[loc.chunkIndex].records[loc.offsetInChunk := r]
    requires c2.reserved.Keys == cs[loc.chunkIndex].reserved.Keys + {loc.offsetInChunk}
    ensures var cs2 := cs[loc.chunkIndex := c2];
      var m2 := m[r.header.id := loc];
      Tracked(cs2, m2) && ObjectsIn(cs2, m2) == ObjectsIn(cs, m)[r.header.id := r]
  {
    var id := r.header.id;
    var cs2 := cs[loc.chunkIndex := c2];
    var m2 := m[id := loc];
    assert LiveIn(cs2, m2, id);
    forall x | x != id
      ensures (LiveIn(cs2, m2, x) <==> LiveIn(cs, m, x)) && (LiveIn(cs, m, x) ==> At(cs2, m2[x]) == At(cs, m[x]))
      ensures Reserves(cs2, m2, x)
    {
      assert Reserves(cs, m, x);
      if x in m && m[x] != loc {
        assert Holds(cs2, m[x]) && At(cs2, m[x]) == At(cs, m[x]);
      }
    }
    assert Mapped(cs2, m2);
    ObjectsReplaced(cs, m, cs2, m2, id);
  }

  /** Dropping a live object's reservation keeps the objects and the tracking of every other id. */
  lemma VacatedObjects(cs: seq<Chunk>, m: map<nat, Location>, id: nat, c2: Chunk)
    requires Tracked(cs, m) && LiveIn(cs, m, id)
    requires c2.records == cs[m[id].chunkIndex].records
    requires c2.reserved.Keys == cs[m[id].chunkIndex].reserved.Keys - {m[id].offsetInChunk}
    ensures var cs2 := cs[m[id].chunkIndex := c2];
      TrackedBut(cs2, m, id) && ObjectsIn(cs2, m) == ObjectsIn(cs, m)
  {
    var cs2 := cs[m[id].chunkIndex := c2];
    forall x | x in m
      ensures Holds(cs2, m[x]) && At(cs2, m[x]) == At(cs, m[x])
    {
    }
    forall x | x != id ensures Reserves(cs2, m, x)
    {
      assert Reserves(cs, m, x);
    }
    assert ObjectsIn(cs2, m) == ObjectsIn(cs, m);
  }

  /** Flagging a live object deleted removes exactly that object. */
  lemma DeletedObjects(cs: seq<Chunk>, m: map<nat, Location>, id: nat, c2: Chunk)
    requires Tracked(cs, m) && LiveIn(cs, m, id)
    requires var loc := m[id];
      c2.records == cs[loc.chunkIndex].records[loc.offsetInChunk := MarkDeleted(At(cs, loc))]
      && c2.reserved.Keys == cs[loc.chunkIndex].reserved.Keys - {loc.offsetInChunk}
    ensures var cs2 := cs[m[id].chunkIndex := c2];
      Tracked(cs2, m) && ObjectsIn(cs2, m) == ObjectsIn(cs, m) - {id}
  {
    var loc := m[id];
    var cs2 := cs[loc.chunkIndex := c2];
    assert !LiveIn(cs2, m, id);
    forall x | x != id
      ensures (LiveIn(cs2, m, x) <==> LiveIn(cs, m, x)) && (LiveIn(cs, m, x) ==> At(cs2, m[x]) == At(cs, m[x]))
      ensures Reserves(cs2, m, x)
    {
      assert Reserves(cs, m, x);
      if x in m && m[x] != loc {
        assert Holds(cs2, m[x]) && At(cs2, m[x]) == At(cs, m[x]);
      }
    }
    assert Mapped(cs2, m);
    ObjectsRemoved(cs, m, cs2, m, id);
  }

  /** Rewriting a live object in place, under its own id, replaces exactly that object's record. */
  lemma RewrittenObjects(cs: seq<Chunk>, m: map<nat, Location>, id: nat, r: Record, c2: Chunk)
    requires Tracked(cs, m) && LiveIn(cs, m, id) && r.header.id == id && !r.header.isDeleted
    requires var loc := m[id];
      c2.records == cs[loc.chunkIndex].records[loc.offsetInChunk := r]
      && c2.reserved.Keys == cs[loc.chunkIndex].reserved.Keys
    ensures var cs2 := cs[m[id].chunkIndex := c2];
      Tracked(cs2, m) && ObjectsIn(cs2, m) == ObjectsIn(cs, m)[id := r]
  {
    var loc := m[id];
    var cs2 := cs[loc.chunkIndex := c2];
    assert Reserves(cs, m, id);
    assert LiveIn(cs2, m, id);
    forall x | x != id
      ensures (LiveIn(cs2, m, x) <==> LiveIn(cs, m, x)) && (LiveIn(cs, m, x) ==> At(cs2, m[x]) == At(cs, m[x]))
      ensures Reserves(cs2, m, x)
    {
      assert Reserves(cs, m, x);
      if x in m && m[x] != loc {
        assert Holds(cs2, m[x]) && At(cs2, m[x]) == At(cs, m[x]);
      }
    }
    assert Mapped(cs2, m);
    ObjectsReplaced(cs, m, cs2, m, id);
  }

  /** Replacing one valid chunk by another keeps the whole sequence valid. */
  lemma ChunksValidUpdate(cs: seq<Chunk>, meta: nat, k: nat, c: Chunk)
    requires ChunksValid(cs, meta) && k < |cs| && ChunkValid(c, meta)
    ensures ChunksValid(cs[k := c], meta)
  {
  }

  // ---------------------------------------------------------------------------
  // Store transitions on values

  /** The part of the store invariant about chunk contents and the id map. */
  ghost predicate Inv(meta: nat, cs: seq<Chunk>, m: map<nat, Location>)
  {
    0 < meta && ChunksValid(cs, meta) && Tracked(cs, m)
  }

  /** A mapped id points at a written record; a live one at its own reserved range, inside the block. */
  lemma MappedHolds(meta: nat, cs: seq<Chunk>, m: map<nat, Location>, id: nat)
    requires Inv(meta, cs, m) && id in m
    ensures Holds(cs, m[id])
    ensures id in ObjectsIn(cs, m) <==> LiveIn(cs, m, id)
    ensures LiveIn(cs, m, id) ==>
      ObjectsIn(cs, m)[id] == At(cs, m[id])
      && m[id].offsetInChunk in cs[m[id].chunkIndex].reserved
      && m[id].offsetInChunk + Footprint(meta, At(cs, m[id])) <= DATA_BLOCK_SIZE
  {
    if LiveIn(cs, m, id) {
      assert Reserves(cs, m, id);
      assert ChunkValid(cs[m[id].chunkIndex], meta);
    }
  }

  /** The first-fit hit of `FindSpaceAndAllocate` in chunk `k` keeps the invariant and the objects. */
  lemma TakeAtStep(meta: nat, cs: seq<Chunk>, m: map<nat, Location>, k: nat, i: nat, need: nat)
    requires Inv(meta, cs, m) && k < |cs|
    requires i < |cs[k].freeByteRangesList| && 0 < need <= cs[k].freeByteRangesList[i].bytes
    ensures need <= cs[k].totalFreeSpace
    ensures var cs2 := cs[k := TakeAt(cs[k], i, need)];
      Inv(meta, cs2, m) && SameObjects(cs, cs2) && ObjectsIn(cs2, m) == ObjectsIn(cs, m)
      && Vacant(cs2[k], cs[k].freeByteRangesList[i].start, need)
  {
    hide Carve, Release, FirstFit;
    assert ChunkValid(cs[k], meta);
    TakeAtKeepsLayout(cs[k], i, need);
    var taken := TakeAt(cs[k], i, need);
    assert ChunkValid(taken, meta);
    ChunksValidUpdate(cs, meta, k, taken);
    KeptObjects(cs, cs[k := taken], m);
  }

  /** Opening a chunk and taking `need` bytes at its front keeps the invariant and the objects. */
  lemma TakeFrontStep(meta: nat, cs: seq<Chunk>, m: map<nat, Location>, need: nat)
    requires Inv(meta, cs, m) && 0 < need <= DATA_BLOCK_SIZE
    ensures var cs2 := cs + [TakeFront(NewChunk(0), need)];
      Inv(meta, cs2, m) && SameObjects(cs, cs2) && ObjectsIn(cs2, m) == ObjectsIn(cs, m)
      && Vacant(cs2[|cs|], 0, need)
  {
    TakeFrontKeepsLayout(NewChunk(0), need);
    var taken := TakeFront(NewChunk(0), need);
    assert ChunkValid(taken, meta);
    KeptObjects(cs, cs + [taken], m);
  }

  /**
   * Writing `r` into a vacant range and pointing its id there restores the
   * invariant, when only that id was untracked, and makes `r` its object.
   */
  lemma PlaceStep(meta: nat, cs: seq<Chunk>, m: map<nat, Location>, loc: Location, r: Record)
    requires 0 < meta && ChunksValid(cs, meta) && TrackedBut(cs, m, r.header.id) && !r.header.isDeleted
    requires loc.chunkIndex < |cs| && Vacant(cs[loc.chunkIndex], loc.offsetInChunk, Footprint(meta, r))
    ensures var cs2 := cs[loc.chunkIndex := Place(cs[loc.chunkIndex], meta, loc.offsetInChunk, r)];
      var m2 := m[r.header.id := loc];
      Inv(meta, cs2, m2) && ObjectsIn(cs2, m2) == ObjectsIn(cs, m)[r.header.id := r]
  {
    var c := cs[loc.chunkIndex];
    assert ChunkValid(c, meta);
    VacantNotReserved(c, loc.offsetInChunk, Footprint(meta, r));
    PlaceKeepsValid(c, meta, loc.offsetInChunk, r);
    var placed := Place(c, meta, loc.offsetInChunk, r);
    ChunksValidUpdate(cs, meta, loc.chunkIndex, placed);
    PlacedObjects(cs, m, loc, r, placed);
  }

  /** Writing an object under a new id into a vacant range keeps the invariant and adds exactly that object. */
  lemma NewObjectStep(meta: nat, cs: seq<Chunk>, m: map<nat, Location>, loc: Location, r: Record)
    requires Inv(meta, cs, m) && r.header.id !in m && !r.header.isDeleted
    requires loc.chunkIndex < |cs| && Vacant(cs[loc.chunkIndex], loc.offsetInChunk, Footprint(meta, r))
    ensures var cs2 := cs[loc.chunkIndex := Place(cs[loc.chunkIndex], meta, loc.offsetInChunk, r)];
      var m2 := m[r.header.id := loc];
      Inv(meta, cs2, m2) && ObjectsIn(cs2, m2) == ObjectsIn(cs, m)[r.header.id := r]
  {
    PlaceStep(meta, cs, m, loc, r);
  }

  /** Soft-deleting a live object keeps the invariant and removes exactly that object. */
  lemma DeleteStep(meta: nat, cs: seq<Chunk>, m: map<nat, Location>, id: nat)
    requires Inv(meta, cs, m) && LiveIn(cs, m, id)
    ensures Footprint(meta, At(cs, m[id])) <= cs[m[id].chunkIndex].totalUsedSpace
    ensures var loc := m[id];
      var cs2 := cs[loc.chunkIndex := Delete(cs[loc.chunkIndex], meta, loc.offsetInChunk)];
      Inv(meta, cs2, m) && ObjectsIn(cs2, m) == ObjectsIn(cs, m) - {id}
      && At(cs2, loc) == MarkDeleted(At(cs, loc))
  {
    var loc := m[id];
    var c := cs[loc.chunkIndex];
    assert Reserves(cs, m, id);
    assert ChunkValid(c, meta);
    DeleteKeepsValid(c, meta, loc.offsetInChunk);
    DeleteFields(c, meta, loc.offsetInChunk);
    var d := Delete(c, meta, loc.offsetInChunk);
    DeletedObjects(cs, m, id, d);
    ChunksValidUpdate(cs, meta, loc.chunkIndex, d);
  }

  /** Rewriting a live object in place keeps the invariant and replaces exactly that object. */
  lemma ShrinkStep(meta: nat, cs: seq<Chunk>, m: map<nat, Location>, id: nat, data: seq<byte>)
    requires Inv(meta, cs, m) && LiveIn(cs, m, id)
    requires Reserved(meta, |data|) <= Footprint(meta, At(cs, m[id]))
    ensures Footprint(meta, At(cs, m[id])) <= cs[m[id].chunkIndex].totalUsedSpace
    ensures var loc := m[id];
      var r := Rewritten(At(cs, loc), data);
      var cs2 := cs[loc.chunkIndex := Shrink(cs[loc.chunkIndex], meta, loc.offsetInChunk, r)];
      Inv(meta, cs2, m) && ObjectsIn(cs2, m) == ObjectsIn(cs, m)[id := r]
  {
    var loc := m[id];
    var c := cs[loc.chunkIndex];
    var r := Rewritten(At(cs, loc), data);
    assert Reserves(cs, m, id);
    assert ChunkValid(c, meta);
    ShrinkKeepsValid(c, meta, loc.offsetInChunk, r);
    ShrinkFields(c, meta, loc.offsetInChunk, r);
    var s := Shrink(c, meta, loc.offsetInChunk, r);
    RewrittenObjects(cs, m, id, r, s);
    ChunksValidUpdate(cs, meta, loc.chunkIndex, s);
  }

  /**
   * Releasing a live object's range keeps every chunk valid, every other id
   * tracked and the objects unchanged; a vacant range elsewhere stays vacant.
   */
  lemma VacateStep(meta: nat, cs: seq<Chunk>, m: map<nat, Location>, id: nat, dest: Location, n: nat)
    requires Inv(meta, cs, m) && LiveIn(cs, m, id)
    requires dest.chunkIndex < |cs| && 0 < n && Vacant(cs[dest.chunkIndex], dest.offsetInChunk, n)
    ensures Footprint(meta, At(cs, m[id])) <= cs[m[id].chunkIndex].totalUsedSpace
    ensures var loc := m[id];
      var cs2 := cs[loc.chunkIndex := Vacate(cs[loc.chunkIndex], meta, loc.offsetInChunk)];
      ChunksValid(cs2, meta) && TrackedBut(cs2, m, id) && ObjectsIn(cs2, m) == ObjectsIn(cs, m)
      && At(cs2, loc) == At(cs, loc) && Vacant(cs2[dest.chunkIndex], dest.offsetInChunk, n)
  {
    var loc := m[id];
    var c := cs[loc.chunkIndex];
    assert Reserves(cs, m, id);
    assert ChunkValid(c, meta);
    VacateKeepsValid(c, meta, loc.offsetInChunk);
    if dest.chunkIndex == loc.chunkIndex {
      VacateKeepsVacant(c, meta, loc.offsetInChunk, dest.offsetInChunk, n);
    }
    var v := Vacate(c, meta, loc.offsetInChunk);
    assert v.records == c.records && v.reserved == c.reserved - {loc.offsetInChunk};
    VacatedObjects(cs, m, id, v);
    ChunksValidUpdate(cs, meta, loc.chunkIndex, v);
  }

  /**
   * Moving a live object: release its range, write the rewritten record into
   * the vacant range `dest` and repoint the id. The invariant holds again
   * and exactly that object changes.
   */
  lemma MoveStep(meta: nat, cs: seq<Chunk>, m: map<nat, Location>, id: nat, data: seq<byte>, dest: Location)
    requires Inv(meta, cs, m) && LiveIn(cs, m, id)
    requires dest.chunkIndex < |cs| && Vacant(cs[dest.chunkIndex], dest.offsetInChunk, Reserved(meta, |data|))
    ensures Footprint(meta, At(cs, m[id])) <= cs[m[id].chunkIndex].totalUsedSpace
    ensures var loc := m[id];
      var r := Rewritten(At(cs, loc), data);
      var cs2 := cs[loc.chunkIndex := Vacate(cs[loc.chunkIndex], meta, loc.offsetInChunk)];
      var cs3 := cs2[dest.chunkIndex := Place(cs2[dest.chunkIndex], meta, dest.offsetInChunk, r)];
      Inv(meta, cs3, m[id := dest]) && ObjectsIn(cs3, m[id := dest]) == ObjectsIn(cs, m)[id := r]
  {
    var loc := m[id];
    var r := Rewritten(At(cs, loc), data);
    VacateStep(meta, cs, m, id, dest, Reserved(meta, |data|));
    var cs2 := cs[loc.chunkIndex := Vacate(cs[loc.chunkIndex], meta, loc.offsetInChunk)];
    PlaceStep(meta, cs2, m, dest, r);
  }

  /** The used counter of a live object's chunk covers the object's footprint. */
  lemma LiveCovered(meta: nat, cs: seq<Chunk>, m: map<nat, Location>, id: nat)
    requires Inv(meta, cs, m) && LiveIn(cs, m, id)
    ensures Footprint(meta, At(cs, m[id])) <= cs[m[id].chunkIndex].totalUsedSpace
  {
    var loc := m[id];
    assert Reserves(cs, m, id);
    assert ChunkValid(cs[loc.chunkIndex], meta);
    UsedCoversReservation(cs[loc.chunkIndex], loc.offsetInChunk);
  }

  /**
   * The chunk sequence after `FindSpaceAndAllocate` hands out `need` bytes
   * from the active chunk, the last one: either its first fitting range is
   * carved, or a new chunk is opened after it and its front taken. Every
   * record and reservation stays, and no used counter goes down.
   */
  ghost function CarvedChunks(meta: nat, cs: seq<Chunk>, m: map<nat, Location>, need: nat): (r: seq<Chunk>)
    requires Inv(meta, cs, m) && 0 < |cs| && 0 < need <= DATA_BLOCK_SIZE
    ensures SameObjects(cs, r) && |r| <= |cs| + 1
    ensures forall k :: 0 <= k < |cs| ==> cs[k].totalUsedSpace <= r[k].totalUsedSpace
  {
    var active := |cs| - 1;
    var l := cs[active].freeByteRangesList;
    var i := FirstFit(l, need);
    if i < |l| then
      TakeAtStep(meta, cs, m, active, i, need);
      cs[active := TakeAt(cs[active], i, need)]
    else
      cs + [TakeFront(NewChunk(0), need)]
  }

  // ---------------------------------------------------------------------------
  // The store

  class Ram {
    /** `sizeof(META_DATA)`: the header size in bytes. */
    const metaSize: nat
    /** `cpuRAMChunkLimit`: installed RAM divided by the chunk size; a soft limit only. */
    const chunkLimit: nat
    /** `RAMChunks.size()`: slots in the chunk pointer vector. */
    var slotCount: nat
    /** The allocated chunks `RAMChunks[0 .. RAMChunksAllocatedCount)`. */
    var chunks: seq<Chunk>
    var allocatedCount: nat
    var activeChunkIndex: nat
    var id2ChunkMap: map<nat, Location>

    ghost predicate Valid()
      reads this
    {
      0 < metaSize && 0 < chunkLimit
      && |chunks| == allocatedCount <= slotCount
      && (slotCount == 0 <==> allocatedCount == 0)
      && activeChunkIndex == (if allocatedCount == 0 then 0 else allocatedCount - 1)
      && Inv(metaSize, chunks, id2ChunkMap)
    }

    /** Initialised and not yet cleaned up: there is an active chunk. */
    ghost predicate Ready()
      reads this
    {
      Valid() && 0 < |chunks|
    }

    /** The live objects, by id. */
    ghost function Objects(): map<nat, Record>
      reads this
    {
      ObjectsIn(chunks, id2ChunkMap)
    }

    /**
     * Where the next request of `need` bytes lands: the first fitting range
     * of the active chunk, otherwise offset 0 of the chunk after it.
     */
    ghost function Placement(need: nat): Location
      reads this
      requires Ready()
    {
      var l := chunks[activeChunkIndex].freeByteRangesList;
      var i := FirstFit(l, need);
      if i < |l| then Location(activeChunkIndex, l[i].start) else Location(activeChunkIndex + 1, 0)
    }

    /** The constructor runs `InitializeMemorySystem` on an empty store. */
    constructor (metaSize: nat, chunkLimit: nat)
      requires 0 < metaSize && 0 < chunkLimit
      ensures Ready() && Objects() == map[]
      ensures this.metaSize == metaSize && this.chunkLimit == chunkLimit
      ensures slotCount == chunkLimit && chunks == [NewChunk(0)]
      ensures allocatedCount == 1 && activeChunkIndex == 0 && id2ChunkMap == map[]
    {
      this.metaSize := metaSize;
      this.chunkLimit := chunkLimit;
      slotCount := chunkLimit;
      chunks := [NewChunk(0)];
      allocatedCount := 1;
      activeChunkIndex := 0;
      id2ChunkMap := map[];
      NewChunkValid(0, metaSize);
    }

    /** Sets up the first chunk, unless the chunk vector is already populated. */
    method InitializeMemorySystem()
      requires Valid()
      modifies this
      ensures Ready()
      ensures old(slotCount) != 0 ==> unchanged(this)
      ensures old(slotCount) == 0 ==>
        slotCount == chunkLimit && chunks == [NewChunk(0)] && allocatedCount == 1
        && activeChunkIndex == 0 && id2ChunkMap == old(id2ChunkMap)
    {
      if slotCount != 0 {
        return;
      }
      slotCount := chunkLimit;
      chunks := [NewChunk(0)];
      allocatedCount := 1;
      activeChunkIndex := 0;
      NewChunkValid(0, metaSize);
    }

    /** Drops every chunk and mapping and resets the counters. */
    method CleanupMemorySystem()
      requires Valid()
      modifies this
      ensures Valid() && Objects() == map[]
      ensures slotCount == 0 && chunks == [] && id2ChunkMap == map[]
      ensures allocatedCount == 0 && activeChunkIndex == 0
    {
      chunks := [];
      slotCount := 0;
      id2ChunkMap := map[];
      allocatedCount := 0;
      activeChunkIndex := 0;
    }

    /**
     * Reserve `need` bytes: first fit in the active chunk, or the front of a
     * new chunk after it. Requests larger than a block are refused.
     */
    method FindSpaceAndAllocate(need: nat) returns (loc: Option<Location>)
      requires Ready() && 0 < need
      modifies this
      ensures Ready() && Objects() == old(Objects())
      ensures id2ChunkMap == old(id2ChunkMap) && SameObjects(old(chunks), chunks)
      ensures loc.None? <==> need > DATA_BLOCK_SIZE
      ensures loc.None? ==> unchanged(this)
      ensures loc.Some? ==> loc == Some(old(Placement(need)))
      ensures loc.Some? ==>
        loc.value.chunkIndex == activeChunkIndex < |chunks|
        && Vacant(chunks[activeChunkIndex], loc.value.offsetInChunk, need)
      ensures loc.Some? ==> chunks == CarvedChunks(metaSize, old(chunks), old(id2ChunkMap), need)
      ensures loc.Some? && activeChunkIndex == old(activeChunkIndex) ==>
        slotCount == old(slotCount) && allocatedCount == old(allocatedCount)
      ensures loc.Some? && activeChunkIndex != old(activeChunkIndex) ==>
        allocatedCount == old(allocatedCount) + 1
        && slotCount == (if old(allocatedCount) >= old(slotCount) then old(slotCount) + 16 else old(slotCount))
    {
      hide Inv;
      if need > DATA_BLOCK_SIZE {
        return None;
      }
      var active := chunks[activeChunkIndex];
      var list := active.freeByteRangesList;
      var i := 0;
      while i < |list|
        invariant 0 <= i <= |list|
        invariant forall k :: 0 <= k < i ==> list[k].bytes < need
      {
        if list[i].bytes >= need {
          assert FirstFit(list, need) == i;
          TakeAtStep(metaSize, chunks, id2ChunkMap, activeChunkIndex, i, need);
          chunks := chunks[activeChunkIndex := TakeAt(active, i, need)];
          return Some(Location(activeChunkIndex, list[i].start));
        }
        i := i + 1;
      }
      // No range of the active chunk fits: open the chunk after it.
      activeChunkIndex := activeChunkIndex + 1;
      if activeChunkIndex >= allocatedCount {
        // Reaching `chunkLimit` only prints a soft-limit warning.
        if activeChunkIndex >= slotCount {
          slotCount := slotCount + 16;
        }
        chunks := chunks + [NewChunk(0)];
        allocatedCount := allocatedCount + 1;
      } else {
        assert false;
      }
      chunks := chunks[activeChunkIndex := TakeFront(chunks[activeChunkIndex], need)];
      assert chunks == old(chunks) + [TakeFront(NewChunk(0), need)];
      TakeFrontStep(metaSize, old(chunks), id2ChunkMap, need);
      loc := Some(Location(activeChunkIndex, 0));
    }

    /**
     * Store a new object under `id`. A mapped id (deleted ones included)
     * and an object whose aligned size exceeds a block are refused.
     */
    method AllocateNewObject(id: nat, parentId: nat, data: seq<byte>) returns (ok: bool)
      requires Ready()
      modifies this
      ensures Ready()
      ensures ok <==> id !in old(id2ChunkMap) && Reserved(metaSize, |data|) <= DATA_BLOCK_SIZE
      ensures !ok ==> unchanged(this)
      ensures ok ==> Objects() == old(Objects())[id := NewRecord(id, parentId, data)]
      ensures ok ==> id2ChunkMap == old(id2ChunkMap)[id := old(Placement(Reserved(metaSize, |data|)))]
      ensures ok ==>
        var loc := id2ChunkMap[id];
        var carved := CarvedChunks(metaSize, old(chunks), old(id2ChunkMap), Reserved(metaSize, |data|));
        loc.chunkIndex < |carved|
        && chunks == carved[loc.chunkIndex := Place(carved[loc.chunkIndex], metaSize, loc.offsetInChunk, NewRecord(id, parentId, data))]
    {
      hide CarvedChunks, Inv;
      if id in id2ChunkMap {
        return false;
      }
      var need := Reserved(metaSize, |data|);
      var found := FindSpaceAndAllocate(need);
      if found.None? {
        return false;
      }
      var loc := found.value;
      var r := NewRecord(id, parentId, data);
      NewObjectStep(metaSize, chunks, id2ChunkMap, loc, r);
      chunks := chunks[loc.chunkIndex := Place(chunks[loc.chunkIndex], metaSize, loc.offsetInChunk, r)];
      id2ChunkMap := id2ChunkMap[id := loc];
      ok := true;
    }

    /**
     * Give the object `id` a new payload and one more version. A record
     * that still fits its aligned size is rewritten in place; otherwise the
     * object moves to a new range and its old range is released.
     * A deleted or unknown id is refused.
     */
    method ModifyObject(id: nat, newData: seq<byte>) returns (ok: bool)
      requires Ready()
      modifies this
      ensures Ready()
      ensures ok <==> id in old(Objects()) && Reserved(metaSize, |newData|) <= DATA_BLOCK_SIZE
      ensures !ok ==> unchanged(this)
      ensures ok ==> Objects() == old(Objects())[id := Rewritten(old(Objects())[id], newData)]
      ensures ok && Reserved(metaSize, |newData|) <= Footprint(metaSize, old(Objects())[id]) ==>
        id2ChunkMap == old(id2ChunkMap)
      ensures ok && Footprint(metaSize, old(Objects())[id]) < Reserved(metaSize, |newData|) ==>
        id2ChunkMap == old(id2ChunkMap)[id := old(Placement(Reserved(metaSize, |newData|)))]
      ensures ok ==>
        Footprint(metaSize, old(Objects())[id]) <= old(chunks)[old(id2ChunkMap)[id].chunkIndex].totalUsedSpace
      ensures ok && Reserved(metaSize, |newData|) <= Footprint(metaSize, old(Objects())[id]) ==>
        var loc := id2ChunkMap[id];
        chunks == old(chunks)[loc.chunkIndex :=
          Shrink(old(chunks)[loc.chunkIndex], metaSize, loc.offsetInChunk, Rewritten(old(Objects())[id], newData))]
      ensures ok && Footprint(metaSize, old(Objects())[id]) < Reserved(metaSize, |newData|) ==>
        var loc, dest := old(id2ChunkMap)[id], id2ChunkMap[id];
        var carved := CarvedChunks(metaSize, old(chunks), old(id2ChunkMap), Reserved(metaSize, |newData|));
        var vacated := carved[loc.chunkIndex := Vacate(carved[loc.chunkIndex], metaSize, loc.offsetInChunk)];
        dest.chunkIndex < |vacated|
        && chunks == vacated[dest.chunkIndex :=
             Place(vacated[dest.chunkIndex], metaSize, dest.offsetInChunk, Rewritten(old(Objects())[id], newData))]
    {
      hide CarvedChunks, Inv;
      if id !in id2ChunkMap {
        return false;
      }
      MappedHolds(metaSize, chunks, id2ChunkMap, id);
      var loc := id2ChunkMap[id];
      var r := chunks[loc.chunkIndex].records[loc.offsetInChunk];
      if r.header.isDeleted || r.header.id != id {
        return false;
      }
      LiveCovered(metaSize, chunks, id2ChunkMap, id);
      var newNeed := Reserved(metaSize, |newData|);
      if newNeed <= Footprint(metaSize, r) {
        ShrinkStep(metaSize, chunks, id2ChunkMap, id, newData);
        chunks := chunks[loc.chunkIndex := Shrink(chunks[loc.chunkIndex], metaSize, loc.offsetInChunk, Rewritten(r, newData))];
        return true;
      }
      var found := FindSpaceAndAllocate(newNeed);
      if found.None? {
        return false;
      }
      var dest := found.value;
      MappedHolds(metaSize, chunks, id2ChunkMap, id);
      MoveStep(metaSize, chunks, id2ChunkMap, id, newData, dest);
      // Release the old range of the (possibly just carved) chunk.
      chunks := chunks[loc.chunkIndex := Vacate(chunks[loc.chunkIndex], metaSize, loc.offsetInChunk)];
      // Write the object at its new range and repoint the id.
      chunks := chunks[dest.chunkIndex := Place(chunks[dest.chunkIndex], metaSize, dest.offsetInChunk, Rewritten(r, newData))];
      id2ChunkMap := id2ChunkMap[id := dest];
      ok := true;
    }

    /**
     * Soft-delete the object `id`: flag its header deleted, raise its
     * version and return its range to the free list. The id stays mapped.
     * A deleted or unknown id is refused.
     */
    method DeleteObject(id: nat) returns (ok: bool)
      requires Ready()
      modifies this
      ensures Ready()
      ensures ok <==> id in old(Objects())
      ensures !ok ==> unchanged(this)
      ensures ok ==> Objects() == old(Objects()) - {id} && id2ChunkMap == old(id2ChunkMap)
      ensures ok ==> At(chunks, id2ChunkMap[id]) == MarkDeleted(old(Objects())[id])
      ensures ok ==>
        Footprint(metaSize, old(Objects())[id]) <= old(chunks)[id2ChunkMap[id].chunkIndex].totalUsedSpace
      ensures ok ==>
        var loc := id2ChunkMap[id];
        chunks == old(chunks)[loc.chunkIndex := Delete(old(chunks)[loc.chunkIndex], metaSize, loc.offsetInChunk)]
    {
      hide Inv;
      if id !in id2ChunkMap {
        return false;
      }
      MappedHolds(metaSize, chunks, id2ChunkMap, id);
      var loc := id2ChunkMap[id];
      var r := chunks[loc.chunkIndex].records[loc.offsetInChunk];
      if r.header.isDeleted || r.header.id != id {
        return false;
      }
      DeleteStep(metaSize, chunks, id2ChunkMap, id);
      chunks := chunks[loc.chunkIndex := Delete(chunks[loc.chunkIndex], metaSize, loc.offsetInChunk)];
      ok := true;
    }

    /** The header stored at the id's location, for any mapped id; that of the object when it is live. */
    method GetMETA_DATA(id: nat) returns (h: Option<Header>)
      requires Valid()
      ensures h.Some? <==> id in id2ChunkMap
      ensures h.Some? ==> h.value == At(chunks, id2ChunkMap[id]).header
      ensures id in Objects() ==> h == Some(Objects()[id].header)
    {
      if id !in id2ChunkMap {
        return None;
      }
      MappedHolds(metaSize, chunks, id2ChunkMap, id);
      var loc := id2ChunkMap[id];
      h := Some(chunks[loc.chunkIndex].records[loc.offsetInChunk].header);
    }

    /**
     * Where the id's payload starts: `metaSize` bytes past its location.
     * For a live object the payload its header declares lies inside the block.
     */
    method GetObjectPayload(id: nat) returns (p: Option<Location>)
      requires Valid()
      ensures p.Some? <==> id in id2ChunkMap
      ensures p.Some? ==> p.value == Location(id2ChunkMap[id].chunkIndex, id2ChunkMap[id].offsetInChunk + metaSize)
      ensures id in Objects() ==> p.Some? && p.value.offsetInChunk + Objects()[id].header.dataSize <= DATA_BLOCK_SIZE
    {
      if id !in id2ChunkMap {
        return None;
      }
      MappedHolds(metaSize, chunks, id2ChunkMap, id);
      var loc := id2ChunkMap[id];
      p := Some(Location(loc.chunkIndex, loc.offsetInChunk + metaSize));
    }
  }
}
