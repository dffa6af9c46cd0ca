/**
 * The chunk `CPU_RAM_4MB` of the two bump-pointer versions of the object
 * store (CPURAM-Manager.h, and CPURAM-Manager.cpp which includes it): a
 * data block filled from the front, `nextOffset` being the offset of
 * `nextDataLocation` and `newDataSpace` the bytes behind it. Also the view
 * both versions share of a chunk vector and an id map.
 */
module BumpChunk {
  import opened RamTypes

  /** The chunk's fields, with the bytes written so far as records by offset. */
  datatype Chunk = Chunk(
    newDataSpace: nat,
    totalFreeSpace: nat,
    totalUsedSpace: nat,
    isChunkAllocated: bool,
    isChunkFull: bool,
    nextOffset: nat,
    records: map<nat, Record>)

  /** The constructor: all of the block is new space and free, nothing used, the bump offset at the block start. */
  function NewChunk(): (c: Chunk)
    ensures c.newDataSpace == c.totalFreeSpace == DATA_BLOCK_SIZE && c.totalUsedSpace == 0
    ensures c.nextOffset == 0 && c.records == map[]
    ensures c.isChunkAllocated && !c.isChunkFull
  {
    Chunk(DATA_BLOCK_SIZE, DATA_BLOCK_SIZE, 0, true, false, 0, map[])
  }

  /** Bytes a record takes: its header and the payload written, rounded up to 8. */
  function Span(meta: nat, r: Record): nat
  {
    Reserved(meta, |r.payload|)
  }

  /**
   * The records lie in the block in front of the bump offset, 8-aligned and
   * without overlap, and the bump offset and the new space make up the block.
   */
  ghost predicate Layout(meta: nat, c: Chunk)
  {
    && c.nextOffset + c.newDataSpace == DATA_BLOCK_SIZE
    && c.nextOffset % 8 == 0
    && (forall p :: p in c.records ==> p % 8 == 0 && p + Span(meta, c.records[p]) <= c.nextOffset)
    && (forall p, q :: p in c.records && q in c.records && p < q ==> p + Span(meta, c.records[p]) <= q)
  }

  /** Move the bump offset `need` bytes on; the new space shrinks by as much. */
  function Advance(c: Chunk, need: nat): Chunk
    requires need <= c.newDataSpace
  {
    c.(nextOffset := c.nextOffset + need, newDataSpace := c.newDataSpace - need)
  }

  /**
   * `need` bytes from `off` are free to write in chunk `c`: 8-aligned, before
   * the bump offset and after the end of every record.
   */
  ghost predicate Vacant(meta: nat, c: Chunk, off: nat, need: nat)
  {
    && off % 8 == 0
    && off + need <= c.nextOffset
    && (forall p :: p in c.records ==> p + Span(meta, c.records[p]) <= off)
  }

  /** Write record `r` at offset `off`. */
  function Write(c: Chunk, off: nat, r: Record): Chunk
  {
    c.(records := c.records[off := r])
  }

  lemma NewChunkLayout(meta: nat)
    ensures Layout(meta, NewChunk())
  { }

  /**
   * Advancing by an 8-aligned amount that fits keeps the layout, and the
   * bytes between the old and the new bump offset are vacant.
   */
  lemma AdvanceKeepsLayout(meta: nat, c: Chunk, need: nat)
    requires Layout(meta, c) && need % 8 == 0 && need <= c.newDataSpace
    ensures Layout(meta, Advance(c, need)) && Vacant(meta, Advance(c, need), c.nextOffset, need)
  { }

  /** A record of at most `need` bytes written into vacant space keeps the layout. */
  lemma WriteVacantKeepsLayout(meta: nat, c: Chunk, off: nat, need: nat, r: Record)
    requires 0 < meta && Layout(meta, c) && Vacant(meta, c, off, need) && Span(meta, r) <= need
    ensures off !in c.records && Layout(meta, Write(c, off, r))
  {
    assert off !in c.records;
    var w := Write(c, off, r);
    forall p, q | p in w.records && q in w.records && p < q
      ensures p + Span(meta, w.records[p]) <= q
    {
      if q == off {
        assert p in c.records;
      } else {
        assert p != off && q in c.records;
      }
    }
  }

  /** Rewriting a record in place with one no larger keeps the layout. */
  lemma RewriteKeepsLayout(meta: nat, c: Chunk, off: nat, r: Record)
    requires Layout(meta, c) && off in c.records
    requires Span(meta, r) <= Span(meta, c.records[off])
    ensures Layout(meta, Write(c, off, r))
  {
    var w := Write(c, off, r);
    forall p, q | p in w.records && q in w.records && p < q
      ensures p + Span(meta, w.records[p]) <= q
    {
      assert p in c.records && q in c.records;
    }
  }

  // ---------------------------------------------------------------------------
  // The objects a chunk vector and an id map show

  /** Something was written at `loc`. */
  ghost predicate Holds(cs: seq<Chunk>, loc: Location)
  {
    loc.chunkIndex < |cs| && loc.offsetInChunk in cs[loc.chunkIndex].records
  }

  ghost function At(cs: seq<Chunk>, loc: Location): Record
    requires Holds(cs, loc)
  {
    cs[loc.chunkIndex].records[loc.offsetInChunk]
  }

  /** Every mapped id points at a record whose header carries that id. */
  ghost predicate Mapped(cs: seq<Chunk>, m: map<nat, Location>)
  {
    forall id :: id in m ==> Holds(cs, m[id]) && At(cs, m[id]).header.id == id
  }

  /** Every mapped id with the record at its location; a deleted object stays, flagged. */
  ghost function ObjectsIn(cs: seq<Chunk>, m: map<nat, Location>): (o: map<nat, Record>)
    requires Mapped(cs, m)
    ensures o.Keys == m.Keys
  {
    map id | id in m :: At(cs, m[id])
  }

  /** The chunks with record `r` written at `loc`. */
  function Placed(cs: seq<Chunk>, loc: Location, r: Record): seq<Chunk>
    requires loc.chunkIndex < |cs|
  {
    cs[loc.chunkIndex := Write(cs[loc.chunkIndex], loc.offsetInChunk, r)]
  }

  /** Chunks that extend `cs` with the same records keep every mapping and every object. */
  lemma KeptObjects(cs: seq<Chunk>, cs2: seq<Chunk>, m: map<nat, Location>)
    requires Mapped(cs, m) && |cs| <= |cs2|
    requires forall k :: 0 <= k < |cs| ==> cs2[k].records == cs[k].records
    ensures Mapped(cs2, m) && ObjectsIn(cs2, m) == ObjectsIn(cs, m)
  {
    forall id | id in m
      ensures Holds(cs2, m[id]) && At(cs2, m[id]) == At(cs, m[id])
    {
      assert cs2[m[id].chunkIndex].records == cs[m[id].chunkIndex].records;
    }
    assert Mapped(cs2, m);
    hide Mapped;
    var o, o2 := ObjectsIn(cs, m), ObjectsIn(cs2, m);
    assert forall id :: id in o2 ==> o2[id] == o[id];
  }

  /** The object view after one id gets record `r` and every other id keeps its record. */
  lemma ObjectsReplaced(cs: seq<Chunk>, m: map<nat, Location>, cs2: seq<Chunk>, m2: map<nat, Location>, id: nat, r: Record)
    requires Mapped(cs, m) && Mapped(cs2, m2) && m2.Keys == m.Keys + {id} && At(cs2, m2[id]) == r
    requires forall other :: other in m && other != id ==> At(cs2, m2[other]) == At(cs, m[other])
    ensures ObjectsIn(cs2, m2) == ObjectsIn(cs, m)[id := r]
  {
    hide Mapped;
    var o, o2 := ObjectsIn(cs, m), ObjectsIn(cs2, m2);
    assert forall other :: other in o2 <==> other in o[id := r];
    assert forall other :: other in o2 ==> o2[other] == o[id := r][other];
  }

  /**
   * Writing record `r` of id `id` at a location no other mapped id uses
   * keeps every mapping once `id` points there, and every other object.
   */
  lemma WrittenAgree(cs: seq<Chunk>, m: map<nat, Location>, loc: Location, id: nat, r: Record)
    requires Mapped(cs, m) && loc.chunkIndex < |cs| && r.header.id == id
    requires forall other :: other in m && other != id ==> m[other] != loc
    ensures var cs2, m2 := Placed(cs, loc, r), m[id := loc];
      && Mapped(cs2, m2) && At(cs2, m2[id]) == r
      && forall other :: other in m && other != id ==> At(cs2, m2[other]) == At(cs, m[other])
  { }

  /** Distinct mapped ids sit at distinct locations, since each location's header carries one id. */
  lemma DistinctLocations(cs: seq<Chunk>, m: map<nat, Location>, id: nat)
    requires Mapped(cs, m) && id in m
    ensures forall other :: other in m && other != id ==> m[other] != m[id]
  { }

  /** Where the next `need` bytes land: the active chunk's bump offset, or offset 0 of a new chunk after it. */
  ghost function PlacementIn(cs: seq<Chunk>, active: nat, need: nat): Location
    requires active < |cs|
  {
    if need <= cs[active].newDataSpace then Location(active, cs[active].nextOffset) else Location(active + 1, 0)
  }

  /**
   * How the chunk vector's bookkeeping moves when an allocation had to open
   * a new chunk (`grew`): one more chunk allocated, and 16 more slots and 16
   * more to the soft limit when every slot was already taken.
   */
  ghost predicate SlotsAfter(slots: nat, count: nat, limit: nat, slots2: nat, count2: nat, limit2: nat, grew: bool)
  {
    if !grew then
      slots2 == slots && count2 == count && limit2 == limit
    else
      && count2 == count + 1
      && (if count >= slots then slots2 == slots + 16 && limit2 == limit + 16 else slots2 == slots && limit2 == limit)
  }
}
