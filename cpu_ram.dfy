/**
 * The first-fit CPU object store `राम` of code-core/MemoryManagerCPU.h.
 *
 * Objects (a header followed by a payload) live in 4 MiB chunks. Every
 * chunk keeps an address-ordered free list; an allocation takes the first
 * fitting range of the active chunk, or opens the next chunk when none fits.
 * Objects are found through `id2ChunkMap`, can be rewritten in place or
 * moved, and are deleted softly: the range goes back to the free list while
 * the id stays mapped.
 */
module CpuRam {
  import opened Wrappers
  import opened RamTypes
  import opened FreeList

  /** Leftover bytes of an in-place shrink are returned only above this size. */
  const MIN_RETURNED_LEFTOVER: nat := 64

  /**
   * One chunk (`CPU_RAM_4MB`). `records` maps every offset at which an
   * object was written to what was written there; the bytes stay there
   * after the range is freed. `reserved` maps the offset of every object
   * whose range is currently reserved to the number of bytes reserved:
   * model bookkeeping with no counterpart in the source.
   */
  datatype Chunk = Chunk(
    tabIndex: nat,
    freeByteRangesList: seq<FreeRange>,
    totalFreeSpace: nat,
    totalUsedSpace: nat,
    isChunkAllocated: bool,
    isChunkFull: bool,
    records: map<nat, Record>,
    reserved: map<nat, nat>)

  // ---------------------------------------------------------------------------
  // The chunk invariant

  /** The free list is well formed, fully coalesced and agrees with both counters. */
  ghost predicate SpaceAccounted(c: Chunk)
  {
    WellFormed(c.freeByteRangesList, DATA_BLOCK_SIZE)
    && Separated(c.freeByteRangesList)
    && Sum(c.freeByteRangesList) == c.totalFreeSpace
    && c.totalFreeSpace + c.totalUsedSpace == DATA_BLOCK_SIZE
  }

  /** Every reservation is non-empty, lies in the block and overlaps no free range. */
  ghost predicate ObjectsPlaced(c: Chunk)
  {
    forall p :: p in c.reserved ==>
      0 < c.reserved[p] && p + c.reserved[p] <= DATA_BLOCK_SIZE
      && Avoids(c.freeByteRangesList, p, c.reserved[p])
  }

  /** No two reservations overlap. */
  ghost predicate ObjectsDisjoint(c: Chunk)
  {
    forall p, q :: p in c.reserved && q in c.reserved && p != q ==>
      p + c.reserved[p] <= q || q + c.reserved[q] <= p
  }

  /** Free ranges and reservations tile part of the block without overlap. */
  ghost predicate Layout(c: Chunk)
  {
    SpaceAccounted(c) && ObjectsPlaced(c) && ObjectsDisjoint(c)
  }

  /** Every reservation holds a record not flagged deleted, and exactly the footprint its header declares. */
  ghost predicate Sized(c: Chunk, meta: nat)
  {
    c.reserved.Keys <= c.records.Keys
    && forall p :: p in c.reserved ==>
         c.reserved[p] == Footprint(meta, c.records[p]) && !c.records[p].header.isDeleted
  }

  ghost predicate ChunkValid(c: Chunk, meta: nat)
  {
    Layout(c) && Sized(c, meta)
  }

  /** Every chunk of a store is valid. */
  ghost predicate ChunksValid(cs: seq<Chunk>, meta: nat)
  {
    forall k :: 0 <= k < |cs| ==> ChunkValid(cs[k], meta)
  }

  /** [off, off + n) is in the block, clear of the free list and of every reservation. */
  ghost predicate Vacant(c: Chunk, off: nat, n: nat)
  {
    off + n <= DATA_BLOCK_SIZE
    && Avoids(c.freeByteRangesList, off, n)
    && forall q :: q in c.reserved ==> off + n <= q || q + c.reserved[q] <= off
  }

  /** A new chunk (`CPU_RAM_4MB(tabNo)`): one free range spanning the whole block. */
  function NewChunk(tabNo: nat): (c: Chunk)
    ensures c.freeByteRangesList == [FreeRange(0, DATA_BLOCK_SIZE)]
    ensures c.totalFreeSpace == DATA_BLOCK_SIZE && c.totalUsedSpace == 0
    ensures c.isChunkAllocated && !c.isChunkFull && c.tabIndex == tabNo
    ensures c.records == map[] && c.reserved == map[]
  {
    Chunk(tabNo, [FreeRange(0, DATA_BLOCK_SIZE)], DATA_BLOCK_SIZE, 0, true, false, map[], map[])
  }

  /** A new chunk is valid: its one free range accounts for the whole block. */
  lemma NewChunkValid(tabNo: nat, meta: nat)
    ensures ChunkValid(NewChunk(tabNo), meta)
  {
    var whole := NewChunk(tabNo).freeByteRangesList;
    assert Sum(whole) == DATA_BLOCK_SIZE by { assert whole[1..] == []; }
  }

  // ---------------------------------------------------------------------------
  // Chunk updates made by the store's operations

  /** First-fit hit at entry `i`: carve `need` bytes and move them from free to used. */
  function TakeAt(c: Chunk, i: nat, need: nat): Chunk
    requires i < |c.freeByteRangesList| && need <= c.freeByteRangesList[i].bytes
    requires need <= c.totalFreeSpace
  {
    c.(freeByteRangesList := Carve(c.freeByteRangesList, i, need),
       totalFreeSpace := c.totalFreeSpace - need,
       totalUsedSpace := c.totalUsedSpace + need)
  }

  /** A freshly opened chunk: shrink its front range by `need`, even to zero bytes. */
  function TakeFront(c: Chunk, need: nat): Chunk
    requires 0 < |c.freeByteRangesList| && need <= c.freeByteRangesList[0].bytes
    requires need <= c.totalFreeSpace
  {
    var first := c.freeByteRangesList[0];
    c.(freeByteRangesList := [FreeRange(first.start + need, first.bytes - need)] + c.freeByteRangesList[1..],
       totalFreeSpace := c.totalFreeSpace - need,
       totalUsedSpace := c.totalUsedSpace + need)
  }

  /** Write an object at `off` and reserve its footprint there. */
  function Place(c: Chunk, meta: nat, off: nat, r: Record): Chunk
  {
    c.(records := c.records[off := r], reserved := c.reserved[off := Footprint(meta, r)])
  }

  /**
   * Return `size` bytes at `off` to the free list and to the free counter,
   * merging with both neighbours.
   */
  function ReturnRange(c: Chunk, off: nat, size: nat): Chunk
    requires size <= c.totalUsedSpace
  {
    c.(freeByteRangesList := Release(c.freeByteRangesList, off, size, true),
       totalFreeSpace := c.totalFreeSpace + size,
       totalUsedSpace := c.totalUsedSpace - size)
  }

  /** Release the range the header at `off` declares and drop its reservation. */
  function Vacate(c: Chunk, meta: nat, off: nat): Chunk
    requires off in c.records && Footprint(meta, c.records[off]) <= c.totalUsedSpace
  {
    ReturnRange(c, off, Footprint(meta, c.records[off])).(reserved := c.reserved - {off})
  }

  /** The chunk side of `DeleteObject`: flag the record deleted, then vacate its range. */
  function Delete(c: Chunk, meta: nat, off: nat): Chunk
    requires off in c.records && Footprint(meta, c.records[off]) <= c.totalUsedSpace
  {
    var vacated := Vacate(c, meta, off);
    vacated.(records := vacated.records[off := MarkDeleted(c.records[off])])
  }

  /**
   * Rewrite the object at `off` with a record that needs no more room;
   * the tail it no longer needs is returned only when above 64 bytes.
   */
  function Shrink(c: Chunk, meta: nat, off: nat, r: Record): Chunk
    requires off in c.records && Footprint(meta, r) <= Footprint(meta, c.records[off]) <= c.totalUsedSpace
  {
    var oldNeed := Footprint(meta, c.records[off]);
    var newNeed := Footprint(meta, r);
    var written := c.(records := c.records[off := r], reserved := c.reserved[off := newNeed]);
    if oldNeed - newNeed > MIN_RETURNED_LEFTOVER then
      ReturnRange(written, off + newNeed, oldNeed - newNeed)
    else
      written
  }

  // ---------------------------------------------------------------------------
  // Each update keeps the chunk invariant

  /** Free bytes plus the bytes of a range clear of the list never exceed the block. */
  lemma {:induction false} SumWithHole(l: seq<FreeRange>, lo: nat, limit: nat, p: nat, n: nat)
    requires Ordered(l) && Within(l, limit) && Avoids(l, p, n)
    requires forall i :: 0 <= i < |l| ==> lo <= l[i].start
    requires lo <= p && p + n <= limit
    ensures Sum(l) + n <= limit - lo
  {
    if l != [] {
      assert Ordered(l[1..]) && Within(l[1..], limit) by {
        forall i, j | 0 <= i < j < |l[1..]| ensures End(l[1..][i]) <= l[1..][j].start {
          assert l[1..][i] == l[i + 1] && l[1..][j] == l[j + 1];
        }
      }
      forall i | 0 <= i < |l[1..]| ensures End(l[0]) <= l[1..][i].start {
        assert l[1..][i] == l[i + 1];
      }
      if End(l[0]) <= p {
        assert Avoids(l[1..], p, n) by {
          forall i | 0 <= i < |l[1..]| ensures End(l[1..][i]) <= p || p + n <= l[1..][i].start {
            assert l[1..][i] == l[i + 1];
          }
        }
        SumWithHole(l[1..], End(l[0]), limit, p, n);
      } else {
        SumBound(l[1..], End(l[0]), limit);
      }
    }
  }

  /** The used counter covers every single reservation, so releasing one never underflows it. */
  lemma UsedCoversReservation(c: Chunk, off: nat)
    requires Layout(c) && off in c.reserved
    ensures c.reserved[off] <= c.totalUsedSpace
  {
    SumWithHole(c.freeByteRangesList, 0, DATA_BLOCK_SIZE, off, c.reserved[off]);
  }

  /** The first-fit carve keeps the layout and hands out a vacant range. */
  lemma TakeAtKeepsLayout(c: Chunk, i: nat, need: nat)
    requires Layout(c) && i < |c.freeByteRangesList| && 0 < need <= c.freeByteRangesList[i].bytes
    ensures need <= c.totalFreeSpace
    ensures Layout(TakeAt(c, i, need))
    ensures Vacant(TakeAt(c, i, need), c.freeByteRangesList[i].start, need)
  {
    var l := c.freeByteRangesList;
    SumSplit(l, i);
    SumFrom(l, i);
    CarveSum(l, i, need);
    CarveWellFormed(l, i, need, DATA_BLOCK_SIZE);
    CarveSeparated(l, i, need);
    CarvedAvoids(l, i, need, DATA_BLOCK_SIZE);
    var c' := TakeAt(c, i, need);
    forall p | p in c.reserved
      ensures Avoids(c'.freeByteRangesList, p, c.reserved[p])
    {
      CarveAvoids(l, i, need, p, c.reserved[p]);
    }
    forall q | q in c.reserved
      ensures l[i].start + need <= q || q + c.reserved[q] <= l[i].start
    {
      assert End(l[i]) <= q || q + c.reserved[q] <= l[i].start;
    }
  }

  /** Taking the front of a new chunk keeps the layout and hands out a vacant range at offset 0. */
  lemma TakeFrontKeepsLayout(c: Chunk, need: nat)
    requires c == NewChunk(c.tabIndex) && 0 < need <= DATA_BLOCK_SIZE
    ensures TakeFront(c, need).freeByteRangesList == [FreeRange(need, DATA_BLOCK_SIZE - need)]
    ensures TakeFront(c, need).totalUsedSpace == need
    ensures Layout(TakeFront(c, need))
    ensures Vacant(TakeFront(c, need), 0, need)
  {
    var c' := TakeFront(c, need);
    assert c'.freeByteRangesList == [FreeRange(need, DATA_BLOCK_SIZE - need)];
    assert Sum(c'.freeByteRangesList) == DATA_BLOCK_SIZE - need by {
      assert c'.freeByteRangesList[1..] == [];
    }
  }

  /** Reserving a vacant range keeps the layout. */
  lemma PlaceKeepsLayout(c: Chunk, meta: nat, off: nat, r: Record)
    requires Layout(c) && 0 < meta && Vacant(c, off, Footprint(meta, r))
    ensures Layout(Place(c, meta, off, r))
  {
    var c' := Place(c, meta, off, r);
    assert off !in c.reserved;
    assert SpaceAccounted(c') by {
      assert c'.freeByteRangesList == c.freeByteRangesList;
    }
    forall p | p in c'.reserved
      ensures 0 < c'.reserved[p] && p + c'.reserved[p] <= DATA_BLOCK_SIZE
      ensures Avoids(c'.freeByteRangesList, p, c'.reserved[p])
    {
      if p != off { assert c'.reserved[p] == c.reserved[p]; }
    }
    forall p, q | p in c'.reserved && q in c'.reserved && p != q
      ensures p + c'.reserved[p] <= q || q + c'.reserved[q] <= p
    {
      if p != off && q != off { assert c'.reserved[p] == c.reserved[p] && c'.reserved[q] == c.reserved[q]; }
    }
  }

  /** Writing a live record with its footprint reserved keeps every reservation sized by its record. */
  lemma PlaceKeepsSized(c: Chunk, meta: nat, off: nat, r: Record)
    requires Sized(c, meta) && !r.header.isDeleted
    ensures Sized(Place(c, meta, off, r), meta)
  {
  }

  /** Writing an object into a vacant range keeps the chunk valid. */
  lemma PlaceKeepsValid(c: Chunk, meta: nat, off: nat, r: Record)
    requires ChunkValid(c, meta) && 0 < meta && !r.header.isDeleted && Vacant(c, off, Footprint(meta, r))
    ensures ChunkValid(Place(c, meta, off, r), meta)
  {
    PlaceKeepsLayout(c, meta, off, r);
    PlaceKeepsSized(c, meta, off, r);
  }

  /** Returning a range that is clear of the free list keeps the list well formed, coalesced and in step with the counters. */
  lemma ReturnRangeAccounts(c: Chunk, off: nat, size: nat)
    requires SpaceAccounted(c) && 0 < size <= c.totalUsedSpace
    requires off + size <= DATA_BLOCK_SIZE && Avoids(c.freeByteRangesList, off, size)
    ensures SpaceAccounted(ReturnRange(c, off, size))
  {
    var l := c.freeByteRangesList;
    ReleaseSum(l, off, size, true);
    ReleaseWellFormed(l, off, size, true, DATA_BLOCK_SIZE);
    ReleaseKeepsSeparated(l, off, size, DATA_BLOCK_SIZE);
  }

  /** Returning a range no reservation overlaps leaves every reservation clear of the free list. */
  lemma ReturnRangePlaces(c: Chunk, off: nat, size: nat)
    requires ObjectsPlaced(c) && size <= c.totalUsedSpace
    requires forall q :: q in c.reserved ==> off + size <= q || q + c.reserved[q] <= off
    ensures ObjectsPlaced(ReturnRange(c, off, size))
  {
    var l := c.freeByteRangesList;
    forall p | p in c.reserved
      ensures Avoids(Release(l, off, size, true), p, c.reserved[p])
    {
      ReleaseAvoids(l, off, size, true, p, c.reserved[p]);
    }
  }

  /** Returning a vacant range keeps the layout. */
  lemma ReturnRangeKeepsLayout(c: Chunk, off: nat, size: nat)
    requires Layout(c) && 0 < size <= c.totalUsedSpace && Vacant(c, off, size)
    ensures Layout(ReturnRange(c, off, size))
  {
    ReturnRangeAccounts(c, off, size);
    ReturnRangePlaces(c, off, size);
  }

  /** Returning a vacant range keeps the chunk valid. */
  lemma ReturnRangeKeepsValid(c: Chunk, meta: nat, off: nat, size: nat)
    requires ChunkValid(c, meta) && 0 < size <= c.totalUsedSpace && Vacant(c, off, size)
    ensures ChunkValid(ReturnRange(c, off, size), meta)
  {
    ReturnRangeKeepsLayout(c, off, size);
    assert ReturnRange(c, off, size).records == c.records;
    assert ReturnRange(c, off, size).reserved == c.reserved;
  }

  /** A vacant range stays vacant when a range elsewhere is returned. */
  lemma ReturnRangeKeepsVacant(c: Chunk, off: nat, size: nat, p: nat, n: nat)
    requires size <= c.totalUsedSpace && 0 < n && Vacant(c, p, n)
    requires off + size <= p || p + n <= off
    ensures Vacant(ReturnRange(c, off, size), p, n)
  {
    ReleaseAvoids(c.freeByteRangesList, off, size, true, p, n);
  }

  /** Vacating a reserved object keeps the chunk valid. */
  lemma VacateKeepsValid(c: Chunk, meta: nat, off: nat)
    requires ChunkValid(c, meta) && off in c.reserved
    ensures Footprint(meta, c.records[off]) <= c.totalUsedSpace
    ensures ChunkValid(Vacate(c, meta, off), meta)
  {
    UsedCoversReservation(c, off);
    var size := c.reserved[off];
    var dropped := c.(reserved := c.reserved - {off});
    assert Vacant(dropped, off, size);
    ReturnRangeKeepsLayout(dropped, off, size);
    assert Vacate(c, meta, off) == ReturnRange(dropped, off, size);
  }

  /** A vacant range stays vacant when an object elsewhere in the chunk is vacated. */
  lemma VacateKeepsVacant(c: Chunk, meta: nat, off: nat, p: nat, n: nat)
    requires ChunkValid(c, meta) && off in c.reserved && 0 < n && Vacant(c, p, n)
    ensures Footprint(meta, c.records[off]) <= c.totalUsedSpace
    ensures Vacant(Vacate(c, meta, off), p, n)
  {
    UsedCoversReservation(c, off);
    var size := c.reserved[off];
    var dropped := c.(reserved := c.reserved - {off});
    ReturnRangeKeepsVacant(dropped, off, size, p, n);
    assert Vacate(c, meta, off) == ReturnRange(dropped, off, size);
  }

  /** A range that is vacant and not empty starts at no reserved offset. */
  lemma VacantNotReserved(c: Chunk, off: nat, n: nat)
    requires Layout(c) && 0 < n && Vacant(c, off, n)
    ensures off !in c.reserved
  {
  }

  /** A delete flags the record at `off` and drops its reservation; every other record and reservation stays. */
  lemma DeleteFields(c: Chunk, meta: nat, off: nat)
    requires off in c.records && Footprint(meta, c.records[off]) <= c.totalUsedSpace
    ensures Delete(c, meta, off).records == c.records[off := MarkDeleted(c.records[off])]
    ensures Delete(c, meta, off).reserved == c.reserved - {off}
  {
    hide Release;
  }

  /** An in-place rewrite replaces the record at `off` and resizes its reservation; every other stays. */
  lemma ShrinkFields(c: Chunk, meta: nat, off: nat, r: Record)
    requires off in c.records && Footprint(meta, r) <= Footprint(meta, c.records[off]) <= c.totalUsedSpace
    ensures Shrink(c, meta, off, r).records == c.records[off := r]
    ensures Shrink(c, meta, off, r).reserved == c.reserved[off := Footprint(meta, r)]
  {
    hide Release;
  }

  /** Deleting a reserved object keeps the chunk valid. */
  lemma DeleteKeepsValid(c: Chunk, meta: nat, off: nat)
    requires ChunkValid(c, meta) && off in c.reserved
    ensures Footprint(meta, c.records[off]) <= c.totalUsedSpace
    ensures ChunkValid(Delete(c, meta, off), meta)
  {
    VacateKeepsValid(c, meta, off);
  }

  /** The tail an in-place shrink gives up is vacant once the smaller object is written. */
  lemma ShrinkTailVacant(c: Chunk, meta: nat, off: nat, r: Record)
    requires ChunkValid(c, meta) && off in c.reserved
    requires Footprint(meta, r) < Footprint(meta, c.records[off])
    ensures var newNeed := Footprint(meta, r);
      Vacant(c.(records := c.records[off := r], reserved := c.reserved[off := newNeed]),
             off + newNeed, Footprint(meta, c.records[off]) - newNeed)
  {
    var oldNeed := Footprint(meta, c.records[off]);
    var newNeed := Footprint(meta, r);
    AvoidsSub(c.freeByteRangesList, off, oldNeed, off + newNeed, oldNeed - newNeed);
  }

  /** Rewriting with a smaller footprint keeps the chunk valid before any tail is returned. */
  lemma RewriteKeepsValid(c: Chunk, meta: nat, off: nat, r: Record)
    requires ChunkValid(c, meta) && off in c.reserved && 0 < meta && !r.header.isDeleted
    requires Footprint(meta, r) <= Footprint(meta, c.records[off])
    ensures ChunkValid(c.(records := c.records[off := r], reserved := c.reserved[off := Footprint(meta, r)]), meta)
  {
    AvoidsSub(c.freeByteRangesList, off, Footprint(meta, c.records[off]), off, Footprint(meta, r));
  }

  /** An in-place rewrite keeps the chunk valid, whether or not the tail goes back. */
  lemma ShrinkKeepsValid(c: Chunk, meta: nat, off: nat, r: Record)
    requires ChunkValid(c, meta) && off in c.reserved && 0 < meta && !r.header.isDeleted
    requires Footprint(meta, r) <= Footprint(meta, c.records[off])
    ensures Footprint(meta, c.records[off]) <= c.totalUsedSpace
    ensures ChunkValid(Shrink(c, meta, off, r), meta)
  {
    hide Release;
    UsedCoversReservation(c, off);
    var oldNeed := Footprint(meta, c.records[off]);
    var newNeed := Footprint(meta, r);
    var written := c.(records := c.records[off := r], reserved := c.reserved[off := newNeed]);
    RewriteKeepsValid(c, meta, off, r);
    if oldNeed - newNeed > MIN_RETURNED_LEFTOVER {
      ShrinkTailVacant(c, meta, off, r);
      ReturnRangeKeepsValid(written, meta, off + newNeed, oldNeed - newNeed);
    }
  }

  // ---------------------------------------------------------------------------
  // DeleteObject as written

  /**
   * `DeleteObject` as written: the range the header declares goes back to
   * the free list whether or not the object is still live, and the 32-bit
   * counters wrap.
   */
  function DeleteUnchecked(c: Chunk, meta: nat, off: nat): Chunk
    requires off in c.records
  {
    var size := Footprint(meta, c.records[off]);
    c.(records := c.records[off := MarkDeleted(c.records[off])],
       freeByteRangesList := Release(c.freeByteRangesList, off, size, true),
       totalFreeSpace := (c.totalFreeSpace + size) % UINT32_LIMIT,
       totalUsedSpace := (c.totalUsedSpace - size) % UINT32_LIMIT,
       reserved := c.reserved - {off})
  }

  /** Object 1: eight zero bytes, at version 1. */
  function SmallRecord(): Record
  {
    Record(Header(1, 0, 8, 0, 1, 0, false), [0, 0, 0, 0, 0, 0, 0, 0])
  }

  /** A chunk holding object 1 behind an 8-byte header at offset 0. */
  function OneObjectChunk(): Chunk
  {
    Place(TakeFront(NewChunk(0), 16), 8, 0, SmallRecord())
  }

  /**
   * While the counters add up to the block, deleting an object whose
   * footprint the used counter covers is the modelled delete: neither
   * counter wraps.
   */
  lemma DeleteUncheckedOnLive(c: Chunk, meta: nat, off: nat)
    requires off in c.records && Footprint(meta, c.records[off]) <= c.totalUsedSpace
    requires c.totalFreeSpace + c.totalUsedSpace == DATA_BLOCK_SIZE
    ensures DeleteUnchecked(c, meta, off) == Delete(c, meta, off)
  {
    hide Release;
    var size := Footprint(meta, c.records[off]);
    var d, e := DeleteUnchecked(c, meta, off), Delete(c, meta, off);
    assert d.freeByteRangesList == e.freeByteRangesList;
    assert d.totalFreeSpace == e.totalFreeSpace by {
      assert c.totalFreeSpace + size < UINT32_LIMIT;
    }
    assert d.totalUsedSpace == e.totalUsedSpace by {
      assert 0 <= c.totalUsedSpace - size < UINT32_LIMIT;
    }
    assert d.records == e.records && d.reserved == e.reserved;
  }

  /** Deleting the object of the one-object chunk frees the whole block, with no wrap-around. */
  lemma FirstDeleteFreesBlock()
    ensures var c1 := DeleteUnchecked(OneObjectChunk(), 8, 0);
      c1 == Delete(OneObjectChunk(), 8, 0)
      && c1.freeByteRangesList == [FreeRange(0, DATA_BLOCK_SIZE)]
      && c1.totalUsedSpace == 0 && 0 in c1.records && Footprint(8, c1.records[0]) == 16
  {
    var c0 := OneObjectChunk();
    var l := [FreeRange(16, DATA_BLOCK_SIZE - 16)];
    assert c0.freeByteRangesList == l && c0.totalUsedSpace == 16 && c0.totalFreeSpace == DATA_BLOCK_SIZE - 16;
    assert Footprint(8, c0.records[0]) == 16;
    DeleteUncheckedOnLive(c0, 8, 0);
    ReleaseBeforeFirst(l, 0, 16, true);
  }

  /**
   * Deleting the only object of a chunk twice: the first call is the
   * modelled delete and leaves one free range spanning the block; the
   * second inserts the object's range again, so that the free list
   * overlaps itself and the used counter wraps below zero.
   */
  lemma DoubleDeleteCorrupts(c0: Chunk)
    requires c0 == OneObjectChunk()
    ensures var c1 := DeleteUnchecked(c0, 8, 0);
      var c2 := DeleteUnchecked(c1, 8, 0);
      c1 == Delete(c0, 8, 0)
      && c1.freeByteRangesList == [FreeRange(0, DATA_BLOCK_SIZE)]
      && !SpaceAccounted(c2) && c2.totalUsedSpace == UINT32_LIMIT - 16
  {
    FirstDeleteFreesBlock();
    SecondDeleteOverlaps(DeleteUnchecked(c0, 8, 0));
  }

  lemma SecondDeleteOverlaps(c1: Chunk)
    requires 0 in c1.records && Footprint(8, c1.records[0]) == 16 && c1.totalUsedSpace == 0
    requires c1.freeByteRangesList == [FreeRange(0, DATA_BLOCK_SIZE)]
    ensures !SpaceAccounted(DeleteUnchecked(c1, 8, 0))
    ensures DeleteUnchecked(c1, 8, 0).totalUsedSpace == UINT32_LIMIT - 16
  {
    var whole := c1.freeByteRangesList;
    assert LowerBound(whole, 0) == 0;
    var twice := [FreeRange(0, 16), FreeRange(0, DATA_BLOCK_SIZE)];
    assert InsertAt(whole, 0, FreeRange(0, 16)) == twice;
    assert DeleteUnchecked(c1, 8, 0).freeByteRangesList == twice;
    assert End(twice[0]) > twice[1].start;
  }
}
