/**
 * Values shared by the three versions of the CPU-side object store `राम`:
 * bytes, object headers, locations and the 8-byte rounding of reservations.
 */
module RamTypes {
  newtype byte = x: int | 0 <= x < 256

  /** Each chunk is 4 MiB; the first KiB is reserved for chunk metadata. */
  const CHUNK_SIZE: nat := 4 * 1024 * 1024
  const METADATA_SIZE: nat := 1024
  const DATA_BLOCK_SIZE: nat := CHUNK_SIZE - METADATA_SIZE

  /** Counters and sizes in the source are `uint32_t`: arithmetic on them wraps modulo 2^32. */
  const UINT32_LIMIT: nat := 0x1_0000_0000

  /** The per-object header (`META_DATA`) as a record instead of raw bytes. */
  datatype Header = Header(
    id: nat,
    parentId: nat,
    dataSize: nat,
    fileIndex: nat,
    dataVersion: nat,
    lastProcessedVersion: nat,
    isDeleted: bool)

  /** What an allocation writes at its offset: the header followed by the payload. */
  datatype Record = Record(header: Header, payload: seq<byte>)

  /** Where an object lives: chunk index and byte offset inside that chunk's data block. */
  datatype Location = Location(chunkIndex: nat, offsetInChunk: nat)

  /**
   * Bytes reserved for an object with `payloadSize` payload bytes behind a
   * `metaSize`-byte header: `(metaSize + payloadSize + 7) & ~7`, that is,
   * the total rounded up to the next multiple of 8.
   */
  function Reserved(metaSize: nat, payloadSize: nat): (r: nat)
    ensures r % 8 == 0
    ensures metaSize + payloadSize <= r < metaSize + payloadSize + 8
  {
    (metaSize + payloadSize + 7) / 8 * 8
  }

  /** Bytes an object occupies: its header and payload rounded up to 8. */
  function Footprint(meta: nat, r: Record): nat
  {
    Reserved(meta, r.header.dataSize)
  }

  /** The record `DeleteObject` leaves behind: flagged deleted, one version later. */
  function MarkDeleted(r: Record): (d: Record)
    ensures d.header.isDeleted && d.payload == r.payload
    ensures d.header == r.header.(isDeleted := true, dataVersion := r.header.dataVersion + 1)
  {
    r.(header := r.header.(isDeleted := true, dataVersion := r.header.dataVersion + 1))
  }

  /** The record `AllocateNewObject` writes: version 1, never processed, not deleted. */
  function NewRecord(id: nat, parentId: nat, data: seq<byte>): (r: Record)
    ensures r.header.id == id && r.header.parentId == parentId && r.payload == data
    ensures r.header.dataVersion == 1 && r.header.lastProcessedVersion == 0 && !r.header.isDeleted
    ensures r.header.dataSize == |data| && r.header.fileIndex == 0
  {
    Record(Header(id, parentId, |data|, 0, 1, 0, false), data)
  }

  /** The record `ModifyObject` leaves: the new payload, one version later, every other header field kept. */
  function Rewritten(r: Record, data: seq<byte>): Record
  {
    Record(r.header.(dataSize := |data|, dataVersion := r.header.dataVersion + 1), data)
  }
}
