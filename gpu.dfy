/**
 * The bookkeeping of the Direct3D 12 GPU memory manager
 * (MemoryManagerGPU-DirectX12.cpp): which adapter is chosen, which
 * deferred frees are reclaimed, how the copy thread's commands change a
 * tab's table of objects resident on the GPU, and how a render thread's
 * fence value and command-allocator index advance frame by frame. The
 * Direct3D calls themselves are not modelled.
 */
module GpuMemory {
  import opened Wrappers

  const UINT32_LIMIT: int := 0x1_0000_0000
  const UINT64_LIMIT: int := 0x1_0000_0000_0000_0000

  type uint32 = x: int | 0 <= x < UINT32_LIMIT
  type uint64 = x: int | 0 <= x < UINT64_LIMIT

  // ---------------------------------------------------------------------------
  // Adapter selection

  /** What `GetDesc1` reports about an adapter, plus whether a D3D12 device can be created on it. */
  datatype AdapterDesc = AdapterDesc(software: bool, d3d12Capable: bool, dedicatedVideoMemory: nat, sharedSystemMemory: nat)

  /** Software adapters (WARP) and adapters without D3D12 support are skipped. */
  predicate Candidate(d: AdapterDesc)
  {
    !d.software && d.d3d12Capable
  }

  /** Among the first `n` adapters, `k` is the first candidate with the most dedicated video memory. */
  predicate FirstMostDedicated(ads: seq<AdapterDesc>, n: nat, k: nat)
    requires n <= |ads|
  {
    && k < n && Candidate(ads[k])
    && forall j :: 0 <= j < n && Candidate(ads[j]) ==>
         ads[j].dedicatedVideoMemory <= ads[k].dedicatedVideoMemory
         && (j < k ==> ads[j].dedicatedVideoMemory < ads[k].dedicatedVideoMemory)
  }

  /** Among the first `n` adapters, `k` is the first candidate with the most shared system memory. */
  predicate FirstMostShared(ads: seq<AdapterDesc>, n: nat, k: nat)
    requires n <= |ads|
  {
    && k < n && Candidate(ads[k])
    && forall j :: 0 <= j < n && Candidate(ads[j]) ==>
         ads[j].sharedSystemMemory <= ads[k].sharedSystemMemory
         && (j < k ==> ads[j].sharedSystemMemory < ads[k].sharedSystemMemory)
  }

  predicate AnyDedicated(ads: seq<AdapterDesc>, n: nat)
    requires n <= |ads|
  {
    exists j :: 0 <= j < n && Candidate(ads[j]) && ads[j].dedicatedVideoMemory > 0
  }

  predicate AnyShared(ads: seq<AdapterDesc>, n: nat)
    requires n <= |ads|
  {
    exists j :: 0 <= j < n && Candidate(ads[j]) && ads[j].sharedSystemMemory > 0
  }

  /**
   * The selection rule over the first `n` adapters: the first candidate
   * with the most dedicated video memory when some candidate has any;
   * otherwise (a unified-memory system) the first candidate with the most
   * shared memory when some candidate has any; otherwise none, and the
   * device is created on WARP instead.
   */
  predicate Selected(ads: seq<AdapterDesc>, n: nat, chosen: Option<nat>)
    requires n <= |ads|
  {
    if AnyDedicated(ads, n) then chosen.Some? && FirstMostDedicated(ads, n, chosen.value)
    else if AnyShared(ads, n) then chosen.Some? && FirstMostShared(ads, n, chosen.value)
    else chosen.None?
  }

  /** The rule picks at most one adapter: two selections over the same adapters agree. */
  lemma SelectionUnique(ads: seq<AdapterDesc>, n: nat, c1: Option<nat>, c2: Option<nat>)
    requires n <= |ads| && Selected(ads, n, c1) && Selected(ads, n, c2)
    ensures c1 == c2
  {
    if AnyDedicated(ads, n) {
      var k1, k2 := c1.value, c2.value;
      assert !(k1 < k2) && !(k2 < k1) by {
        assert FirstMostDedicated(ads, n, k1) && FirstMostDedicated(ads, n, k2);
      }
    } else if AnyShared(ads, n) {
      var k1, k2 := c1.value, c2.value;
      assert !(k1 < k2) && !(k2 < k1) by {
        assert FirstMostShared(ads, n, k1) && FirstMostShared(ads, n, k2);
      }
    }
  }

  /** The loop's best-so-far state after `n` adapters: the chosen adapter's memory sizes, or 0 and 0. */
  predicate BestSoFar(ads: seq<AdapterDesc>, n: nat, chosen: Option<nat>, maxDedicated: nat, maxShared: nat)
    requires n <= |ads|
  {
    && Selected(ads, n, chosen)
    && (chosen.None? ==> maxDedicated == 0 && maxShared == 0)
    && (chosen.Some? ==>
          && chosen.value < n
          && maxDedicated == ads[chosen.value].dedicatedVideoMemory
          && maxShared == ads[chosen.value].sharedSystemMemory)
  }

  /** One pass of the selection loop keeps the best-so-far state. */
  lemma SelectStep(ads: seq<AdapterDesc>, i: nat, chosen: Option<nat>, maxDedicated: nat, maxShared: nat)
    requires i < |ads| && BestSoFar(ads, i, chosen, maxDedicated, maxShared)
    ensures var d := ads[i];
      if !Candidate(d) then BestSoFar(ads, i + 1, chosen, maxDedicated, maxShared)
      else if d.dedicatedVideoMemory > maxDedicated then
        BestSoFar(ads, i + 1, Some(i), d.dedicatedVideoMemory, d.sharedSystemMemory)
      else if maxDedicated == 0 && d.sharedSystemMemory > maxShared then
        BestSoFar(ads, i + 1, Some(i), maxDedicated, d.sharedSystemMemory)
      else BestSoFar(ads, i + 1, chosen, maxDedicated, maxShared)
  {
    var d := ads[i];
    // Every candidate so far is bounded by the best-so-far sizes.
    assert forall j :: 0 <= j < i && Candidate(ads[j]) ==> ads[j].dedicatedVideoMemory <= maxDedicated;
    assert AnyDedicated(ads, i) ==> maxDedicated > 0;
    assert !AnyDedicated(ads, i) ==>
      forall j :: 0 <= j < i && Candidate(ads[j]) ==> ads[j].sharedSystemMemory <= maxShared;
    if !Candidate(d) {
      assert AnyDedicated(ads, i + 1) == AnyDedicated(ads, i);
      assert AnyShared(ads, i + 1) == AnyShared(ads, i);
    } else if d.dedicatedVideoMemory > maxDedicated {
      assert AnyDedicated(ads, i + 1);
    } else if maxDedicated == 0 && d.sharedSystemMemory > maxShared {
      assert !AnyDedicated(ads, i + 1);
      assert AnyShared(ads, i + 1);
    } else {
      if d.dedicatedVideoMemory > 0 {
        assert AnyDedicated(ads, i + 1) && AnyDedicated(ads, i);
      } else {
        assert AnyDedicated(ads, i + 1) == AnyDedicated(ads, i);
        if !AnyDedicated(ads, i) && d.sharedSystemMemory > 0 {
          assert maxShared > 0 && chosen.Some?;
          assert AnyShared(ads, i);
        }
        assert AnyShared(ads, i + 1) == (AnyShared(ads, i) || d.sharedSystemMemory > 0);
      }
    }
  }

  /**
   * The adapter-selection loop of `InitD3DDeviceOnly`: adapters are
   * enumerated in high-performance order and the best so far is kept. The
   * result is the index of the adapter the device is created on, or none
   * for the WARP fallback.
   */
  method SelectAdapter(ads: seq<AdapterDesc>) returns (chosen: Option<nat>)
    ensures Selected(ads, |ads|, chosen)
    ensures chosen.Some? ==> chosen.value < |ads| && Candidate(ads[chosen.value])
  {
    var maxDedicatedVideoMemory: nat, maxSharedMemory: nat := 0, 0;
    chosen := None;
    var adapterIndex := 0;
    while adapterIndex < |ads|
      invariant adapterIndex <= |ads|
      invariant BestSoFar(ads, adapterIndex, chosen, maxDedicatedVideoMemory, maxSharedMemory)
    {
      var desc := ads[adapterIndex];
      SelectStep(ads, adapterIndex, chosen, maxDedicatedVideoMemory, maxSharedMemory);
      if Candidate(desc) {
        if desc.dedicatedVideoMemory > maxDedicatedVideoMemory {
          maxDedicatedVideoMemory := desc.dedicatedVideoMemory;
          maxSharedMemory := desc.sharedSystemMemory;
          chosen := Some(adapterIndex);
        } else if maxDedicatedVideoMemory == 0 && desc.sharedSystemMemory > maxSharedMemory {
          maxSharedMemory := desc.sharedSystemMemory;
          chosen := Some(adapterIndex);
        }
      }
      adapterIndex := adapterIndex + 1;
    }
  }

  // ---------------------------------------------------------------------------
  // Deferred frees

  /** A resource that became obsolete at `frameNumber`; `resource` stands for its GPU buffers. */
  datatype DeferredFree = DeferredFree(frameNumber: uint64, resource: nat)

  /** The entries a reclaim up to frame `n` keeps: those obsolete after `n`, in queue order. */
  function StillPending(q: seq<DeferredFree>, n: uint64): seq<DeferredFree>
  {
    if q == [] then []
    else (if q[0].frameNumber > n then [q[0]] else []) + StillPending(q[1..], n)
  }

  /** Reclaiming distributes over a split queue, so the kept entries keep their order. */
  lemma {:induction false} PendingConcat(q1: seq<DeferredFree>, q2: seq<DeferredFree>, n: uint64)
    ensures StillPending(q1 + q2, n) == StillPending(q1, n) + StillPending(q2, n)
  {
    if q1 != [] {
      assert (q1 + q2)[0] == q1[0] && (q1 + q2)[1..] == q1[1..] + q2;
      PendingConcat(q1[1..], q2, n);
    } else {
      assert q1 + q2 == q2;
    }
  }

  /** An entry is kept exactly when it is in the queue and became obsolete after frame `n`. */
  lemma {:induction false} PendingMembers(q: seq<DeferredFree>, n: uint64, e: DeferredFree)
    ensures e in StillPending(q, n) <==> e in q && e.frameNumber > n
  {
    if q != [] {
      PendingMembers(q[1..], n, e);
      assert q == [q[0]] + q[1..];
    }
  }

  /** A queue whose entries are all obsolete after `n` is kept whole. */
  lemma {:induction false} PendingKeepsLater(q: seq<DeferredFree>, n: uint64)
    requires forall i :: 0 <= i < |q| ==> q[i].frameNumber > n
    ensures StillPending(q, n) == q
  {
    if q != [] {
      PendingKeepsLater(q[1..], n);
    }
  }

  /** Every kept entry became obsolete after `n`. */
  lemma {:induction false} PendingAllLater(q: seq<DeferredFree>, n: uint64)
    ensures forall i :: 0 <= i < |StillPending(q, n)| ==> StillPending(q, n)[i].frameNumber > n
  {
    if q != [] {
      PendingAllLater(q[1..], n);
    }
  }

  /** A second reclaim up to the same frame changes nothing. */
  lemma PendingIdempotent(q: seq<DeferredFree>, n: uint64)
    ensures StillPending(StillPending(q, n), n) == StillPending(q, n)
  {
    PendingAllLater(q, n);
    PendingKeepsLater(StillPending(q, n), n);
  }

  /** The manager's queue of resources waiting until no frame in flight can use them. */
  class GpuMemoryManager {
    var deferredFreeQueue: seq<DeferredFree>

    constructor ()
      ensures deferredFreeQueue == []
    {
      deferredFreeQueue := [];
    }

    /** `ProcessDeferredFrees`: erase, while iterating, every entry obsolete at or before the frame. */
    method ProcessDeferredFrees(lastCompletedRenderFrame: uint64)
      modifies this
      ensures deferredFreeQueue == StillPending(old(deferredFreeQueue), lastCompletedRenderFrame)
    {
      ghost var original := deferredFreeQueue;
      var it := 0;
      // How far into the original queue the iterator has come.
      ghost var k := 0;
      while it < |deferredFreeQueue|
        invariant it <= |deferredFreeQueue| && k <= |original|
        invariant deferredFreeQueue[..it] == StillPending(original[..k], lastCompletedRenderFrame)
        invariant deferredFreeQueue[it..] == original[k..]
        decreases |deferredFreeQueue| - it
      {
        var e := deferredFreeQueue[it];
        assert original[..k + 1] == original[..k] + [e];
        PendingConcat(original[..k], [e], lastCompletedRenderFrame);
        if e.frameNumber <= lastCompletedRenderFrame {
          deferredFreeQueue := deferredFreeQueue[..it] + deferredFreeQueue[it + 1..];
        } else {
          it := it + 1;
        }
        k := k + 1;
      }
      assert original[..k] == original;
    }
  }

  /**
   * The render loop's reclaim point: frees are processed up to two frames
   * before the last rendered frame, once that is past 2.
   */
  function FreeHorizon(lastRenderedFrame: uint64): Option<uint64>
  {
    if lastRenderedFrame > 2 then Some(lastRenderedFrame - 2) else None
  }

  /**
   * The render loop starts `lastRenderedFrame` at -1, that is 2^64 - 1, and
   * never updates it, so every pass reclaims up to frame 2^64 - 3, which
   * is every entry except those of the last two representable frames.
   */
  lemma RenderLoopHorizon(q: seq<DeferredFree>)
    ensures FreeHorizon(UINT64_LIMIT - 1) == Some(UINT64_LIMIT - 3)
    ensures forall e :: e in StillPending(q, UINT64_LIMIT - 3) <==> e in q && e.frameNumber >= UINT64_LIMIT - 2
    ensures forall r :: FreeHorizon(r).Some? <==> r > 2
  {
    forall e
      ensures e in StillPending(q, UINT64_LIMIT - 3) <==> e in q && e.frameNumber >= UINT64_LIMIT - 2
    {
      PendingMembers(q, UINT64_LIMIT - 3, e);
    }
  }

  // ---------------------------------------------------------------------------
  // The copy thread and the objects resident on the GPU

  /** The bytes of one index (`uint16_t`). */
  const INDEX_SIZE: nat := 2

  const BAD_OPTIONAL_ACCESS := "bad optional access"

  /** The geometry of one object: how many vertices and indices it has. */
  datatype Geometry = Geometry(vertexCount: nat, indexCount: nat)

  datatype CopyCommandType = Add | Modify | Remove

  /** A command for the copy thread; `geometry` is present for `Add` and `Modify`. */
  datatype CopyCommand = CopyCommand(kind: CopyCommandType, geometry: Option<Geometry>, id: uint64, tabId: nat)

  /** What the table keeps for an uploaded object: its index count and the byte sizes of its buffer views. */
  datatype GpuObject = GpuObject(indexCount: uint32, vertexViewSize: uint32, vertexStride: nat, indexViewSize: uint32)

  /** The byte size of a buffer of `count` elements of `size` bytes, narrowed to `UINT` as the source casts it. */
  function BufferSize(count: nat, size: nat): (b: uint32)
    ensures count * size < UINT32_LIMIT ==> b == count * size
    ensures count == 0 || size == 0 ==> b == 0
  {
    (count * size) % UINT32_LIMIT
  }

  /**
   * A command applied to a tab's table of resident objects, with vertices
   * of `vertexStride` bytes: `Add` and `Modify` upload the geometry and
   * insert or overwrite the id's entry, unless either buffer size is 0;
   * `Remove` erases the id. An `Add` or `Modify` without geometry throws.
   */
  function Applied(objects: map<uint64, GpuObject>, cmd: CopyCommand, vertexStride: nat): Result<map<uint64, GpuObject>, string>
  {
    match cmd.kind
    case Add | Modify =>
      if cmd.geometry.None? then Err(BAD_OPTIONAL_ACCESS)
      else
        var geo := cmd.geometry.value;
        var vertexBufferSize := BufferSize(geo.vertexCount, vertexStride);
        var indexBufferSize := BufferSize(geo.indexCount, INDEX_SIZE);
        if vertexBufferSize == 0 || indexBufferSize == 0 then Ok(objects)
        else Ok(objects[cmd.id := GpuObject(geo.indexCount % UINT32_LIMIT, vertexBufferSize, vertexStride, indexBufferSize)])
    case Remove => Ok(objects - {cmd.id})
  }

  /** Whether applying the command records and submits a copy (and so uses a copy fence value). */
  predicate Uploads(cmd: CopyCommand, vertexStride: nat)
  {
    && cmd.kind != Remove && cmd.geometry.Some?
    && BufferSize(cmd.geometry.value.vertexCount, vertexStride) != 0
    && BufferSize(cmd.geometry.value.indexCount, INDEX_SIZE) != 0
  }

  /** Empty vertex or index data leaves the table unchanged. */
  lemma EmptyGeometrySkipped(objects: map<uint64, GpuObject>, cmd: CopyCommand, vertexStride: nat)
    requires cmd.kind != Remove && cmd.geometry.Some?
    requires cmd.geometry.value.vertexCount == 0 || cmd.geometry.value.indexCount == 0
    ensures Applied(objects, cmd, vertexStride) == Ok(objects) && !Uploads(cmd, vertexStride)
  { }

  /**
   * A non-empty upload whose sizes fit in `UINT` inserts or overwrites the
   * id's entry: its index count is the number of indices, the index view is
   * two bytes per index and the vertex view one stride per vertex; every
   * other id keeps its entry.
   */
  lemma UploadStores(objects: map<uint64, GpuObject>, cmd: CopyCommand, vertexStride: nat, other: uint64)
    requires cmd.kind != Remove && cmd.geometry.Some?
    requires var geo := cmd.geometry.value;
      geo.vertexCount > 0 && geo.indexCount > 0 && vertexStride > 0
      && geo.vertexCount * vertexStride < UINT32_LIMIT && geo.indexCount * INDEX_SIZE < UINT32_LIMIT
    ensures var r := Applied(objects, cmd, vertexStride);
      var geo := cmd.geometry.value;
      && r.Ok? && Uploads(cmd, vertexStride)
      && cmd.id in r.value
      && r.value[cmd.id] == GpuObject(geo.indexCount, geo.vertexCount * vertexStride, vertexStride, 2 * geo.indexCount)
      && (other != cmd.id ==> (other in r.value <==> other in objects) && (other in objects ==> r.value[other] == objects[other]))
  {
    MulPositive(cmd.geometry.value.vertexCount, vertexStride);
  }

  lemma MulPositive(a: nat, b: nat)
    requires a > 0 && b > 0
    ensures a * b > 0
  { }

  /** `Remove` erases just the id; every other entry stays. */
  lemma RemoveErasesOnly(objects: map<uint64, GpuObject>, cmd: CopyCommand, vertexStride: nat)
    requires cmd.kind == Remove
    ensures var r := Applied(objects, cmd, vertexStride);
      && r.Ok? && cmd.id !in r.value
      && (forall other :: other != cmd.id ==> (other in r.value <==> other in objects))
      && (forall other :: other in r.value ==> r.value[other] == objects[other])
  { }

  /** An `Add` or `Modify` that carries no geometry throws and changes nothing. */
  lemma MissingGeometryThrows(objects: map<uint64, GpuObject>, cmd: CopyCommand, vertexStride: nat)
    requires cmd.kind != Remove && cmd.geometry.None?
    ensures Applied(objects, cmd, vertexStride) == Err(BAD_OPTIONAL_ACCESS)
  { }

  /**
   * The byte sizes are narrowed to 32 bits before the emptiness test, so a
   * geometry of 2^31 indices has an index buffer size of 0 and is skipped
   * like an empty one.
   */
  lemma NarrowedSizeSkips(objects: map<uint64, GpuObject>, id: uint64, tabId: nat, vertexStride: nat)
    ensures var cmd := CopyCommand(Add, Some(Geometry(1, 0x8000_0000)), id, tabId);
      Applied(objects, cmd, vertexStride) == Ok(objects) && !Uploads(cmd, vertexStride)
  { }

  /**
   * The copy thread's view of the engine: every tab's table of objects on
   * the GPU and the copy fence value, which starts at 1.
   */
  class CopyThread {
    var tabs: seq<map<uint64, GpuObject>>
    var copyFenceValue: uint64
    /** `sizeof(Vertex)`. */
    const vertexStride: nat

    constructor (tabCount: nat, vertexStride: nat)
      ensures tabs == seq(tabCount, _ => map[]) && copyFenceValue == 1 && this.vertexStride == vertexStride
    {
      tabs := seq(tabCount, _ => map[]);
      copyFenceValue := 1;
      this.vertexStride := vertexStride;
    }

    /**
     * One command taken from the queue: the target tab's table changes as
     * `Applied` says and no other tab's does; an upload signals the copy
     * fence at its current value and moves it on by one.
     */
    method Process(cmd: CopyCommand) returns (r: Result<(), string>, signalled: Option<uint64>)
      requires cmd.tabId < |tabs|
      modifies this
      ensures var a := Applied(old(tabs[cmd.tabId]), cmd, vertexStride);
        && (r.Err? <==> a.Err?)
        && (a.Ok? ==> tabs == old(tabs)[cmd.tabId := a.value])
        && (a.Err? ==> tabs == old(tabs))
      ensures Uploads(cmd, vertexStride) ==> signalled == Some(old(copyFenceValue)) && copyFenceValue == (old(copyFenceValue) + 1) % UINT64_LIMIT
      ensures !Uploads(cmd, vertexStride) ==> signalled.None? && copyFenceValue == old(copyFenceValue)
    {
      signalled := None;
      var objects := tabs[cmd.tabId];
      match cmd.kind {
        case Add =>
          r := Upload(cmd);
          if Uploads(cmd, vertexStride) {
            signalled := Some(copyFenceValue);
            copyFenceValue := (copyFenceValue + 1) % UINT64_LIMIT;
          }
        case Modify =>
          r := Upload(cmd);
          if Uploads(cmd, vertexStride) {
            signalled := Some(copyFenceValue);
            copyFenceValue := (copyFenceValue + 1) % UINT64_LIMIT;
          }
        case Remove =>
          var remaining: map<uint64, GpuObject> := objects - {cmd.id};
          tabs := tabs[cmd.tabId := remaining];
          r := Ok(());
      }
    }

    /** The `Add`/`Modify` case: the tab's table gets the id's new entry, or stays when there is nothing to upload. */
    method Upload(cmd: CopyCommand) returns (r: Result<(), string>)
      requires cmd.tabId < |tabs| && cmd.kind != Remove
      modifies this`tabs
      ensures var a := Applied(old(tabs[cmd.tabId]), cmd, vertexStride);
        && (r.Err? <==> a.Err?)
        && (a.Ok? ==> tabs == old(tabs)[cmd.tabId := a.value])
        && (a.Err? ==> tabs == old(tabs))
    {
      if cmd.geometry.None? {
        return Err(BAD_OPTIONAL_ACCESS);
      }
      var geo := cmd.geometry.value;
      var vertexBufferSize := BufferSize(geo.vertexCount, vertexStride);
      var indexBufferSize := BufferSize(geo.indexCount, INDEX_SIZE);
      if vertexBufferSize == 0 || indexBufferSize == 0 {
        return Ok(());
      }
      var newResource := GpuObject(geo.indexCount % UINT32_LIMIT, vertexBufferSize, vertexStride, indexBufferSize);
      var objects: map<uint64, GpuObject> := tabs[cmd.tabId][cmd.id := newResource];
      tabs := tabs[cmd.tabId := objects];
      return Ok(());
    }
  }

  // ---------------------------------------------------------------------------
  // The render thread's frame counters

  /**
   * A render thread's fence value (starting at 1) and the index of the
   * command allocator it records into, one allocator per frame in flight.
   */
  class RenderThread {
    var fenceValue: uint64
    var allocatorIndex: nat
    /** `FRAMES_PER_RENDERTARGETS`. */
    const framesInFlight: nat

    ghost predicate Valid()
      reads this
    {
      framesInFlight >= 1 && allocatorIndex < framesInFlight
    }

    constructor (framesInFlight: nat)
      requires framesInFlight >= 1
      ensures Valid() && fenceValue == 1 && allocatorIndex == 0 && this.framesInFlight == framesInFlight
    {
      fenceValue := 1;
      allocatorIndex := 0;
      this.framesInFlight := framesInFlight;
    }

    /**
     * The end of a rendered frame: the fence is signalled at the current
     * value; once that value reaches the number of frames in flight, the
     * CPU waits for the fence to reach `fenceValue - framesInFlight + 1`;
     * then the fence value and the allocator index each advance by one, the
     * index wrapping around the allocators.
     */
    method EndFrame() returns (signalled: uint64, waitFor: Option<uint64>)
      requires Valid()
      modifies this
      ensures Valid()
      ensures signalled == old(fenceValue) && waitFor == WaitTarget(old(fenceValue), framesInFlight)
      ensures (fenceValue, allocatorIndex) == FrameStep(old(fenceValue), old(allocatorIndex), framesInFlight)
    {
      signalled := fenceValue;
      waitFor := None;
      if fenceValue >= framesInFlight {
        waitFor := Some(fenceValue - framesInFlight + 1);
      }
      fenceValue := (fenceValue + 1) % UINT64_LIMIT;
      allocatorIndex := (allocatorIndex + 1) % framesInFlight;
    }
  }

  /** The fence value the CPU waits for after signalling `fenceValue`. */
  function WaitTarget(fenceValue: uint64, framesInFlight: nat): Option<uint64>
    requires framesInFlight >= 1
  {
    if fenceValue >= framesInFlight then
      var target: uint64 := fenceValue - framesInFlight + 1;
      Some(target)
    else None
  }

  /** The counters after `EndFrame` on fence value `fence` and allocator index `index`. */
  function FrameStep(fence: uint64, index: nat, framesInFlight: nat): (uint64, nat)
    requires framesInFlight >= 1
  {
    ((fence + 1) % UINT64_LIMIT, (index + 1) % framesInFlight)
  }

  /** The counters of a fresh render thread after `k` rendered frames. */
  function Frames(k: nat, framesInFlight: nat): (uint64, nat)
    requires framesInFlight >= 1
  {
    if k == 0 then (1, 0)
    else
      var (fence, index) := Frames(k - 1, framesInFlight);
      FrameStep(fence, index, framesInFlight)
  }

  /** `k mod m`, by repeated subtraction. */
  function Cycle(k: nat, m: nat): (r: nat)
    requires m >= 1
    ensures r < m && (k < m ==> r == k)
    decreases k
  {
    if k < m then k else Cycle(k - m, m)
  }

  /** Counting one further wraps around: the cycle position after `k` is one past that after `k - 1`, mod `m`. */
  lemma {:induction false} CycleStep(k: nat, m: nat)
    requires m >= 1 && k >= 1
    ensures Cycle(k, m) == (Cycle(k - 1, m) + 1) % m
    decreases k
  {
    var c := Cycle(k - 1, m);
    if c + 1 < m {
      SmallMod(c + 1, m);
    } else {
      SelfMod(m);
    }
    if k > m {
      CycleStep(k - m, m);
    }
  }

  lemma SmallMod(x: nat, m: nat)
    requires x < m
    ensures x % m == x
  { }

  lemma SelfMod(m: nat)
    requires m >= 1
    ensures m % m == 0
  { }

  /**
   * Before the 64-bit fence wraps, after `k` frames the fence value is
   * `k + 1` and the allocator index is `k mod framesInFlight`: frame `k`
   * (counted from 0) signals fence value `k + 1` from allocator
   * `k mod framesInFlight`.
   */
  lemma {:induction false} FramesClosedForm(k: nat, framesInFlight: nat)
    requires framesInFlight >= 1 && k + 1 < UINT64_LIMIT
    ensures Frames(k, framesInFlight) == (k + 1, Cycle(k, framesInFlight))
  {
    if k > 0 {
      FramesClosedForm(k - 1, framesInFlight);
      CycleStep(k, framesInFlight);
      SmallMod(k + 1, UINT64_LIMIT);
    }
  }

  /**
   * The wait protects the allocator about to be reused: when frame `k`
   * (fence value `k + 1`) ends, the next frame records into the allocator
   * that frame `k + 1 - framesInFlight` used, and the wait target is
   * exactly that frame's fence value; before that many frames there is no
   * wait, and no allocator has been used twice.
   */
  lemma WaitGuardsReuse(k: nat, framesInFlight: nat)
    requires framesInFlight >= 1 && k + 2 < UINT64_LIMIT
    ensures var w := WaitTarget(Frames(k, framesInFlight).0, framesInFlight);
      && (w.Some? <==> k + 1 >= framesInFlight)
      && (w.Some? ==>
            var earlier := k + 1 - framesInFlight;
            && w.value == Frames(earlier, framesInFlight).0
            && Frames(earlier, framesInFlight).1 == Frames(k + 1, framesInFlight).1)
      && (w.None? ==> forall j :: 0 <= j <= k ==> Frames(j, framesInFlight).1 == j)
  {
    FramesClosedForm(k, framesInFlight);
    FramesClosedForm(k + 1, framesInFlight);
    if k + 1 >= framesInFlight {
      FramesClosedForm(k + 1 - framesInFlight, framesInFlight);
    } else {
      forall j | 0 <= j <= k
        ensures Frames(j, framesInFlight).1 == j
      {
        FramesClosedForm(j, framesInFlight);
      }
    }
  }
}
