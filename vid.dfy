/**
 * The 64-bit id space of the design model (VishwakarmaID64bit.h): the top
 * 16 bits are reserved, and three ranges below 2^48 are set aside for
 * catalogue items, ids made up locally during offline work, and ids the
 * central server hands out. A counter issues the local ids.
 */
module VishwakarmaId {
  import opened Wrappers

  const UINT64_LIMIT: int := 0x1_0000_0000_0000_0000

  /** `uint64_t`. */
  type uint64 = x: int | 0 <= x < UINT64_LIMIT

  /** An id; its equality and its order are those of the raw value. */
  datatype VId = VId(value: uint64)

  /** 2^48 - 1, the largest valid id. */
  const ID_UPPER_BOUND: uint64 := 0xFFFF_FFFF_FFFF
  const CATALOGUE_ID_START: uint64 := 0
  /** 2^40 - 1. */
  const CATALOGUE_ID_END: uint64 := 0xFF_FFFF_FFFF
  /** 2^40. */
  const LOCAL_ID_START: uint64 := 0x100_0000_0000
  /** 2^41 - 1. */
  const LOCAL_ID_END: uint64 := 0x1FF_FFFF_FFFF
  /** 2^42; the server range ends at `ID_UPPER_BOUND`. */
  const SERVER_ID_START: uint64 := 0x400_0000_0000

  /** The message of the exception thrown once the local range is used up. */
  const EXHAUSTED := "Local ID range exhausted. Cannot generate new IDs."

  /** The default id. */
  function NullId(): VId
  {
    VId(0)
  }

  predicate Equal(a: VId, b: VId)
  {
    a.value == b.value
  }

  predicate NotEqual(a: VId, b: VId)
  {
    a.value != b.value
  }

  predicate Less(a: VId, b: VId)
  {
    a.value < b.value
  }

  /** A valid id has its top 16 bits clear. */
  predicate IsValid(id: VId)
    ensures IsValid(id) <==> id.value / 0x1_0000_0000_0000 == 0
  {
    id.value <= ID_UPPER_BOUND
  }

  /** A catalogue id has its top 24 bits clear. */
  predicate IsCatalogueId(id: VId)
    ensures IsCatalogueId(id) <==> id.value / 0x100_0000_0000 == 0
  {
    CATALOGUE_ID_START <= id.value <= CATALOGUE_ID_END
  }

  /** A local id has bit 40 set and every bit above it clear. */
  predicate IsLocalId(id: VId)
    ensures IsLocalId(id) <==> id.value / 0x100_0000_0000 == 1
  {
    LOCAL_ID_START <= id.value <= LOCAL_ID_END
  }

  /** A server id is a valid id with a bit set at position 42 or above. */
  predicate IsServerId(id: VId)
    ensures IsServerId(id) <==> IsValid(id) && id.value / 0x400_0000_0000 != 0
  {
    SERVER_ID_START <= id.value <= ID_UPPER_BOUND
  }

  /** The id equality is that of the whole id, and `!=` is its negation. */
  lemma EqualityIsIdentity(a: VId, b: VId)
    ensures Equal(a, b) <==> a == b
    ensures NotEqual(a, b) <==> !Equal(a, b)
  { }

  /** `<` is a strict total order on ids, as ordered containers need. */
  lemma LessIsStrictTotalOrder(a: VId, b: VId, c: VId)
    ensures !Less(a, a)
    ensures Less(a, b) && Less(b, c) ==> Less(a, c)
    ensures Less(a, b) || Equal(a, b) || Less(b, a)
    ensures !(Less(a, b) && Less(b, a))
  { }

  /** The default id is 0: valid, and a catalogue id. */
  lemma NullIdIsCatalogue()
    ensures NullId().value == 0 && IsValid(NullId()) && IsCatalogueId(NullId())
    ensures !IsLocalId(NullId()) && !IsServerId(NullId())
  { }

  /** No id belongs to two ranges, and an id in any range is valid. */
  lemma RangesDisjointAndValid(id: VId)
    ensures !(IsCatalogueId(id) && IsLocalId(id))
    ensures !(IsCatalogueId(id) && IsServerId(id))
    ensures !(IsLocalId(id) && IsServerId(id))
    ensures IsCatalogueId(id) || IsLocalId(id) || IsServerId(id) ==> IsValid(id)
  { }

  /** The valid ids that belong to no range are exactly those in [2^41, 2^42). */
  lemma UnclassifiedGap(id: VId)
    ensures IsValid(id) && !IsCatalogueId(id) && !IsLocalId(id) && !IsServerId(id)
        <==> LOCAL_ID_END < id.value < SERVER_ID_START
  { }

  // ---------------------------------------------------------------------------
  // Local id generation

  /**
   * One `Generate` on counter value `next`: the counter is fetched and
   * incremented (wrapping like `uint64_t`); a fetched value past the local
   * range pins the counter just after the range and fails.
   */
  function GenerateStep(next: uint64): (r: (Result<VId, string>, uint64))
    ensures r.0.Ok? ==> r.0.value == VId(next) && r.1 == next + 1
    ensures next <= LOCAL_ID_END + 1 ==> r.1 <= LOCAL_ID_END + 1
  {
    var bumped := (next + 1) % UINT64_LIMIT;
    if next > LOCAL_ID_END then (Err(EXHAUSTED), LOCAL_ID_END + 1) else (Ok(VId(next)), bumped)
  }

  /** The results of `k` successive calls on a counter starting at `next`. */
  function GenerateRun(next: uint64, k: nat): seq<Result<VId, string>>
    decreases k
  {
    if k == 0 then []
    else
      var (r, next') := GenerateStep(next);
      [r] + GenerateRun(next', k - 1)
  }

  /**
   * A call issues the counter's value exactly while it is still in the local
   * range, and then moves the counter on by one; otherwise it fails and the
   * counter stays pinned, so every later call fails too.
   */
  lemma GenerateStepIssues(next: uint64)
    ensures GenerateStep(next).0.Ok? <==> next <= LOCAL_ID_END
    ensures next <= LOCAL_ID_END ==> GenerateStep(next) == (Ok(VId(next)), next + 1)
    ensures LOCAL_ID_START <= next <= LOCAL_ID_END ==> IsLocalId(GenerateStep(next).0.value)
    ensures next > LOCAL_ID_END ==> GenerateStep(next) == (Err(EXHAUSTED), LOCAL_ID_END + 1)
    ensures GenerateStep(LOCAL_ID_END + 1) == (Err(EXHAUSTED), LOCAL_ID_END + 1)
  { }

  /**
   * From a counter at `next` (at most one past the range), call `i` issues
   * `next + i` while that is in the local range, and fails from then on.
   */
  lemma {:induction false} GenerateRunIssues(next: uint64, k: nat)
    requires next <= LOCAL_ID_END + 1
    decreases k
    ensures |GenerateRun(next, k)| == k
    ensures forall i :: 0 <= i < k ==>
      GenerateRun(next, k)[i] == if next + i <= LOCAL_ID_END then Ok(VId(next + i)) else Err(EXHAUSTED)
  {
    if k > 0 {
      var (r, next') := GenerateStep(next);
      GenerateRunIssues(next', k - 1);
      var run := GenerateRun(next, k);
      assert run == [r] + GenerateRun(next', k - 1);
      forall i | 0 <= i < k
        ensures run[i] == if next + i <= LOCAL_ID_END then Ok(VId(next + i)) else Err(EXHAUSTED)
      {
        if i > 0 {
          assert run[i] == GenerateRun(next', k - 1)[i - 1];
          if next > LOCAL_ID_END {
            assert next' == LOCAL_ID_END + 1;
          }
        }
      }
    }
  }

  /**
   * A fresh generator issues 2^40, 2^40 + 1, ... : every id issued is a
   * local id, and the ids issued are strictly increasing, hence distinct;
   * after 2^40 calls every call fails.
   */
  lemma FreshRun(k: nat)
    ensures var run := GenerateRun(LOCAL_ID_START, k);
      && |run| == k
      && (k > 0 ==> run[0] == Ok(VId(LOCAL_ID_START)))
      && (forall i :: 0 <= i < k && run[i].Ok? ==> IsLocalId(run[i].value))
      && (forall i, j :: 0 <= i < j < k && run[i].Ok? && run[j].Ok? ==> Less(run[i].value, run[j].value))
      && (forall i :: 0 <= i < k ==> (run[i].Ok? <==> i < LOCAL_ID_END - LOCAL_ID_START + 1))
  {
    GenerateRunIssues(LOCAL_ID_START, k);
  }

  /** The local id generator: `next_id_` is the next id to issue. */
  class LocalIdGenerator {
    var nextId: uint64

    /** Within the local range, or pinned just after it. */
    ghost predicate Valid()
      reads this
    {
      LOCAL_ID_START <= nextId <= LOCAL_ID_END + 1
    }

    /** A fresh generator starts at the beginning of the local range. */
    constructor ()
      ensures Valid() && nextId == LOCAL_ID_START
    {
      nextId := LOCAL_ID_START;
    }

    /** Issues the next local id, or fails with `EXHAUSTED` once the range is used up. */
    method Generate() returns (r: Result<VId, string>)
      modifies this
      ensures (r, nextId) == GenerateStep(old(nextId))
      ensures old(Valid()) ==> Valid()
    {
      var newIdValue := nextId;
      nextId := (nextId + 1) % UINT64_LIMIT;
      if newIdValue > LOCAL_ID_END {
        nextId := LOCAL_ID_END + 1;
        return Err(EXHAUSTED);
      }
      return Ok(VId(newIdValue));
    }
  }
}
