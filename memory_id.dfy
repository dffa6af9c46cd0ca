/**
 * Process-wide memory ids (ID.h): a counter that hands out 1, 2, 3, ...
 * so that 0 can stand for "no id", and a map from memory id to the address
 * of the loaded object, split into 256 shards chosen by the id's low byte.
 * The counter and the shard table are static in the source; here each is
 * one object.
 */
module MemoryIds {
  const UINT64_LIMIT: int := 0x1_0000_0000_0000_0000

  /** `uint64_t`. */
  type uint64 = x: int | 0 <= x < UINT64_LIMIT

  /** An object address; `NULL` (0) is `nullptr`. */
  type Pointer = nat

  const NULL: Pointer := 0

  /** `MemoryID::counter`: the id the next call returns. */
  class MemoryId {
    var counter: uint64

    /** The counter starts at 1. */
    constructor ()
      ensures counter == 1
    {
      counter := 1;
    }

    /** `MemoryID::next`: returns the counter and increments it, wrapping like `uint64_t`. */
    method Next() returns (id: uint64)
      modifies this
      ensures id == old(counter) && counter == (old(counter) + 1) % UINT64_LIMIT
    {
      id := counter;
      counter := (counter + 1) % UINT64_LIMIT;
    }
  }

  /** The results of `k` successive calls of `Next` on a counter at `start`. */
  function NextIds(start: uint64, k: nat): seq<uint64>
    decreases k
  {
    if k == 0 then [] else [start] + NextIds((start + 1) % UINT64_LIMIT, k - 1)
  }

  /** Call `i` returns `start + i`, modulo 2^64. */
  lemma {:induction false} NextIdsCount(start: uint64, k: nat)
    decreases k
    ensures |NextIds(start, k)| == k
    ensures forall i :: 0 <= i < k ==> NextIds(start, k)[i] == (start + i) % UINT64_LIMIT
  {
    if k > 0 {
      var next: uint64 := (start + 1) % UINT64_LIMIT;
      NextIdsCount(next, k - 1);
      var ids := NextIds(start, k);
      forall i | 0 <= i < k
        ensures ids[i] == (start + i) % UINT64_LIMIT
      {
        if i > 0 {
          assert ids[i] == NextIds(next, k - 1)[i - 1];
          assert (next + (i - 1)) % UINT64_LIMIT == (start + i) % UINT64_LIMIT;
        }
      }
    }
  }

  /**
   * From the initial counter, the first call returns 1 and each call one
   * more than the previous, so before the counter wraps every id is
   * nonzero and distinct; the wrap comes at call 2^64 - 1, which returns 0.
   */
  lemma FirstIds(k: nat)
    ensures var ids := NextIds(1, k);
      && |ids| == k
      && (k > 0 ==> ids[0] == 1)
      && (forall i :: 0 <= i < k && i < UINT64_LIMIT - 1 ==> ids[i] == i + 1)
      && (forall i, j :: 0 <= i < j < k && j < UINT64_LIMIT - 1 ==> ids[i] < ids[j])
      && (k == UINT64_LIMIT ==> ids[UINT64_LIMIT - 1] == 0)
  {
    NextIdsCount(1, k);
  }

  // ---------------------------------------------------------------------------
  // The sharded id map

  const NUM_SHARDS: nat := 256

  function Pow2(k: nat): (p: nat)
    ensures p >= 1
  {
    if k == 0 then 1 else 2 * Pow2(k - 1)
  }

  /** Bitwise `&` of two naturals, bit by bit from the lowest. */
  function BitAnd(a: nat, b: nat): nat
  {
    if a == 0 || b == 0 then 0 else 2 * BitAnd(a / 2, b / 2) + (a % 2) * (b % 2)
  }

  /** The `k` low bits of `a`. */
  function LowBits(a: nat, k: nat): nat
  {
    if k == 0 then 0 else 2 * LowBits(a / 2, k - 1) + a % 2
  }

  /** `a` shifted right by `k` bits. */
  function Shifted(a: nat, k: nat): nat
  {
    if k == 0 then a else Shifted(a / 2, k - 1)
  }

  /** Masking with `2^k - 1` keeps the `k` low bits. */
  lemma {:induction false} MaskKeepsLowBits(a: nat, k: nat)
    ensures BitAnd(a, Pow2(k) - 1) == LowBits(a, k)
  {
    if k > 0 {
      MaskKeepsLowBits(a / 2, k - 1);
      assert (Pow2(k) - 1) / 2 == Pow2(k - 1) - 1;
      if a == 0 {
        LowBitsOfZero(k);
      }
    }
  }

  lemma {:induction false} LowBitsOfZero(k: nat)
    ensures LowBits(0, k) == 0
  {
    if k > 0 {
      LowBitsOfZero(k - 1);
    }
  }

  /** `a` is its high part times `2^k` plus its `k` low bits, which are below `2^k`. */
  lemma {:induction false} SplitBits(a: nat, k: nat)
    ensures a == Pow2(k) * Shifted(a, k) + LowBits(a, k) && LowBits(a, k) < Pow2(k)
  {
    if k > 0 {
      SplitBits(a / 2, k - 1);
      var p, h, l := Pow2(k - 1), Shifted(a / 2, k - 1), LowBits(a / 2, k - 1);
      assert a == 2 * (p * h + l) + a % 2;
      assert 2 * (p * h) == (2 * p) * h;
    }
  }

  /** A number split as `256 * h + l` with `l` below 256 has remainder `l` mod 256. */
  lemma ByteRemainder(a: nat, h: nat, l: nat)
    requires a == 256 * h + l && l < 256
    ensures a % 256 == l
  { }

  /** Masking with 255 keeps the remainder mod 256. */
  lemma LowByte(a: nat)
    ensures BitAnd(a, 255) == a % 256
  {
    assert Pow2(8) == 256;
    MaskKeepsLowBits(a, 8);
    SplitBits(a, 8);
    hide BitAnd, LowBits, Shifted, Pow2;
    ByteRemainder(a, Shifted(a, 8), LowBits(a, 8));
  }

  /** `getShard`: the shard of an id is its low byte, `id & (NUM_SHARDS - 1)`. */
  function ShardOf(id: uint64): (s: nat)
    ensures s < NUM_SHARDS && s == id % NUM_SHARDS
  {
    LowByte(id);
    BitAnd(id, NUM_SHARDS - 1)
  }

  /** Every shard holds only ids that belong to it. */
  ghost predicate Sharded(shards: seq<map<uint64, Pointer>>)
  {
    && |shards| == NUM_SHARDS
    && forall s, id :: 0 <= s < |shards| && id in shards[s] ==> ShardOf(id) == s
  }

  /** `get`: the address stored for the id in its shard, `nullptr` when there is none. */
  function GetIn(shards: seq<map<uint64, Pointer>>, id: uint64): Pointer
    requires |shards| == NUM_SHARDS
  {
    var table := shards[ShardOf(id)];
    if id in table then table[id] else NULL
  }

  /** `set`: insert or overwrite the id's entry in its shard. */
  function SetIn(shards: seq<map<uint64, Pointer>>, id: uint64, p: Pointer): seq<map<uint64, Pointer>>
    requires |shards| == NUM_SHARDS
  {
    var table: map<uint64, Pointer> := shards[ShardOf(id)][id := p];
    shards[ShardOf(id) := table]
  }

  /** `erase`: drop the id's entry from its shard. */
  function EraseIn(shards: seq<map<uint64, Pointer>>, id: uint64): seq<map<uint64, Pointer>>
    requires |shards| == NUM_SHARDS
  {
    shards[ShardOf(id) := shards[ShardOf(id)] - {id}]
  }

  /** All shards together: the single map the sharded one stands for. */
  ghost function Table(shards: seq<map<uint64, Pointer>>): map<uint64, Pointer>
    requires Sharded(shards)
  {
    map id: uint64 | id in shards[ShardOf(id)] :: shards[ShardOf(id)][id]
  }

  /** The empty shard table maps nothing, so every `get` is `nullptr`. */
  lemma EmptyShards(id: uint64)
    ensures var shards := seq(NUM_SHARDS, _ => map[]);
      Sharded(shards) && Table(shards) == map[] && GetIn(shards, id) == NULL
  {
    var shards: seq<map<uint64, Pointer>> := seq(NUM_SHARDS, _ => map[]);
    assert forall id :: id !in shards[ShardOf(id)];
  }

  /** `get` reads the combined table, `nullptr` for an absent id. */
  lemma GetReadsTable(shards: seq<map<uint64, Pointer>>, id: uint64)
    requires Sharded(shards)
    ensures GetIn(shards, id) == if id in Table(shards) then Table(shards)[id] else NULL
  { }

  /**
   * `set` keeps every shard to its own ids, and acts on the combined table
   * as one insert-or-overwrite: `get` then returns the new address for the
   * id and what it returned before for every other id.
   */
  lemma SetUpdates(shards: seq<map<uint64, Pointer>>, id: uint64, p: Pointer, other: uint64)
    requires Sharded(shards)
    ensures Sharded(SetIn(shards, id, p)) && Table(SetIn(shards, id, p)) == Table(shards)[id := p]
    ensures GetIn(SetIn(shards, id, p), id) == p
    ensures other != id ==> GetIn(SetIn(shards, id, p), other) == GetIn(shards, other)
  {
    hide ShardOf;
    var shards2 := SetIn(shards, id, p);
    assert Sharded(shards2);
    var t, t2 := Table(shards), Table(shards2);
    assert forall x :: x in t2 <==> x in t[id := p];
    assert forall x :: x in t2 ==> t2[x] == t[id := p][x];
  }

  /**
   * `erase` keeps every shard to its own ids and removes just the id from
   * the combined table: `get` then returns `nullptr` for it and what it
   * returned before for every other id.
   */
  lemma EraseRemoves(shards: seq<map<uint64, Pointer>>, id: uint64, other: uint64)
    requires Sharded(shards)
    ensures Sharded(EraseIn(shards, id)) && Table(EraseIn(shards, id)) == Table(shards) - {id}
    ensures GetIn(EraseIn(shards, id), id) == NULL
    ensures other != id ==> GetIn(EraseIn(shards, id), other) == GetIn(shards, other)
  {
    hide ShardOf;
    var shards2 := EraseIn(shards, id);
    assert Sharded(shards2);
    var t, t2 := Table(shards), Table(shards2);
    assert forall x :: x in t2 <==> x in t - {id};
  }

  /** Erasing an id with no entry changes nothing. */
  lemma EraseAbsentIsNoop(shards: seq<map<uint64, Pointer>>, id: uint64)
    requires Sharded(shards) && id !in Table(shards)
    ensures EraseIn(shards, id) == shards
  {
    assert shards[ShardOf(id)] - {id} == shards[ShardOf(id)];
  }

  /** `MemoryIDMap`: the 256 shard tables. */
  class MemoryIdMap {
    var shards: seq<map<uint64, Pointer>>

    ghost predicate Valid()
      reads this
    {
      Sharded(shards)
    }

    /** 256 empty shards. */
    constructor ()
      ensures Valid() && Table(shards) == map[]
    {
      shards := seq(NUM_SHARDS, _ => map[]);
      EmptyShards(0);
    }

    /** Insert or update the id's address. */
    method Set(memoryId: uint64, p: Pointer)
      requires Valid()
      modifies this
      ensures Valid() && shards == SetIn(old(shards), memoryId, p)
      ensures Table(shards) == old(Table(shards))[memoryId := p]
    {
      SetUpdates(shards, memoryId, p, memoryId);
      var s := ShardOf(memoryId);
      var table: map<uint64, Pointer> := shards[s][memoryId := p];
      shards := shards[s := table];
    }

    /** The id's address, `nullptr` when it has none. */
    function Get(memoryId: uint64): (p: Pointer)
      reads this
      requires Valid()
      ensures p == if memoryId in Table(shards) then Table(shards)[memoryId] else NULL
    {
      GetReadsTable(shards, memoryId);
      GetIn(shards, memoryId)
    }

    /** Remove the id's address, if any. */
    method Erase(memoryId: uint64)
      requires Valid()
      modifies this
      ensures Valid() && shards == EraseIn(old(shards), memoryId)
      ensures Table(shards) == old(Table(shards)) - {memoryId}
    {
      EraseRemoves(shards, memoryId, memoryId);
      var s := ShardOf(memoryId);
      shards := shards[s := shards[s] - {memoryId}];
    }
  }
}
