/**
 * The free-byte list of one chunk of the first-fit object store
 * (`freeByteRangesList` in code-core/MemoryManagerCPU.h): a vector of
 * (startOffset, freeBytes) ranges kept in address order, carved from the
 * front by allocation and grown back, with neighbour coalescing, by release.
 */
module FreeList {
  datatype FreeRange = FreeRange(start: nat, bytes: nat)

  /** One past the last byte of a range. */
  function End(r: FreeRange): nat { r.start + r.bytes }

  /** Two ranges touch when the first ends exactly where the second starts. */
  predicate Touch(a: FreeRange, b: FreeRange) { End(a) == b.start }

  /** Total free bytes described by a list. */
  function Sum(l: seq<FreeRange>): nat
  {
    if l == [] then 0 else l[0].bytes + Sum(l[1..])
  }

  /** Ranges are in address order and no range overlaps a later one. */
  ghost predicate Ordered(l: seq<FreeRange>)
  {
    forall i, j :: 0 <= i < j < |l| ==> End(l[i]) <= l[j].start
  }

  /** Every range ends inside a block of `limit` bytes. */
  ghost predicate Within(l: seq<FreeRange>, limit: nat)
  {
    forall i :: 0 <= i < |l| ==> End(l[i]) <= limit
  }

  /**
   * An empty range can only sit at the very end of the block (a fresh chunk
   * whose whole block was taken by one object keeps such a range).
   */
  ghost predicate EmptyOnlyAtEnd(l: seq<FreeRange>, limit: nat)
  {
    forall i :: 0 <= i < |l| && l[i].bytes == 0 ==> l[i].start == limit
  }

  ghost predicate WellFormed(l: seq<FreeRange>, limit: nat)
  {
    Ordered(l) && Within(l, limit) && EmptyOnlyAtEnd(l, limit)
  }

  /** No two neighbouring entries touch: coalescing left nothing to merge. */
  ghost predicate Separated(l: seq<FreeRange>)
  {
    forall i :: 0 <= i < |l| - 1 ==> End(l[i]) < l[i + 1].start
  }

  /** The byte range [p, p + n) lies wholly before or wholly after every free range. */
  ghost predicate Avoids(l: seq<FreeRange>, p: nat, n: nat)
  {
    forall i :: 0 <= i < |l| ==> End(l[i]) <= p || p + n <= l[i].start
  }

  /**
   * `std::lower_bound` by start offset: the first position whose range does
   * not start before `off`.
   */
  function LowerBound(l: seq<FreeRange>, off: nat): (pos: nat)
    ensures pos <= |l|
    ensures forall k :: 0 <= k < pos ==> l[k].start < off
    ensures pos < |l| ==> off <= l[pos].start
  {
    if l == [] || off <= l[0].start then 0 else 1 + LowerBound(l[1..], off)
  }

  /** `vector::insert` of `r` before position `pos`. */
  function InsertAt(l: seq<FreeRange>, pos: nat, r: FreeRange): seq<FreeRange>
    requires pos <= |l|
  {
    seq(|l| + 1, k requires 0 <= k <= |l| => if k < pos then l[k] else if k == pos then r else l[k - 1])
  }

  /** Grow entry `i` by the bytes of entry `i + 1` and erase entry `i + 1`. */
  function MergeAt(l: seq<FreeRange>, i: nat): seq<FreeRange>
    requires i + 1 < |l|
  {
    seq(|l| - 1, k requires 0 <= k < |l| - 1 =>
      if k < i then l[k] else if k == i then FreeRange(l[i].start, l[i].bytes + l[i + 1].bytes) else l[k + 1])
  }

  /**
   * Return [off, off + size) to the list: insert it at its lower bound, merge
   * it into a touching previous range, then merge the range the iterator
   * points at with a touching next range. After merging with the previous
   * range, `DeleteObject` steps the iterator back to the merged range
   * (`stepBack`); `ModifyObject` does not, so its iterator is left on the
   * range after the merged one.
   */
  function Release(l: seq<FreeRange>, off: nat, size: nat, stepBack: bool): seq<FreeRange>
  {
    var pos := LowerBound(l, off);
    Coalesce(InsertAt(l, pos, FreeRange(off, size)), pos, stepBack)
  }

  /** The two merge steps after inserting the released range at position `pos`. */
  function Coalesce(l: seq<FreeRange>, pos: nat, stepBack: bool): seq<FreeRange>
    requires pos < |l|
  {
    if pos > 0 && Touch(l[pos - 1], l[pos]) then
      MergeNext(MergeAt(l, pos - 1), if stepBack then pos - 1 else pos)
    else
      MergeNext(l, pos)
  }

  /** Merge the range at `it` with the next one when both exist and they touch. */
  function MergeNext(l: seq<FreeRange>, it: nat): seq<FreeRange>
  {
    if it + 1 < |l| && Touch(l[it], l[it + 1]) then MergeAt(l, it) else l
  }

  /** The range the first-fit search takes from entry `i`: exact fits are erased, larger ranges shrink from the front. */
  function Carve(l: seq<FreeRange>, i: nat, need: nat): seq<FreeRange>
    requires i < |l| && need <= l[i].bytes
  {
    if l[i].bytes == need then l[..i] + l[i + 1..]
    else l[i := FreeRange(l[i].start + need, l[i].bytes - need)]
  }

  /** The index the first-fit loop stops at: the first range with at least `need` bytes. */
  predicate IsFirstFit(l: seq<FreeRange>, need: nat, i: nat)
  {
    i < |l| && need <= l[i].bytes && forall k :: 0 <= k < i ==> l[k].bytes < need
  }

  /**
   * Where the first-fit loop stops: the first range with at least `need`
   * bytes, or `|l|` when no range is large enough.
   */
  function FirstFit(l: seq<FreeRange>, need: nat): (i: nat)
    ensures i <= |l|
    ensures i < |l| ==> IsFirstFit(l, need, i)
    ensures i == |l| ==> forall k :: 0 <= k < |l| ==> l[k].bytes < need
  {
    if l == [] then 0
    else if need <= l[0].bytes then 0
    else
      var rest := FirstFit(l[1..], need);
      assert forall k :: 0 < k <= rest && k < |l| ==> l[k] == l[1..][k - 1];
      1 + rest
  }

  // ---------------------------------------------------------------------------
  // Positions in the edited lists

  lemma InsertAtIndex(l: seq<FreeRange>, pos: nat, r: FreeRange)
    requires pos <= |l|
    ensures |InsertAt(l, pos, r)| == |l| + 1
    ensures forall k :: 0 <= k < pos ==> InsertAt(l, pos, r)[k] == l[k]
    ensures InsertAt(l, pos, r)[pos] == r
    ensures forall k :: pos < k <= |l| ==> InsertAt(l, pos, r)[k] == l[k - 1]
  {
  }

  lemma MergeAtIndex(l: seq<FreeRange>, i: nat)
    requires i + 1 < |l|
    ensures |MergeAt(l, i)| == |l| - 1
    ensures forall k :: 0 <= k < i ==> MergeAt(l, i)[k] == l[k]
    ensures MergeAt(l, i)[i] == FreeRange(l[i].start, l[i].bytes + l[i + 1].bytes)
    ensures forall k :: i < k < |l| - 1 ==> MergeAt(l, i)[k] == l[k + 1]
  {
  }

  // ---------------------------------------------------------------------------
  // The free-byte total

  lemma {:induction false} SumAppend(a: seq<FreeRange>, b: seq<FreeRange>)
    ensures Sum(a + b) == Sum(a) + Sum(b)
  {
    if a == [] {
      assert a + b == b;
    } else {
      assert (a + b)[1..] == a[1..] + b;
      SumAppend(a[1..], b);
    }
  }

  /** Splitting a list anywhere splits its total. */
  lemma SumSplit(l: seq<FreeRange>, i: nat)
    requires i <= |l|
    ensures Sum(l) == Sum(l[..i]) + Sum(l[i..])
  {
    assert l == l[..i] + l[i..];
    SumAppend(l[..i], l[i..]);
  }

  /** The total of a list starting at `i` is entry `i` plus the rest. */
  lemma SumFrom(l: seq<FreeRange>, i: nat)
    requires i < |l|
    ensures Sum(l[i..]) == l[i].bytes + Sum(l[i + 1..])
  {
    assert l[i..][1..] == l[i + 1..];
  }

  lemma InsertAtSum(l: seq<FreeRange>, pos: nat, r: FreeRange)
    requires pos <= |l|
    ensures Sum(InsertAt(l, pos, r)) == Sum(l) + r.bytes
  {
    var l1 := InsertAt(l, pos, r);
    SumSplit(l1, pos);
    SumFrom(l1, pos);
    assert l1[..pos] == l[..pos] && l1[pos + 1..] == l[pos..];
    SumSplit(l, pos);
  }

  lemma MergeAtSum(l: seq<FreeRange>, i: nat)
    requires i + 1 < |l|
    ensures Sum(MergeAt(l, i)) == Sum(l)
  {
    var m := MergeAt(l, i);
    SumSplit(m, i);
    SumFrom(m, i);
    assert m[..i] == l[..i] && m[i + 1..] == l[i + 2..];
    SumSplit(l, i);
    SumFrom(l, i);
    SumFrom(l, i + 1);
  }

  /** Releasing a range adds exactly its size to the free-byte total, whatever merging happens. */
  lemma ReleaseSum(l: seq<FreeRange>, off: nat, size: nat, stepBack: bool)
    ensures Sum(Release(l, off, size, stepBack)) == Sum(l) + size
  {
    var pos := LowerBound(l, off);
    var inserted := InsertAt(l, pos, FreeRange(off, size));
    InsertAtSum(l, pos, FreeRange(off, size));
    if pos > 0 && Touch(inserted[pos - 1], inserted[pos]) {
      MergeAtSum(inserted, pos - 1);
      MergeNextSum(MergeAt(inserted, pos - 1), if stepBack then pos - 1 else pos);
    } else {
      MergeNextSum(inserted, pos);
    }
  }

  lemma MergeNextSum(l: seq<FreeRange>, it: nat)
    ensures Sum(MergeNext(l, it)) == Sum(l)
  {
    if it + 1 < |l| && Touch(l[it], l[it + 1]) { MergeAtSum(l, it); }
  }

  /** Carving `need` bytes removes exactly `need` from the free-byte total. */
  lemma CarveSum(l: seq<FreeRange>, i: nat, need: nat)
    requires i < |l| && need <= l[i].bytes
    ensures Sum(Carve(l, i, need)) + need == Sum(l)
  {
    SumSplit(l, i);
    SumFrom(l, i);
    var c := Carve(l, i, need);
    if l[i].bytes == need {
      SumAppend(l[..i], l[i + 1..]);
    } else {
      SumSplit(c, i);
      SumFrom(c, i);
      assert c[..i] == l[..i];
      assert c[i + 1..] == l[i + 1..];
    }
  }

  /** Disjoint ranges inside a block cannot add up to more than the block. */
  lemma {:induction false} SumBound(l: seq<FreeRange>, lo: nat, limit: nat)
    requires Ordered(l) && Within(l, limit) && lo <= limit
    requires forall i :: 0 <= i < |l| ==> lo <= l[i].start
    ensures Sum(l) <= limit - lo
  {
    if l != [] {
      assert Ordered(l[1..]) && Within(l[1..], limit) by {
        forall i, j | 0 <= i < j < |l[1..]| ensures End(l[1..][i]) <= l[1..][j].start {
          assert l[1..][i] == l[i + 1] && l[1..][j] == l[j + 1];
        }
      }
      forall i | 0 <= i < |l[1..]| ensures End(l[0]) <= l[1..][i].start {
        assert l[1..][i] == l[i + 1];
      }
      SumBound(l[1..], End(l[0]), limit);
    }
  }

  // ---------------------------------------------------------------------------
  // Well-formedness

  lemma InsertOrdered(l: seq<FreeRange>, off: nat, size: nat, limit: nat)
    requires WellFormed(l, limit) && Avoids(l, off, size)
    requires 0 < size && off + size <= limit
    ensures Ordered(InsertAt(l, LowerBound(l, off), FreeRange(off, size)))
  {
    var pos := LowerBound(l, off);
    var r := FreeRange(off, size);
    var l1 := InsertAt(l, pos, r);
    InsertAtIndex(l, pos, r);
    forall i, j | 0 <= i < j < |l1| ensures End(l1[i]) <= l1[j].start {
      if j < pos {
        assert l1[i] == l[i] && l1[j] == l[j];
      } else if pos < i {
        assert l1[i] == l[i - 1] && l1[j] == l[j - 1];
      } else if i == pos {
        assert l1[j] == l[j - 1];
        assert off <= l[pos].start <= l[j - 1].start;
        if l[j - 1].bytes == 0 { assert l[j - 1].start == limit; }
      } else if j == pos {
        assert l1[i] == l[i] && l[i].start < off;
      } else {
        assert l1[i] == l[i] && l1[j] == l[j - 1];
        assert End(l[i]) <= l[pos - 1].start || i == pos - 1;
      }
    }
  }

  lemma InsertWellFormed(l: seq<FreeRange>, off: nat, size: nat, limit: nat)
    requires WellFormed(l, limit) && Avoids(l, off, size)
    requires 0 < size && off + size <= limit
    ensures WellFormed(InsertAt(l, LowerBound(l, off), FreeRange(off, size)), limit)
  {
    var pos := LowerBound(l, off);
    var l1 := InsertAt(l, pos, FreeRange(off, size));
    InsertOrdered(l, off, size, limit);
    InsertAtIndex(l, pos, FreeRange(off, size));
    assert Within(l1, limit) by {
      forall k | 0 <= k < |l1| ensures End(l1[k]) <= limit {
        if k < pos { assert l1[k] == l[k]; } else if pos < k { assert l1[k] == l[k - 1]; }
      }
    }
    assert EmptyOnlyAtEnd(l1, limit) by {
      forall k | 0 <= k < |l1| && l1[k].bytes == 0 ensures l1[k].start == limit {
        if pos < k { assert l1[k] == l[k - 1]; }
      }
    }
  }

  lemma MergeAtWellFormed(l: seq<FreeRange>, i: nat, limit: nat)
    requires i + 1 < |l| && WellFormed(l, limit) && Touch(l[i], l[i + 1])
    ensures WellFormed(MergeAt(l, i), limit)
  {
    MergeAtIndex(l, i);
  }

  lemma MergeNextWellFormed(l: seq<FreeRange>, it: nat, limit: nat)
    requires WellFormed(l, limit)
    ensures WellFormed(MergeNext(l, it), limit)
  {
    if it + 1 < |l| && Touch(l[it], l[it + 1]) { MergeAtWellFormed(l, it, limit); }
  }

  /** Releasing a range that overlaps no free range keeps the list ordered, in the block, and without stray empty ranges. */
  lemma ReleaseWellFormed(l: seq<FreeRange>, off: nat, size: nat, stepBack: bool, limit: nat)
    requires WellFormed(l, limit) && Avoids(l, off, size)
    requires 0 < size && off + size <= limit
    ensures WellFormed(Release(l, off, size, stepBack), limit)
  {
    var pos := LowerBound(l, off);
    var inserted := InsertAt(l, pos, FreeRange(off, size));
    InsertWellFormed(l, off, size, limit);
    if pos > 0 && Touch(inserted[pos - 1], inserted[pos]) {
      MergeAtWellFormed(inserted, pos - 1, limit);
      MergeNextWellFormed(MergeAt(inserted, pos - 1), if stepBack then pos - 1 else pos, limit);
    } else {
      MergeNextWellFormed(inserted, pos, limit);
    }
  }

  lemma CarveWellFormed(l: seq<FreeRange>, i: nat, need: nat, limit: nat)
    requires i < |l| && 0 < need <= l[i].bytes && WellFormed(l, limit)
    ensures WellFormed(Carve(l, i, need), limit)
  {
    var c := Carve(l, i, need);
    if l[i].bytes == need {
      assert forall k :: 0 <= k < |c| ==> c[k] == (if k < i then l[k] else l[k + 1]);
      assert Ordered(c) by {
        forall a, b | 0 <= a < b < |c| ensures End(c[a]) <= c[b].start {
          assert c[a] == l[if a < i then a else a + 1] && c[b] == l[if b < i then b else b + 1];
        }
      }
    } else {
      assert forall k :: 0 <= k < |c| && k != i ==> c[k] == l[k];
      assert Ordered(c) by {
        forall a, b | 0 <= a < b < |c| ensures End(c[a]) <= c[b].start {
          assert End(l[a]) <= l[b].start;
        }
      }
    }
  }

  // ---------------------------------------------------------------------------
  // Ranges that stay clear of the free list

  lemma MergeAtAvoids(l: seq<FreeRange>, i: nat, p: nat, n: nat)
    requires i + 1 < |l| && Touch(l[i], l[i + 1]) && Avoids(l, p, n) && 0 < n
    ensures Avoids(MergeAt(l, i), p, n)
  {
    MergeAtIndex(l, i);
    assert End(l[i]) <= p || p + n <= l[i].start;
    assert End(l[i + 1]) <= p || p + n <= l[i + 1].start;
  }

  lemma MergeNextAvoids(l: seq<FreeRange>, it: nat, p: nat, n: nat)
    requires Avoids(l, p, n) && 0 < n
    ensures Avoids(MergeNext(l, it), p, n)
  {
    if it + 1 < |l| && Touch(l[it], l[it + 1]) { MergeAtAvoids(l, it, p, n); }
  }

  /** Releasing [off, off + size) leaves any disjoint range [p, p + n) clear of the free list. */
  lemma ReleaseAvoids(l: seq<FreeRange>, off: nat, size: nat, stepBack: bool, p: nat, n: nat)
    requires Avoids(l, p, n) && 0 < n
    requires off + size <= p || p + n <= off
    ensures Avoids(Release(l, off, size, stepBack), p, n)
  {
    var pos := LowerBound(l, off);
    var inserted := InsertAt(l, pos, FreeRange(off, size));
    InsertAtIndex(l, pos, FreeRange(off, size));
    assert Avoids(inserted, p, n);
    if pos > 0 && Touch(inserted[pos - 1], inserted[pos]) {
      MergeAtAvoids(inserted, pos - 1, p, n);
      MergeNextAvoids(MergeAt(inserted, pos - 1), if stepBack then pos - 1 else pos, p, n);
    } else {
      MergeNextAvoids(inserted, pos, p, n);
    }
  }

  /** Carving only shrinks free space, so whatever avoided the list still does. */
  lemma CarveAvoids(l: seq<FreeRange>, i: nat, need: nat, p: nat, n: nat)
    requires i < |l| && need <= l[i].bytes && Avoids(l, p, n)
    ensures Avoids(Carve(l, i, need), p, n)
  {
  }

  /** The carved bytes [start, start + need) overlap no range left in a well-formed list. */
  lemma CarvedAvoids(l: seq<FreeRange>, i: nat, need: nat, limit: nat)
    requires i < |l| && 0 < need <= l[i].bytes && WellFormed(l, limit)
    ensures Avoids(Carve(l, i, need), l[i].start, need)
  {
  }

  /** A sub-range of a range that avoids the list avoids it too. */
  lemma AvoidsSub(l: seq<FreeRange>, p: nat, n: nat, q: nat, m: nat)
    requires Avoids(l, p, n) && p <= q && q + m <= p + n && 0 < m
    ensures Avoids(l, q, m)
  {
  }

  // ---------------------------------------------------------------------------
  // Coalescing

  /** Every pair of neighbours is apart except possibly the pair at `q`, `q + 1`. */
  ghost predicate SeparatedBut(l: seq<FreeRange>, q: nat)
  {
    forall k :: 0 <= k < |l| - 1 && k != q ==> End(l[k]) < l[k + 1].start
  }

  /** Merging the one pair that may touch completes the coalescing. */
  lemma MergeNextSeparates(l: seq<FreeRange>, q: nat)
    requires Ordered(l) && SeparatedBut(l, q)
    ensures Separated(MergeNext(l, q))
  {
    if q + 1 < |l| && Touch(l[q], l[q + 1]) {
      var res := MergeAt(l, q);
      MergeAtIndex(l, q);
      forall k | 0 <= k < |res| - 1 ensures End(res[k]) < res[k + 1].start {
        if k + 1 < q {
        } else if k + 1 == q {
          assert res[k] == l[k] && res[k + 1].start == l[q].start;
        } else if k == q {
          assert End(res[k]) == End(l[q + 1]) && res[k + 1] == l[q + 2];
        } else {
          assert res[k] == l[k + 1] && res[k + 1] == l[k + 2];
        }
      }
    }
  }

  /** After inserting at `pos`, only the two pairs around position `pos` can touch. */
  ghost predicate SeparatedAround(l: seq<FreeRange>, pos: nat)
  {
    forall k: int :: 0 <= k < |l| - 1 && k + 1 != pos && k != pos ==> End(l[k]) < l[k + 1].start
  }

  lemma InsertSeparatedAround(l: seq<FreeRange>, pos: nat, r: FreeRange)
    requires pos <= |l| && Separated(l)
    ensures SeparatedAround(InsertAt(l, pos, r), pos)
  {
    var ins := InsertAt(l, pos, r);
    InsertAtIndex(l, pos, r);
    forall k: int | 0 <= k < |ins| - 1 && k + 1 != pos && k != pos ensures End(ins[k]) < ins[k + 1].start {
      if k + 1 < pos {
        assert ins[k] == l[k] && ins[k + 1] == l[k + 1];
      } else {
        assert ins[k] == l[k - 1] && ins[k + 1] == l[k];
      }
    }
  }

  lemma MergePrevSeparatedBut(l: seq<FreeRange>, pos: nat)
    requires 0 < pos < |l| && SeparatedAround(l, pos)
    ensures SeparatedBut(MergeAt(l, pos - 1), pos - 1)
  {
    var m := MergeAt(l, pos - 1);
    MergeAtIndex(l, pos - 1);
    forall k | 0 <= k < |m| - 1 && k != pos - 1 ensures End(m[k]) < m[k + 1].start {
      if k + 1 < pos - 1 {
        assert m[k] == l[k] && m[k + 1] == l[k + 1];
      } else if k + 1 == pos - 1 {
        assert m[k] == l[k] && m[k + 1].start == l[k + 1].start;
      } else {
        assert m[k] == l[k + 1] && m[k + 1] == l[k + 2];
      }
    }
  }

  /**
   * On the delete path (iterator stepped back) coalescing is complete:
   * if no two neighbours touched before, none touch afterwards.
   */
  lemma ReleaseKeepsSeparated(l: seq<FreeRange>, off: nat, size: nat, limit: nat)
    requires WellFormed(l, limit) && Separated(l) && Avoids(l, off, size)
    requires 0 < size && off + size <= limit
    ensures Separated(Release(l, off, size, true))
  {
    var pos := LowerBound(l, off);
    var ins := InsertAt(l, pos, FreeRange(off, size));
    InsertWellFormed(l, off, size, limit);
    InsertSeparatedAround(l, pos, FreeRange(off, size));
    InsertAtIndex(l, pos, FreeRange(off, size));
    if pos > 0 && Touch(ins[pos - 1], ins[pos]) {
      MergeAtWellFormed(ins, pos - 1, limit);
      MergePrevSeparatedBut(ins, pos);
      MergeNextSeparates(MergeAt(ins, pos - 1), pos - 1);
    } else {
      assert SeparatedBut(ins, pos);
      MergeNextSeparates(ins, pos);
    }
  }

  /** Allocation never makes two neighbours touch. */
  lemma CarveSeparated(l: seq<FreeRange>, i: nat, need: nat)
    requires i < |l| && need <= l[i].bytes && Separated(l)
    ensures Separated(Carve(l, i, need))
  {
    if l[i].bytes == need {
      var res := Carve(l, i, need);
      forall k | 0 <= k < |res| - 1 ensures End(res[k]) < res[k + 1].start {
        if k + 1 < i {
          assert res[k] == l[k] && res[k + 1] == l[k + 1];
        } else if k + 1 == i {
          assert res[k] == l[k] && res[k + 1] == l[k + 2];
        } else {
          assert res[k] == l[k + 1] && res[k + 1] == l[k + 2];
        }
      }
    }
  }

  /** A range released just before the first free range merges into it. */
  lemma ReleaseBeforeFirst(l: seq<FreeRange>, off: nat, size: nat, stepBack: bool)
    requires l != [] && off + size == l[0].start
    ensures Release(l, off, size, stepBack) == [FreeRange(off, size + l[0].bytes)] + l[1..]
  {
    var inserted := InsertAt(l, 0, FreeRange(off, size));
    InsertAtIndex(l, 0, FreeRange(off, size));
    MergeAtIndex(inserted, 0);
    var merged := MergeAt(inserted, 0);
    var want := [FreeRange(off, size + l[0].bytes)] + l[1..];
    assert |merged| == |want|;
    forall k | 0 <= k < |want| ensures merged[k] == want[k] {
      if k > 0 { assert merged[k] == inserted[k + 1] == l[k]; }
    }
  }

  /**
   * On the relocation path of `ModifyObject` (no step back) coalescing can
   * stop short: releasing [8, 16) between [0, 8) and [16, 24) merges it into
   * the first range but leaves the result touching the second.
   */
  lemma ModifyReleaseLeavesTouching()
    ensures var l := [FreeRange(0, 8), FreeRange(16, 8)];
      Separated(l) && Avoids(l, 8, 8) && WellFormed(l, 24)
      && Release(l, 8, 8, false) == [FreeRange(0, 16), FreeRange(16, 8)]
      && !Separated(Release(l, 8, 8, false))
      && Release(l, 8, 8, true) == [FreeRange(0, 24)]
  {
    var l := [FreeRange(0, 8), FreeRange(16, 8)];
    assert LowerBound(l, 8) == 1 by {
      assert l[1..] == [FreeRange(16, 8)];
    }
    var inserted := InsertAt(l, 1, FreeRange(8, 8));
    assert inserted == [FreeRange(0, 8), FreeRange(8, 8), FreeRange(16, 8)];
    assert MergeAt(inserted, 0) == [FreeRange(0, 16), FreeRange(16, 8)];
    assert MergeAt([FreeRange(0, 16), FreeRange(16, 8)], 0) == [FreeRange(0, 24)];
  }
}
