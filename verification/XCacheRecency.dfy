/**
 What "least recently used" means, without reference to clocks, heaps or queues: of the entries
 that are present, the one evicted is the one whose last access lies furthest back in the
 history of operations. The abstract machine of XCacheLru, and so both its refinements, do that.
 */
module XCacheRecency {
  import opened Words
  import opened XCacheLru

  /** When idx was last accessed: the number of the operation, counted from 1, or 0. */
  function LastUse(history: seq<Op>, idx: nat): nat {
    if history == [] then 0
    else
      var n := |history| - 1;
      if history[n].idx == idx then n + 1 else LastUse(history[..n], idx)
  }

  /** The entries present after some operations. */
  ghost function Present(order: seq<nat>, ops: seq<Op>, size: nat): seq<nat>
    requires size > 0
    decreases |ops|
  {
    if ops == [] then order else Present(After(order, ops[0], size), ops[1..], size)
  }

  /** The entries are listed in the order of their last accesses. */
  ghost predicate ByLastUse(history: seq<Op>, order: seq<nat>) {
    forall i, j | 0 <= i < j < |order| :: LastUse(history, order[i]) < LastUse(history, order[j])
  }

  lemma {:induction false} LastUseBound(history: seq<Op>, idx: nat)
    ensures LastUse(history, idx) <= |history|
    decreases |history|
  {
    if history != [] && history[|history| - 1].idx != idx { LastUseBound(history[..|history| - 1], idx); }
  }

  /** Only the last access of the node accessed changes, and it is later than all others. */
  lemma NextUse(history: seq<Op>, op: Op, idx: nat)
    ensures LastUse(history + [op], idx) == if idx == op.idx then |history| + 1 else LastUse(history, idx)
  {
    assert (history + [op])[..|history|] == history;
  }

  /** Leaving one out keeps the order of the others. */
  lemma {:induction false} WithoutSorted(history: seq<Op>, order: seq<nat>, idx: nat)
    requires ByLastUse(history, order)
    ensures ByLastUse(history, Without(order, idx))
    decreases |order|
  {
    if order != [] {
      var n := |order| - 1;
      WithoutSorted(history, order[..n], idx);
      WithoutFacts(order[..n], idx);
      forall k | k in order[..n] ensures LastUse(history, k) < LastUse(history, order[n]) {
        var i :| 0 <= i < n && order[..n][i] == k;
      }
    }
  }

  lemma AccessSorted(history: seq<Op>, order: seq<nat>, op: Op)
    requires ByLastUse(history, order)
    ensures ByLastUse(history + [op], Touched(order, op.idx))
  {
    var rest := Without(order, op.idx);
    WithoutSorted(history, order, op.idx);
    WithoutFacts(order, op.idx);
    forall i | 0 <= i < |rest| ensures LastUse(history + [op], rest[i]) == LastUse(history, rest[i]) <= |history| {
      assert rest[i] in rest;
      NextUse(history, op, rest[i]);
      LastUseBound(history, rest[i]);
    }
    NextUse(history, op, op.idx);
  }

  lemma AfterSorted(history: seq<Op>, order: seq<nat>, op: Op, size: nat)
    requires size > 0 && ByLastUse(history, order)
    ensures ByLastUse(history + [op], After(order, op, size))
  {
    if op.Insert? && |order| >= size {
      AccessSorted(history, order[1..], op);
    } else {
      AccessSorted(history, order, op);
    }
  }

  /** An operation adds the node accessed, and takes away only the one it evicts. */
  lemma PresentAfter(order: seq<nat>, op: Op, size: nat, k: nat)
    requires size > 0
    ensures k in After(order, op, size)
            <==> k == op.idx || k in (if op.Insert? && |order| >= size then order[1..] else order)
  {
    WithoutFacts(order, op.idx);
    WithoutFacts(if |order| > 0 then order[1..] else [], op.idx);
  }

  /**
   After that history, with those entries present, the operation evicts e: the entry whose last
   access is the earliest, or none.
   */
  ghost predicate EvictsOldest(history: seq<Op>, order: seq<nat>, op: Op, size: nat, e: nat) {
    if op.Insert? && |order| >= size then
      e in order && forall k | k in order && k != e :: LastUse(history, e) < LastUse(history, k)
    else e == NONE
  }

  lemma FirstIsOldest(history: seq<Op>, order: seq<nat>, op: Op, size: nat)
    requires size > 0 && ByLastUse(history, order)
    ensures EvictsOldest(history, order, op, size, Evicted(order, op, size))
  {
  }

  /**
   Whatever was accessed before: the i-th operation of a run evicts, if the table is full, the
   entry whose last access is the earliest of all entries present at that time.
   */
  lemma {:induction false} EvictsLeastRecent(history: seq<Op>, order: seq<nat>, ops: seq<Op>, size: nat, i: nat)
    requires size > 0 && ByLastUse(history, order) && i < |ops|
    ensures |Evictions(order, ops, size)| == |ops|
    ensures EvictsOldest(history + ops[..i], Present(order, ops[..i], size), ops[i], size,
                         Evictions(order, ops, size)[i])
    decreases |ops|
  {
    EvictionCount(order, ops, size);
    if i == 0 {
      assert ops[..0] == [] && history + [] == history;
      FirstIsOldest(history, order, ops[0], size);
    } else {
      AfterSorted(history, order, ops[0], size);
      EvictsLeastRecent(history + [ops[0]], After(order, ops[0], size), ops[1..], size, i - 1);
      PresentSplit(order, ops, size, i);
      assert history + ops[..i] == history + [ops[0]] + ops[1..][..i - 1];
    }
  }

  lemma PresentSplit(order: seq<nat>, ops: seq<Op>, size: nat, i: nat)
    requires size > 0 && 0 < i < |ops|
    ensures Present(order, ops[..i], size) == Present(After(order, ops[0], size), ops[1..][..i - 1], size)
  {
    assert ops[..i][1..] == ops[1..][..i - 1];
  }

  lemma {:induction false} EvictionCount(order: seq<nat>, ops: seq<Op>, size: nat)
    requires size > 0
    ensures |Evictions(order, ops, size)| == |ops|
    decreases |ops|
  {
    if ops != [] { EvictionCount(After(order, ops[0], size), ops[1..], size); }
  }
}
