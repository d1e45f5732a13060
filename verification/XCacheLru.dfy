/**
 The two ways src/xtypes/xcache.c finds the least recently used entry: a scan over an array
 of access times (XCACHE_LRU_ARRAY) and an indexed MIN heap (XCACHE_LRU_HEAP). Both refine
 one abstract machine, a queue of node indexes ordered by last access, so both evict the
 same entry after every sequence of lookups and inserts.
 */
module XCacheLru {
  import opened Words
  import opened XBinHeap

  const LRU_MAX: Word := WORD_LIMIT - 1  // XCACHE_LRU_MAX: the node is not in the table
  const SCAN_MAX: Word := WORD_LIMIT - 2 // start value of the scan in __xcache_lru

  /** An access to node idx, by a lookup that finds it or by an insert that adds it. */
  datatype Op = Lookup(idx: nat) | Insert(idx: nat)

  // ----- the abstract machine: indexes in the table, least recently accessed first

  ghost function Without(order: seq<nat>, idx: nat): seq<nat> {
    if order == [] then []
    else
      var n := |order| - 1;
      Without(order[..n], idx) + if order[n] == idx then [] else [order[n]]
  }

  ghost function Touched(order: seq<nat>, idx: nat): seq<nat> {
    Without(order, idx) + [idx]
  }

  /** The order after one operation on a table of at most size entries. */
  ghost function After(order: seq<nat>, op: Op, size: nat): seq<nat>
    requires size > 0
  {
    if op.Insert? && |order| >= size then Touched(order[1..], op.idx) else Touched(order, op.idx)
  }

  /** The index evicted by one operation, or NONE. */
  ghost function Evicted(order: seq<nat>, op: Op, size: nat): nat
    requires size > 0
  {
    if op.Insert? && |order| >= size then order[0] else NONE
  }

  /** A lookup that hits, or an insert of a node that is not in the table. */
  ghost predicate Enabled(order: seq<nat>, op: Op, nodes: nat) {
    op.idx < nodes && (op.Lookup? <==> op.idx in order)
  }

  /** t gives increasing times, none after now, to the members of order. */
  ghost predicate Timed(order: seq<nat>, t: seq<Word>, now: int) {
    if order == [] then true
    else
      var n := |order| - 1;
      order[n] < |t| && t[order[n]] <= now && Timed(order[..n], t, t[order[n]] as int - 1)
  }

  lemma {:induction false} TimedBound(order: seq<nat>, t: seq<Word>, now: int, i: nat)
    requires Timed(order, t, now) && i < |order|
    ensures order[i] < |t| && t[order[i]] <= now
  {
    var n := |order| - 1;
    if i < n {
      TimedBound(order[..n], t, t[order[n]] as int - 1, i);
    }
  }

  lemma TimedMember(order: seq<nat>, t: seq<Word>, now: int, k: nat)
    requires Timed(order, t, now) && k in order
    ensures k < |t| && t[k] <= now
  {
    var i :| 0 <= i < |order| && order[i] == k;
    TimedBound(order, t, now, i);
  }

  lemma {:induction false} TimedLater(order: seq<nat>, t: seq<Word>, now: int, now': int)
    requires Timed(order, t, now) && now <= now'
    ensures Timed(order, t, now')
  {
  }

  /** Times of nodes outside order do not matter. */
  lemma {:induction false} TimedFrame(order: seq<nat>, t: seq<Word>, now: int, idx: nat, x: Word)
    requires Timed(order, t, now) && idx < |t| && idx !in order
    ensures Timed(order, t[idx := x], now)
  {
    if order != [] {
      var n := |order| - 1;
      assert order[n] in order && forall k | k in order[..n] :: k in order;
      TimedFrame(order[..n], t, t[order[n]] as int - 1, idx, x);
    }
  }

  lemma {:induction false} WithoutTimed(order: seq<nat>, idx: nat, t: seq<Word>, now: int)
    requires Timed(order, t, now)
    ensures Timed(Without(order, idx), t, now)
  {
    if order != [] {
      var n := |order| - 1;
      var w := Without(order[..n], idx);
      WithoutTimed(order[..n], idx, t, t[order[n]] as int - 1);
      if order[n] == idx {
        TimedLater(w, t, t[order[n]] as int - 1, now);
        assert Without(order, idx) == w;
      } else {
        assert (w + [order[n]])[..|w|] == w;
      }
    }
  }

  lemma {:induction false} WithoutFacts(order: seq<nat>, idx: nat)
    ensures forall k :: k in Without(order, idx) <==> k in order && k != idx
  {
    if order != [] {
      var n := |order| - 1;
      WithoutFacts(order[..n], idx);
      assert order == order[..n] + [order[n]];
    }
  }

  /** Because times differ, idx occurs at most once. */
  lemma {:induction false} WithoutSize(order: seq<nat>, idx: nat, t: seq<Word>, now: int)
    requires Timed(order, t, now)
    ensures |Without(order, idx)| == |order| - if idx in order then 1 else 0
  {
    if order != [] {
      var n := |order| - 1;
      assert order == order[..n] + [order[n]];
      WithoutSize(order[..n], idx, t, t[order[n]] as int - 1);
      if order[n] in order[..n] {
        var i :| 0 <= i < n && order[i] == order[n];
        TimedBound(order[..n], t, t[order[n]] as int - 1, i);
      }
    }
  }

  /** Giving idx a new, later time moves it to the end. */
  lemma TouchTimed(order: seq<nat>, idx: nat, t: seq<Word>, now: int)
    requires Timed(order, t, now) && idx < |t| && 0 <= now < WORD_LIMIT - 1
    ensures Timed(Touched(order, idx), t[idx := now + 1], now + 1)
    ensures forall k :: k in Touched(order, idx) <==> k in order || k == idx
    ensures |Touched(order, idx)| == |order| + if idx in order then 0 else 1
  {
    WithoutFacts(order, idx);
    WithoutSize(order, idx, t, now);
    WithoutTimed(order, idx, t, now);
    var w := Without(order, idx);
    TimedFrame(w, t, now, idx, now + 1);
    assert (w + [idx])[..|w|] == w;
  }

  /** The first of the order is the least recently accessed. */
  lemma {:induction false} FirstIsLeast(order: seq<nat>, t: seq<Word>, now: int, k: nat)
    requires Timed(order, t, now) && k in order && k != order[0]
    ensures k < |t| && order[0] < |t| && t[order[0]] < t[k]
  {
    var n := |order| - 1;
    assert order == order[..n] + [order[n]];
    if k == order[n] {
      TimedBound(order[..n], t, t[order[n]] as int - 1, 0);
    } else {
      FirstIsLeast(order[..n], t, t[order[n]] as int - 1, k);
    }
  }

  lemma {:induction false} RestTimed(order: seq<nat>, t: seq<Word>, now: int)
    requires Timed(order, t, now) && order != []
    ensures Timed(order[1..], t, now)
    ensures forall k :: k in order[1..] <==> k in order && k != order[0]
  {
    var n := |order| - 1;
    if n > 0 {
      RestTimed(order[..n], t, t[order[n]] as int - 1);
      assert order[1..][..n - 1] == order[..n][1..];
      assert order[1..] == order[..n][1..] + [order[n]] && order == order[..n] + [order[n]];
      FirstDiffers(order, t, now);
    }
  }

  lemma FirstDiffers(order: seq<nat>, t: seq<Word>, now: int)
    requires Timed(order, t, now) && |order| > 1
    ensures order[0] != order[|order| - 1]
  {
    var n := |order| - 1;
    TimedBound(order[..n], t, t[order[n]] as int - 1, 0);
  }

  // ----- runs of operations

  /** Each operation is possible when its turn comes. */
  ghost predicate AllEnabled(order: seq<nat>, ops: seq<Op>, size: nat)
    requires size > 0
    decreases |ops|
  {
    ops == [] || (Enabled(order, ops[0], 2 * size) && AllEnabled(After(order, ops[0], size), ops[1..], size))
  }

  /** What a run of operations evicts, one answer for each. */
  ghost function Evictions(order: seq<nat>, ops: seq<Op>, size: nat): seq<nat>
    requires size > 0
    decreases |ops|
  {
    if ops == [] then []
    else [Evicted(order, ops[0], size)] + Evictions(After(order, ops[0], size), ops[1..], size)
  }

  /** The size of the table after an operation. */
  lemma AfterSize(order: seq<nat>, op: Op, size: nat, t: seq<Word>, now: int)
    requires size > 0 && |order| <= size && Timed(order, t, now)
    requires op.Lookup? <==> op.idx in order
    ensures |After(order, op, size)|
         == if op.Lookup? then |order| else if |order| >= size then size else |order| + 1
  {
    WithoutSize(order, op.idx, t, now);
    if op.Insert? && |order| >= size {
      RestTimed(order, t, now);
      WithoutSize(order[1..], op.idx, t, now);
    }
  }

  // ----- XCACHE_LRU_ARRAY

  class ArrayLru {
    const size: nat
    var time: Word
    const times: array<Word>
    ghost var order: seq<nat>

    ghost predicate Valid()
      reads this, times
    {
      && Timed(order, times[..], time)
      && (forall n | 0 <= n < times.Length && n !in order :: times[n] == LRU_MAX)
    }

    constructor (sz: nat)
      requires sz > 0
      ensures Valid() && order == [] && time == 0 && size == sz && times.Length == 2 * sz && fresh(times)
    {
      size, time, order := sz, 0, [];
      times := new Word[2 * sz](_ => LRU_MAX);
    }

    /** __update_access_time, away from the reset of the clock. */
    method Touch(idx: nat)
      requires Valid() && idx < times.Length && time + 2 < LRU_MAX
      modifies this`time, this`order, times
      ensures Valid() && order == Touched(old(order), idx) && time == old(time) + 1
    {
      TouchTimed(order, idx, times[..], time);
      order := Touched(order, idx);
      time := time + 1;
      times[idx] := time;
      assert times[..] == old(times[..])[idx := time];
    }

    /** The scan of __xcache_lru. */
    method Lru() returns (lru: Word)
      requires Valid() && time < SCAN_MAX && times.Length < NONE
      ensures order == [] ==> lru == NONE
      ensures order != [] ==> lru == order[0]
    {
      var min := SCAN_MAX;
      lru := NONE;
      for i := 0 to times.Length
        invariant min <= SCAN_MAX && forall k | 0 <= k < i :: min <= times[k]
        invariant if lru == NONE then min == SCAN_MAX else lru < i && times[lru] == min < SCAN_MAX
      {
        if min > times[i] {
          min := times[i];
          lru := i;
        }
      }
      if order != [] {
        TimedBound(order, times[..], time, 0);
        forall k | k in order && k != order[0] ensures k < times.Length && times[order[0]] < times[k] {
          FirstIsLeast(order, times[..], time, k);
        }
        assert lru != NONE && (lru as nat) in order;
      }
    }

    /** __xcache_evict_lru: the scan, and __xcache_remove_entries for what it found. */
    method Evict() returns (lru: Word)
      requires Valid() && order != [] && time < SCAN_MAX && times.Length < NONE
      modifies this`order, times
      ensures Valid() && lru == old(order)[0] && order == old(order)[1..]
    {
      lru := Lru();
      RestTimed(order, times[..], time);
      TimedBound(order, times[..], time, 0);
      TimedFrame(order[1..], times[..], time, lru, LRU_MAX);
      order := order[1..];
      times[lru] := LRU_MAX;
      assert times[..] == old(times[..])[lru := LRU_MAX];
    }

    /** What __xcache_remove_entries does to the times, for any entry. */
    method Remove(idx: nat)
      requires Valid() && idx < times.Length && time < LRU_MAX
      modifies this`order, times
      ensures Valid() && order == Without(old(order), idx)
      ensures forall k :: k in order <==> k in old(order) && k != idx
    {
      WithoutFacts(order, idx);
      WithoutTimed(order, idx, times[..], time);
      TimedFrame(Without(order, idx), times[..], time, idx, LRU_MAX);
      order := Without(order, idx);
      times[idx] := LRU_MAX;
      assert times[..] == old(times[..])[idx := LRU_MAX];
    }

    /**
     One operation. `full` is whether the table already holds `size` entries, which is when
     its insert answers ENoSpc.
     */
    method Do(op: Op, full: bool) returns (evicted: Word)
      requires Valid() && Enabled(order, op, times.Length) && 0 < size && full == (|order| >= size)
      requires time + 2 < LRU_MAX && times.Length < NONE
      modifies this`time, this`order, times
      ensures Valid() && time == old(time) + 1
      ensures evicted == Evicted(old(order), op, size) && order == After(old(order), op, size)
    {
      evicted := NONE;
      if op.Insert? && full {
        evicted := Evict();
      }
      Touch(op.idx);
    }

    /** One operation, with the number of entries it leaves. */
    method Next(op: Op, used: nat) returns (evicted: Word, used': nat)
      requires Valid() && Enabled(order, op, times.Length) && 0 < size && used == |order| <= size
      requires time + 2 < LRU_MAX && times.Length < NONE
      modifies this`time, this`order, times
      ensures Valid() && time == old(time) + 1 && used' == |order| <= size
      ensures evicted == Evicted(old(order), op, size) && order == After(old(order), op, size)
    {
      AfterSize(order, op, size, times[..], time);
      evicted := Do(op, used >= size);
      used' := if op.Lookup? then used else if used >= size then size else used + 1;
    }

    /** A run of operations on a table that starts with n entries. */
    method Run(ops: seq<Op>, n: nat) returns (evicted: seq<Word>)
      requires Valid() && n == |order| <= size && 0 < 2 * size == times.Length < NONE
      requires AllEnabled(order, ops, size) && time + |ops| + 2 < LRU_MAX
      modifies this`time, this`order, times
      ensures Valid() && evicted == Evictions(old(order), ops, size)
      decreases |ops|
    {
      if ops == [] { return []; }
      var e, used := Next(ops[0], n);
      var rest := Run(ops[1..], used);
      evicted := [e] + rest;
    }
  }

  // ----- XCACHE_LRU_HEAP

  /** Every node's handle is NONE or names a heap entry with the node's time and index, and back. */
  ghost predicate HeapHolds(entries: map<nat, (Word, Word)>, hs: seq<Word>, t: seq<Word>) {
    && |hs| == |t| < NONE
    && (forall n: nat | n < |t| && hs[n] != NONE :: hs[n] as nat in entries && entries[hs[n] as nat] == (t[n], n))
    && (forall g | g in entries :: g < NONE && entries[g].1 < |t| && hs[entries[g].1] == g)
  }

  /** The nodes with a handle are those in order. */
  ghost predicate HandlesOf(hs: seq<Word>, order: seq<nat>) {
    && (forall n: nat | n < |hs| && hs[n] != NONE :: n in order)
    && (forall n | n in order :: n < |hs| && hs[n] != NONE)
  }

  lemma HeldAfterTouch(entries: map<nat, (Word, Word)>, hs: seq<Word>, t: seq<Word>, idx: nat, now: Word)
    requires HeapHolds(entries, hs, t) && idx < |hs| && hs[idx] != NONE
    ensures hs[idx] as nat in entries && entries[hs[idx] as nat] == (t[idx], idx)
    ensures HeapHolds(entries[hs[idx] as nat := (now, idx)], hs, t[idx := now])
  {
  }

  /** What a touch of a node that is in the heap finds there, and what it makes of it. */
  lemma TouchHeld(entries: map<nat, (Word, Word)>, hs: seq<Word>, order: seq<nat>, t: seq<Word>, idx: nat, now: Word)
    requires HeapHolds(entries, hs, t) && HandlesOf(hs, order) && Timed(order, t, now) && now + 1 < WORD_LIMIT
    requires idx < |hs| && hs[idx] != NONE
    ensures hs[idx] as nat in entries && entries[hs[idx] as nat].0 <= now && entries[hs[idx] as nat].1 == idx
    ensures HandlesOf(hs, Touched(order, idx))
            && HeapHolds(entries[hs[idx] as nat := (now + 1, idx)], hs, t[idx := now + 1])
    ensures idx in order
  {
    TimedMember(order, t, now, idx);
    HandlesAfterTouch(hs, order, idx, hs[idx]);
    assert hs[idx := hs[idx]] == hs;
    HeldAfterTouch(entries, hs, t, idx, now + 1);
  }

  lemma HeldAfterInsert(entries: map<nat, (Word, Word)>, hs: seq<Word>, t: seq<Word>, idx: nat, now: Word, h: Word)
    requires HeapHolds(entries, hs, t) && idx < |hs| && hs[idx] == NONE
    requires h != NONE && h as nat !in entries
    ensures HeapHolds(entries[h as nat := (now, idx)], hs[idx := h], t[idx := now])
  {
  }

  lemma HeldAfterEvict(entries: map<nat, (Word, Word)>, hs: seq<Word>, t: seq<Word>, h: nat)
    requires HeapHolds(entries, hs, t) && h in entries
    ensures entries[h].1 < |hs|
    ensures HeapHolds(entries - {h}, hs[entries[h].1 := NONE], t)
    ensures |entries - {h}| == |entries| - 1
  {
    assert (entries - {h}).Keys == entries.Keys - {h};
    assert |entries - {h}| == |entries.Keys - {h}| == |entries| - 1;
  }

  lemma HandlesAfterTouch(hs: seq<Word>, order: seq<nat>, idx: nat, h: Word)
    requires HandlesOf(hs, order) && idx < |hs| && h != NONE
    ensures HandlesOf(hs[idx := h], Touched(order, idx))
  {
    WithoutFacts(order, idx);
  }

  lemma HandlesAfterEvict(hs: seq<Word>, order: seq<nat>, t: seq<Word>, now: int)
    requires HandlesOf(hs, order) && Timed(order, t, now) && order != []
    ensures order[0] < |hs|
    ensures HandlesOf(hs[order[0] := NONE], order[1..])
  {
    assert order[0] in order;
    RestTimed(order, t, now);
  }

  /** The entry with the least key is that of the first index. */
  lemma LeastIsFirst(entries: map<nat, (Word, Word)>, hs: seq<Word>, order: seq<nat>, t: seq<Word>, now: Word, h: nat)
    requires HeapHolds(entries, hs, t) && HandlesOf(hs, order) && Timed(order, t, now)
    requires h in entries && IsFirst(entries, h, false)
    ensures order != [] && entries[h].1 == order[0]
  {
    var k := entries[h].1 as nat;
    assert hs[k] != NONE;
    assert k in order && order[0] in order;
    assert Above(false, entries[h].0, entries[hs[order[0]] as nat].0);
    if k != order[0] {
      FirstIsLeast(order, t, now, k);
    }
  }

  /**
   With the key of idx raised to LRU_MAX, the first entry of the MIN heap is that of the least
   recently accessed one of the others, unless there is no other.
   */
  lemma RaisedIsLast(entries: map<nat, (Word, Word)>, hs: seq<Word>, order: seq<nat>, t: seq<Word>, now: Word,
                     idx: nat, h: nat)
    requires HeapHolds(entries, hs, t) && HandlesOf(hs, order) && Timed(order, t, now) && now < LRU_MAX && idx in order
    requires var raised := entries[hs[idx] as nat := (LRU_MAX, idx)]; h in raised && IsFirst(raised, h, false)
    ensures var others := Without(order, idx); var raised := entries[hs[idx] as nat := (LRU_MAX, idx)];
            && raised[h].1 == (if others == [] then idx else others[0])
            && (raised[h].1 == idx <==> order == [idx])
  {
    var others := Without(order, idx);
    var raised := entries[hs[idx] as nat := (LRU_MAX, idx)];
    WithoutFacts(order, idx);
    WithoutTimed(order, idx, t, now);
    WithoutSize(order, idx, t, now);
    var k := raised[h].1 as nat;
    assert k in order;
    if others != [] {
      assert others[0] in others;
      TimedMember(others, t, now, others[0]);
      assert Above(false, raised[h].0, raised[hs[others[0]] as nat].0);
      if k != others[0] { FirstIsLeast(others, t, now, k); }
    } else {
      assert |order| == 1 && order[0] == idx;
    }
  }

  class HeapLru {
    const size: nat
    var time: Word
    const heap: XBinHeap
    /** Field h of every cache node: the handle of its entry in the heap. */
    const handles: array<Word>
    ghost var order: seq<nat>
    /** Time of the last access of every node. */
    ghost var accessed: seq<Word>

    /** The objects are distinct, and the heap is the MIN heap of this cache. */
    ghost predicate Frame()
      reads this, heap
    {
      && this as object !in {heap as object, heap.nodes, heap.indexes, handles}
      && handles as object !in {heap as object, heap.nodes, heap.indexes}
      && !heap.isMax && heap.size == size < NONE
    }

    ghost predicate Valid()
      reads this, heap, heap.nodes, heap.indexes, handles
    {
      && Frame() && heap.Valid()
      && Timed(order, accessed, time)
      && HandlesOf(handles[..], order)
      && |heap.entries| == |order|
      && HeapHolds(heap.entries, handles[..], accessed)
    }

    constructor (sz: nat)
      requires 0 < 2 * sz < NONE
      ensures Valid() && order == [] && time == 0 && size == sz && handles.Length == 2 * sz
      ensures fresh(heap) && fresh(heap.nodes) && fresh(heap.indexes) && fresh(handles)
    {
      size, time, order, accessed := sz, 0, [], seq(2 * sz, _ => 0);
      heap := new XBinHeap(sz, false);
      handles := new Word[2 * sz](_ => NONE);
    }

    /** __update_access_time, away from the reset of the clock. */
    method Touch(idx: nat)
      requires Valid() && idx < handles.Length && time + 2 < LRU_MAX
      requires idx in order || |order| < size
      modifies this`time, this`order, this`accessed
      modifies heap`count, heap`entries, heap.nodes, heap.indexes, handles
      ensures Valid() && order == Touched(old(order), idx) && time == old(time) + 1
    {
      if handles[idx] != NONE { TouchKnown(idx); } else { TouchNew(idx); }
    }

    method TouchKnown(idx: nat)
      requires Valid() && idx < handles.Length && time + 2 < LRU_MAX && handles[idx] != NONE
      modifies this`time, this`order, this`accessed, heap`entries, heap.nodes, heap.indexes
      ensures Valid() && order == Touched(old(order), idx) && time == old(time) + 1
    {
      Known(idx);
      Increase(idx, Touched(order, idx), accessed[idx := time + 1]);
    }

    lemma Known(idx: nat)
      requires Valid() && idx < handles.Length && time + 2 < LRU_MAX && handles[idx] != NONE
      ensures idx < |accessed|
      ensures var o := Touched(order, idx); var t := accessed[idx := time + 1];
              && Timed(o, t, time + 1) && HandlesOf(handles[..], o) && |o| == |order|
              && handles[idx] as nat in heap.entries && heap.entries[handles[idx] as nat].0 <= time
              && heap.entries[handles[idx] as nat].1 == idx
              && HeapHolds(heap.entries[handles[idx] as nat := (time + 1, idx)], handles[..], t)
    {
      TouchTimed(order, idx, accessed, time);
      TouchHeld(heap.entries, handles[..], order, accessed, idx, time);
    }

    method TouchNew(idx: nat)
      requires Valid() && idx < handles.Length && time + 2 < LRU_MAX && handles[idx] == NONE
      requires idx in order || |order| < size
      modifies this`time, this`order, this`accessed
      modifies heap`count, heap`entries, heap.nodes, heap.indexes, handles
      ensures Valid() && order == Touched(old(order), idx) && time == old(time) + 1
    {
      TouchTimed(order, idx, accessed, time);
      Add(idx, Touched(order, idx), accessed[idx := time + 1]);
    }

    /** The branch of __update_access_time for a node that is in the heap. */
    method Increase(idx: nat, ghost o: seq<nat>, ghost t: seq<Word>)
      requires Valid() && idx < handles.Length && time + 2 < LRU_MAX
      requires Timed(o, t, time + 1) && HandlesOf(handles[..], o) && |o| == |order|
      requires handles[idx] as nat in heap.entries && heap.entries[handles[idx] as nat].0 <= time
      requires heap.entries[handles[idx] as nat].1 == idx
      requires HeapHolds(heap.entries[handles[idx] as nat := (time + 1, idx)], handles[..], t)
      modifies this`time, this`order, this`accessed, heap`entries, heap.nodes, heap.indexes
      ensures Valid() && order == o && time == old(time) + 1
    {
      heap.IncreaseKey(handles[idx], time + 1);
      time, accessed, order := time + 1, t, o;
    }

    /** The branch of __update_access_time for a node that is not in the heap. */
    method Add(idx: nat, ghost o: seq<nat>, ghost t: seq<Word>)
      requires Valid() && idx < handles.Length && time + 2 < LRU_MAX && handles[idx] == NONE
      requires Timed(o, t, time + 1) && |o| == |order| + 1 <= size
      requires t == accessed[idx := time + 1] && o == Touched(order, idx)
      modifies this`time, this`order, this`accessed
      modifies heap`count, heap`entries, heap.nodes, heap.indexes, handles
      ensures Valid() && order == o && time == old(time) + 1
    {
      ghost var e, hs, t0, o0 := heap.entries, handles[..], accessed, order;
      time, accessed, order := time + 1, t, o;
      var h := heap.Insert(time, idx);
      HandlesAfterTouch(hs, o0, idx, h);
      HeldAfterInsert(e, hs, t0, idx, time, h);
      SetHandle(idx, h);
    }

    method SetHandle(idx: nat, h: Word)
      requires idx < handles.Length && Frame() && heap.Valid() && Timed(order, accessed, time)
      requires |heap.entries| == |order| && HandlesOf(handles[..][idx := h], order)
      requires HeapHolds(heap.entries, handles[..][idx := h], accessed)
      modifies handles
      ensures Valid()
    {
      ghost var hs := handles[..][idx := h];
      handles[idx] := h;
      assert handles[..] == hs;
    }

    /** __xcache_evict_lru: __xcache_lru takes the entry out of the heap. */
    method Evict() returns (lru: Word)
      requires Valid() && order != [] && size > 0
      modifies this`order, heap`count, heap`entries, heap.nodes, heap.indexes, handles
      ensures Valid() && lru == old(order)[0] && order == old(order)[1..]
    {
      ghost var e, hs, o, h := heap.entries, handles[..], order, 0 as nat;
      RestTimed(order, accessed, time);
      order := order[1..];
      lru, h := heap.Extract();
      LeastIsFirst(e, hs, o, accessed, time, h);
      HeldAfterEvict(e, hs, accessed, h);
      HandlesAfterEvict(hs, o, accessed, time);
      SetHandle(lru, NONE);
    }

    /**
     What __xcache_remove_entries does to the heap, for any entry idx: it raises its key to the
     maximum and extracts the first entry, as if that were the same. What it takes out is the
     least recently accessed one of the other entries; only if there is no other it is idx.
     */
    method Remove(idx: nat) returns (out: Word)
      requires Valid() && idx in order && time < LRU_MAX && size > 0
      modifies heap`count, heap`entries, heap.nodes, heap.indexes, handles
      ensures out == if Without(order, idx) == [] then idx else Without(order, idx)[0]
      ensures out == idx <==> order == [idx]
      ensures handles[..] == old(handles[..])[idx := NONE]
    {
      ghost var e, hs := heap.entries, handles[..];
      TimedMember(order, accessed, time, idx);
      assert handles[idx] != NONE;
      heap.IncreaseKey(handles[idx], LRU_MAX);
      ghost var h: nat;
      out, h := heap.Extract();
      RaisedIsLast(e, hs, order, accessed, time, idx, h);
      handles[idx] := NONE;
    }

    /** One operation, as for the array. */
    method Do(op: Op, full: bool) returns (evicted: Word)
      requires Valid() && Enabled(order, op, handles.Length) && 0 < size && full == (|order| >= size)
      requires |order| <= size && time + 2 < LRU_MAX
      modifies this`time, this`order, this`accessed
      modifies heap`count, heap`entries, heap.nodes, heap.indexes, handles
      ensures Valid() && time == old(time) + 1
      ensures evicted == Evicted(old(order), op, size) && order == After(old(order), op, size)
    {
      evicted := NONE;
      if op.Insert? && full {
        evicted := Evict();
      }
      Touch(op.idx);
    }

    /** One operation, with the number of entries it leaves. */
    method Next(op: Op, used: nat) returns (evicted: Word, used': nat)
      requires Valid() && Enabled(order, op, handles.Length) && 0 < size && used == |order| <= size
      requires time + 2 < LRU_MAX
      modifies this`time, this`order, this`accessed
      modifies heap`count, heap`entries, heap.nodes, heap.indexes, handles
      ensures Valid() && time == old(time) + 1 && used' == |order| <= size
      ensures evicted == Evicted(old(order), op, size) && order == After(old(order), op, size)
    {
      AfterSize(order, op, size, accessed, time);
      evicted := Do(op, used >= size);
      used' := if op.Lookup? then used else if used >= size then size else used + 1;
    }

    /** A run of operations on a table that starts with n entries. */
    method Run(ops: seq<Op>, n: nat) returns (evicted: seq<Word>)
      requires Valid() && n == |order| <= size && 0 < 2 * size == handles.Length < NONE
      requires AllEnabled(order, ops, size) && time + |ops| + 2 < LRU_MAX
      modifies this`time, this`order, this`accessed, heap`count, heap`entries, heap.nodes, heap.indexes, handles
      ensures Valid() && evicted == Evictions(old(order), ops, size)
      decreases |ops|
    {
      if ops == [] { return []; }
      var e, used := Next(ops[0], n);
      var rest := Run(ops[1..], used);
      evicted := [e] + rest;
    }
  }

  /** The scan and the heap, driven by the same operations, evict the same entries. */
  method Agreement(ops: seq<Op>, size: nat) returns (byScan: seq<Word>, byHeap: seq<Word>)
    requires 0 < 2 * size < NONE && |ops| + 3 < LRU_MAX && AllEnabled([], ops, size)
    ensures byScan == byHeap == Evictions([], ops, size)
  {
    var scan := new ArrayLru(size);
    byScan := scan.Run(ops, 0);
    var heap := new HeapLru(size);
    byHeap := heap.Run(ops, 0);
  }
}
