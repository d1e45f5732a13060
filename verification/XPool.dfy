/**
 The index pool of src/xtypes/xpool.c: the nodes in use form a circular doubly linked list with
 a cursor, the others a chain linked by next. A node is in use exactly if its prev is set.
 */
module XPool {
  import opened Words

  const NO_INDEX: Word := NONE

  /** The k-th index of a ring, where the one after the last is the first. */
  function At(ring: seq<nat>, k: nat): nat
    requires k <= |ring| && ring != []
  {
    if k < |ring| then ring[k] else ring[0]
  }

  ghost predicate Inside(s: seq<nat>, n: nat) { forall i | 0 <= i < |s| :: s[i] < n }

  ghost predicate NoRepeats(s: seq<nat>) { forall i, j | 0 <= i < j < |s| :: s[i] != s[j] }

  /** Each index points to the one after it, and that one back. */
  ghost predicate Ring(next: seq<Word>, prev: seq<Word>, ring: seq<nat>) {
    |next| == |prev| && Inside(ring, |next|)
    && forall i | 0 <= i < |ring| :: next[ring[i]] == At(ring, i + 1) && prev[At(ring, i + 1)] == ring[i]
  }

  ghost predicate FreeLink(next: seq<Word>, prev: seq<Word>, chain: seq<nat>, i: nat)
    requires |next| == |prev| && i < |chain|
  {
    && chain[i] < |next| && prev[chain[i]] == NO_INDEX
    && next[chain[i]] == if i + 1 < |chain| then chain[i + 1] else NO_INDEX
  }

  /** Each index points to the one after it, the last to none, and none has a prev. */
  ghost predicate FreeChain(next: seq<Word>, prev: seq<Word>, chain: seq<nat>) {
    |next| == |prev| && forall i | 0 <= i < |chain| :: FreeLink(next, prev, chain, i)
  }

  /** The two lists together hold every index exactly once. */
  ghost predicate Partition(ring: seq<nat>, chain: seq<nat>, n: nat) {
    forall i :: multiset(ring)[i] + multiset(chain)[i] == if 0 <= i < n then 1 else 0
  }

  ghost predicate Linked(next: seq<Word>, prev: seq<Word>, list: Word, free: Word, ring: seq<nat>, chain: seq<nat>) {
    && |next| == |prev| < NO_INDEX
    && Ring(next, prev, ring) && FreeChain(next, prev, chain) && Partition(ring, chain, |next|)
    && list == (if ring == [] then NO_INDEX else ring[0])
    && free == (if chain == [] then NO_INDEX else chain[0])
  }

  lemma AtMostOnce(s: seq<nat>)
    requires forall x :: multiset(s)[x] <= 1
    ensures NoRepeats(s)
  {
    forall i, j | 0 <= i < j < |s| ensures s[i] != s[j] {
      assert s == s[..j] + s[j..];
      assert s[i] in s[..j] && s[j] in s[j..];
      assert multiset(s)[s[j]] == multiset(s[..j])[s[j]] + multiset(s[j..])[s[j]];
    }
  }

  /** Nothing is in both lists, or twice in one. */
  lemma Distinct(ring: seq<nat>, chain: seq<nat>, n: nat)
    requires Partition(ring, chain, n)
    ensures NoRepeats(ring) && NoRepeats(chain) && Inside(ring, n) && Inside(chain, n)
    ensures forall i, j | 0 <= i < |ring| && 0 <= j < |chain| :: ring[i] != chain[j]
  {
    AtMostOnce(ring);
    AtMostOnce(chain);
    forall i | 0 <= i < |ring| ensures ring[i] < n && ring[i] !in chain {
      assert multiset(ring)[ring[i]] > 0;
    }
    forall i | 0 <= i < |chain| ensures chain[i] < n {
      assert multiset(chain)[chain[i]] > 0;
    }
  }

  /** A node is in use exactly if its prev says so. */
  lemma InUse(next: seq<Word>, prev: seq<Word>, list: Word, free: Word, ring: seq<nat>, chain: seq<nat>, i: nat)
    requires Linked(next, prev, list, free, ring, chain) && i < |next|
    ensures prev[i] != NO_INDEX <==> i in ring
    ensures i in ring <==> i !in chain
  {
    assert multiset(ring)[i] + multiset(chain)[i] == 1;
    if i in ring {
      var k :| 0 <= k < |ring| && ring[k] == i;
      BeforeIn(next, prev, ring, k);
    } else {
      assert i in chain;
      var k :| 0 <= k < |chain| && chain[k] == i;
      assert FreeLink(next, prev, chain, k);
    }
  }

  /** The position before k in a ring. */
  function Before(ring: seq<nat>, k: nat): nat
    requires k < |ring|
  {
    if k == 0 then |ring| - 1 else k - 1
  }

  lemma BeforeIn(next: seq<Word>, prev: seq<Word>, ring: seq<nat>, k: nat)
    requires Ring(next, prev, ring) && k < |ring|
    ensures prev[ring[k]] == ring[Before(ring, k)] && next[ring[k]] == At(ring, k + 1)
  {
    assert At(ring, Before(ring, k) + 1) == ring[k];
  }

  // ----- what the operations do to the links

  /** Two writes, one after the other. */
  function Write2(m: seq<Word>, i: nat, v: Word, j: nat, w: Word): seq<Word>
    requires i < |m| && j < |m|
  {
    m[i := v][j := w]
  }

  /** Linking in the index x, which is not in the ring, before its first index. */
  lemma RingWith(next: seq<Word>, prev: seq<Word>, ring: seq<nat>, x: nat, next': seq<Word>, prev': seq<Word>)
    requires Ring(next, prev, ring) && NoRepeats(ring) && x !in ring && x < |next| < NO_INDEX
    requires var first := if ring == [] then x else ring[0]; var last := if ring == [] then x else ring[|ring| - 1];
             first < |next| && last < |next| && next' == Write2(next, x, first, last, x)
                 && prev' == Write2(prev, x, last, first, x)
    ensures Ring(next', prev', ring + [x])
  {
    var r := ring + [x];
    forall i | 0 <= i < |r| ensures next'[r[i]] == At(r, i + 1) && prev'[At(r, i + 1)] == r[i] {
      if i < |ring| { assert next[ring[i]] == At(ring, i + 1) && prev[At(ring, i + 1)] == ring[i]; }
    }
  }

  /** The chain without its first index, when the links of others change. */
  lemma ChainRest(next: seq<Word>, prev: seq<Word>, chain: seq<nat>, next': seq<Word>, prev': seq<Word>)
    requires FreeChain(next, prev, chain) && chain != [] && |next'| == |next| == |prev'|
    requires forall i | 1 <= i < |chain| && chain[i] < |next| ::
               next'[chain[i]] == next[chain[i]] && prev'[chain[i]] == prev[chain[i]]
    ensures FreeChain(next', prev', chain[1..])
    ensures chain[0] < |next| && next[chain[0]] == if |chain| > 1 then chain[1] else NO_INDEX
  {
    assert FreeLink(next, prev, chain, 0);
    forall i | 0 <= i < |chain[1..]| ensures FreeLink(next', prev', chain[1..], i) {
      assert FreeLink(next, prev, chain, i + 1);
    }
  }

  lemma AddPartition(ring: seq<nat>, chain: seq<nat>, n: nat)
    requires Partition(ring, chain, n) && chain != []
    ensures Partition(ring + [chain[0]], chain[1..], n)
  {
    assert chain == [chain[0]] + chain[1..];
  }

  /** The first free node is linked in before the cursor. */
  lemma AddLinks(next: seq<Word>, prev: seq<Word>, list: Word, free: Word, ring: seq<nat>, chain: seq<nat>)
    requires Linked(next, prev, list, free, ring, chain) && chain != []
    ensures var x := chain[0];
            var first, last := if ring == [] then x else ring[0], if ring == [] then x else ring[|ring| - 1];
            && x < |next| && last < |next| && first < |next| && (ring != [] ==> prev[first] == last)
            && Linked(Write2(next, x, first, last, x), Write2(prev, x, last, first, x), first, next[x],
                      ring + [x], chain[1..])
  {
    var x := chain[0];
    var first, last := if ring == [] then x else ring[0], if ring == [] then x else ring[|ring| - 1];
    Distinct(ring, chain, |next|);
    if ring != [] { BeforeIn(next, prev, ring, 0); }
    var next', prev' := Write2(next, x, first, last, x), Write2(prev, x, last, first, x);
    RingWith(next, prev, ring, x, next', prev');
    AddChain(next, prev, ring, chain, next', prev');
    AddPartition(ring, chain, |next|);
  }

  /** The writes to the new node and to those of the ring do not touch the rest of the chain. */
  lemma AddChain(next: seq<Word>, prev: seq<Word>, ring: seq<nat>, chain: seq<nat>, next': seq<Word>, prev': seq<Word>)
    requires FreeChain(next, prev, chain) && chain != [] && NoRepeats(chain) && |next| < NO_INDEX
    requires forall i, j | 0 <= i < |ring| && 0 <= j < |chain| :: ring[i] != chain[j]
    requires var x := chain[0];
             var first, last := if ring == [] then x else ring[0], if ring == [] then x else ring[|ring| - 1];
             && x < |next| && first < |next| && last < |next|
             && next' == Write2(next, x, first, last, x) && prev' == Write2(prev, x, last, first, x)
    ensures FreeChain(next', prev', chain[1..]) && next[chain[0]] == if |chain| > 1 then chain[1] else NO_INDEX
  {
    ChainRest(next, prev, chain, next', prev');
  }

  /** The ring without its k-th index. */
  function Without(ring: seq<nat>, k: nat): seq<nat>
    requires k < |ring|
  {
    ring[..k] + ring[k + 1..]
  }

  /** The i-th index of the ring without its k-th, and the one after it, in the ring itself. */
  lemma WithoutAt(ring: seq<nat>, k: nat, i: nat) returns (h: nat, g: nat)
    requires k < |ring| && i < |ring| - 1
    ensures h < |ring| && g < |ring| && h != k && g != k
    ensures Without(ring, k)[i] == ring[h] && At(Without(ring, k), i + 1) == ring[g]
    ensures (h == Before(ring, k) && k == Before(ring, g)) || (h != Before(ring, k) && k != Before(ring, g)
            && h == Before(ring, g))
  {
    h := if i < k then i else i + 1;
    if i + 2 == |ring| {
      g := if k == 0 then 1 else 0;
    } else {
      g := if i + 1 < k then i + 1 else i + 2;
    }
  }

  /** Bridging over the k-th index. */
  lemma RingWithout(next: seq<Word>, prev: seq<Word>, ring: seq<nat>, k: nat, next': seq<Word>, prev': seq<Word>)
    requires Ring(next, prev, ring) && NoRepeats(ring) && k < |ring| && |next'| == |next| == |prev'|
    requires forall i | 0 <= i < |ring| && i != k ::
               && next'[ring[i]] == (if i == Before(ring, k) then next[ring[k]] else next[ring[i]])
               && prev'[ring[i]] == (if k == Before(ring, i) then prev[ring[k]] else prev[ring[i]])
    ensures Ring(next', prev', Without(ring, k))
  {
    var r := Without(ring, k);
    forall i | 0 <= i < |r| ensures r[i] < |next'| && next'[r[i]] == At(r, i + 1) && prev'[At(r, i + 1)] == r[i] {
      var h, g := WithoutAt(ring, k, i);
      BeforeIn(next, prev, ring, g);
      BeforeIn(next, prev, ring, k);
      if k == Before(ring, g) { Follows(ring, k, g); } else { Follows(ring, h, g); }
      assert next[ring[h]] == At(ring, h + 1) && prev[At(ring, h + 1)] == ring[h];
    }
  }

  /** The index before g has g after it. */
  lemma Follows(ring: seq<nat>, h: nat, g: nat)
    requires h < |ring| && g < |ring| && h == Before(ring, g)
    ensures At(ring, h + 1) == ring[g]
  {
  }

  /** The chain with one more index in front. */
  lemma ChainWith(next: seq<Word>, prev: seq<Word>, chain: seq<nat>, x: nat, next': seq<Word>, prev': seq<Word>)
    requires FreeChain(next, prev, chain) && x < |next'| == |next| == |prev'|
    requires next'[x] == (if chain == [] then NO_INDEX else chain[0]) && prev'[x] == NO_INDEX
    requires forall i | 0 <= i < |chain| && chain[i] < |next| ::
               next'[chain[i]] == next[chain[i]] && prev'[chain[i]] == prev[chain[i]]
    ensures FreeChain(next', prev', [x] + chain)
  {
    var c := [x] + chain;
    forall i | 0 <= i < |c| ensures FreeLink(next', prev', c, i) {
      if i > 0 { assert FreeLink(next, prev, chain, i - 1); }
    }
  }

  /** What the writes of a removal make of the links, the cursor and the free chain. */
  function NextAfter(next: seq<Word>, prev: seq<Word>, x: nat, free: Word): seq<Word>
    requires |next| == |prev| && x < |next| && prev[x] < |next|
  {
    Write2(next, prev[x], next[x], x, free)
  }

  function PrevAfter(next: seq<Word>, prev: seq<Word>, x: nat): seq<Word>
    requires |next| == |prev| && x < |next| && next[x] < |next|
  {
    Write2(prev, next[x], prev[x], x, NO_INDEX)
  }

  function ListAfter(next: seq<Word>, list: Word, x: nat): Word
    requires x < |next|
  {
    if x != list then list else if x == next[x] then NO_INDEX else next[x]
  }

  lemma RemoveRing(next: seq<Word>, prev: seq<Word>, ring: seq<nat>, k: nat, free: Word)
    requires Ring(next, prev, ring) && NoRepeats(ring) && k < |ring|
    ensures var x := ring[k];
            && x < |next| && prev[x] < |next| && next[x] < |next|
            && Ring(NextAfter(next, prev, x, free), PrevAfter(next, prev, x), Without(ring, k))
  {
    BeforeIn(next, prev, ring, k);
    RingWithout(next, prev, ring, k, NextAfter(next, prev, ring[k], free), PrevAfter(next, prev, ring[k]));
  }

  lemma RemoveChain(next: seq<Word>, prev: seq<Word>, ring: seq<nat>, chain: seq<nat>, k: nat, free: Word)
    requires Ring(next, prev, ring) && FreeChain(next, prev, chain) && k < |ring|
    requires forall i, j | 0 <= i < |ring| && 0 <= j < |chain| :: ring[i] != chain[j]
    requires free == if chain == [] then NO_INDEX else chain[0]
    ensures var x := ring[k];
            && x < |next| && prev[x] < |next| && next[x] < |next|
            && FreeChain(NextAfter(next, prev, x, free), PrevAfter(next, prev, x), [x] + chain)
  {
    BeforeIn(next, prev, ring, k);
    ChainWith(next, prev, chain, ring[k], NextAfter(next, prev, ring[k], free), PrevAfter(next, prev, ring[k]));
  }

  lemma CursorAfter(next: seq<Word>, prev: seq<Word>, ring: seq<nat>, k: nat, list: Word)
    requires Ring(next, prev, ring) && NoRepeats(ring) && k < |ring| && list == ring[0] && ring[k] < |next|
    ensures var r := Without(ring, k); ListAfter(next, list, ring[k]) == if r == [] then NO_INDEX else r[0]
  {
    BeforeIn(next, prev, ring, k);
  }

  /** The node at position k is bridged over, and becomes the first free one. */
  lemma RemoveLinks(next: seq<Word>, prev: seq<Word>, list: Word, free: Word, ring: seq<nat>, chain: seq<nat>, k: nat)
    requires Linked(next, prev, list, free, ring, chain) && k < |ring|
    ensures var x := ring[k];
            && x < |next| && prev[x] < |next| && next[x] < |next|
            && Linked(NextAfter(next, prev, x, free), PrevAfter(next, prev, x), ListAfter(next, list, x), x,
                      Without(ring, k), [x] + chain)
  {
    Distinct(ring, chain, |next|);
    RemoveRing(next, prev, ring, k, free);
    RemoveChain(next, prev, ring, chain, k, free);
    CursorAfter(next, prev, ring, k, list);
    RemovePartition(ring, chain, k, |next|);
  }

  lemma RemovePartition(ring: seq<nat>, chain: seq<nat>, k: nat, n: nat)
    requires Partition(ring, chain, n) && k < |ring|
    ensures Partition(Without(ring, k), [ring[k]] + chain, n)
  {
    assert ring == ring[..k] + [ring[k]] + ring[k + 1..];
    assert multiset(ring) == multiset(Without(ring, k)) + multiset{ring[k]};
  }

  function Rotated(ring: seq<nat>): seq<nat>
    requires ring != []
  {
    ring[1..] + [ring[0]]
  }

  /** Moving the cursor on leaves all links as they are. */
  lemma ForwardLinks(next: seq<Word>, prev: seq<Word>, list: Word, free: Word, ring: seq<nat>, chain: seq<nat>)
    requires Linked(next, prev, list, free, ring, chain) && ring != []
    ensures ring[0] < |next| && next[ring[0]] == Rotated(ring)[0]
    ensures Linked(next, prev, next[ring[0]], free, Rotated(ring), chain)
  {
    var r := Rotated(ring);
    assert next[ring[0]] == At(ring, 1);
    forall i | 0 <= i < |r| ensures next[r[i]] == At(r, i + 1) && prev[At(r, i + 1)] == r[i] {
      var h := if i + 1 < |ring| then i + 1 else 0;
      assert r[i] == ring[h] && next[ring[h]] == At(ring, h + 1) && prev[At(ring, h + 1)] == ring[h];
    }
    assert ring == [ring[0]] + ring[1..];
    assert multiset(r) == multiset(ring);
  }

  lemma {:induction false} AllOnce(n: nat)
    ensures Partition([], seq(n, k => k), n)
  {
    if n > 0 {
      AllOnce(n - 1);
      assert seq(n, k => k) == seq(n - 1, k => k) + [n - 1];
      forall i ensures multiset([])[i] + multiset(seq(n, k => k))[i] == if 0 <= i < n then 1 else 0 {
        assert multiset([])[i] + multiset(seq(n - 1, k => k))[i] == if 0 <= i < n - 1 then 1 else 0;
      }
    }
  }

  /** A walk that has done i of its steps. */
  lemma WalkStep(ring: seq<nat>, i: nat)
    requires i < |ring|
    ensures (ring[i..] + ring[..i])[0] == ring[i]
    ensures Rotated(ring[i..] + ring[..i]) == ring[i + 1..] + ring[..i + 1]
    ensures ring[..i] + [ring[i]] == ring[..i + 1]
  {
    assert ring[i..] == [ring[i]] + ring[i + 1..];
  }

  class XPool {
    const size: nat
    const next: array<Word>
    const prev: array<Word>
    const data: array<Word>
    var list: Word
    var free: Word
    /** The indices in use from the cursor on, and the free ones from the next to be taken on. */
    ghost var ring: seq<nat>
    ghost var chain: seq<nat>

    ghost predicate Valid()
      reads this, next, prev
    {
      && next.Length == prev.Length == data.Length == size
      && next != prev && next != data && prev != data
      && Linked(next[..], prev[..], list, free, ring, chain)
    }

    /** xpool_init of a pool of at least one node; __xpool_clear writes the last node in any case. */
    constructor (n: nat)
      requires 0 < n < NO_INDEX
      ensures Valid() && size == n && ring == [] && chain == seq(n, i => i)
      ensures fresh(next) && fresh(prev) && fresh(data)
    {
      size := n;
      next := new Word[n];
      prev := new Word[n];
      data := new Word[n];
      list := NO_INDEX;
      free := 0;
      ring := [];
      chain := seq(n, i => i);
      new;
      for i := 1 to n
        invariant list == NO_INDEX && free == 0 && ring == [] && chain == seq(n, i => i)
        invariant forall k | 0 <= k < i - 1 :: next[k] == k + 1 && prev[k] == NO_INDEX
      {
        prev[i - 1] := NO_INDEX;
        next[i - 1] := i;
      }
      prev[n - 1] := NO_INDEX;
      next[n - 1] := NO_INDEX;
      AllOnce(n);
    }

    /** __xpool_add: a node for d is put before the cursor, so that a walk from the cursor meets it last. */
    method Add(d: Word) returns (idx: Word)
      requires Valid()
      modifies this`list, this`free, this`ring, this`chain, next, prev, data
      ensures Valid()
      ensures old(chain) == [] ==>
                idx == NO_INDEX && ring == old(ring) && chain == old(chain) && data[..] == old(data[..])
      ensures old(chain) != [] ==>
                && idx == old(chain)[0] && idx < size && ring == old(ring) + [idx] && chain == old(chain)[1..]
                && data[..] == old(data[..])[idx := d]
    {
      idx := free;
      Distinct(ring, chain, size);
      if idx == NO_INDEX { return; }
      AddLinks(next[..], prev[..], list, free, ring, chain);
      LinkIn(idx, if ring == [] then idx else ring[|ring| - 1]);
      data[idx] := d;
      ring := ring + [idx];
      chain := chain[1..];
    }

    ghost predicate Arrays()
      reads this
    {
      next.Length == prev.Length == data.Length == size < NO_INDEX && next != prev && next != data && prev != data
    }

    /** The writes of __xpool_add to the links. */
    method LinkIn(idx: Word, ghost last: Word)
      requires Arrays() && idx < size && last < size && (list == NO_INDEX ==> last == idx)
      requires list != NO_INDEX ==> list < size && list != idx && prev[list] == last != idx
      modifies this`list, this`free, next, prev
      ensures free == old(next[idx]) && list == if old(list) == NO_INDEX then idx else old(list)
      ensures next[..] == Write2(old(next[..]), idx, list, last, idx)
      ensures prev[..] == Write2(old(prev[..]), idx, last, list, idx)
    {
      free := next[idx];
      if list != NO_INDEX {
        next[idx] := list;
        prev[idx] := prev[list];
        next[prev[list]] := idx;
        prev[list] := idx;
      } else {
        next[idx] := idx;
        prev[idx] := idx;
        list := idx;
      }
    }

    /** __xpool_remove: takes exactly the node idx out, if it is in use; the cursor moves on if it was there. */
    method Remove(idx: Word) returns (ret: Word, d: Word)
      requires Valid()
      modifies this`list, this`free, this`ring, this`chain, next, prev
      ensures Valid()
      ensures idx as nat !in old(ring) ==> ret == NO_INDEX && ring == old(ring) && chain == old(chain)
      ensures idx as nat in old(ring) ==>
                && ret == idx && d == data[idx] && chain == [idx as nat] + old(chain)
                && exists k :: 0 <= k < |old(ring)| && old(ring)[k] == idx && ring == Without(old(ring), k)
    {
      Distinct(ring, chain, size);
      if idx >= size { return NO_INDEX, 0; }
      InUse(next[..], prev[..], list, free, ring, chain, idx);
      if prev[idx] == NO_INDEX { return NO_INDEX, 0; }
      ret, d := idx, data[idx];
      ghost var k :| 0 <= k < |ring| && ring[k] == idx;
      RemoveAt(idx, k);
    }

    method RemoveAt(idx: Word, ghost k: nat)
      requires Valid() && k < |ring| && ring[k] == idx
      modifies this`list, this`free, this`ring, this`chain, next, prev
      ensures Valid() && ring == Without(old(ring), k) && chain == [idx as nat] + old(chain)
    {
      RemoveLinks(next[..], prev[..], list, free, ring, chain, k);
      Unlink(idx);
      ring := Without(ring, k);
      chain := [idx as nat] + chain;
    }

    /** The writes of __xpool_remove. */
    method Unlink(idx: Word)
      requires Arrays() && idx < size && next[idx] < size && prev[idx] < size
      modifies this`list, this`free, next, prev
      ensures list == ListAfter(old(next[..]), old(list), idx) && free == idx
      ensures next[..] == NextAfter(old(next[..]), old(prev[..]), idx, old(free))
      ensures prev[..] == PrevAfter(old(next[..]), old(prev[..]), idx)
    {
      if idx == list {
        if idx == next[idx] { list := NO_INDEX; } else { list := next[idx]; }
      }
      next[prev[idx]] := next[idx];
      prev[next[idx]] := prev[idx];
      prev[idx] := NO_INDEX;
      next[idx] := free;
      free := idx;
    }

    /** __xpool_peek_and_fwd: what is at the cursor, which moves on. */
    method PeekAndForward() returns (ret: Word, d: Word)
      requires Valid()
      modifies this`list, this`ring
      ensures Valid()
      ensures old(ring) == [] ==> ret == NO_INDEX && ring == []
      ensures old(ring) != [] ==> ret == old(ring)[0] && d == data[ret] && ring == Rotated(old(ring))
    {
      if list == NO_INDEX { return NO_INDEX, 0; }
      ForwardLinks(next[..], prev[..], list, free, ring, chain);
      ret, d := list, data[list];
      list := next[list];
      ring := Rotated(ring);
    }

    /** __xpool_peek */
    method Peek() returns (ret: Word, d: Word)
      requires Valid()
      ensures ring == [] ==> ret == NO_INDEX
      ensures ring != [] ==> ret == ring[0] && d == data[ret]
    {
      if list == NO_INDEX { return NO_INDEX, 0; }
      ret, d := list, data[list];
    }

    /** __xpool_peek_idx: any node in use, wherever the cursor is. */
    method PeekIdx(idx: Word) returns (ret: Word, d: Word)
      requires Valid()
      ensures idx as nat !in ring ==> ret == NO_INDEX
      ensures idx as nat in ring ==> ret == idx && d == data[idx]
    {
      Distinct(ring, chain, size);
      if idx >= size { return NO_INDEX, 0; }
      InUse(next[..], prev[..], list, free, ring, chain, idx);
      if prev[idx] == NO_INDEX { return NO_INDEX, 0; }
      ret, d := idx, data[idx];
    }

    /**
     As many calls of xpool_peek_and_fwd as there are nodes in use meet each once, in order, and
     bring the cursor back.
     */
    method Walk(n: nat) returns (seen: seq<nat>)
      requires Valid() && n == |ring|
      modifies this`list, this`ring
      ensures Valid() && ring == old(ring) && list == old(list)
      ensures seen == old(ring) && NoRepeats(ring)
    {
      seen := [];
      ghost var start := ring;
      for i := 0 to n
        invariant Valid() && seen == start[..i] && ring == start[i..] + start[..i]
      {
        WalkStep(start, i);
        var ret, _ := PeekAndForward();
        seen := seen + [ret];
      }
      Distinct(ring, chain, size);
    }
  }
}
