/**
 The slab layer of src/xtypes/xobj.c: objects of one size are cut out of chunks that the heap
 gives, and the free ones are linked through their next fields.

 Objects and chunks are named by their offsets, and 0 is NULL. The chunk and its size are what
 xheap_allocate answers; XHeap shows that chunks do not overlap. The table of chunks is the
 finite map that XHash shows its tables to be.
 */
module XObj {
  import opened Words

  /** The i-th object of size s of chunk c. */
  function Slot(c: nat, s: nat, i: nat): nat {
    if i == 0 then c else Slot(c, s, i - 1) + s
  }

  lemma {:induction false} SlotIs(c: nat, s: nat, i: nat)
    ensures Slot(c, s, i) == c + s * i
  {
    if i > 0 {
      SlotIs(c, s, i - 1);
      assert s * i == s * (i - 1) + s;
    }
  }

  /** How many objects the loop of xobj_alloc_obj threads. */
  function Threaded(bytes: nat, s: nat): nat
    requires s > 0
  {
    if bytes == 0 then 0 else (bytes - 1) / s
  }

  /**
   The counters take a chunk for one object more than the loop threads exactly if the object size
   divides the chunk.
   */
  lemma CountIff(bytes: nat, s: nat)
    requires s > 0 && bytes > 0
    ensures bytes / s == Threaded(bytes, s) + if bytes % s == 0 then 1 else 0
  {
    var q, r := bytes / s, bytes % s;
    assert bytes == s * q + r;
    if r == 0 {
      assert s * q == s * (q - 1) + s;
      RemainderUnique(bytes - 1, s, q - 1, s - 1);
    } else {
      RemainderUnique(bytes - 1, s, q, r - 1);
    }
  }

  /** A threaded object lies inside its chunk, with its whole size and a byte to spare. */
  lemma SlotInside(c: nat, s: nat, i: nat, bytes: nat)
    requires s > 0
    ensures i < Threaded(bytes, s) <==> Slot(c, s, i) + s < c + bytes
    ensures i < bytes / s <==> Slot(c, s, i) + s <= c + bytes
  {
    SlotIs(c, s, i);
    Quotient(bytes, s, i);
    if bytes > 0 { Quotient(bytes - 1, s, i); }
  }

  lemma Quotient(x: nat, s: nat, i: nat)
    requires s > 0
    ensures i < x / s <==> s * i + s <= x
  {
    var q := x / s;
    assert x == s * q + x % s;
    assert s * (i + 1) == s * i + s;
    if i < q {
      MulMonotone(s, i + 1, q);
    } else {
      MulMonotone(s, q, i);
    }
  }

  /** Different objects of a chunk do not overlap. */
  lemma {:induction false} SlotsApart(c: nat, s: nat, i: nat, j: nat)
    requires i < j
    ensures Slot(c, s, i) + s <= Slot(c, s, j)
    decreases j
  {
    if i + 1 < j { SlotsApart(c, s, i, j - 1); }
  }

  /** The free list: from o on, the next fields lead through the objects of l and then to NULL. */
  ghost predicate Chain(next: map<nat, nat>, o: nat, l: seq<nat>)
    decreases |l|
  {
    if l == [] then o == 0 else o == l[0] && o != 0 && o in next && Chain(next, next[o], l[1..])
  }

  lemma {:induction false} ChainKept(next: map<nat, nat>, next': map<nat, nat>, o: nat, l: seq<nat>)
    requires Chain(next, o, l) && forall x | x in l && x in next :: x in next' && next'[x] == next[x]
    ensures Chain(next', o, l)
    decreases |l|
  {
    if l != [] {
      assert l[0] in l;
      ChainKept(next, next', next[o], l[1..]);
    }
  }

  /** The objects of a chunk from the i-th on. */
  function Slots(c: nat, s: nat, i: nat, n: nat): (l: seq<nat>)
    requires i <= n
    ensures |l| == n - i
    decreases n - i
  {
    if i == n then [] else [Slot(c, s, i)] + Slots(c, s, i + 1, n)
  }

  lemma {:induction false} SlotsAre(c: nat, s: nat, i: nat, n: nat, p: nat)
    requires i <= n
    ensures p in Slots(c, s, i, n) ==> exists k :: i <= k < n && p == Slot(c, s, k)
    ensures forall k | i <= k < n && p == Slot(c, s, k) :: p in Slots(c, s, i, n)
    decreases n - i
  {
    if i < n {
      SlotsAre(c, s, i + 1, n, p);
      assert Slots(c, s, i, n) == [Slot(c, s, i)] + Slots(c, s, i + 1, n);
      if p == Slot(c, s, i) { assert p in Slots(c, s, i, n); }
    }
  }

  lemma {:induction false} SlotsOnce(c: nat, s: nat, i: nat, n: nat, p: nat)
    requires i <= n && s > 0
    ensures multiset(Slots(c, s, i, n))[p] <= 1
    decreases n - i
  {
    if i < n {
      SlotsOnce(c, s, i + 1, n, p);
      SlotsAre(c, s, i + 1, n, p);
      assert Slots(c, s, i, n) == [Slot(c, s, i)] + Slots(c, s, i + 1, n);
      if p == Slot(c, s, i) && p in Slots(c, s, i + 1, n) {
        var k :| i + 1 <= k < n && p == Slot(c, s, k);
        SlotsApart(c, s, i, k);
      }
    }
  }

  /** Threaded objects, the last one linked to a list, make a longer list. */
  lemma {:induction false} ChainOfSlots(next: map<nat, nat>, c: nat, s: nat, i: nat, n: nat, list: nat, l: seq<nat>)
    requires c > 0 && s > 0 && i < n && Chain(next, list, l)
    requires forall k {:trigger Slot(c, s, k)} | i <= k < n ::
               Slot(c, s, k) in next && next[Slot(c, s, k)] == if k + 1 < n then Slot(c, s, k + 1) else list
    ensures Chain(next, Slot(c, s, i), Slots(c, s, i, n) + l)
    decreases n - i
  {
    var p := Slot(c, s, i);
    assert p in next;
    SlotFrom(c, s, i);
    if i + 1 < n {
      ChainOfSlots(next, c, s, i + 1, n, list, l);
    } else {
      assert Slots(c, s, i + 1, n) + l == l;
    }
    ChainCons(next, p, Slots(c, s, i + 1, n) + l);
    assert [p] + (Slots(c, s, i + 1, n) + l) == Slots(c, s, i, n) + l;
  }

  lemma ChainCons(next: map<nat, nat>, p: nat, l: seq<nat>)
    requires p != 0 && p in next && Chain(next, next[p], l)
    ensures Chain(next, p, [p] + l)
  {
    assert ([p] + l)[1..] == l;
  }

  // ----- the state

  /** p is the i-th object of chunk c. */
  predicate ObjectOf(c: nat, bytes: nat, s: nat, i: nat, p: nat) {
    p == Slot(c, s, i) && p + s < c + bytes
  }

  /** p is an object that was threaded in a tracked chunk. */
  ghost predicate IsObject(chunks: map<nat, nat>, s: nat, p: nat) {
    exists c, i: nat :: c in chunks && ObjectOf(c, chunks[c], s, i, p)
  }

  lemma {:induction false} SlotFrom(c: nat, s: nat, i: nat)
    ensures Slot(c, s, i) >= c
  {
    if i > 0 { SlotFrom(c, s, i - 1); }
  }

  ghost predicate ChunksApart(chunks: map<nat, nat>) {
    && (forall c | c in chunks :: c > 0)
    && forall c, d | c in chunks && d in chunks && c < d :: c + chunks[c] <= d
  }

  /** Every threaded object is once on the free list or once held, and nothing else is. */
  ghost predicate Shared(chunks: map<nat, nat>, s: nat, free: seq<nat>, held: set<nat>)
  {
    forall p :: multiset(free)[p] + (if p in held then 1 else 0) == if IsObject(chunks, s, p) then 1 else 0
  }

  /** A chunk that is in no tracked one. */
  ghost predicate Elsewhere(chunks: map<nat, nat>, c: nat, bytes: nat) {
    c > 0 && c !in chunks && forall d | d in chunks :: c + bytes <= d || d + chunks[d] <= c
  }

  /** Objects are disjoint, wherever they are. */
  lemma ObjectsApart(chunks: map<nat, nat>, s: nat, p: nat, q: nat)
    requires ChunksApart(chunks) && IsObject(chunks, s, p) && IsObject(chunks, s, q) && p != q
    ensures p + s <= q || q + s <= p
  {
    var c, i: nat :| c in chunks && ObjectOf(c, chunks[c], s, i, p);
    var d, j: nat :| d in chunks && ObjectOf(d, chunks[d], s, j, q);
    SlotFrom(c, s, i);
    SlotFrom(d, s, j);
    if c == d {
      if i < j { SlotsApart(c, s, i, j); } else { SlotsApart(c, s, j, i); }
    } else if c < d {
      assert c + chunks[c] <= d;
    } else {
      assert d + chunks[d] <= c;
    }
  }

  /** The objects of one chunk. */
  lemma ObjectsOfChunk(c: nat, bytes: nat, s: nat, p: nat)
    requires s > 0
    ensures p in Slots(c, s, 0, Threaded(bytes, s)) <==> exists i: nat :: ObjectOf(c, bytes, s, i, p)
    ensures p in Slots(c, s, 0, Threaded(bytes, s)) ==> c <= p < c + bytes
  {
    var n := Threaded(bytes, s);
    SlotsAre(c, s, 0, n, p);
    if p in Slots(c, s, 0, n) {
      var k :| 0 <= k < n && p == Slot(c, s, k);
      SlotInside(c, s, k, bytes);
      SlotFrom(c, s, k);
      assert ObjectOf(c, bytes, s, k, p);
    }
    if i: nat :| ObjectOf(c, bytes, s, i, p) {
      SlotInside(c, s, i, bytes);
    }
  }

  /** An object of the new chunk is not an object of the others. */
  lemma NewObjects(chunks: map<nat, nat>, s: nat, c: nat, bytes: nat, p: nat)
    requires s > 0 && ChunksApart(chunks) && Elsewhere(chunks, c, bytes)
    ensures var l := Slots(c, s, 0, Threaded(bytes, s));
            && multiset(l)[p] <= 1 && (p in l ==> c <= p < c + bytes && !IsObject(chunks, s, p))
            && (IsObject(chunks[c := bytes], s, p) <==> IsObject(chunks, s, p) || p in l)
  {
    SlotsOnce(c, s, 0, Threaded(bytes, s), p);
    ObjectsOfChunk(c, bytes, s, p);
    var more := chunks[c := bytes];
    if d, j: nat :| d in chunks && ObjectOf(d, chunks[d], s, j, p) {
      SlotFrom(d, s, j);
      assert d in more && ObjectOf(d, more[d], s, j, p);
    }
    if j: nat :| ObjectOf(c, bytes, s, j, p) {
      assert c in more && ObjectOf(c, more[c], s, j, p);
    }
  }

  lemma SharedMore(chunks: map<nat, nat>, s: nat, free: seq<nat>, held: set<nat>, c: nat, bytes: nat)
    requires s > 0 && ChunksApart(chunks) && Elsewhere(chunks, c, bytes) && Shared(chunks, s, free, held)
    ensures Shared(chunks[c := bytes], s, Slots(c, s, 0, Threaded(bytes, s)) + free, held)
  {
    var l := Slots(c, s, 0, Threaded(bytes, s));
    forall p
      ensures multiset(l + free)[p] + (if p in held then 1 else 0)
              == if IsObject(chunks[c := bytes], s, p) then 1 else 0
    {
      NewObjects(chunks, s, c, bytes, p);
      assert multiset(free)[p] + (if p in held then 1 else 0) == if IsObject(chunks, s, p) then 1 else 0;
      assert multiset(l + free)[p] == multiset(l)[p] + multiset(free)[p];
    }
  }

  /** The chunks whose size is a whole number of objects. */
  ghost function Exact(chunks: map<nat, nat>, s: nat): set<nat>
    requires s > 0
  {
    set c | c in chunks && chunks[c] % s == 0
  }

  /** The links of the listed objects are the same. */
  ghost predicate SameLinks(next: map<nat, nat>, next': map<nat, nat>, l: seq<nat>) {
    forall x | x in l && x in next :: x in next' && next'[x] == next[x]
  }

  /** The first n objects of the chunk are linked, each to the next. */
  ghost predicate IsThreaded(next: map<nat, nat>, c: nat, s: nat, n: nat) {
    forall k {:trigger Slot(c, s, k)} | 0 <= k < n :: Slot(c, s, k) in next && next[Slot(c, s, k)] == Slot(c, s, k + 1)
  }

  /** One more object is threaded. */
  lemma ThreadStep(next: map<nat, nat>, c: nat, s: nat, n: nat)
    requires s > 0
    requires IsThreaded(next, c, s, n)
    ensures IsThreaded(next[Slot(c, s, n) := Slot(c, s, n + 1)], c, s, n + 1)
  {
    forall k | 0 <= k < n ensures Slot(c, s, k) != Slot(c, s, n) {
      SlotsApart(c, s, k, n);
    }
  }

  /** The last object is linked to the list. */
  lemma LastLinked(next: map<nat, nat>, c: nat, s: nat, n: nat, list: nat)
    requires s > 0 && n > 0
    requires IsThreaded(next, c, s, n)
    ensures var next' := next[Slot(c, s, n - 1) := list];
            forall k {:trigger Slot(c, s, k)} | 0 <= k < n ::
              Slot(c, s, k) in next' && next'[Slot(c, s, k)] == if k + 1 < n then Slot(c, s, k + 1) else list
  {
    forall k | 0 <= k < n - 1 ensures Slot(c, s, k) != Slot(c, s, n - 1) {
      SlotsApart(c, s, k, n - 1);
    }
  }

  /** With the last threaded object linked to the old list, the threaded ones and the list are one chain. */
  lemma LinkLast(next: map<nat, nat>, c: nat, s: nat, n: nat, list: nat, free: seq<nat>)
    requires c > 0 && s > 0 && n > 0 && Chain(next, list, free) && Slot(c, s, n - 1) !in free
    requires IsThreaded(next, c, s, n)
    ensures Chain(next[Slot(c, s, n - 1) := list], c, Slots(c, s, 0, n) + free)
  {
    var next' := next[Slot(c, s, n - 1) := list];
    LastLinked(next, c, s, n, list);
    ChainKept(next, next', list, free);
    ChainOfSlots(next', c, s, 0, n, list, free);
  }

  lemma ApartMore(chunks: map<nat, nat>, c: nat, bytes: nat)
    requires ChunksApart(chunks) && Elsewhere(chunks, c, bytes) && bytes > 0 && forall d | d in chunks :: chunks[d] > 0
    ensures ChunksApart(chunks[c := bytes])
  {
  }

  lemma ExactMore(chunks: map<nat, nat>, s: nat, c: nat, bytes: nat)
    requires s > 0 && c !in chunks
    ensures |Exact(chunks[c := bytes], s)| == |Exact(chunks, s)| + if bytes % s == 0 then 1 else 0
  {
    var e, e' := Exact(chunks, s), Exact(chunks[c := bytes], s);
    if bytes % s == 0 { assert e' == e + {c}; } else { assert e' == e; }
  }

  /** The first free object becomes a held one. */
  lemma TakeShared(chunks: map<nat, nat>, s: nat, free: seq<nat>, held: set<nat>)
    requires Shared(chunks, s, free, held) && free != []
    ensures IsObject(chunks, s, free[0]) && free[0] !in held && Shared(chunks, s, free[1..], held + {free[0]})
  {
    var x := free[0];
    assert free == [x] + free[1..];
    assert multiset(free)[x] + (if x in held then 1 else 0) == if IsObject(chunks, s, x) then 1 else 0;
    forall p
      ensures multiset(free[1..])[p] + (if p in held + {x} then 1 else 0) == if IsObject(chunks, s, p) then 1 else 0
    {
      assert multiset(free)[p] + (if p in held then 1 else 0) == if IsObject(chunks, s, p) then 1 else 0;
      assert multiset(free)[p] == multiset(free[1..])[p] + if p == x then 1 else 0;
    }
  }

  lemma GiveShared(chunks: map<nat, nat>, s: nat, free: seq<nat>, held: set<nat>, x: nat)
    requires Shared(chunks, s, free, held) && ChunksApart(chunks) && x in held
    ensures x !in free && x > 0 && Shared(chunks, s, [x] + free, held - {x})
  {
    assert multiset(free)[x] + (if x in held then 1 else 0) == if IsObject(chunks, s, x) then 1 else 0;
    var c, i: nat :| c in chunks && ObjectOf(c, chunks[c], s, i, x);
    SlotFrom(c, s, i);
    forall p
      ensures multiset([x] + free)[p] + (if p in held - {x} then 1 else 0) == if IsObject(chunks, s, p) then 1 else 0
    {
      assert multiset(free)[p] + (if p in held then 1 else 0) == if IsObject(chunks, s, p) then 1 else 0;
      assert multiset([x] + free)[p] == multiset(free)[p] + if p == x then 1 else 0;
    }
  }

  class XObj {
    const objSize: nat
    var list: nat
    var nrFree: nat
    var nrAllocated: nat
    var chunks: map<nat, nat>
    var next: map<nat, nat>
    ghost var free: seq<nat>
    ghost var held: set<nat>

    ghost predicate Valid()
      reads this
    {
      && objSize > 0 && ChunksApart(chunks)
      && Chain(next, list, free)
      && Shared(chunks, objSize, free, held)
      && (forall c | c in chunks :: chunks[c] > objSize)
      && nrFree == |free| + |Exact(chunks, objSize)|
      && nrAllocated == |free| + |held| + |Exact(chunks, objSize)|
    }

    /** xobj_handler_init, without its hash table; an object is at least as large as its header. */
    constructor (size: nat)
      ensures Valid() && free == [] && held == {} && chunks == map[] && objSize == (if size < 24 then 24 else size)
    {
      objSize := if size < 24 then 24 else size;
      list, nrFree, nrAllocated, chunks, next := 0, 0, 0, map[], map[];
      free, held := [], {};
      new;
      assert Exact(chunks, objSize) == {};
    }

    /** The free counter is exact as long as no tracked chunk is a whole number of objects. */
    lemma FreeCountIff()
      requires Valid()
      ensures nrFree == |free| <==> forall c | c in chunks :: chunks[c] % objSize != 0
    {
      if nrFree == |free| {
        assert Exact(chunks, objSize) == {};
        forall c | c in chunks ensures chunks[c] % objSize != 0 {
          assert c !in Exact(chunks, objSize);
        }
      } else {
        var c :| c in Exact(chunks, objSize);
      }
    }

    /**
     xobj_alloc_obj: mem is the chunk that the heap gave and bytes its size, or 0; tracked says
     that the chunk could be entered into the table. It fails if the chunk has no room for an
     object and a byte more.
     */
    method AllocObj(mem: nat, bytes: nat, tracked: bool) returns (r: int)
      requires Valid() && (mem != 0 ==> Elsewhere(chunks, mem, bytes))
      modifies this
      ensures Valid() && held == old(held)
      ensures r == if mem != 0 && bytes > objSize && tracked then 0 else -1
      ensures r == 0 ==> free == Slots(mem, objSize, 0, Threaded(bytes, objSize)) + old(free) && free != []
                         && chunks == old(chunks)[mem := bytes]
      ensures r != 0 ==> free == old(free) && chunks == old(chunks) && nrFree == old(nrFree)
    {
      if mem == 0 { return -1; }
      var obj, n := Thread(mem, bytes);
      if obj == 0 || !tracked { return -1; }
      var more := bytes / objSize;
      Counters(mem, bytes, n, more);
      NotListed(mem, bytes, n - 1);
      LinkLast(next, mem, objSize, n, list, free);
      SharedMore(chunks, objSize, free, held, mem, bytes);
      ApartMore(chunks, mem, bytes);
      Add(mem, bytes, obj, more, Slots(mem, objSize, 0, n));
      r := 0;
    }

    /** The threading loop, which ends with obj at the last object, if there is one. */
    method Thread(mem: nat, bytes: nat) returns (obj: nat, ghost n: nat)
      requires Valid() && Elsewhere(chunks, mem, bytes)
      modifies this`next
      ensures Valid() && n == Threaded(bytes, objSize) && (n > 0 <==> bytes > objSize)
      ensures obj == if n == 0 then 0 else Slot(mem, objSize, n - 1)
      ensures obj == 0 <==> n == 0
      ensures IsThreaded(next, mem, objSize, n)
    {
      n := 0;
      obj := 0;
      var used := 0;
      SlotInside(mem, objSize, 0, bytes);
      while used + objSize < bytes
        invariant mem + used == Slot(mem, objSize, n) && n <= Threaded(bytes, objSize)
        invariant obj == (if n == 0 then 0 else Slot(mem, objSize, n - 1)) && (obj == 0 <==> n == 0)
        invariant IsThreaded(next, mem, objSize, n)
        invariant SameLinks(old(next), next, free)
        decreases bytes - used
      {
        SlotInside(mem, objSize, n, bytes);
        NotListed(mem, bytes, n);
        ThreadStep(next, mem, objSize, n);
        obj := mem + used;
        used := used + objSize;
        next := next[obj := mem + used];
        n := n + 1;
      }
      SlotInside(mem, objSize, n, bytes);
      ChainKept(old(next), next, list, free);
    }

    /** The objects of a chunk elsewhere are not on the free list. */
    lemma NotListed(mem: nat, bytes: nat, n: nat)
      requires objSize > 0 && ChunksApart(chunks) && Shared(chunks, objSize, free, held)
      requires Elsewhere(chunks, mem, bytes) && n < Threaded(bytes, objSize)
      ensures Slot(mem, objSize, n) !in free && Slot(mem, objSize, n) !in held
    {
      var p := Slot(mem, objSize, n);
      SlotsAre(mem, objSize, 0, Threaded(bytes, objSize), p);
      NewObjects(chunks, objSize, mem, bytes, p);
      assert multiset(free)[p] + (if p in held then 1 else 0) == 0;
    }

    /** The end of xobj_alloc_obj: the threaded objects l go to the front of the free list. */
    method Add(mem: nat, bytes: nat, obj: nat, more: nat, ghost l: seq<nat>)
      requires Valid() && bytes > objSize
      requires ChunksApart(chunks[mem := bytes]) && Shared(chunks[mem := bytes], objSize, l + free, held)
      requires Chain(next[obj := list], mem, l + free)
      requires more == |l| + |Exact(chunks[mem := bytes], objSize)| - |Exact(chunks, objSize)|
      modifies this
      ensures Valid() && held == old(held) && free == l + old(free) && chunks == old(chunks)[mem := bytes]
    {
      chunks := chunks[mem := bytes];
      nrFree := nrFree + more;
      nrAllocated := nrAllocated + more;
      next := next[obj := list];
      list := mem;
      free := l + free;
    }

    /** What the new chunk adds to the counters. */
    lemma Counters(mem: nat, bytes: nat, n: nat, more: nat)
      requires objSize > 0 && mem !in chunks && n == Threaded(bytes, objSize) && bytes > 0 && more == bytes / objSize
      ensures more == n + |Exact(chunks[mem := bytes], objSize)| - |Exact(chunks, objSize)|
    {
      CountIff(bytes, objSize);
      ExactMore(chunks, objSize, mem, bytes);
    }

    /** Taking the first free object. */
    method Take() returns (p: nat)
      requires Valid() && free != []
      modifies this`list, this`nrFree, this`free, this`held
      ensures Valid() && [p] + free == old(free) && held == old(held) + {p}
      ensures p != 0 && p !in old(held) && IsObject(chunks, objSize, p)
    {
      TakeShared(chunks, objSize, free, held);
      p := list;
      list := next[list];
      nrFree := nrFree - 1;
      held := held + {p};
      free := free[1..];
    }

    /**
     xobj_get_obj: takes the first free object. With X_ALLOC it first cuts up a new chunk for 64
     objects if there is none; mem, bytes and tracked are as for AllocObj.
     */
    method GetObj(xalloc: bool, mem: nat, bytes: nat, tracked: bool) returns (p: nat)
      requires Valid() && (mem != 0 ==> Elsewhere(chunks, mem, bytes))
      modifies this
      ensures Valid()
      ensures p == 0 <==> old(free) == [] && (!xalloc || mem == 0 || bytes <= objSize || !tracked)
      ensures p == 0 ==> free == old(free) && held == old(held)
      ensures p != 0 ==> p !in old(held) && held == old(held) + {p} && IsObject(chunks, objSize, p)
      ensures p != 0 ==>
                [p] + free == if old(free) != [] then old(free) else Slots(mem, objSize, 0, Threaded(bytes, objSize))
    {
      if list == 0 {
        if !xalloc { return 0; }
        var r := AllocObj(mem, bytes, tracked);
        if r < 0 { return 0; }
      }
      p := Take();
    }

    /** xobj_put_obj of an object that its caller holds. */
    method PutObj(p: nat)
      requires Valid() && p in held
      modifies this
      ensures Valid() && free == [p] + old(free) && held == old(held) - {p} && chunks == old(chunks)
    {
      GiveShared(chunks, objSize, free, held, p);
      next := next[p := list];
      ChainKept(old(next), next, list, free);
      assert ([p] + free)[1..] == free;
      list := p;
      nrFree := nrFree + 1;
      held := held - {p};
      free := [p] + free;
    }

    /** What a holder writes to its object, the next field included, is harmless. */
    method WriteHeld(p: nat, v: nat)
      requires Valid() && p in held
      modifies this`next
      ensures Valid() && next == old(next)[p := v]
    {
      GiveShared(chunks, objSize, free, held, p);
      ChainKept(next, next[p := v], list, free);
      next := next[p := v];
    }

    /** __xobj_isFree: a walk along the free list. */
    method IsFree(p: nat) returns (r: bool)
      requires Valid()
      ensures r <==> p in free
    {
      var node := list;
      ghost var rest := free;
      while node != 0
        invariant Chain(next, node, rest) && (p in free <==> p in rest)
        decreases |rest|
      {
        if node == p { return true; }
        assert rest == [rest[0]] + rest[1..];
        node := next[node];
        rest := rest[1..];
      }
      r := false;
    }

    /** __xobj_check: is p the address of an object of a tracked chunk, counted as the counters do. */
    method Check(p: nat) returns (r: bool)
      requires Valid()
      ensures r <==> exists c, i :: c in chunks && 0 <= i < chunks[c] / objSize && p == Slot(c, objSize, i)
    {
      var rest := chunks.Keys;
      while rest != {}
        invariant rest <= chunks.Keys
        invariant forall c, i | c in chunks && c !in rest && 0 <= i < chunks[c] / objSize :: p != Slot(c, objSize, i)
        decreases |rest|
      {
        var c :| c in rest;
        for i := 0 to chunks[c] / objSize
          invariant forall k | 0 <= k < i :: p != Slot(c, objSize, k)
        {
          SlotIs(c, objSize, i);
          if c + objSize * i == p {
            assert p == Slot(c, objSize, i);
            return true;
          }
        }
        rest := rest - {c};
      }
      r := false;
    }

    /** An object that was handed out passes the check and is not free; one that was put back is free. */
    lemma HeldPassesCheck(p: nat)
      requires Valid() && (p in held || p in free)
      ensures exists c, i :: c in chunks && 0 <= i < chunks[c] / objSize && p == Slot(c, objSize, i)
      ensures p in held <==> p !in free
      ensures p > 0
    {
      assert multiset(free)[p] + (if p in held then 1 else 0) == if IsObject(chunks, objSize, p) then 1 else 0;
      var c, i: nat :| c in chunks && ObjectOf(c, chunks[c], objSize, i, p);
      SlotFrom(c, objSize, i);
      SlotInside(c, objSize, i, chunks[c]);
    }
  }
}
