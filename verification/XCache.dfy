/**
 The cache of src/xtypes/xcache.c without the table of removed entries and with the array LRU.
 The access times are those of XCacheLru; the hash table "entries" and the queue of free nodes
 are the map and the sequence that XCacheTable and XQ show them to be; that the table must be
 rebuilt and finds no memory for it is a parameter of the insertion. The callers take turns here;
 their interleaving is the subject of XCacheRm.
 */
module XCache {
  import opened Names
  import opened Words
  import opened HashTable
  import opened XHash
  import opened XCacheTable
  import opened XCacheLru
  import opened XQ
  import opened Seqs

  /** Where a node is: Removed means out of the table while somebody still holds it. */
  datatype Place = Free | New | InTable | Removed

  /** The state of the cache in values; holders counts the references that callers have. */
  datatype View = View(
    size: nat,
    table: map<Name, Word>,
    order: seq<nat>,
    freeQ: seq<Word>,
    refs: seq<int>,
    names: seq<Name>,
    place: seq<Place>,
    holders: multiset<nat>
  )

  /** A reference for each holder, and one for the table. */
  predicate NodeOk(place: Place, ref: int, h: nat) {
    match place
    case Free => ref == 0 && h == 0
    case New => ref == h >= 1
    case InTable => ref == h + 1
    case Removed => ref == h >= 1
  }

  ghost predicate Lists(v: View)
    requires |v.names| == |v.place|
  {
    && (forall n | n in v.table :: v.table[n] < |v.place| && v.place[v.table[n]] == InTable && v.names[v.table[n]] == n)
    && (forall i | 0 <= i < |v.place| && v.place[i] == InTable :: v.names[i] in v.table && v.table[v.names[i]] == i)
  }

  ghost predicate Nodes(v: View)
    requires |v.refs| == |v.place|
  {
    forall i | 0 <= i < |v.place| :: NodeOk(v.place[i], v.refs[i], v.holders[i])
  }

  ghost predicate FreeOk(v: View) {
    forall i: Word :: multiset(v.freeQ)[i] == if i < |v.place| && v.place[i] == Free then 1 else 0
  }

  /** Every node is in exactly one place, and the references, the table, the times and the free queue agree with it. */
  ghost predicate Good(v: View) {
    && 0 < v.size <= MAX_SIZE && |v.refs| == |v.names| == |v.place| == 2 * v.size
    && Nodes(v) && Lists(v) && FreeOk(v)
    && |v.table| <= v.size
    && (forall i | 0 <= i < |v.place| :: i in v.order <==> v.place[i] == InTable)
    && (forall i | i in v.order :: i < |v.place|)
  }

  // ----- changing one node

  ghost function SetNode(v: View, i: nat, ref: int, place: Place, h: nat): View
    requires i < |v.refs| && i < |v.place|
  {
    v.(refs := v.refs[i := ref], place := v.place[i := place], holders := v.holders[i := h])
  }

  lemma NodesAfter(v: View, i: nat, ref: int, place: Place, h: nat)
    requires |v.refs| == |v.place| && Nodes(v) && i < |v.place| && NodeOk(place, ref, h)
    ensures Nodes(SetNode(v, i, ref, place, h))
  {
    var v' := SetNode(v, i, ref, place, h);
    forall j | 0 <= j < |v'.place| ensures NodeOk(v'.place[j], v'.refs[j], v'.holders[j]) {
      assert j != i ==> NodeOk(v.place[j], v.refs[j], v.holders[j]);
    }
  }

  lemma NodeAt(v: View, i: nat)
    requires Good(v) && i < |v.place|
    ensures NodeOk(v.place[i], v.refs[i], v.holders[i])
  {
  }

  lemma EntryAt(v: View, name: Name)
    requires Good(v) && name in v.table
    ensures var h := v.table[name]; h < |v.place| && v.place[h] == InTable && v.names[h] == name
  {
  }

  lemma NotThere(v: View, h: nat)
    requires Good(v) && h < |v.place| && v.names[h] !in v.table
    ensures v.place[h] != InTable
  {
  }

  /** As long as a node is in use, the free queue has room for it, so its BUG branch is not reached. */
  lemma FreeRoom(v: View, i: nat)
    requires Good(v) && i < |v.place|
    ensures |v.freeQ| <= 2 * v.size && (v.place[i] != Free ==> |v.freeQ| < 2 * v.size)
  {
    var q: seq<nat> := v.freeQ;
    forall j ensures multiset(q)[j] <= if j < |v.place| then 1 else 0 {
      if j in q {
        var k :| 0 <= k < |q| && q[k] == j;
        assert j == v.freeQ[k];
      }
    }
    forall j | j in q ensures j < |v.place| {
      assert multiset(q)[j] > 0;
    }
    if v.place[i] != Free {
      Sparse(q, |v.place|, i);
    } else {
      OnceEach(q, set j | j in q);
      FewBelow(|v.place|, set j | j in q);
    }
  }

  /** The references of a node change, and nothing else. */
  lemma RefsGood(v: View, i: nat, ref: int, h: nat)
    requires Good(v) && i < |v.place| && NodeOk(v.place[i], ref, h)
    ensures Good(SetNode(v, i, ref, v.place[i], h))
  {
    NodesAfter(v, i, ref, v.place[i], h);
    assert SetNode(v, i, ref, v.place[i], h).place == v.place;
  }

  /** The order of accesses changes, but not which nodes have times. */
  lemma OrderGood(v: View, order: seq<nat>)
    requires Good(v) && forall k :: k in order <==> k in v.order
    ensures Good(v.(order := order))
  {
  }

  /** The free queue holds indices of nodes. */
  lemma QueueBelow(v: View, x: Word)
    requires Good(v)
    ensures x in v.freeQ ==> x < |v.place| < NONE
  {
    if x in v.freeQ { assert multiset(v.freeQ)[x] > 0; }
  }

  ghost function Taken(v: View, i: Word, name: Name): View
    requires i < |v.refs| && i < |v.place| && i < |v.names| && v.freeQ != []
  {
    SetNode(v, i, 1, New, 1).(freeQ := v.freeQ[..|v.freeQ| - 1], names := v.names[i as nat := name])
  }

  /** A node leaves the free queue with a new name. */
  lemma TakeGood(v: View, i: Word, rest: seq<Word>, name: Name)
    requires Good(v) && v.freeQ == rest + [i]
    ensures i < |v.place| && v.place[i] == Free && v.refs[i] == 0
    ensures Good(Taken(v, i, name))
  {
    assert multiset(v.freeQ) == multiset(rest) + multiset{i};
    assert i in multiset(v.freeQ);
    NodesAfter(v, i, 1, New, 1);
    var v' := Taken(v, i, name);
    assert v'.freeQ == rest;
    forall j: Word ensures multiset(v'.freeQ)[j] == if j < |v'.place| && v'.place[j] == Free then 1 else 0 {
      assert multiset(v.freeQ)[j] == if j < |v.place| && v.place[j] == Free then 1 else 0;
    }
  }

  /** A node that nobody refers to goes to the free queue. */
  lemma GiveGood(v: View, i: Word)
    requires Good(v) && i < |v.place| && (v.place[i] == New || v.place[i] == Removed)
    ensures Good(SetNode(v, i, 0, Free, 0).(freeQ := v.freeQ + [i]))
  {
    NodesAfter(v, i, 0, Free, 0);
    var v' := SetNode(v, i, 0, Free, 0).(freeQ := v.freeQ + [i]);
    forall j: Word ensures multiset(v'.freeQ)[j] == if j < |v'.place| && v'.place[j] == Free then 1 else 0 {
      assert multiset(v.freeQ)[j] == if j < |v.place| && v.place[j] == Free then 1 else 0;
    }
  }

  /** The table follows node i into it. */
  lemma ListsMore(v: View, v': View, i: Word)
    requires |v.names| == |v.place| && Lists(v) && i < |v.place| && v.place[i] != InTable && v.names[i] !in v.table
    requires v'.names == v.names && v'.place == v.place[i as nat := InTable] && v'.table == v.table[v.names[i] := i]
    ensures Lists(v')
  {
    forall n | n in v'.table
      ensures v'.table[n] < |v'.place| && v'.place[v'.table[n]] == InTable && v'.names[v'.table[n]] == n
    {
      if n in v.table { assert v.table[n] < |v.place| && v.place[v.table[n]] == InTable; }
    }
  }

  /** The table follows node i out of it. */
  lemma ListsLess(v: View, v': View, i: nat)
    requires |v.names| == |v.place| && Lists(v) && i < |v.place| && v.place[i] == InTable
    requires v'.names == v.names && |v'.place| == |v.place| && v'.place == v.place[i := v'.place[i]]
             && v'.place[i] != InTable
    requires v'.table == v.table - {v.names[i]}
    ensures Lists(v') && v.names[i] in v.table && v.table[v.names[i]] == i
  {
    forall n | n in v'.table
      ensures v'.table[n] < |v'.place| && v'.place[v'.table[n]] == InTable && v'.names[v'.table[n]] == n
    {
      assert v.table[n] < |v.place| && v.place[v.table[n]] == InTable && v.names[v.table[n]] == n;
    }
  }

  lemma OneMore(m: map<Name, Word>, n: Name, x: Word)
    requires n !in m
    ensures |m[n := x]| == |m| + 1
  {
    assert m[n := x].Keys == m.Keys + {n};
    assert |m[n := x]| == |m[n := x].Keys| && |m| == |m.Keys|;
  }

  lemma OneLess(m: map<Name, Word>, n: Name)
    requires n in m
    ensures |m - {n}| == |m| - 1
  {
    assert (m - {n}).Keys == m.Keys - {n};
    assert |m - {n}| == |(m - {n}).Keys| && |m| == |m.Keys|;
  }

  /** The node is in use, but not in the table: it is new, or was removed while somebody held it. */
  predicate Loose(p: Place) { p == New || p == Removed }

  ghost function Inserted(v: View, i: Word, order: seq<nat>): View
    requires i < |v.refs| && i < |v.place| && i < |v.names|
  {
    SetNode(v.(table := v.table[v.names[i] := i], order := order), i, v.refs[i] + 1, InTable, v.holders[i])
  }

  /** A new node enters the table; its allocator's reference passes to the table, and the caller gets another. */
  lemma InsertGood(v: View, i: Word, order: seq<nat>)
    requires Good(v) && i < |v.place| && Loose(v.place[i]) && v.names[i] !in v.table && |v.table| < v.size
    requires forall k :: k in order <==> k in v.order || k == i
    ensures Good(Inserted(v, i, order))
  {
    var v' := Inserted(v, i, order);
    NodesAfter(v, i, v.refs[i] + 1, InTable, v.holders[i]);
    ListsMore(v, v', i);
    OneMore(v.table, v.names[i], i);
    FreeSame(v, v', i);
  }

  lemma FreeSame(v: View, v': View, i: nat)
    requires FreeOk(v) && v'.freeQ == v.freeQ && |v'.place| == |v.place| && i < |v.place|
    requires v'.place == v.place[i := v'.place[i]] && v.place[i] != Free && v'.place[i] != Free
    ensures FreeOk(v')
  {
    forall j: Word ensures multiset(v'.freeQ)[j] == if j < |v'.place| && v'.place[j] == Free then 1 else 0 {
      assert multiset(v.freeQ)[j] == if j < |v.place| && v.place[j] == Free then 1 else 0;
    }
  }

  ghost function TakenOut(v: View, i: nat, order: seq<nat>): View
    requires i < |v.refs| && i < |v.place| && i < |v.names|
  {
    SetNode(v, i, v.refs[i], Removed, v.holders[i] + 1).(table := v.table - {v.names[i]}, order := order)
  }

  /** A node leaves the table; until it is put, whoever removed it holds the table's reference. */
  lemma RemoveGood(v: View, i: nat, order: seq<nat>)
    requires Good(v) && i < |v.place| && v.place[i] == InTable
    requires forall k :: k in order <==> k in v.order && k != i
    ensures Good(TakenOut(v, i, order))
    ensures v.names[i] in v.table && v.table[v.names[i]] == i && |v.table - {v.names[i]}| == |v.table| - 1
  {
    var v' := TakenOut(v, i, order);
    NodesAfter(v, i, v.refs[i], Removed, v.holders[i] + 1);
    ListsLess(v, v', i);
    OneLess(v.table, v.names[i]);
    FreeSame(v, v', i);
  }

  lemma {:induction false} UptoCounts(n: nat)
    requires n <= WORD_LIMIT
    ensures forall i: Word :: multiset(Upto(0, n))[i] == if i < n then 1 else 0
  {
    if n > 0 {
      UptoCounts(n - 1);
      var last: Word := n - 1;
      assert Upto(0, n) == Upto(0, n - 1) + [last];
    }
  }

  /** What xq_init_seq leaves in the free queue (XQ.InitSeqContents) is every node. */
  lemma AsInitialised(q: seq<Word>, n: nat)
    requires 0 < n == |q| <= WORD_LIMIT && forall i | 0 <= i < n :: q[i] == if i + 1 < n then i + 1 else 0
    ensures multiset(q) == multiset(Upto(0, n))
  {
    assert q == Upto(1, n) + [0];
    UptoFromZero(n);
    OneDiffers(Upto(1, n), 0);
  }

  /** The free queue of a new cache holds every node. */
  lemma AllFree(n: nat, q: seq<Word>)
    requires n <= WORD_LIMIT && multiset(q) == multiset(Upto(0, n))
    ensures forall i: Word :: multiset(q)[i] == if i < n then 1 else 0
  {
    UptoCounts(n);
  }

  // ----- what the calls make of the cache

  ghost function Got(v: View, h: nat): View
    requires h < |v.refs| && h < |v.place|
  {
    SetNode(v, h, v.refs[h] + 1, v.place[h], v.holders[h] + 1)
  }

  lemma GotGood(v: View, h: nat)
    requires Good(v) && h < |v.place| && v.holders[h] > 0
    ensures Good(Got(v, h))
  {
    NodeAt(v, h);
    RefsGood(v, h, v.refs[h] + 1, v.holders[h] + 1);
  }

  /** An access by lookup, or by insert of a name that is there: one more holder, and the latest access. */
  ghost function Accessed(v: View, h: nat): View
    requires h < |v.refs| && h < |v.place|
  {
    Got(v.(order := Touched(v.order, h)), h)
  }

  lemma AccessGood(v: View, h: nat)
    requires Good(v) && h < |v.place| && v.place[h] == InTable
    ensures Good(Accessed(v, h))
  {
    WithoutFacts(v.order, h);
    OrderGood(v, Touched(v.order, h));
    NodeAt(v, h);
    RefsGood(v.(order := Touched(v.order, h)), h, v.refs[h] + 1, v.holders[h] + 1);
  }

  ghost function Freed(v: View, h: Word): View
    requires h < |v.refs| && h < |v.place|
  {
    SetNode(v.(freeQ := v.freeQ + [h]), h, 0, Free, 0)
  }

  /** A put: the last reference to a node gives it back to the free queue. */
  ghost function Dropped(v: View, h: Word): View
    requires h < |v.refs| && h < |v.place| && v.holders[h] > 0
  {
    if v.holders[h] > 1 || v.place[h] == InTable
    then SetNode(v, h, v.refs[h] - 1, v.place[h], v.holders[h] - 1)
    else Freed(v, h)
  }

  lemma DropGood(v: View, h: Word)
    requires Good(v) && h < |v.place| && v.holders[h] > 0
    ensures Good(Dropped(v, h)) && (v.refs[h] - 1 > 0 <==> v.holders[h] > 1 || v.place[h] == InTable)
  {
    NodeAt(v, h);
    if v.holders[h] > 1 || v.place[h] == InTable {
      RefsGood(v, h, v.refs[h] - 1, v.holders[h] - 1);
    } else {
      GiveGood(v, h);
    }
  }

  /** An eviction: the least recently accessed entry leaves the table, held by whoever evicts it. */
  ghost function EvictedFrom(v: View): View
    requires v.order != [] && v.order[0] < |v.refs| && v.order[0] < |v.place| && v.order[0] < |v.names|
  {
    TakenOut(v, v.order[0], v.order[1..])
  }

  /** A full table has an entry to evict, and the eviction makes room for one. */
  lemma EvictGood(v: View, t: seq<Word>, now: int)
    requires Good(v) && |v.table| >= v.size && Timed(v.order, t, now)
    ensures v.order != [] && v.order[0] < |v.place| && v.place[v.order[0]] == InTable
    ensures Good(EvictedFrom(v)) && |EvictedFrom(v).table| == v.size - 1
    ensures v.names[v.order[0]] in v.table && v.table[v.names[v.order[0]]] == v.order[0]
  {
    var n :| n in v.table;
    EntryAt(v, n);
    assert v.order != [] && v.order[0] in v.order;
    RestTimed(v.order, t, now);
    RemoveGood(v, v.order[0], v.order[1..]);
  }

  /** An insertion of a new node into a table with room. */
  ghost function Entered(v: View, h: Word): View
    requires h < |v.refs| && h < |v.place| && h < |v.names|
  {
    Inserted(v, h, Touched(v.order, h))
  }

  lemma EnterGood(v: View, h: Word)
    requires Good(v) && h < |v.place| && Loose(v.place[h]) && v.names[h] !in v.table && |v.table| < v.size
    ensures Good(Entered(v, h)) && v.refs[h] > 0
  {
    WithoutFacts(v.order, h);
    NodeAt(v, h);
    InsertGood(v, h, Touched(v.order, h));
  }

  /** An insertion of a new node into a full table, and the put of the entry that made room. */
  ghost function Replaced(v: View, h: Word): View
    requires h < |v.refs| == |v.place| == |v.names| < NONE && v.order != [] && v.order[0] < |v.refs|
  {
    Dropped(Entered(EvictedFrom(v), h), v.order[0])
  }

  /** The same when the insertion after the eviction fails: the table has lost an entry for nothing. */
  ghost function Wasted(v: View): View
    requires |v.refs| == |v.place| == |v.names| < NONE && v.order != [] && v.order[0] < |v.refs|
  {
    Dropped(EvictedFrom(v), v.order[0])
  }

  /** An eviction leaves the new node as it was, and the insertion leaves the victim to be put. */
  lemma ReplaceFacts(v: View, h: Word)
    requires h < |v.place| == |v.refs| == |v.names| && Loose(v.place[h]) && v.names[h] !in v.table
    requires v.order != [] && v.order[0] < |v.place| && v.place[v.order[0]] == InTable
    ensures var e := EvictedFrom(v);
            && Loose(e.place[h]) && e.names[h] !in e.table && e.names == v.names && |e.place| == |v.place|
            && Entered(e, h).holders[v.order[0]] > 0
  {
  }

  /** A put of the node goes on exactly if it is not the last reference. */
  ghost predicate PutsLast(v: View, k: nat) {
    k < |v.refs| && k < |v.place| && (v.refs[k] - 1 > 0 <==> v.holders[k] > 1 || v.place[k] == InTable)
  }

  lemma ReplaceGood(v: View, h: Word, t: seq<Word>, now: int)
    requires Good(v) && |v.table| >= v.size && Timed(v.order, t, now)
    requires h < |v.place| && Loose(v.place[h]) && v.names[h] !in v.table
    ensures |v.place| == |v.refs| == |v.names| < NONE && v.order != [] && v.order[0] < |v.place|
    ensures Good(EvictedFrom(v)) && Good(Entered(EvictedFrom(v), h)) && Good(Replaced(v, h))
    ensures var w, k := Entered(EvictedFrom(v), h), v.order[0];
            PutsLast(w, k)
    ensures Good(Wasted(v)) && PutsLast(EvictedFrom(v), v.order[0])
  {
    EvictGood(v, t, now);
    DropGood(EvictedFrom(v), v.order[0]);
    ReplaceFacts(v, h);
    EnterGood(EvictedFrom(v), h);
    DropGood(Entered(EvictedFrom(v), h), v.order[0]);
  }

  lemma {:induction false} WithoutAbsent(order: seq<nat>, i: nat)
    requires i !in order
    ensures Without(order, i) == order
  {
    if order != [] {
      var n := |order| - 1;
      assert order == order[..n] + [order[n]];
      WithoutAbsent(order[..n], i);
    }
  }

  lemma ReplacedParts(v: View, h: Word)
    requires h < |v.refs| == |v.place| == |v.names| < NONE && v.order != [] && v.order[0] < |v.refs|
    requires Loose(v.place[h]) && v.place[v.order[0]] == InTable
    ensures var x := Replaced(v, h); var k := v.order[0];
            && x.table == (v.table - {v.names[k]})[v.names[h] := h]
            && x.order == Touched(v.order[1..], h)
            && x.holders == v.holders
            && x.freeQ == (if v.holders[k] == 0 then v.freeQ + [k] else v.freeQ)
  {
    var k := v.order[0];
    var e := EvictedFrom(v);
    var w := Entered(e, h);
    assert e.holders == v.holders[k := v.holders[k] + 1] && w.holders == e.holders[h := e.holders[h]];
    assert w.place[k] == Removed;
    assert w.holders == e.holders;
    assert v.holders[k := v.holders[k] + 1][k := v.holders[k]] == v.holders;
  }

  /**
   What an insertion into a full table comes to: the name that was accessed longest ago gives
   way to the new one, whose access is now the latest; every caller holds what it held; and the
   node that gave way is free again exactly if nobody held it.
   */
  lemma ReplacedMeans(v: View, h: Word, t: seq<Word>, now: int)
    requires Good(v) && |v.table| == v.size && Timed(v.order, t, now)
    requires h < |v.place| && Loose(v.place[h]) && v.names[h] !in v.table
    ensures |v.place| == |v.refs| == |v.names| < NONE && v.order != [] && v.order[0] < |v.place|
    ensures var x := Replaced(v, h); var k := v.order[0];
            && x.table == (v.table - {v.names[k]})[v.names[h] := h] && |x.table| == v.size
            && x.order == v.order[1..] + [h] && x.holders == v.holders
            && x.freeQ == (if v.holders[k] == 0 then v.freeQ + [k] else v.freeQ)
  {
    EvictGood(v, t, now);
    ReplacedParts(v, h);
    NotLast(v, h);
    WithoutAbsent(v.order[1..], h);
    OneMore(v.table - {v.names[v.order[0]]}, v.names[h], h);
  }

  /** What a failed insertion into a full table comes to: the name accessed longest ago is gone all the same. */
  lemma WastedMeans(v: View, t: seq<Word>, now: int)
    requires Good(v) && |v.table| == v.size && Timed(v.order, t, now)
    ensures |v.place| == |v.refs| == |v.names| < NONE && v.order != [] && v.order[0] < |v.place|
    ensures var x := Wasted(v); var k := v.order[0];
            && Good(x) && x.table == v.table - {v.names[k]} && |x.table| == v.size - 1
            && x.order == v.order[1..] && x.holders == v.holders
            && x.freeQ == (if v.holders[k] == 0 then v.freeQ + [k] else v.freeQ)
  {
    EvictGood(v, t, now);
    DropGood(EvictedFrom(v), v.order[0]);
    WastedParts(v);
  }

  lemma WastedParts(v: View)
    requires |v.place| == |v.refs| == |v.names| < NONE && v.order != [] && v.order[0] < |v.place|
    ensures var x := Wasted(v); var k := v.order[0];
            && x.table == v.table - {v.names[k]} && x.order == v.order[1..] && x.holders == v.holders
            && x.freeQ == (if v.holders[k] == 0 then v.freeQ + [k] else v.freeQ)
  {
    var k := v.order[0];
    assert v.holders[k := v.holders[k] + 1][k := v.holders[k]] == v.holders;
  }

  lemma NotLast(v: View, h: nat)
    requires Good(v) && h < |v.place| && Loose(v.place[h]) && v.order != []
    ensures h !in v.order[1..] && |v.place| == |v.refs| == |v.names| < NONE
  {
    assert h !in v.order;
    assert v.order == [v.order[0]] + v.order[1..];
  }

  /** What an insertion finds when it looks: its own entry, room, or an entry to evict. */
  ghost predicate Insertable(v: View, h: Word) {
    && h < |v.place| == |v.refs| == |v.names| < NONE
    && (v.names[h] in v.table ==> v.table[v.names[h]] < |v.place| && v.place[v.table[v.names[h]]] == InTable)
    && (v.names[h] !in v.table ==> Loose(v.place[h]) && h !in v.order)
    && (v.names[h] !in v.table && |v.table| >= v.size ==>
        && v.order != [] && v.order[0] < |v.place| && v.place[v.order[0]] == InTable
        && PutsLast(Entered(EvictedFrom(v), h), v.order[0]) && PutsLast(EvictedFrom(v), v.order[0]))
  }

  /** The cache after an insertion, in each of the cases. */
  ghost function AfterInsert(v: View, h: Word, memory: bool): View
    requires Insertable(v, h)
  {
    if v.names[h] in v.table then Accessed(v, v.table[v.names[h]])
    else if |v.table| < v.size then if memory then Entered(v, h) else v
    else if memory then Replaced(v, h) else Wasted(v)
  }

  lemma AfterInsertGood(v: View, h: Word, t: seq<Word>, now: int)
    requires Good(v) && Timed(v.order, t, now) && h < |v.place| && v.place[h] != Free
    ensures Insertable(v, h) && Good(AfterInsert(v, h, true)) && Good(AfterInsert(v, h, false))
  {
    if v.names[h] in v.table {
      EntryAt(v, v.names[h]);
      AccessGood(v, v.table[v.names[h]]);
    } else {
      NotThere(v, h);
      assert h !in v.order;
      if |v.table| < v.size { EnterGood(v, h); } else { ReplaceGood(v, h, t, now); }
    }
  }

  /** What an insertion into a table with room comes to: the new name, accessed last, and nothing else. */
  lemma EnteredMeans(v: View, h: Word)
    requires h < |v.place| == |v.refs| == |v.names| && h !in v.order
    ensures var x := Entered(v, h);
            && x.table == v.table[v.names[h] := h] && x.order == v.order + [h as nat] && x.holders == v.holders
            && x.freeQ == v.freeQ && x.place == v.place[h as nat := InTable]
  {
    WithoutAbsent(v.order, h);
    assert v.holders[h as nat := v.holders[h]] == v.holders;
  }

  /** The name, the latest access and the place of the node after an insertion that found no entry. */
  lemma AfterInsertMeans(v: View, h: Word, memory: bool)
    requires Insertable(v, h)
    ensures var x := AfterInsert(v, h, memory); var name := v.names[h];
            if name in v.table then
              && x.table == v.table && x.freeQ == v.freeQ
              && x.order == Without(v.order, v.table[name]) + [v.table[name] as nat]
              && x.holders == v.holders + multiset{v.table[name] as nat}
            else if |v.table| < v.size then
              && x.table == (if memory then v.table[name := h] else v.table) && x.freeQ == v.freeQ
              && x.order == (if memory then v.order + [h as nat] else v.order) && x.holders == v.holders
            else
              var k := v.order[0];
              && x.table == (if memory then (v.table - {v.names[k]})[name := h] else v.table - {v.names[k]})
              && x.order == (if memory then v.order[1..] + [h as nat] else v.order[1..])
              && x.freeQ == (if v.holders[k] == 0 then v.freeQ + [k] else v.freeQ) && x.holders == v.holders
  {
    if v.names[h] !in v.table {
      if |v.table| < v.size {
        EnteredMeans(v, h);
      } else {
        WastedParts(v);
        ReplacedParts(v, h);
        assert v.order == [v.order[0]] + v.order[1..];
        WithoutAbsent(v.order[1..], h);
      }
    }
  }

  ghost function Invalidated(v: View, h: Word): View
    requires h < |v.refs| == |v.place| == |v.names|
  {
    Dropped(TakenOut(v, h, Without(v.order, h)), h)
  }

  lemma InvalidatedGood(v: View, h: Word)
    requires Good(v) && h < |v.place| && v.place[h] == InTable
    ensures |v.refs| == |v.names| == |v.place|
    ensures Good(Invalidated(v, h)) && PutsLast(TakenOut(v, h, Without(v.order, h)), h)
  {
    WithoutFacts(v.order, h);
    RemoveGood(v, h, Without(v.order, h));
    DropGood(TakenOut(v, h, Without(v.order, h)), h);
  }

  /** An invalidation takes out one name, and the node is free again unless somebody holds it. */
  lemma InvalidatedMeans(v: View, h: Word)
    requires h < |v.refs| == |v.place| == |v.names|
    ensures var x := Invalidated(v, h);
            && x.table == v.table - {v.names[h]} && x.order == Without(v.order, h) && x.holders == v.holders
            && x.freeQ == (if v.holders[h] == 0 then v.freeQ + [h] else v.freeQ)
  {
    assert v.holders[h as nat := v.holders[h] + 1][h as nat := v.holders[h]] == v.holders;
  }

  /**
   A law over two calls: after a lookup that found h, which is now the last of the order, an
   insertion into the full table, of at least two entries, does not take h out.
   */
  lemma HitSurvives(v: View, v': View, h: Word, i: Word, memory: bool, t: seq<Word>, now: int)
    requires Good(v) && h < |v.place| && v.place[h] == InTable && |v.table| >= 2
    requires Good(v') && Timed(v'.order, t, now) && i < |v'.place| && v'.place[i] != Free
    requires v'.table == v.table && v'.names == v.names && v'.order == Without(v.order, h) + [h as nat]
    ensures v.names[h] in v.table && v.table[v.names[h]] == h && Insertable(v', i)
    ensures var x := AfterInsert(v', i, memory); v.names[h] in x.table && x.table[v.names[h]] == h
  {
    AfterInsertGood(v', i, t, now);
    NamedInTable(v, h);
    NotOldest(v, v', h);
    NameKept(v', v.names[h], i, memory);
  }

  lemma NamedInTable(v: View, h: Word)
    requires Good(v) && h < |v.place| && v.place[h] == InTable
    ensures v.names[h] in v.table && v.table[v.names[h]] == h
  {
  }

  /** An insertion keeps every name but that of the entry accessed longest ago. */
  lemma NameKept(v: View, name: Name, i: Word, memory: bool)
    requires Insertable(v, i) && name in v.table
    requires |v.table| >= v.size ==> v.order == [] || v.order[0] >= |v.names| || v.names[v.order[0]] != name
    ensures var x := AfterInsert(v, i, memory); name in x.table && x.table[name] == v.table[name]
  {
    AfterInsertMeans(v, i, memory);
  }

  lemma NotOldest(v: View, v': View, h: Word)
    requires Good(v) && h < |v.place| && v.place[h] == InTable && |v.table| >= 2
    requires Good(v') && v'.order == Without(v.order, h) + [h as nat] && v'.names == v.names && v'.table == v.table
    ensures v'.order[0] < |v.names| && v.names[v'.order[0]] != v.names[h]
  {
    WithoutFacts(v.order, h);
    var n :| n in v.table && n != v.names[h] by { OneLess(v.table, v.names[h]); }
    EntryAt(v, n);
    assert (v.table[n] as nat) in v.order;
    assert (v.table[n] as nat) in Without(v.order, h);
    var k := v'.order[0];
    assert k == Without(v.order, h)[0];
    assert k in v'.order && k != h && v'.place[k] == InTable;
    assert v'.table[v'.names[k]] == k;
  }

  lemma FreshGood(v: View)
    requires 0 < v.size <= MAX_SIZE && |v.refs| == |v.names| == 2 * v.size && v.place == seq(2 * v.size, _ => Free)
    requires (forall i | 0 <= i < |v.refs| :: v.refs[i] == 0) && v.table == map[] && v.order == []
    requires v.holders == multiset{} && multiset(v.freeQ) == multiset(Upto(0, 2 * v.size))
    ensures Good(v)
  {
    AllFree(2 * v.size, v.freeQ);
  }

  class XCache {
    const size: nat
    /** The hash table, as the map that XCacheTable shows it to be. */
    var entries: map<Name, Word>
    /** The queue of free nodes, as the sequence that XQ shows it to be. */
    var freeQ: seq<Word>
    const lru: ArrayLru
    const refs: array<int>
    const names: array<Name>
    ghost var place: seq<Place>
    ghost var holders: multiset<nat>

    ghost predicate Parts()
      reads this, lru, lru.times
    {
      && refs as object != names && lru.times as object !in {refs as object, names}
      && refs.Length == names.Length == lru.times.Length == |place|
      && lru.Valid()
    }

    ghost function V(): View
      reads this, lru, refs, names
    {
      View(size, entries, lru.order, freeQ, refs[..], names[..], place, holders)
    }

    ghost predicate Valid()
      reads this, lru, lru.times, refs, names
    {
      Parts() && Good(V())
    }

    /** xcache_init, for a requested number of entries whose rounded size the 32-bit computations can take. */
    constructor (requested: nat)
      requires requested > 0 && 0 < CacheSize(requested) <= MAX_SIZE
      ensures Valid() && size == CacheSize(requested) && entries == map[] && lru.time == 0
      ensures fresh(lru) && fresh(lru.times) && fresh(refs) && fresh(names)
    {
      var n := CacheSize(requested);
      size := n;
      entries := map[];
      freeQ := seq(2 * n, i requires 0 <= i < 2 * n => if i + 1 < 2 * n then i + 1 else 0);
      lru := new ArrayLru(n);
      refs := new int[2 * n](_ => 0);
      names := new Name[2 * n](_ => Name(""));
      place := seq(2 * n, _ => Free);
      holders := multiset{};
      new;
      AsInitialised(freeQ, 2 * n);
      FreshGood(V());
    }

    /** A write of one node's reference count, with the history that goes with it. */
    method SetRef(i: nat, ref: int, ghost p: Place, ghost h: nat)
      requires Parts() && i < refs.Length
      modifies refs, this`place, this`holders
      ensures Parts() && V() == SetNode(old(V()), i, ref, p, h)
    {
      ghost var v := V();
      refs[i] := ref;
      place := place[i := p];
      holders := holders[i := h];
      assert refs[..] == v.refs[i := ref];
    }

    /** xcache_alloc_init: NONE if no node is free. */
    method AllocInit(name: Name) returns (h: Word)
      requires Valid()
      modifies this`freeQ, this`place, this`holders, refs, names
      ensures Valid()
      ensures h == NONE ==> V() == old(V()) && old(freeQ) == []
      ensures h != NONE ==>
                && old(freeQ) == freeQ + [h] && h < 2 * size && old(place)[h] == Free
                && V() == Taken(old(V()), h, name)
                && names[h] == name && refs[h] == 1 && old(holders)[h] == 0 && holders == old(holders)[h as nat := 1]
                && place == old(place)[h as nat := New]
    {
      if freeQ == [] { return NONE; }
      h := freeQ[|freeQ| - 1];
      QueueBelow(V(), h);
      NodeAt(V(), h);
      TakeGood(V(), h, freeQ[..|freeQ| - 1], name);
      TakeNode(h, name);
    }

    method TakeNode(h: Word, name: Name)
      requires Parts() && freeQ != [] && h < refs.Length
      modifies this`freeQ, this`place, this`holders, refs, names
      ensures Parts() && freeQ == old(freeQ)[..|old(freeQ)| - 1] && V() == Taken(old(V()), h, name)
    {
      ghost var v := V();
      freeQ := freeQ[..|freeQ| - 1];
      names[h] := name;
      assert names[..] == v.names[h as nat := name];
      SetRef(h, 1, New, 1);
    }

    /** xcache_get of a node that the caller holds. */
    method Get(h: nat)
      requires Valid() && h < 2 * size && holders[h] > 0
      modifies refs, this`place, this`holders
      ensures Valid() && V() == Got(old(V()), h)
      ensures refs[h] == old(refs[h]) + 1 && holders == old(holders) + multiset{h} && place == old(place)
    {
      GotGood(V(), h);
      SetRef(h, refs[h] + 1, place[h], holders[h] + 1);
    }

    /** xcache_put of a node that the caller holds. */
    method Put(h: Word)
      requires Valid() && h < 2 * size && holders[h] > 0
      modifies refs, this`place, this`holders, this`freeQ
      ensures Valid() && V() == Dropped(old(V()), h) && |freeQ| <= 2 * size
      ensures refs[h] == old(refs[h]) - 1 && holders == old(holders) - multiset{h as nat}
      ensures freeQ == if old(holders)[h] == 1 && old(place)[h] != InTable then old(freeQ) + [h] else old(freeQ)
    {
      DropGood(V(), h);
      FreeRoom(Dropped(V(), h), h);
      Drop(h);
    }

    /** xcache_entry_put without the table of removed entries. */
    method Drop(h: Word)
      requires Parts() && h < 2 * size == refs.Length && holders[h] > 0
      requires refs[h] - 1 > 0 <==> holders[h] > 1 || place[h] == InTable
      modifies refs, this`place, this`holders, this`freeQ
      ensures Parts() && V() == Dropped(old(V()), h)
    {
      if refs[h] - 1 > 0 {
        SetRef(h, refs[h] - 1, place[h], holders[h] - 1);
      } else {
        freeQ := freeQ + [h];
        SetRef(h, 0, Free, 0);
      }
    }

    /** xcache_free_new of a node that was never inserted, by its only holder. */
    method FreeNew(h: Word)
      requires Valid() && h < 2 * size && place[h] == New && holders[h] == 1
      modifies refs, this`place, this`holders, this`freeQ
      ensures Valid() && V() == Freed(old(V()), h)
      ensures freeQ == old(freeQ) + [h] && refs[h] == 0 && holders == old(holders) - multiset{h as nat}
    {
      DropGood(V(), h);
      freeQ := freeQ + [h];
      SetRef(h, 0, Free, 0);
    }

    /** __xcache_entry_get_and_update of an entry. */
    method Access(h: nat)
      requires Parts() && h < 2 * size == refs.Length && place[h] == InTable && lru.time + 2 < LRU_MAX
      modifies refs, this`place, this`holders, lru`time, lru`order, lru.times
      ensures Parts() && lru.time == old(lru.time) + 1 && V() == Accessed(old(V()), h)
    {
      lru.Touch(h);
      SetRef(h, refs[h] + 1, place[h], holders[h] + 1);
    }

    /**
     xcache_lookup: a hit makes the entry the one accessed last, leaves the others in their order,
     and gives the caller a reference; a miss changes nothing.
     */
    method Lookup(name: Name) returns (h: Word)
      requires Valid() && lru.time + 2 < LRU_MAX
      modifies refs, this`place, this`holders, lru`time, lru`order, lru.times
      ensures Valid()
      ensures name !in entries ==> h == NONE && V() == old(V())
      ensures name in entries ==> h == entries[name] && h < 2 * size && V() == Accessed(old(V()), h)
      ensures name in entries ==>
                && lru.order == Without(old(lru.order), h) + [h as nat]
                && refs[h] == old(refs[h]) + 1 && holders == old(holders) + multiset{h as nat} && place == old(place)
    {
      if name !in entries { return NONE; }
      h := entries[name];
      EntryAt(V(), name);
      AccessGood(V(), h);
      Access(h);
    }

    /** __xcache_remove_entries, for an entry whose time was taken out already. */
    method Unlist(h: nat, ghost v: View)
      requires Parts() && h < 2 * size == refs.Length && V() == v.(order := lru.order)
      modifies this`entries, this`place, this`holders
      ensures Parts() && V() == TakenOut(v, h, lru.order)
    {
      entries := entries - {names[h]};
      place := place[h := Removed];
      holders := holders[h := holders[h] + 1];
      assert refs[..] == v.refs[h := v.refs[h]];
    }

    /** __xcache_evict_lru */
    method EvictLru() returns (victim: Word)
      requires Parts() && 2 * size == refs.Length < NONE && lru.order != [] && lru.order[0] < 2 * size
               && lru.time + 2 < LRU_MAX
      modifies this`entries, this`place, this`holders, lru`order, lru.times
      ensures Parts() && V() == EvictedFrom(old(V())) && victim == old(lru.order)[0]
    {
      ghost var v0 := V();
      victim := lru.Evict();
      Unlist(victim, v0);
    }

    /** The insertion into a table with room, and the reference and access time that go with it. */
    method Enter(h: Word)
      requires Parts() && h < 2 * size == refs.Length && lru.time + 2 < LRU_MAX
      modifies this`entries, refs, this`place, this`holders, lru`time, lru`order, lru.times
      ensures Parts() && V() == Entered(old(V()), h) && lru.time == old(lru.time) + 1
    {
      ghost var v0 := V();
      lru.Touch(h);
      List(h, v0, lru.order);
      SetRef(h, refs[h] + 1, InTable, holders[h]);
    }

    method List(h: Word, ghost v: View, ghost order: seq<nat>)
      requires Parts() && h < 2 * size == refs.Length && V() == v.(order := order)
      modifies this`entries
      ensures Parts() && V() == v.(table := v.table[v.names[h] := h], order := order)
    {
      entries := entries[names[h] := h];
    }

    /**
     xcache_insert of a node that its caller holds, be it new, in the table already, or removed
     from it. An entry of the same name is answered instead, if there is one. If the table is
     full, the least recently accessed entry makes room, and is free again unless somebody holds it.
     The answer is NONE exactly if the table has to be rebuilt and there is no memory for that; the
     eviction has happened even so.
     */
    method Insert(h: Word, memory: bool) returns (r: Word)
      requires Valid() && h < 2 * size && holders[h] > 0
      requires lru.time + 2 < LRU_MAX
      modifies this`entries, this`freeQ, refs, this`place, this`holders, lru`time, lru`order, lru.times
      ensures Valid() && lru.time == old(lru.time) + if r == NONE then 0 else 1
      ensures r == NONE <==> old(names[h]) !in old(entries) && !memory
      ensures old(names[h]) in old(entries) ==>
                r == old(entries)[old(names[h])] && r < 2 * size && V() == Accessed(old(V()), r)
      ensures old(names[h]) !in old(entries) && |old(entries)| < size ==>
                if memory then r == h && V() == Entered(old(V()), h) else V() == old(V())
      ensures old(names[h]) !in old(entries) && |old(entries)| >= size ==>
                && old(lru.order) != [] && old(lru.order)[0] < 2 * size
                && if memory then r == h && V() == Replaced(old(V()), h) else V() == Wasted(old(V()))
      ensures old(names[h]) in old(entries) ==>
                && entries == old(entries) && freeQ == old(freeQ) && holders == old(holders) + multiset{r as nat}
                && lru.order == Without(old(lru.order), r) + [r as nat]
      ensures old(names[h]) !in old(entries) && |old(entries)| < size ==>
                && entries == (if memory then old(entries)[names[h] := h] else old(entries))
                && lru.order == (if memory then old(lru.order) + [h as nat] else old(lru.order))
                && freeQ == old(freeQ) && holders == old(holders)
      ensures old(names[h]) !in old(entries) && |old(entries)| >= size ==>
                var k := old(lru.order)[0];
                && entries == (if memory then (old(entries) - {names[k]})[names[h] := h] else old(entries) - {names[k]})
                && lru.order == (if memory then old(lru.order)[1..] + [h as nat] else old(lru.order)[1..])
                && freeQ == (if old(holders)[k] == 0 then old(freeQ) + [k] else old(freeQ)) && holders == old(holders)
    {
      NodeAt(V(), h);
      AfterInsertGood(V(), h, lru.times[..], lru.time);
      r := DoInsert(h, memory);
    }

    /** The branches of __xcache_insert without the table of removed entries, and the put of xcache_insert. */
    method DoInsert(h: Word, memory: bool) returns (r: Word)
      requires Parts() && h < 2 * size == refs.Length < NONE && lru.time + 2 < LRU_MAX && Insertable(V(), h)
      modifies this`entries, this`freeQ, refs, this`place, this`holders, lru`time, lru`order, lru.times
      ensures Parts() && V() == AfterInsert(old(V()), h, memory)
      ensures lru.time == old(lru.time) + if r == NONE then 0 else 1
      ensures r == if old(names[h]) in old(entries) then old(entries)[old(names[h])]
                   else if memory then h else NONE
      ensures old(names[h]) in old(entries) ==>
                && entries == old(entries) && freeQ == old(freeQ) && holders == old(holders) + multiset{r as nat}
                && lru.order == Without(old(lru.order), r) + [r as nat]
      ensures old(names[h]) !in old(entries) && |old(entries)| < size ==>
                && entries == (if memory then old(entries)[names[h] := h] else old(entries))
                && lru.order == (if memory then old(lru.order) + [h as nat] else old(lru.order))
                && freeQ == old(freeQ) && holders == old(holders)
      ensures old(names[h]) !in old(entries) && |old(entries)| >= size ==>
                var k := old(lru.order)[0];
                && entries == (if memory then (old(entries) - {names[k]})[names[h] := h] else old(entries) - {names[k]})
                && lru.order == (if memory then old(lru.order)[1..] + [h as nat] else old(lru.order)[1..])
                && freeQ == (if old(holders)[k] == 0 then old(freeQ) + [k] else old(freeQ)) && holders == old(holders)
    {
      AfterInsertMeans(V(), h, memory);
      r := if memory then h else NONE;
      if names[h] in entries {
        r := entries[names[h]];
        Access(r);
      } else if |entries| < size {
        if memory { Enter(h); }
      } else {
        var victim := MakeRoomAndEnter(h, memory);
        Drop(victim);
      }
    }

    /** The eviction and the insertion into a full table; the entry that made room is still to be put. */
    method MakeRoomAndEnter(h: Word, memory: bool) returns (victim: Word)
      requires Parts() && h < 2 * size == refs.Length < NONE && lru.time + 2 < LRU_MAX
      requires lru.order != [] && lru.order[0] < 2 * size
      modifies this`entries, refs, this`place, this`holders, lru`time, lru`order, lru.times
      ensures Parts() && lru.time == old(lru.time) + (if memory then 1 else 0) && victim == old(lru.order)[0]
      ensures V() == if memory then Entered(EvictedFrom(old(V())), h) else EvictedFrom(old(V()))
    {
      victim := EvictLru();
      if memory { Enter(h); }
    }

    /** xcache_invalidate: the entry leaves the table, and is free again unless somebody holds it. */
    method Invalidate(name: Name) returns (ok: bool)
      requires Valid() && lru.time + 2 < LRU_MAX
      modifies this`entries, this`freeQ, refs, this`place, this`holders, lru`order, lru.times
      ensures Valid() && name !in entries
      ensures ok <==> name in old(entries)
      ensures !ok ==> V() == old(V())
      ensures ok ==> var h := old(entries)[name];
                     h < 2 * size && V() == Invalidated(old(V()), h)
      ensures entries == old(entries) - {name} && holders == old(holders)
      ensures ok ==> var h := old(entries)[name];
                     && lru.order == Without(old(lru.order), h)
                     && freeQ == if old(holders)[h] == 0 then old(freeQ) + [h] else old(freeQ)
    {
      assert name !in entries ==> entries == entries - {name};
      if name !in entries { return false; }
      EntryAt(V(), name);
      InvalidatedGood(V(), entries[name]);
      TakeOut(entries[name]);
      ok := true;
    }

    /** The removal of an entry, and the put of the reference that the table had. */
    method TakeOut(h: Word)
      requires Parts() && h < 2 * size == refs.Length < NONE && lru.time + 2 < LRU_MAX
      requires PutsLast(TakenOut(V(), h, Without(lru.order, h)), h)
      modifies this`entries, this`freeQ, refs, this`place, this`holders, lru`order, lru.times
      ensures Parts() && V() == Invalidated(old(V()), h)
      ensures entries == old(entries) - {names[h]} && holders == old(holders)
      ensures lru.order == Without(old(lru.order), h)
      ensures freeQ == if old(holders)[h] == 0 then old(freeQ) + [h] else old(freeQ)
    {
      ghost var v := V();
      InvalidatedMeans(v, h);
      lru.Remove(h);
      Unlist(h, v);
      Drop(h);
    }
  }
}
