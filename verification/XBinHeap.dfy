/**
 The indexed binary heap of src/xtypes/xbinheap.c: a MIN or MAX heap of (key, value) nodes
 with stable handles. `indexes[h]` is where the node with handle h currently lies, and the
 node says which handle it has; both are rewritten by every swap.
 */
module XBinHeap {
  import opened Words

  datatype Node = Node(key: Word, value: Word, h: nat)

  /** a may lie above b. */
  predicate Above(isMax: bool, a: Word, b: Word) {
    if isMax then a >= b else a <= b
  }

  function Parent(i: int): int
    requires i > 0
  {
    (i - 1) / 2
  }

  // ----- the two arrays as sequences

  /** nodes[].h and indexes[] are inverse permutations. */
  ghost predicate Linked(ns: seq<Node>, ix: seq<nat>) {
    && |ns| == |ix|
    && (forall i | 0 <= i < |ns| :: ns[i].h < |ns| && ix[ns[i].h] == i)
    && (forall h | 0 <= h < |ix| :: ix[h] < |ns| && ns[ix[h]].h == h)
  }

  /** Heap order on the first n nodes. */
  ghost predicate Ordered(ns: seq<Node>, n: nat, isMax: bool)
    requires n <= |ns|
  {
    forall j | 0 < j < n :: Above(isMax, ns[Parent(j)].key, ns[j].key)
  }

  /** Heap order except between i and its parent, as while a node moves up. */
  ghost predicate OrderedButUp(ns: seq<Node>, n: nat, isMax: bool, i: nat)
    requires n <= |ns|
  {
    && (forall j | 0 < j < n && j != i :: Above(isMax, ns[Parent(j)].key, ns[j].key))
    && (forall j | 0 < j < n && Parent(j) == i && i > 0 :: Above(isMax, ns[Parent(i)].key, ns[j].key))
  }

  /** Heap order except between i and its children, as while a node moves down. */
  ghost predicate OrderedButDown(ns: seq<Node>, n: nat, isMax: bool, i: nat)
    requires n <= |ns|
  {
    && (forall j | 0 < j < n && Parent(j) != i :: Above(isMax, ns[Parent(j)].key, ns[j].key))
    && (forall j | 0 < j < n && Parent(j) == i && i > 0 :: Above(isMax, ns[Parent(i)].key, ns[j].key))
  }

  function SwapNodes(ns: seq<Node>, a: nat, b: nat): seq<Node>
    requires a < |ns| && b < |ns|
  {
    ns[a := ns[b]][b := ns[a]]
  }

  function SwapIndexes(ns: seq<Node>, ix: seq<nat>, a: nat, b: nat): seq<nat>
    requires a < |ns| && b < |ns| && ns[a].h < |ix| && ns[b].h < |ix|
  {
    ix[ns[a].h := b][ns[b].h := a]
  }

  /** Every handle still names its node, and the first n places hold the same handles. */
  ghost predicate SameNodes(ns: seq<Node>, ix: seq<nat>, ns': seq<Node>, ix': seq<nat>, n: nat)
    requires Linked(ns, ix) && Linked(ns', ix')
  {
    && |ix'| == |ix|
    && forall h | 0 <= h < |ix| :: ns'[ix'[h]] == ns[ix[h]] && (ix'[h] < n <==> ix[h] < n)
  }

  lemma SwapKeeps(ns: seq<Node>, ix: seq<nat>, a: nat, b: nat, n: nat)
    requires Linked(ns, ix) && a < |ns| && b < |ns|
    ensures Linked(SwapNodes(ns, a, b), SwapIndexes(ns, ix, a, b))
    ensures (a < n <==> b < n)
            ==> SameNodes(ns, ix, SwapNodes(ns, a, b), SwapIndexes(ns, ix, a, b), n)
  {
  }

  lemma SwapUp(ns: seq<Node>, n: nat, isMax: bool, i: nat)
    requires 0 < i < n <= |ns| && OrderedButUp(ns, n, isMax, i)
    requires !Above(isMax, ns[Parent(i)].key, ns[i].key)
    ensures OrderedButUp(SwapNodes(ns, i, Parent(i)), n, isMax, Parent(i))
  {
    var p := Parent(i);
    var s := SwapNodes(ns, i, p);
    forall j | 0 < j < n && j != p ensures Above(isMax, s[Parent(j)].key, s[j].key) {
      UpAt(ns, n, isMax, i, j);
    }
    forall j | 0 < j < n && Parent(j) == p && p > 0 ensures Above(isMax, s[Parent(p)].key, s[j].key) {
      UpBelow(ns, n, isMax, i, j);
    }
  }

  /** After the swap every node but the parent of i is below its own parent. */
  lemma UpAt(ns: seq<Node>, n: nat, isMax: bool, i: nat, j: nat)
    requires 0 < i < n <= |ns| && OrderedButUp(ns, n, isMax, i) && 0 < j < n && j != Parent(i)
    requires !Above(isMax, ns[Parent(i)].key, ns[i].key)
    ensures var s := SwapNodes(ns, i, Parent(i)); Above(isMax, s[Parent(j)].key, s[j].key)
  {
    if j != i { assert Above(isMax, ns[Parent(j)].key, ns[j].key); }
  }

  /** And the children of that parent are below its own parent. */
  lemma UpBelow(ns: seq<Node>, n: nat, isMax: bool, i: nat, j: nat)
    requires 0 < i < n <= |ns| && OrderedButUp(ns, n, isMax, i) && 0 < j < n && Parent(j) == Parent(i) > 0
    ensures var s := SwapNodes(ns, i, Parent(i)); Above(isMax, s[Parent(Parent(i))].key, s[j].key)
  {
    assert Above(isMax, ns[Parent(Parent(i))].key, ns[Parent(i)].key);
    if j != i { assert Above(isMax, ns[Parent(j)].key, ns[j].key); }
  }

  lemma SwapDown(ns: seq<Node>, n: nat, isMax: bool, i: nat, c: nat)
    requires i < c < n <= |ns| && Parent(c) == i && OrderedButDown(ns, n, isMax, i)
    requires !Above(isMax, ns[i].key, ns[c].key)
    requires forall j | 0 < j < n && Parent(j) == i :: Above(isMax, ns[c].key, ns[j].key)
    ensures OrderedButDown(SwapNodes(ns, i, c), n, isMax, c)
  {
  }

  /** The root is above every node. */
  lemma {:induction false} RootIsFirst(ns: seq<Node>, n: nat, isMax: bool, i: nat)
    requires i < n <= |ns| && Ordered(ns, n, isMax)
    ensures Above(isMax, ns[0].key, ns[i].key)
  {
    if i > 0 {
      RootIsFirst(ns, n, isMax, Parent(i));
    }
  }

  // ----- how an operation leaves the order broken in one place

  lemma OrderAfterAppend(ns: seq<Node>, n: nat, isMax: bool, x: Node)
    requires n < |ns| && Ordered(ns, n, isMax)
    ensures OrderedButUp(ns[n := x], n + 1, isMax, n)
  {
  }

  lemma OrderAfterRootSwap(ns: seq<Node>, n: nat, isMax: bool)
    requires n < |ns| && Ordered(ns, n + 1, isMax)
    ensures OrderedButDown(SwapNodes(ns, 0, n), n, isMax, 0)
  {
  }

  /** A key that moves towards the root's side can only offend its parent. */
  lemma OrderAfterRaise(ns: seq<Node>, n: nat, isMax: bool, i: nat, key: Word)
    requires i < n <= |ns| && Ordered(ns, n, isMax) && Above(isMax, key, ns[i].key)
    ensures OrderedButUp(ns[i := ns[i].(key := key)], n, isMax, i)
  {
    var ns' := ns[i := ns[i].(key := key)];
    forall j | 0 < j < n && Parent(j) == i && i > 0 ensures Above(isMax, ns'[Parent(i)].key, ns'[j].key) {
      assert Above(isMax, ns[Parent(j)].key, ns[j].key) && Above(isMax, ns[Parent(i)].key, ns[i].key);
    }
  }

  /** A key that moves away from the root's side can only be offended by its children. */
  lemma OrderAfterLower(ns: seq<Node>, n: nat, isMax: bool, i: nat, key: Word)
    requires i < n <= |ns| && Ordered(ns, n, isMax) && Above(isMax, ns[i].key, key)
    ensures OrderedButDown(ns[i := ns[i].(key := key)], n, isMax, i)
  {
    var ns' := ns[i := ns[i].(key := key)];
    forall j | 0 < j < n && Parent(j) != i ensures Above(isMax, ns'[Parent(j)].key, ns'[j].key) {
      assert Above(isMax, ns[Parent(j)].key, ns[j].key);
    }
    forall j | 0 < j < n && Parent(j) == i && i > 0 ensures Above(isMax, ns'[Parent(i)].key, ns'[j].key) {
      assert Above(isMax, ns[Parent(j)].key, ns[j].key) && Above(isMax, ns[Parent(i)].key, ns[i].key);
    }
  }

  /** c is the best of node i and its children. */
  ghost predicate IsLargest(ns: seq<Node>, n: nat, isMax: bool, i: nat, c: nat)
    requires n <= |ns| && i < |ns|
  {
    && c < |ns|
    && (c != i ==> i < c < n && Parent(c) == i && !Above(isMax, ns[i].key, ns[c].key))
    && (forall j | 0 < j < n && Parent(j) == i :: Above(isMax, ns[c].key, ns[j].key))
  }

  lemma NothingLarger(ns: seq<Node>, n: nat, isMax: bool, i: nat)
    requires i < |ns| && n <= |ns| && OrderedButDown(ns, n, isMax, i) && IsLargest(ns, n, isMax, i, i)
    ensures Ordered(ns, n, isMax)
  {
  }

  // ----- the map from live handles to (key, value)

  /** m describes exactly the handles of the first n nodes. */
  ghost predicate Describes(m: map<nat, (Word, Word)>, ns: seq<Node>, ix: seq<nat>, n: nat) {
    && |m| == n <= |ns| == |ix|
    && (forall h :: h in m ==> h < |ix|)
    && (forall h | 0 <= h < |ix| :: h in m <==> ix[h] < n)
    && (forall h | 0 <= h < |ix| && h in m && ix[h] < |ns| :: m[h] == (ns[ix[h]].key, ns[ix[h]].value))
  }

  lemma DescribesAfterInsert(m: map<nat, (Word, Word)>, ns: seq<Node>, ix: seq<nat>, n: nat, key: Word, value: Word)
    requires Linked(ns, ix) && n < |ns| && Describes(m, ns, ix, n)
    ensures ns[n].h !in m
    ensures Linked(ns[n := Node(key, value, ns[n].h)], ix)
    ensures Describes(m[ns[n].h := (key, value)], ns[n := Node(key, value, ns[n].h)], ix, n + 1)
  {
  }

  lemma DescribesAfterExtract(m: map<nat, (Word, Word)>, ns: seq<Node>, ix: seq<nat>, n: nat)
    requires Linked(ns, ix) && n < |ns| && Describes(m, ns, ix, n + 1)
    ensures ns[n].h in m && m[ns[n].h] == (ns[n].key, ns[n].value)
    ensures Describes(m - {ns[n].h}, ns, ix, n)
  {
    var h := ns[n].h;
    assert (m - {h}).Keys == m.Keys - {h};
    assert |m.Keys - {h}| == |m.Keys| - 1;
    assert |m - {h}| == |(m - {h}).Keys|;
  }

  lemma DescribesAfterSetKey(m: map<nat, (Word, Word)>, ns: seq<Node>, ix: seq<nat>, n: nat, h: nat, key: Word)
    requires Linked(ns, ix) && Describes(m, ns, ix, n) && h in m
    ensures Linked(ns[ix[h] := ns[ix[h]].(key := key)], ix)
    ensures Describes(m[h := (key, m[h].1)], ns[ix[h] := ns[ix[h]].(key := key)], ix, n)
  {
  }

  lemma DescribesSame(m: map<nat, (Word, Word)>, ns: seq<Node>, ix: seq<nat>, ns': seq<Node>, ix': seq<nat>, n: nat)
    requires Linked(ns, ix) && Linked(ns', ix') && Describes(m, ns, ix, n) && SameNodes(ns, ix, ns', ix', n)
    ensures Describes(m, ns', ix', n)
  {
  }

  /** A node is written after the n nodes of the heap. */
  lemma NodeAppended(m: map<nat, (Word, Word)>, ns: seq<Node>, ix: seq<nat>, n: nat, isMax: bool, key: Word,
                     value: Word)
    requires Linked(ns, ix) && n < |ns| && Ordered(ns, n, isMax) && Describes(m, ns, ix, n)
    ensures var h := ns[n].h; var ns' := ns[n := Node(key, value, h)];
            && h !in m && Linked(ns', ix) && OrderedButUp(ns', n + 1, isMax, n)
            && Describes(m[h := (key, value)], ns', ix, n + 1)
  {
    DescribesAfterInsert(m, ns, ix, n, key, value);
    OrderAfterAppend(ns, n, isMax, Node(key, value, ns[n].h));
  }

  /** The root is swapped with the last of n + 1 nodes and left out. */
  lemma RootDropped(m: map<nat, (Word, Word)>, ns: seq<Node>, ix: seq<nat>, n: nat, isMax: bool)
    requires Linked(ns, ix) && n < |ns| && Ordered(ns, n + 1, isMax) && Describes(m, ns, ix, n + 1)
    ensures var ns', ix' := SwapNodes(ns, 0, n), SwapIndexes(ns, ix, 0, n);
            Linked(ns', ix') && OrderedButDown(ns', n, isMax, 0) && Describes(m - {ns[0].h}, ns', ix', n)
  {
    var ns', ix' := SwapNodes(ns, 0, n), SwapIndexes(ns, ix, 0, n);
    OrderAfterRootSwap(ns, n, isMax);
    SwapKeeps(ns, ix, 0, n, n + 1);
    DescribesSame(m, ns, ix, ns', ix', n + 1);
    DescribesAfterExtract(m, ns', ix', n);
  }

  class XBinHeap {
    const isMax: bool
    const size: nat
    var count: nat
    const nodes: array<Node>
    const indexes: array<nat>
    /** Live handle to (key, value). */
    ghost var entries: map<nat, (Word, Word)>

    ghost predicate Shape()
      reads nodes, indexes
    {
      nodes.Length == size && Linked(nodes[..], indexes[..])
    }

    /** The first n nodes form a heap whose entries are as recorded. */
    ghost predicate IsHeap(n: nat)
      reads this`entries, nodes, indexes
    {
      && Shape() && n <= size
      && Ordered(nodes[..], n, isMax)
      && Describes(entries, nodes[..], indexes[..], n)
    }

    ghost predicate Valid()
      reads this, nodes, indexes
    {
      IsHeap(count)
    }

    /** xbinheap_init */
    constructor (n: nat, max: bool)
      requires 0 < n < NONE
      ensures Valid() && entries == map[] && size == n && isMax == max
      ensures fresh(nodes) && fresh(indexes)
    {
      isMax, size, count, entries := max, n, 0, map[];
      nodes := new Node[n](i => Node(0, 0, i));
      indexes := new nat[n](i => i);
    }

    method Swap(a: nat, b: nat, ghost n: nat)
      requires Shape() && a < size && b < size && (a < n <==> b < n)
      modifies nodes, indexes
      ensures Shape()
      ensures nodes[..] == SwapNodes(old(nodes[..]), a, b)
      ensures indexes[..] == SwapIndexes(old(nodes[..]), old(indexes[..]), a, b)
      ensures SameNodes(old(nodes[..]), old(indexes[..]), nodes[..], indexes[..], n)
    {
      SwapKeeps(nodes[..], indexes[..], a, b, n);
      var h1, h2 := nodes[a].h, nodes[b].h;
      nodes[a], nodes[b] := nodes[b], nodes[a];
      indexes[h1], indexes[h2] := indexes[h2], indexes[h1];
      assert nodes[..] == SwapNodes(old(nodes[..]), a, b);
      assert indexes[..] == SwapIndexes(old(nodes[..]), old(indexes[..]), a, b);
    }

    /** heapify_up, on a heap of n nodes. */
    method HeapifyUp(i: nat, ghost n: nat)
      requires Shape() && i < n <= size && OrderedButUp(nodes[..], n, isMax, i)
      modifies nodes, indexes
      ensures Shape() && Ordered(nodes[..], n, isMax)
      ensures SameNodes(old(nodes[..]), old(indexes[..]), nodes[..], indexes[..], n)
      decreases i
    {
      if i == 0 {
        return;
      }
      var parent := (i - 1) / 2;
      var cmp := if isMax then nodes[parent].key < nodes[i].key else nodes[parent].key > nodes[i].key;
      if cmp {
        SwapUp(nodes[..], n, isMax, i);
        Swap(i, parent, n);
        HeapifyUp(parent, n);
      }
    }

    /** The selection in heapify_down: i or the child that must change places with it. */
    method Largest(i: nat) returns (largest: nat)
      requires Shape() && i < size && count <= size
      ensures IsLargest(nodes[..], count, isMax, i, largest)
    {
      var left := 2 * i + 1;
      var right := 2 * i + 1 + 1;
      largest := i;
      if isMax {
        if left < count && nodes[left].key > nodes[largest].key {
          largest := left;
        }
        if right < count && nodes[right].key > nodes[largest].key {
          largest := right;
        }
      } else {
        if left < count && nodes[left].key < nodes[largest].key {
          largest := left;
        }
        if right < count && nodes[right].key < nodes[largest].key {
          largest := right;
        }
      }
    }

    /** heapify_down */
    method HeapifyDown(i: nat)
      requires Shape() && i < size && i <= count <= size && OrderedButDown(nodes[..], count, isMax, i)
      modifies nodes, indexes
      ensures Shape() && Ordered(nodes[..], count, isMax)
      ensures SameNodes(old(nodes[..]), old(indexes[..]), nodes[..], indexes[..], count)
      decreases count - i
    {
      var largest := Largest(i);
      if largest != i {
        SwapDown(nodes[..], count, isMax, i, largest);
        Swap(i, largest, count);
        HeapifyDown(largest);
      } else {
        NothingLarger(nodes[..], count, isMax, i);
      }
    }

    /** A node moves up; the entries stay the same. */
    method SettleUp(i: nat, ghost n: nat)
      requires Shape() && i < n <= size && OrderedButUp(nodes[..], n, isMax, i)
      requires Describes(entries, nodes[..], indexes[..], n)
      modifies nodes, indexes
      ensures IsHeap(n)
    {
      HeapifyUp(i, n);
      DescribesSame(entries, old(nodes[..]), old(indexes[..]), nodes[..], indexes[..], n);
    }

    /** A node moves down; the entries stay the same. */
    method SettleDown(i: nat)
      requires Shape() && i < size && i <= count <= size && OrderedButDown(nodes[..], count, isMax, i)
      requires Describes(entries, nodes[..], indexes[..], count)
      modifies nodes, indexes
      ensures Valid()
    {
      HeapifyDown(i);
      DescribesSame(entries, old(nodes[..]), old(indexes[..]), nodes[..], indexes[..], count);
    }

    /** xbinheap_insert: a handle that was not live, or NONE when the heap is full. */
    method Insert(key: Word, value: Word) returns (r: Word)
      requires Valid() && size < NONE
      modifies this`count, this`entries, nodes, indexes
      ensures Valid()
      ensures |old(entries)| == size ==> r == NONE && entries == old(entries)
      ensures |old(entries)| < size
              ==> r < size && r !in old(entries) && entries == old(entries)[r as nat := (key, value)]
    {
      if count + 1 > size {
        return NONE;
      }
      r := InsertNew(key, value);
    }

    /** xbinheap_insert when there is room. */
    method InsertNew(key: Word, value: Word) returns (h: nat)
      requires Valid() && count < size
      modifies this`count, this`entries, nodes, indexes
      ensures Valid() && h < size && h !in old(entries) && entries == old(entries)[h := (key, value)]
    {
      h := AppendNode(key, value);
      SettleUp(count - 1, count);
    }

    /**
     Writes the node after the last one and counts it, which may break the order towards its
     parent. (heapify_up does not read `count`, so counting before or after it is the same.)
     */
    method AppendNode(key: Word, value: Word) returns (h: nat)
      requires Valid() && count < size
      modifies this`count, this`entries, nodes
      ensures Shape() && count == old(count) + 1 <= size
      ensures OrderedButUp(nodes[..], count, isMax, count - 1)
      ensures Describes(entries, nodes[..], indexes[..], count)
      ensures h < size && h !in old(entries) && entries == old(entries)[h := (key, value)]
    {
      h := nodes[count].h;
      NodeAppended(entries, nodes[..], indexes[..], count, isMax, key, value);
      ghost var ns := nodes[..];
      nodes[count] := Node(key, value, h);
      assert nodes[..] == ns[count := Node(key, value, h)];
      entries := entries[h := (key, value)];
      count := count + 1;
    }

    /** xbinheap_peak */
    method Peek() returns (r: Word)
      requires Valid()
      ensures entries == map[] ==> r == NONE
      ensures entries != map[]
              ==> exists h :: h in entries && entries[h].1 == r && IsFirst(entries, h, isMax)
    {
      if count == 0 {
        return NONE;
      }
      RootIsFirstEntry(entries, nodes[..], indexes[..], count, isMax);
      return nodes[0].value;
    }

    /** xbinheap_extract: takes out an entry that is above all others; h is its handle. */
    method Extract() returns (r: Word, ghost h: nat)
      requires Valid() && size > 0
      modifies this`count, this`entries, nodes, indexes
      ensures Valid()
      ensures old(entries) == map[] ==> r == NONE && entries == map[]
      ensures old(entries) != map[]
              ==> && h in old(entries) && r == old(entries)[h].1 && IsFirst(old(entries), h, isMax)
                  && entries == old(entries) - {h}
    {
      var ret := nodes[0].value;
      h := nodes[0].h;
      if count == 0 {
        return NONE, h;
      }
      RootIsFirstEntry(entries, nodes[..], indexes[..], count, isMax);
      ExtractRoot();
      return ret, h;
    }

    /** xbinheap_extract of a heap that is not empty. */
    method ExtractRoot()
      requires Valid() && 0 < count
      modifies this`count, this`entries, nodes, indexes
      ensures Valid() && entries == old(entries) - {old(nodes[0].h)}
    {
      Unroot();
      SettleDown(0);
    }

    /** Taking the root out leaves another node in its place, which may belong further down. */
    method Unroot()
      requires Valid() && 0 < count
      modifies this`count, this`entries, nodes, indexes
      ensures Shape() && count == old(count) - 1 && count < size && entries == old(entries) - {old(nodes[0].h)}
      ensures OrderedButDown(nodes[..], count, isMax, 0) && Describes(entries, nodes[..], indexes[..], count)
    {
      RootDropped(entries, nodes[..], indexes[..], count - 1, isMax);
      DropRoot();
    }

    /** Swaps the root with the last node and leaves it out. */
    method DropRoot()
      requires Shape() && 0 < count <= size
      modifies this`count, this`entries, nodes, indexes
      ensures Shape() && count == old(count) - 1 && entries == old(entries) - {old(nodes[0].h)}
      ensures nodes[..] == SwapNodes(old(nodes[..]), 0, count)
      ensures indexes[..] == SwapIndexes(old(nodes[..]), old(indexes[..]), 0, count)
    {
      entries := entries - {nodes[0].h};
      count := count - 1;
      Swap(0, count, count + 1);
    }

    /** xbinheap_increasekey, for a live handle and a key that is not smaller. */
    method IncreaseKey(h: nat, newkey: Word)
      requires Valid() && h in entries && entries[h].0 <= newkey
      modifies this`entries, nodes, indexes
      ensures Valid() && entries == old(entries)[h := (newkey, old(entries)[h].1)]
    {
      if isMax {
        RaiseKey(h, newkey);
      } else {
        LowerKey(h, newkey);
      }
    }

    /** xbinheap_decreasekey, for a live handle and a key that is not larger. */
    method DecreaseKey(h: nat, newkey: Word)
      requires Valid() && h in entries && entries[h].0 >= newkey
      modifies this`entries, nodes, indexes
      ensures Valid() && entries == old(entries)[h := (newkey, old(entries)[h].1)]
    {
      if isMax {
        LowerKey(h, newkey);
      } else {
        RaiseKey(h, newkey);
      }
    }

    /** Sets a key that belongs nearer to the root, and moves its node up. */
    method RaiseKey(h: nat, newkey: Word)
      requires Valid() && h in entries && Above(isMax, newkey, entries[h].0)
      modifies this`entries, nodes, indexes
      ensures Valid() && entries == old(entries)[h := (newkey, old(entries)[h].1)]
    {
      var i := indexes[h];
      OrderAfterRaise(nodes[..], count, isMax, i, newkey);
      SetKey(h, newkey);
      SettleUp(i, count);
    }

    /** Sets a key that belongs further from the root, and moves its node down. */
    method LowerKey(h: nat, newkey: Word)
      requires Valid() && h in entries && Above(isMax, entries[h].0, newkey)
      modifies this`entries, nodes, indexes
      ensures Valid() && entries == old(entries)[h := (newkey, old(entries)[h].1)]
    {
      var i := indexes[h];
      OrderAfterLower(nodes[..], count, isMax, i, newkey);
      SetKey(h, newkey);
      SettleDown(i);
    }

    /** Assigns the key in place, which may break the order around the node. */
    method SetKey(h: nat, newkey: Word)
      requires Valid() && h in entries
      modifies this`entries, nodes
      ensures Shape() && Describes(entries, nodes[..], indexes[..], count)
      ensures entries == old(entries)[h := (newkey, old(entries)[h].1)]
      ensures nodes[..] == old(nodes[..])[indexes[h] := old(nodes[indexes[h]]).(key := newkey)]
    {
      DescribesAfterSetKey(entries, nodes[..], indexes[..], count, h, newkey);
      var i := indexes[h];
      nodes[i] := nodes[i].(key := newkey);
      entries := entries[h := (newkey, entries[h].1)];
      assert nodes[..] == old(nodes[..])[i := old(nodes[i]).(key := newkey)];
    }

    /**
     xbinheap_getkey. For a handle that is not live the answer is NONE, except for the handle
     whose node lies just after the last one: its stale key is returned.
     */
    method GetKey(h: nat) returns (r: Word)
      requires Valid() && h < size
      ensures h in entries ==> r == entries[h].0
      ensures h !in entries ==> r == if indexes[h] == count then nodes[count].key else NONE
    {
      var i := indexes[h];
      if i > count {
        return NONE;
      }
      return nodes[i].key;
    }

    /** Extracting until the heap is empty returns all values, in the order of their keys. */
    method ExtractAll() returns (values: seq<Word>, ghost hs: seq<nat>)
      requires Valid() && size > 0
      modifies this`count, this`entries, nodes, indexes
      ensures Valid() && entries == map[]
      ensures SortedListing(values, hs, old(entries), map[], isMax)
    {
      values, hs := [], [];
      ghost var m := entries;
      while count > 0
        invariant Valid() && SortedListing(values, hs, m, entries, isMax)
        decreases count
      {
        ghost var rest := entries;
        var v;
        ghost var h;
        v, h := Extract();
        ListingStep(values, hs, m, rest, h, isMax);
        values, hs := values + [v], hs + [h];
      }
      assert |entries| == 0;
    }
  }

  /**
   hs lists the handles of m that are no longer in rest, each once and sorted by key, and
   values their values; every handle of rest comes after them.
   */
  ghost predicate SortedListing(values: seq<Word>, hs: seq<nat>, m: map<nat, (Word, Word)>,
                                rest: map<nat, (Word, Word)>, isMax: bool)
  {
    && |values| == |hs|
    && (forall i, j | 0 <= i < j < |hs| :: hs[i] != hs[j])
    && (forall i | 0 <= i < |hs| :: hs[i] in m && hs[i] !in rest && values[i] == m[hs[i]].1)
    && (forall h | h in m && h !in rest :: h in hs)
    && (forall h | h in rest :: h in m && m[h] == rest[h])
    && (forall i, j | 0 <= i < j < |hs| :: Above(isMax, m[hs[i]].0, m[hs[j]].0))
    && (forall i, h | 0 <= i < |hs| && h in rest :: Above(isMax, m[hs[i]].0, m[h].0))
  }

  lemma ListingStep(values: seq<Word>, hs: seq<nat>, m: map<nat, (Word, Word)>,
                    rest: map<nat, (Word, Word)>, h: nat, isMax: bool)
    requires SortedListing(values, hs, m, rest, isMax) && h in rest && IsFirst(rest, h, isMax)
    ensures SortedListing(values + [rest[h].1], hs + [h], m, rest - {h}, isMax)
  {
    forall g | g in m && g !in rest - {h} ensures g in hs + [h] {
      assert g == h || g in hs;
    }
  }

  ghost predicate IsFirst(m: map<nat, (Word, Word)>, h: nat, isMax: bool)
    requires h in m
  {
    forall g | g in m :: Above(isMax, m[h].0, m[g].0)
  }

  lemma RootIsFirstEntry(m: map<nat, (Word, Word)>, ns: seq<Node>, ix: seq<nat>, n: nat, isMax: bool)
    requires Linked(ns, ix) && 0 < n <= |ns| && Ordered(ns, n, isMax) && Describes(m, ns, ix, n)
    ensures ns[0].h in m && m[ns[0].h] == (ns[0].key, ns[0].value)
    ensures IsFirst(m, ns[0].h, isMax)
  {
    forall g | g in m ensures Above(isMax, ns[0].key, m[g].0) {
      RootIsFirst(ns, n, isMax, ix[g]);
    }
  }
}
