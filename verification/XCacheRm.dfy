/**
 The two tables of src/xtypes/xcache.c when XCACHE_USE_RMTABLE is set: "entries" holds the
 active nodes and "rm_entries" those that were evicted while somebody still uses them.

 Any number of threads call alloc_init, insert, lookup, get, put and free_new. cache->lock
 serialises the insertions and lookups, so at most one of them is under way and Phase says how
 far it got; rm_lock is taken inside it for two short regions, and by every put for its whole
 decision. A step of the model is one region under a lock or one atomic change of a counter.
 The tables are the maps that XHash shows its tables to be; which entry is least recently used
 is left open, and so is when a table must be rebuilt and finds no memory for that: the claims
 hold for any eviction order and any such failures.
 */
module XCacheRm {
  import opened Names
  import opened Seqs

  type Idx = nat

  /** struct xcache_entry: evicted is state == NODE_EVICTED. */
  datatype Node = Node(ref: int, name: Name, evicted: bool)

  /**
   Where a node is. Leaving is from entries to rm_entries, Back from rm_entries to entries, and
   Freeing from rm_entries to the free queue. A Stray was left in neither table by an insertion
   that failed; it is active, and the reference of a table is still counted.
   */
  datatype Place = Free | New | InEntries | Leaving | InRm | Back | Stray | Freeing

  /**
   How far the owner of cache->lock got. busy is the node that the caller of insert passed and
   holds. h is the node to be inserted, lru the one that made room for it.
   */
  datatype Phase =
    | Idle
    | Found(busy: set<Idx>, h: Idx)
    | Searched(busy: set<Idx>, h: Idx)
    | Ready(busy: set<Idx>, h: Idx)
    | Evicting(busy: set<Idx>, h: Idx, lru: Idx)
    | Room(busy: set<Idx>, h: Idx, lru: Idx)
    | Inserted(busy: set<Idx>, h: Idx, evicted: set<Idx>)

  /**
   holders counts the references that callers have, evictors the puts that an eviction still
   owes; taken and given count how often each node left and entered the free queue. bug is
   set by the branches that the code reports as "BUG".
   */
  datatype State = State(
    size: nat,
    nodes: seq<Node>,
    entries: map<Name, Idx>,
    rm: map<Name, Idx>,
    freeQ: seq<Idx>,
    phase: Phase,
    place: seq<Place>,
    holders: multiset<Idx>,
    evictors: multiset<Idx>,
    taken: multiset<Idx>,
    given: multiset<Idx>,
    bug: bool
  )

  /** memory is false if the table must be rebuilt for the insertion and there is no memory for that. */
  datatype Call =
    | Alloc(name: Name)
    | Get(i: Idx)
    | Lookup(name: Name)
    | Begin(i: Idx)
    | SearchRm
    | Evict(lru: Idx)
    | StoreRm(memory: bool)
    | Insert(memory: bool)
    | Count
    | Put(i: Idx, gets: nat)
    | EvictorPut(i: Idx, gets: nat)
    | Release(i: Idx)
    | FreeNew(i: Idx)

  predicate Known(s: State, i: Idx) { i < |s.nodes| && i < |s.place| }

  ghost function Busy(s: State, i: Idx): nat {
    if !s.phase.Idle? && i in s.phase.busy then 1 else 0
  }

  /**
   What the API asks of its callers: they use only nodes they hold, the last reference to a
   node that was never inserted is given up by free_new and not by put, and steps inside
   insert happen when insert has got there.
   */
  ghost predicate Enabled(s: State, c: Call) {
    match c
    case Alloc(_) => s.freeQ != []
    case Get(i) => Known(s, i) && s.holders[i] > 0
    case Lookup(_) => s.phase.Idle?
    case Begin(i) => s.phase.Idle? && Known(s, i) && s.holders[i] > 0
    case SearchRm => s.phase.Searched?
    case Evict(lru) => s.phase.Ready? && |s.entries| >= s.size && Known(s, lru) && s.place[lru] == InEntries
    case StoreRm(_) => s.phase.Evicting?
    case Insert(_) => (s.phase.Ready? && |s.entries| < s.size) || s.phase.Room?
    case Count => s.phase.Found? || s.phase.Inserted?
    case Put(i, _) => Known(s, i) && s.holders[i] > Busy(s, i) && (s.place[i] == New ==> s.holders[i] > 1)
    case EvictorPut(i, _) => Known(s, i) && s.evictors[i] > 0
    case Release(i) => Known(s, i) && s.place[i] == Freeing
    case FreeNew(i) => Known(s, i) && s.place[i] == New && s.holders[i] == 1 && Busy(s, i) == 0
  }

  // ----- the steps

  function SetNode(s: State, i: Idx, node: Node, place: Place): State
    requires Known(s, i)
  {
    s.(nodes := s.nodes[i := node], place := s.place[i := place])
  }

  function AddRef(s: State, i: Idx, n: int): State
    requires Known(s, i)
  {
    SetNode(s, i, s.nodes[i].(ref := s.nodes[i].ref + n), s.place[i])
  }

  /** xcache_alloc_init */
  function DoAlloc(s: State, name: Name): State
    requires s.freeQ != [] && Known(s, s.freeQ[|s.freeQ| - 1])
  {
    var i := s.freeQ[|s.freeQ| - 1];
    SetNode(s, i, Node(1, name, false), New)
      .(freeQ := s.freeQ[..|s.freeQ| - 1], holders := s.holders + multiset{i}, taken := s.taken + multiset{i},
        bug := s.bug || s.nodes[i].ref != 0)
  }

  /** The search of entries with which insert and lookup start. */
  function DoSearch(s: State, name: Name, busy: set<Idx>): State {
    if name in s.entries then s.(phase := Found(busy, s.entries[name])) else s
  }

  function DoBegin(s: State, i: Idx): State
    requires Known(s, i)
  {
    if s.nodes[i].name in s.entries then DoSearch(s, s.nodes[i].name, {i}) else s.(phase := Searched({i}, i))
  }

  /** The region of insert that takes the older self of the node out of rm_entries. */
  function DoSearchRm(s: State): State
    requires s.phase.Searched? && Known(s, s.phase.h)
  {
    var name := s.nodes[s.phase.h].name;
    if name in s.rm && Known(s, s.rm[name]) then
      var t := s.rm[name];
      SetNode(s, t, s.nodes[t].(evicted := false, ref := s.nodes[t].ref + 1), Back)
        .(rm := s.rm - {name}, phase := Ready(s.phase.busy, t), bug := s.bug || !s.nodes[t].evicted)
    else s.(phase := Ready(s.phase.busy, s.phase.h))
  }

  /** __xcache_evict up to the insertion into rm_entries. */
  function DoEvict(s: State, lru: Idx): State
    requires s.phase.Ready? && Known(s, lru)
  {
    SetNode(s, lru, s.nodes[lru].(evicted := true), Leaving)
      .(entries := s.entries - {s.nodes[lru].name}, phase := Evicting(s.phase.busy, s.phase.h, lru),
        bug := s.bug || s.nodes[lru].evicted || s.nodes[lru].name !in s.entries)
  }

  /** The insertion into rm_entries. */
  function Store(s: State): State
    requires s.phase.Evicting? && Known(s, s.phase.lru)
  {
    SetNode(s, s.phase.lru, s.nodes[s.phase.lru], InRm)
      .(rm := s.rm[s.nodes[s.phase.lru].name := s.phase.lru], phase := Room(s.phase.busy, s.phase.h, s.phase.lru))
  }

  /** It fails at the limit, or if rm_entries must be rebuilt and there is no memory for that. */
  function DoStoreRm(s: State, memory: bool): State
    requires s.phase.Evicting? && Known(s, s.phase.lru) && Known(s, s.phase.h)
  {
    if |s.rm| < s.size && memory then Store(s) else GiveUp(Unstored(s)).(bug := true)
  }

  /** What then becomes of the evicted node: it is active, and in neither table. */
  function Unstored(s: State): State
    requires s.phase.Evicting? && Known(s, s.phase.lru)
  {
    SetNode(s, s.phase.lru, s.nodes[s.phase.lru].(evicted := false), Stray).(phase := Ready(s.phase.busy, s.phase.h))
  }

  /** The insertion into entries. The reference of the node's allocator passes to the table. */
  function Enter(s: State): State
    requires (s.phase.Ready? || s.phase.Room?) && Known(s, s.phase.h)
  {
    var h := s.phase.h;
    var isNew := s.place[h] == New;
    SetNode(s, h, s.nodes[h], InEntries)
      .(entries := s.entries[s.nodes[h].name := h],
        holders := if isNew then s.holders - multiset{h} else s.holders,
        phase := Inserted(if isNew then {} else s.phase.busy, h, if s.phase.Room? then {s.phase.lru} else {}),
        bug := s.bug || s.nodes[h].ref == 0)
  }

  /** It fails for the same reasons. */
  function DoInsert(s: State, memory: bool): State
    requires (s.phase.Ready? || s.phase.Room?) && Known(s, s.phase.h)
  {
    if |s.entries| < s.size && memory then Enter(s) else GiveUp(s)
  }

  /**
   The insertion returns NoEntry. It is a bug to have evicted, or to have taken the node out of
   rm_entries, for nothing. The evicted node is still to be put, the other one is left behind.
   */
  function GiveUp(s: State): State
    requires (s.phase.Ready? || s.phase.Room?) && Known(s, s.phase.h)
  {
    var again := s.place[s.phase.h] == Back;
    s.(place := if again then s.place[s.phase.h := Stray] else s.place,
       evictors := if s.phase.Room? then s.evictors + multiset{s.phase.lru} else s.evictors,
       phase := Idle,
       bug := s.bug || s.phase.Room? || again)
  }

  /** The reference for the caller; then cache->lock is released and the evicted node is still to be put. */
  function DoCount(s: State): State
    requires (s.phase.Found? || s.phase.Inserted?) && Known(s, s.phase.h)
  {
    AddRef(s, s.phase.h, 1)
      .(holders := s.holders + multiset{s.phase.h}, phase := Idle,
        evictors := if s.phase.Inserted? then s.evictors + multiset(s.phase.evicted) else s.evictors)
  }

  /** xcache_entry_put up to the release of rm_lock; the finalize hook may take gets references. */
  function DoPut(s: State, i: Idx, gets: nat): State
    requires Known(s, i)
  {
    var ref := s.nodes[i].ref - 1;
    if ref > 0 then AddRef(s, i, -1)
    else if ref + gets != 0 then AddRef(s, i, gets - 1).(holders := s.holders[i := s.holders[i] + gets])
    else
      SetNode(s, i, s.nodes[i].(ref := 0), Freeing)
        .(rm := s.rm - {s.nodes[i].name},
          bug := s.bug || s.nodes[i].name !in s.rm || s.rm[s.nodes[i].name] != i)
  }

  function Push(s: State, i: Idx): State
    requires Known(s, i)
  {
    SetNode(s, i, s.nodes[i].(ref := 0), Free)
      .(freeQ := s.freeQ + [i], given := s.given + multiset{i}, bug := s.bug || |s.freeQ| >= 2 * s.size)
  }

  /** The indices that the steps use are those of nodes. */
  ghost predicate Indexed(s: State) {
    && |s.nodes| == |s.place|
    && (forall i | i in s.freeQ :: Known(s, i))
    && (!s.phase.Idle? ==> Known(s, s.phase.h))
    && (s.phase.Evicting? || s.phase.Room? ==> Known(s, s.phase.lru))
  }

  ghost function Step(s: State, c: Call): State
    requires Indexed(s) && Enabled(s, c)
  {
    match c
    case Alloc(name) => DoAlloc(s, name)
    case Get(i) => AddRef(s, i, 1).(holders := s.holders + multiset{i})
    case Lookup(name) => DoSearch(s, name, {})
    case Begin(i) => DoBegin(s, i)
    case SearchRm => DoSearchRm(s)
    case Evict(lru) => DoEvict(s, lru)
    case StoreRm(memory) => DoStoreRm(s, memory)
    case Insert(memory) => DoInsert(s, memory)
    case Count => DoCount(s)
    case Put(i, gets) => DoPut(s.(holders := s.holders - multiset{i}), i, gets)
    case EvictorPut(i, gets) => DoPut(s.(evictors := s.evictors - multiset{i}), i, gets)
    case Release(i) => Push(s, i)
    case FreeNew(i) => Push(s.(holders := s.holders - multiset{i}), i)
  }

  // ----- the invariant

  /** What ref amounts to: h outside holders, e puts owed, x for an eviction under way. */
  predicate NodeOk(node: Node, place: Place, h: nat, e: nat, x: nat) {
    match place
    case Free => node.ref == 0 && h == e == x == 0
    case Freeing => node.ref == 0 && h == e == x == 0
    case New => node.ref == h >= 1 && e == x == 0 && !node.evicted
    case InEntries => node.ref == h + e + 1 && x == 0 && !node.evicted
    case Back => node.ref == h + e + 1 && x == 0 && !node.evicted
    case Stray => node.ref == h + e + 1 && x == 0 && !node.evicted
    case Leaving => node.ref == h + e + x && x == 1 && node.evicted
    case InRm => node.ref == h + e + x >= 1 && node.evicted
  }

  /** The put that the insertion under way will owe. */
  ghost function Owed(phase: Phase, i: Idx): nat {
    if (phase.Evicting? || phase.Room?) && i == phase.lru then 1
    else if phase.Inserted? && i in phase.evicted then 1
    else 0
  }

  ghost predicate NodesOk(s: State) {
    forall i | 0 <= i < |s.nodes| && i < |s.place| ::
      NodeOk(s.nodes[i], s.place[i], s.holders[i], s.evictors[i], Owed(s.phase, i))
  }

  /** A table lists by their names exactly the nodes that are in it. */
  ghost predicate Lists(table: map<Name, Idx>, nodes: seq<Node>, place: seq<Place>, which: Place)
    requires |nodes| == |place|
  {
    && (forall n | n in table :: table[n] < |nodes| && place[table[n]] == which && nodes[table[n]].name == n)
    && (forall i | 0 <= i < |nodes| && place[i] == which :: nodes[i].name in table && table[nodes[i].name] == i)
  }

  ghost predicate TablesOk(s: State)
    requires |s.nodes| == |s.place|
  {
    && Lists(s.entries, s.nodes, s.place, InEntries) && Lists(s.rm, s.nodes, s.place, InRm)
    && s.entries.Keys !! s.rm.Keys
    && |s.entries| <= s.size && |s.rm| <= s.size
  }

  ghost predicate FreeOk(s: State)
    requires |s.nodes| == |s.place|
  {
    && (forall i :: multiset(s.freeQ)[i] == if 0 <= i < |s.place| && s.place[i] == Free then 1 else 0)
    && (forall i | 0 <= i < |s.place| :: s.taken[i] == s.given[i] + if s.place[i] == Free then 0 else 1)
  }

  /** What is known of the insertion under way. */
  ghost predicate PhaseOk(s: State)
    requires |s.nodes| == |s.place|
  {
    && (forall i | 0 <= i < |s.place| && s.place[i] == Back ::
          (s.phase.Ready? || s.phase.Evicting? || s.phase.Room?) && i == s.phase.h)
    && (forall i | 0 <= i < |s.place| && s.place[i] == Leaving :: s.phase.Evicting? && i == s.phase.lru)
    && (forall i | Busy(s, i) > 0 :: s.holders[i] > 0)
    && match s.phase
       case Idle => true
       case Found(_, h) => h < |s.place| && s.place[h] == InEntries
       case Searched(busy, h) => busy == {h} && h < |s.place| && s.nodes[h].name !in s.entries
       case Ready(busy, h) => ToInsert(s, busy, h)
       case Evicting(busy, h, lru) =>
         && ToInsert(s, busy, h) && lru < |s.place| && s.place[lru] == Leaving && |s.entries| == s.size - 1
         && s.nodes[lru].name !in s.entries && s.nodes[lru].name !in s.rm && s.nodes[lru].name != s.nodes[h].name
       case Room(busy, h, _) => ToInsert(s, busy, h) && |s.entries| < s.size
       case Inserted(_, h, _) => h < |s.place| && s.place[h] == InEntries
  }

  /** h is not in a table, nor is its name; it is either new, or back from rm_entries. */
  ghost predicate ToInsert(s: State, busy: set<Idx>, h: Idx)
    requires |s.nodes| == |s.place|
  {
    h < |s.place| && s.nodes[h].name !in s.entries && s.nodes[h].name !in s.rm
    && (s.place[h] == Back || ((s.place[h] == New || s.place[h] == Stray) && busy == {h}))
  }

  ghost predicate Inv(s: State) {
    && |s.nodes| == |s.place| == 2 * s.size && s.size > 0
    && Indexed(s) && NodesOk(s) && TablesOk(s) && FreeOk(s) && PhaseOk(s)
  }

  // ----- changing one node

  /** Only node i, its place and its references may differ. */
  ghost predicate OnlyNode(s: State, s': State, i: Idx) {
    && |s.nodes| == |s.place| == |s'.nodes| == |s'.place|
    && (forall j | 0 <= j < |s.nodes| && j != i ::
          s'.nodes[j] == s.nodes[j] && s'.place[j] == s.place[j]
          && s'.holders[j] == s.holders[j] && s'.evictors[j] == s.evictors[j])
  }

  lemma NodesAfter(s: State, s': State, i: Idx)
    requires NodesOk(s) && OnlyNode(s, s', i) && i < |s.nodes|
    requires forall j | 0 <= j < |s.nodes| && j != i :: Owed(s'.phase, j) == Owed(s.phase, j)
    requires NodeOk(s'.nodes[i], s'.place[i], s'.holders[i], s'.evictors[i], Owed(s'.phase, i))
    ensures NodesOk(s')
  {
    forall j | 0 <= j < |s'.nodes| && j < |s'.place|
      ensures NodeOk(s'.nodes[j], s'.place[j], s'.holders[j], s'.evictors[j], Owed(s'.phase, j))
    {
      if j != i { assert NodeOk(s.nodes[j], s.place[j], s.holders[j], s.evictors[j], Owed(s.phase, j)); }
    }
  }

  lemma ListsAfter(t: map<Name, Idx>, t': map<Name, Idx>, nodes: seq<Node>, nodes': seq<Node>,
                   place: seq<Place>, place': seq<Place>, which: Place, i: Idx)
    requires |nodes| == |place| == |nodes'| == |place'| && i < |nodes| && Lists(t, nodes, place, which)
    requires forall j | 0 <= j < |nodes| && j != i :: nodes'[j] == nodes[j] && place'[j] == place[j]
    requires (place[i] == which || place'[i] == which) ==> nodes'[i].name == nodes[i].name
    requires t' == if place'[i] == which then t[nodes'[i].name := i]
                   else if place[i] == which then t - {nodes[i].name} else t
    requires place'[i] == which && place[i] != which ==> nodes'[i].name !in t
    ensures Lists(t', nodes', place', which)
  {
    forall n | n in t' ensures t'[n] < |nodes'| && place'[t'[n]] == which && nodes'[t'[n]].name == n {
      if n in t { assert t[n] < |nodes| && place[t[n]] == which && nodes[t[n]].name == n; }
    }
    forall j | 0 <= j < |nodes'| && place'[j] == which ensures nodes'[j].name in t' && t'[nodes'[j].name] == j {
      if j != i { assert nodes[j].name in t && t[nodes[j].name] == j; }
    }
  }

  lemma FreeAfter(s: State, s': State, i: Idx)
    requires |s.nodes| == |s.place| && FreeOk(s) && OnlyNode(s, s', i) && i < |s.place|
    requires if s.place[i] == Free && s'.place[i] != Free then
               && multiset(s'.freeQ) == multiset(s.freeQ) - multiset{i}
               && s'.taken == s.taken + multiset{i} && s'.given == s.given
             else if s.place[i] != Free && s'.place[i] == Free then
               && multiset(s'.freeQ) == multiset(s.freeQ) + multiset{i}
               && s'.taken == s.taken && s'.given == s.given + multiset{i}
             else s'.freeQ == s.freeQ && s'.taken == s.taken && s'.given == s.given
    ensures FreeOk(s')
  {
    forall j ensures multiset(s'.freeQ)[j] == if 0 <= j < |s'.place| && s'.place[j] == Free then 1 else 0 {
      assert multiset(s.freeQ)[j] == if 0 <= j < |s.place| && s.place[j] == Free then 1 else 0;
    }
  }

  lemma QueueKnown(s: State, i: Idx)
    requires |s.nodes| == |s.place| && FreeOk(s) && i in s.freeQ
    ensures Known(s, i) && s.place[i] == Free
  {
    assert multiset(s.freeQ)[i] > 0;
  }

  lemma SameTables(s: State, s': State, i: Idx)
    requires |s.nodes| == |s.place| && TablesOk(s) && OnlyNode(s, s', i) && i < |s.place|
    requires s'.size == s.size && s'.entries == s.entries && s'.rm == s.rm
    requires s.place[i] == InEntries <==> s'.place[i] == InEntries
    requires s.place[i] == InRm <==> s'.place[i] == InRm
    requires s.place[i] == InEntries || s.place[i] == InRm ==> s'.nodes[i].name == s.nodes[i].name
    ensures TablesOk(s')
  {
    NamedBy(s, i);
    ListsAfter(s.entries, s'.entries, s.nodes, s'.nodes, s.place, s'.place, InEntries, i);
    ListsAfter(s.rm, s'.rm, s.nodes, s'.nodes, s.place, s'.place, InRm, i);
  }

  lemma NamedBy(s: State, i: Idx)
    requires |s.nodes| == |s.place| && TablesOk(s) && i < |s.place|
    ensures s.place[i] == InEntries ==> s.nodes[i].name in s.entries && s.entries[s.nodes[i].name] == i
                                        && s.entries[s.nodes[i].name := i] == s.entries
    ensures s.place[i] == InRm ==> s.nodes[i].name in s.rm && s.rm[s.nodes[i].name] == i
                                   && s.rm[s.nodes[i].name := i] == s.rm
  {
  }

  /** A change of node i that the insertion under way does not notice. */
  lemma SamePhase(s: State, s': State, i: Idx)
    requires |s.nodes| == |s.place| && PhaseOk(s) && OnlyNode(s, s', i) && i < |s.place|
    requires s'.phase == s.phase && s'.size == s.size && s'.entries == s.entries && s'.rm.Keys <= s.rm.Keys
    requires s'.place[i] == s.place[i]
             || (s'.place[i] != Back && s'.place[i] != Leaving && Busy(s, i) == 0
                 && (s.place[i] == Free || s.place[i] == New || s.place[i] == Freeing || s.place[i] == InRm))
    requires s'.nodes[i].name == s.nodes[i].name || s.place[i] == Free
    requires s.phase.Searched? ==> s.place[s.phase.h] != Free
    requires Busy(s, i) > 0 ==> s'.holders[i] > 0
    requires forall j | j >= |s.place| :: s'.holders[j] == s.holders[j]
    ensures PhaseOk(s')
  {
    forall j | Busy(s', j) > 0 ensures s'.holders[j] > 0 {
      assert Busy(s, j) > 0;
    }
  }

  /** The free queue follows node i. */
  ghost predicate FreeFollows(s: State, s': State, i: Idx)
    requires i < |s.place| && i < |s'.place|
  {
    if s.place[i] == Free && s'.place[i] != Free then
      && multiset(s'.freeQ) == multiset(s.freeQ) - multiset{i}
      && s'.taken == s.taken + multiset{i} && s'.given == s.given
    else if s.place[i] != Free && s'.place[i] == Free then
      && multiset(s'.freeQ) == multiset(s.freeQ) + multiset{i}
      && s'.taken == s.taken && s'.given == s.given + multiset{i}
    else s'.freeQ == s.freeQ && s'.taken == s.taken && s'.given == s.given
  }

  /** A change of node i outside the tables. */
  lemma QuietInv(s: State, s': State, i: Idx)
    requires Inv(s) && OnlyNode(s, s', i) && i < |s.place|
    requires s'.size == s.size && s'.entries == s.entries && s'.rm == s.rm && s'.phase == s.phase
    requires NodeOk(s'.nodes[i], s'.place[i], s'.holders[i], s'.evictors[i], Owed(s'.phase, i))
    requires s'.place[i] == s.place[i]
             || (Busy(s, i) == 0 && (s.place[i] == Free || s.place[i] == New || s.place[i] == Freeing)
                 && (s'.place[i] == Free || s'.place[i] == New || s'.place[i] == Freeing))
    requires s'.nodes[i].name == s.nodes[i].name || s.place[i] == Free
    requires Busy(s, i) > 0 ==> s'.holders[i] > 0
    requires forall j | j >= |s.place| :: s'.holders[j] == s.holders[j]
    requires FreeFollows(s, s', i)
    ensures Inv(s')
  {
    NodesAfter(s, s', i);
    SameTables(s, s', i);
    FreeAfter(s, s', i);
    SearchedIsUsed(s);
    SamePhase(s, s', i);
    IndexedAfter(s');
  }

  lemma SearchedIsUsed(s: State)
    requires |s.nodes| == |s.place| && Indexed(s) && NodesOk(s) && PhaseOk(s)
    ensures s.phase.Searched? ==> s.place[s.phase.h] != Free
  {
    if s.phase.Searched? {
      assert NodeOk(s.nodes[s.phase.h], s.place[s.phase.h], s.holders[s.phase.h], s.evictors[s.phase.h],
                    Owed(s.phase, s.phase.h));
      assert Busy(s, s.phase.h) > 0;
    }
  }

  lemma IndexedAfter(s: State)
    requires |s.nodes| == |s.place| && FreeOk(s) && PhaseOk(s)
    requires s.phase.Evicting? || s.phase.Room? ==> Known(s, s.phase.lru)
    ensures Indexed(s)
  {
    forall i | i in s.freeQ ensures Known(s, i) {
      QueueKnown(s, i);
    }
  }

  /** The front of the free queue. */
  lemma FirstFree(s: State)
    requires Inv(s) && s.freeQ != []
    ensures var i := s.freeQ[|s.freeQ| - 1];
            && Known(s, i) && s.place[i] == Free && s.nodes[i].ref == 0 && s.holders[i] == 0 && s.evictors[i] == 0
            && Owed(s.phase, i) == 0 && Busy(s, i) == 0
            && multiset(s.freeQ[..|s.freeQ| - 1]) == multiset(s.freeQ) - multiset{i}
  {
    var i := s.freeQ[|s.freeQ| - 1];
    QueueKnown(s, i);
    assert s.freeQ == s.freeQ[..|s.freeQ| - 1] + [i];
    assert NodeOk(s.nodes[i], s.place[i], s.holders[i], s.evictors[i], Owed(s.phase, i));
  }

  lemma AllocChanges(s: State, name: Name)
    requires |s.nodes| == |s.place| && s.freeQ != [] && Known(s, s.freeQ[|s.freeQ| - 1])
    ensures var i := s.freeQ[|s.freeQ| - 1]; var s' := DoAlloc(s, name);
            && OnlyNode(s, s', i) && s'.nodes[i] == Node(1, name, false) && s'.place[i] == New
            && s'.holders[i] == s.holders[i] + 1 && s'.evictors[i] == s.evictors[i]
            && (forall j | j >= |s.place| :: s'.holders[j] == s.holders[j])
  {
  }

  lemma AllocInv(s: State, name: Name)
    requires Inv(s) && s.freeQ != []
    ensures Indexed(s) && Inv(DoAlloc(s, name))
  {
    FirstFree(s);
    AllocChanges(s, name);
    QuietInv(s, DoAlloc(s, name), s.freeQ[|s.freeQ| - 1]);
  }

  lemma NodeAt(s: State, i: Idx)
    requires Inv(s) && Known(s, i)
    ensures NodeOk(s.nodes[i], s.place[i], s.holders[i], s.evictors[i], Owed(s.phase, i))
  {
  }

  lemma GetInv(s: State, i: Idx)
    requires Inv(s) && Known(s, i) && s.holders[i] > 0
    ensures Inv(AddRef(s, i, 1).(holders := s.holders + multiset{i}))
  {
    NodeAt(s, i);
    QuietInv(s, AddRef(s, i, 1).(holders := s.holders + multiset{i}), i);
  }

  /** Nodes that are not free leave room in the free queue. */
  lemma FreeRoom(s: State, i: Idx)
    requires Inv(s) && Known(s, i) && s.place[i] != Free
    ensures |s.freeQ| < 2 * s.size
  {
    assert multiset(s.freeQ)[i] == 0;
    Sparse(s.freeQ, |s.place|, i);
  }

  lemma PushInv(s: State, i: Idx)
    requires Inv(s) && Known(s, i)
    requires s.place[i] == Freeing || (s.place[i] == New && s.holders[i] == 1 && Busy(s, i) == 0)
    ensures Inv(Push(s.(holders := s.holders[i := 0]), i))
  {
    NodeAt(s, i);
    FreeRoom(s, i);
    QuietInv(s, Push(s.(holders := s.holders[i := 0]), i), i);
  }

  // ----- steps that change the tables

  /** A table follows node i. */
  ghost predicate Follows(t: map<Name, Idx>, t': map<Name, Idx>, s: State, s': State, which: Place, i: Idx)
    requires i < |s.nodes| && i < |s.place| && i < |s'.nodes| && i < |s'.place|
  {
    && (s.place[i] == which || s'.place[i] == which ==> s'.nodes[i].name == s.nodes[i].name)
    && (if s'.place[i] == which && s.place[i] != which then
          t' == t[s'.nodes[i].name := i] && s'.nodes[i].name !in s.entries && s'.nodes[i].name !in s.rm
        else if s.place[i] == which && s'.place[i] != which then t' == t - {s.nodes[i].name}
        else t' == t)
  }

  lemma TablesAfter(s: State, s': State, i: Idx)
    requires |s.nodes| == |s.place| && TablesOk(s) && OnlyNode(s, s', i) && i < |s.place| && s'.size == s.size
    requires Follows(s.entries, s'.entries, s, s', InEntries, i) && Follows(s.rm, s'.rm, s, s', InRm, i)
    requires |s'.entries| <= s.size && |s'.rm| <= s.size
    ensures TablesOk(s')
  {
    NamedBy(s, i);
    ListsAfter(s.entries, s'.entries, s.nodes, s'.nodes, s.place, s'.place, InEntries, i);
    ListsAfter(s.rm, s'.rm, s.nodes, s'.nodes, s.place, s'.place, InRm, i);
  }

  lemma ChangeInv(s: State, s': State, i: Idx)
    requires Inv(s) && OnlyNode(s, s', i) && i < |s.place| && s'.size == s.size
    requires forall j | 0 <= j < |s.nodes| && j != i :: Owed(s'.phase, j) == Owed(s.phase, j)
    requires NodeOk(s'.nodes[i], s'.place[i], s'.holders[i], s'.evictors[i], Owed(s'.phase, i))
    requires Follows(s.entries, s'.entries, s, s', InEntries, i) && Follows(s.rm, s'.rm, s, s', InRm, i)
    requires |s'.entries| <= s.size && |s'.rm| <= s.size
    requires FreeFollows(s, s', i) && PhaseOk(s')
    requires s'.phase.Evicting? || s'.phase.Room? ==> Known(s', s'.phase.lru)
    ensures Inv(s')
  {
    NodesAfter(s, s', i);
    TablesAfter(s, s', i);
    FreeAfter(s, s', i);
    IndexedAfter(s');
  }

  lemma NodesKeep(s: State, phase: Phase)
    requires NodesOk(s) && forall j | 0 <= j < |s.nodes| :: Owed(phase, j) == Owed(s.phase, j)
    ensures NodesOk(s.(phase := phase))
  {
    var s' := s.(phase := phase);
    forall i | 0 <= i < |s'.nodes| && i < |s'.place|
      ensures NodeOk(s'.nodes[i], s'.place[i], s'.holders[i], s'.evictors[i], Owed(s'.phase, i))
    {
      assert NodeOk(s.nodes[i], s.place[i], s.holders[i], s.evictors[i], Owed(s.phase, i));
    }
  }

  /** A step that changes nothing but the phase. */
  lemma PhaseInv(s: State, phase: Phase)
    requires Inv(s) && PhaseOk(s.(phase := phase))
    requires forall j | 0 <= j < |s.nodes| :: Owed(phase, j) == Owed(s.phase, j)
    requires !phase.Evicting? && !phase.Room?
    ensures Inv(s.(phase := phase))
  {
    NodesKeep(s, phase);
    IndexedAfter(s.(phase := phase));
  }

  lemma Settled(s: State)
    requires Inv(s) && s.phase.Idle?
    ensures forall i | 0 <= i < |s.place| :: s.place[i] != Back && s.place[i] != Leaving
  {
  }

  lemma EntryAt(s: State, name: Name)
    requires Inv(s) && name in s.entries
    ensures var h := s.entries[name]; Known(s, h) && s.place[h] == InEntries && s.nodes[h].name == name
  {
  }

  lemma SearchInv(s: State, name: Name, busy: set<Idx>)
    requires Inv(s) && s.phase.Idle? && forall i | i in busy :: s.holders[i] > 0
    ensures Inv(DoSearch(s, name, busy))
  {
    if name in s.entries {
      Settled(s);
      EntryAt(s, name);
      PhaseInv(s, Found(busy, s.entries[name]));
    }
  }

  lemma BeginPhase(s: State, i: Idx)
    requires |s.nodes| == |s.place| && PhaseOk(s) && s.phase.Idle? && Known(s, i) && s.holders[i] > 0
    requires s.nodes[i].name !in s.entries
    ensures PhaseOk(s.(phase := Searched({i}, i)))
  {
  }

  lemma BeginInv(s: State, i: Idx)
    requires Inv(s) && s.phase.Idle? && Known(s, i) && s.holders[i] > 0
    ensures Inv(DoBegin(s, i))
  {
    if s.nodes[i].name in s.entries {
      SearchInv(s, s.nodes[i].name, {i});
    } else {
      BeginPhase(s, i);
      PhaseInv(s, Searched({i}, i));
    }
  }

  /** The node to be inserted is new, or in rm_entries. */
  lemma SearchedFacts(s: State)
    requires Inv(s) && s.phase.Searched?
    ensures var h := s.phase.h; var name := s.nodes[h].name;
            && s.phase.busy == {h} && s.holders[h] > 0 && name !in s.entries
            && (forall i | 0 <= i < |s.place| :: s.place[i] != Back && s.place[i] != Leaving)
            && (name !in s.rm ==> s.place[h] == New || s.place[h] == Stray)
            && (name in s.rm ==>
                var t := s.rm[name];
                && Known(s, t) && s.place[t] == InRm && s.nodes[t].name == name
                && NodeOk(s.nodes[t], InRm, s.holders[t], s.evictors[t], 0)
                && s.rm - {name} == map n | n in s.rm && n != name :: s.rm[n])
  {
    var h := s.phase.h;
    assert Busy(s, h) > 0;
    NodeAt(s, h);
    NamedBy(s, h);
    if s.nodes[h].name in s.rm { NodeAt(s, s.rm[s.nodes[h].name]); }
  }

  lemma SearchRmPhase(s: State)
    requires Inv(s) && s.phase.Searched?
    ensures PhaseOk(DoSearchRm(s))
  {
    SearchedFacts(s);
  }

  /** A node leaves rm_entries to be inserted again. */
  lemma OutOfRm(s: State, t: Idx)
    requires Inv(s) && s.phase.Searched? && Known(s, t) && s.place[t] == InRm
    requires s.nodes[s.phase.h].name in s.rm && s.rm[s.nodes[s.phase.h].name] == t
    requires NodeOk(s.nodes[t], InRm, s.holders[t], s.evictors[t], 0)
    requires s.nodes[t].name == s.nodes[s.phase.h].name && PhaseOk(DoSearchRm(s))
    ensures Inv(DoSearchRm(s))
  {
    Smaller(s.rm, s.nodes[t].name);
    OutOfRmNode(s, t);
    BackInv(s, DoSearchRm(s), t);
  }

  lemma BackInv(s: State, s': State, t: Idx)
    requires Inv(s) && OnlyNode(s, s', t) && t < |s.place| && s.place[t] == InRm && s'.place[t] == Back
    requires NodeOk(s.nodes[t], InRm, s.holders[t], s.evictors[t], 0)
    requires s'.nodes[t] == s.nodes[t].(evicted := false, ref := s.nodes[t].ref + 1)
    requires s'.holders == s.holders && s'.evictors == s.evictors && s'.size == s.size
    requires s'.entries == s.entries && s'.rm == s.rm - {s.nodes[t].name} && |s'.rm| <= s.size
    requires FreeFollows(s, s', t) && PhaseOk(s') && s.phase.Searched? && s'.phase.Ready?
    ensures Inv(s')
  {
    BackNodes(s, s', t);
    BackTables(s, s', t);
    FreeAfter(s, s', t);
    IndexedAfter(s');
  }

  lemma BackNodes(s: State, s': State, t: Idx)
    requires NodesOk(s) && OnlyNode(s, s', t) && t < |s.place| && s.place[t] == InRm && s'.place[t] == Back
    requires NodeOk(s.nodes[t], InRm, s.holders[t], s.evictors[t], 0)
    requires s'.nodes[t] == s.nodes[t].(evicted := false, ref := s.nodes[t].ref + 1)
    requires s'.holders == s.holders && s'.evictors == s.evictors && s.phase.Searched? && s'.phase.Ready?
    ensures NodesOk(s')
  {
    NodesAfter(s, s', t);
  }

  lemma BackTables(s: State, s': State, t: Idx)
    requires |s.nodes| == |s.place| && TablesOk(s) && OnlyNode(s, s', t) && t < |s.place|
    requires s.place[t] == InRm && s'.place[t] == Back && s'.nodes[t].name == s.nodes[t].name && s'.size == s.size
    requires s'.entries == s.entries && s'.rm == s.rm - {s.nodes[t].name} && |s'.rm| <= s.size
    ensures TablesOk(s')
  {
    TablesAfter(s, s', t);
  }

  lemma OutOfRmNode(s: State, t: Idx)
    requires |s.nodes| == |s.place| && s.phase.Searched? && Known(s, s.phase.h) && Known(s, t) && s.place[t] == InRm
    requires s.nodes[s.phase.h].name in s.rm && s.rm[s.nodes[s.phase.h].name] == t && s.nodes[t].evicted
    requires s.nodes[t].name == s.nodes[s.phase.h].name
    ensures var s' := DoSearchRm(s);
            && OnlyNode(s, s', t) && s'.place[t] == Back
            && s'.nodes[t] == s.nodes[t].(evicted := false, ref := s.nodes[t].ref + 1)
            && FreeFollows(s, s', t) && Follows(s.entries, s'.entries, s, s', InEntries, t)
            && Follows(s.rm, s'.rm, s, s', InRm, t)
  {
  }

  lemma Smaller(t: map<Name, Idx>, n: Name)
    ensures |t - {n}| == |t| - if n in t then 1 else 0
  {
    if n in t {
      assert t == (t - {n})[n := t[n]];
    } else {
      assert t == t - {n};
    }
  }

  lemma SearchRmInv(s: State)
    requires Inv(s) && s.phase.Searched?
    ensures Inv(DoSearchRm(s))
  {
    SearchedFacts(s);
    SearchRmPhase(s);
    var h := s.phase.h;
    var name := s.nodes[h].name;
    if name in s.rm { OutOfRm(s, s.rm[name]); } else { PhaseInv(s, Ready(s.phase.busy, h)); }
  }

  // ----- eviction

  lemma EvictPhase(s: State, lru: Idx)
    requires |s.nodes| == |s.place| && Indexed(s) && PhaseOk(s) && s.phase.Ready? && Known(s, lru)
    requires s.place[lru] == InEntries && s.nodes[lru].name in s.entries && s.nodes[lru].name !in s.rm
    requires |s.entries| == s.size
    ensures PhaseOk(DoEvict(s, lru)) && |DoEvict(s, lru).entries| == s.size - 1
  {
    Smaller(s.entries, s.nodes[lru].name);
  }

  lemma EvictInv(s: State, lru: Idx)
    requires Inv(s) && s.phase.Ready? && |s.entries| >= s.size && Known(s, lru) && s.place[lru] == InEntries
    ensures Inv(DoEvict(s, lru))
  {
    NodeAt(s, lru);
    NamedBy(s, lru);
    EvictPhase(s, lru);
    Evicted(s, lru);
  }

  lemma Evicted(s: State, lru: Idx)
    requires Inv(s) && s.phase.Ready? && Known(s, lru) && s.place[lru] == InEntries && s.nodes[lru].name in s.entries
    requires NodeOk(s.nodes[lru], InEntries, s.holders[lru], s.evictors[lru], 0)
    requires PhaseOk(DoEvict(s, lru)) && |DoEvict(s, lru).entries| == s.size - 1
    ensures Inv(DoEvict(s, lru))
  {
    var s' := DoEvict(s, lru);
    EvictedNode(s, lru);
    EvictedNodes(s, lru);
    EvictedTables(s, lru);
    FreeAfter(s, s', lru);
    IndexedAfter(s');
  }

  lemma EvictedNodes(s: State, lru: Idx)
    requires |s.nodes| == |s.place| && NodesOk(s) && s.phase.Ready? && Known(s, lru) && s.place[lru] == InEntries
    requires NodeOk(s.nodes[lru], InEntries, s.holders[lru], s.evictors[lru], 0)
    ensures NodesOk(DoEvict(s, lru))
  {
    NodesAfter(s, DoEvict(s, lru), lru);
  }

  lemma EvictedTables(s: State, lru: Idx)
    requires |s.nodes| == |s.place| && TablesOk(s) && s.phase.Ready? && Known(s, lru) && s.place[lru] == InEntries
    requires s.nodes[lru].name in s.entries && |DoEvict(s, lru).entries| <= s.size
    ensures TablesOk(DoEvict(s, lru))
  {
    TablesAfter(s, DoEvict(s, lru), lru);
  }

  lemma EvictedNode(s: State, lru: Idx)
    requires |s.nodes| == |s.place| && s.phase.Ready? && Known(s, lru) && s.place[lru] == InEntries
    requires s.nodes[lru].name in s.entries && !s.nodes[lru].evicted
    ensures var s' := DoEvict(s, lru);
            && OnlyNode(s, s', lru) && s'.place[lru] == Leaving && s'.nodes[lru] == s.nodes[lru].(evicted := true)
            && FreeFollows(s, s', lru) && Follows(s.entries, s'.entries, s, s', InEntries, lru)
            && Follows(s.rm, s'.rm, s, s', InRm, lru)
  {
  }

  /** The nodes in a table. */
  ghost function Members(t: map<Name, Idx>): set<Idx> { set n | n in t :: t[n] }

  lemma {:induction false} AsManyMembers(t: map<Name, Idx>)
    requires forall m, n | m in t && n in t && m != n :: t[m] != t[n]
    ensures |Members(t)| == |t|
    decreases |t|
  {
    if t != map[] {
      var n :| n in t;
      Smaller(t, n);
      var rest := t - {n};
      AsManyMembers(rest);
      forall m | m in t ensures t[m] in Members(rest) + {t[n]} {
        if m != n { assert m in rest && rest[m] == t[m]; }
      }
      assert Members(t) == Members(rest) + {t[n]};
    }
  }

  lemma MembersAre(t: map<Name, Idx>, nodes: seq<Node>, place: seq<Place>, which: Place)
    requires |nodes| == |place| && Lists(t, nodes, place, which)
    ensures |Members(t)| == |t| && forall i | i in Members(t) :: i < |place| && place[i] == which
  {
    forall m, n | m in t && n in t && m != n ensures t[m] != t[n] {
      assert nodes[t[m]].name == m && nodes[t[n]].name == n;
    }
    AsManyMembers(t);
  }

  /** All nodes but the one that leaves and the one that comes are enough for both tables, so rm_entries has room. */
  lemma TwoTables(entries: map<Name, Idx>, rm: map<Name, Idx>, nodes: seq<Node>, place: seq<Place>, h: Idx, lru: Idx)
    requires |nodes| == |place| && Lists(entries, nodes, place, InEntries) && Lists(rm, nodes, place, InRm)
    requires h < |place| && lru < |place| && h != lru
    requires place[h] != InEntries && place[h] != InRm && place[lru] != InEntries && place[lru] != InRm
    ensures |entries| + |rm| + 2 <= |place|
  {
    MembersAre(entries, nodes, place, InEntries);
    MembersAre(rm, nodes, place, InRm);
    PlacesApart(place, Members(entries), Members(rm), h, lru);
    FewOfThree(|place|, Members(entries), Members(rm), {h, lru});
  }

  lemma PlacesApart(place: seq<Place>, a: set<Idx>, b: set<Idx>, h: Idx, lru: Idx)
    requires forall i | i in a :: i < |place| && place[i] == InEntries
    requires forall i | i in b :: i < |place| && place[i] == InRm
    requires h < |place| && lru < |place| && h != lru
    requires place[h] != InEntries && place[h] != InRm && place[lru] != InEntries && place[lru] != InRm
    ensures a !! b && (a + b) !! {h, lru} && |{h, lru}| == 2
    ensures forall i | i in a || i in b || i in {h, lru} :: i < |place|
  {
  }

  lemma FewOfThree(n: nat, a: set<Idx>, b: set<Idx>, c: set<Idx>)
    requires a !! b && (a + b) !! c && forall i | i in a || i in b || i in c :: i < n
    ensures |a| + |b| + |c| <= n
  {
    FewBelow(n, a + b + c);
  }

  lemma RoomInRm(s: State)
    requires Inv(s) && s.phase.Evicting?
    ensures |s.rm| < s.size
  {
    TwoTables(s.entries, s.rm, s.nodes, s.place, s.phase.h, s.phase.lru);
  }

  lemma StorePhase(s: State)
    requires Inv(s) && s.phase.Evicting? && |s.rm| < s.size
    ensures PhaseOk(Store(s))
  {
  }

  lemma StoreRmInv(s: State)
    requires Inv(s) && s.phase.Evicting?
    ensures Inv(Store(s))
  {
    RoomInRm(s);
    StorePhase(s);
    NodeAt(s, s.phase.lru);
    StoreFollows(s);
    ChangeInv(s, Store(s), s.phase.lru);
  }

  /** An insertion that gives up leaves node h in neither table if it had been in rm_entries. */
  lemma GiveUpNodes(s: State)
    requires |s.nodes| == |s.place| && NodesOk(s) && (s.phase.Ready? || s.phase.Room?) && Known(s, s.phase.h)
    requires PhaseOk(s) && (s.phase.Room? ==> Known(s, s.phase.lru))
    ensures NodesOk(GiveUp(s))
  {
    var s' := GiveUp(s);
    forall i | 0 <= i < |s'.nodes| && i < |s'.place|
      ensures NodeOk(s'.nodes[i], s'.place[i], s'.holders[i], s'.evictors[i], Owed(s'.phase, i))
    {
      assert NodeOk(s.nodes[i], s.place[i], s.holders[i], s.evictors[i], Owed(s.phase, i));
    }
  }

  lemma GiveUpTables(s: State)
    requires |s.nodes| == |s.place| && TablesOk(s) && (s.phase.Ready? || s.phase.Room?) && Known(s, s.phase.h)
    ensures TablesOk(GiveUp(s))
  {
    var s', h := GiveUp(s), s.phase.h;
    NamedBy(s, h);
    ListsAfter(s.entries, s'.entries, s.nodes, s'.nodes, s.place, s'.place, InEntries, h);
    ListsAfter(s.rm, s'.rm, s.nodes, s'.nodes, s.place, s'.place, InRm, h);
  }

  lemma GiveUpPlaces(s: State)
    requires |s.nodes| == |s.place| && FreeOk(s) && PhaseOk(s) && (s.phase.Ready? || s.phase.Room?)
    requires Known(s, s.phase.h)
    ensures FreeOk(GiveUp(s)) && PhaseOk(GiveUp(s))
  {
  }

  lemma GiveUpInv(s: State)
    requires Inv(s) && (s.phase.Ready? || s.phase.Room?)
    ensures Inv(GiveUp(s))
  {
    GiveUpNodes(s);
    GiveUpTables(s);
    GiveUpPlaces(s);
    IndexedAfter(GiveUp(s));
  }

  lemma UnstoredInv(s: State)
    requires Inv(s) && s.phase.Evicting?
    ensures Inv(Unstored(s))
  {
    var s', lru := Unstored(s), s.phase.lru;
    NodeAt(s, lru);
    UnstoredPhase(s);
    ChangeInv(s, s', lru);
  }

  lemma UnstoredPhase(s: State)
    requires |s.nodes| == |s.place| && Indexed(s) && PhaseOk(s) && s.phase.Evicting?
    ensures PhaseOk(Unstored(s))
  {
  }

  lemma DoStoreRmInv(s: State, memory: bool)
    requires Inv(s) && s.phase.Evicting?
    ensures Inv(DoStoreRm(s, memory))
  {
    RoomInRm(s);
    if memory {
      StoreRmInv(s);
    } else {
      UnstoredInv(s);
      GiveUpInv(Unstored(s));
      BugIsFree(GiveUp(Unstored(s)), true);
    }
  }

  lemma BugIsFree(s: State, bug: bool)
    requires Inv(s)
    ensures Inv(s.(bug := bug))
  {
    var s' := s.(bug := bug);
    assert forall i :: Owed(s'.phase, i) == Owed(s.phase, i) && Busy(s', i) == Busy(s, i);
  }

  lemma DoInsertInv(s: State, memory: bool)
    requires Inv(s) && ((s.phase.Ready? && |s.entries| < s.size) || s.phase.Room?)
    ensures Inv(DoInsert(s, memory))
  {
    ToInsertFacts(s);
    if memory { InsertInv(s); } else { GiveUpInv(s); }
  }

  lemma StoreFollows(s: State)
    requires Inv(s) && s.phase.Evicting? && |s.rm| < s.size
    ensures s.place[s.phase.lru] == Leaving
    ensures s.nodes[s.phase.lru].name !in s.entries && s.nodes[s.phase.lru].name !in s.rm
    ensures |Store(s).rm| <= s.size
  {
    Larger(s.rm, s.nodes[s.phase.lru].name, s.phase.lru);
  }

  lemma Larger(t: map<Name, Idx>, n: Name, i: Idx)
    requires n !in t
    ensures |t[n := i]| == |t| + 1
  {
    Smaller(t[n := i], n);
    assert t[n := i] - {n} == t;
  }

  // ----- insertion

  lemma ToInsertFacts(s: State)
    requires Inv(s) && (s.phase.Ready? || s.phase.Room?)
    ensures var h := s.phase.h;
            && s.nodes[h].name !in s.entries && s.nodes[h].name !in s.rm
            && (s.place[h] == Back || ((s.place[h] == New || s.place[h] == Stray) && s.phase.busy == {h}))
            && NodeOk(s.nodes[h], s.place[h], s.holders[h], s.evictors[h], 0) && s.nodes[h].ref > 0
            && (s.phase.Room? ==> |s.entries| < s.size && s.phase.lru != h)
  {
    NodeAt(s, s.phase.h);
    if s.phase.Room? { NodeAt(s, s.phase.lru); }
  }

  lemma InsertPlaces(s: State)
    requires |s.nodes| == |s.place| && Indexed(s) && PhaseOk(s) && (s.phase.Ready? || s.phase.Room?)
             && |s.entries| < s.size
    ensures forall i | 0 <= i < |s.place| :: Enter(s).place[i] != Back && Enter(s).place[i] != Leaving
    ensures Enter(s).place[s.phase.h] == InEntries
  {
  }

  lemma InsertBusy(s: State)
    requires |s.nodes| == |s.place| && Indexed(s) && PhaseOk(s) && (s.phase.Ready? || s.phase.Room?)
             && |s.entries| < s.size
    ensures forall i | Busy(Enter(s), i) > 0 :: Enter(s).holders[i] > 0
  {
    forall i | Busy(Enter(s), i) > 0 ensures Enter(s).holders[i] > 0 {
      assert Busy(s, i) > 0;
    }
  }

  lemma InsertPhase(s: State)
    requires |s.nodes| == |s.place| && Indexed(s) && PhaseOk(s) && (s.phase.Ready? || s.phase.Room?)
             && |s.entries| < s.size
    ensures PhaseOk(Enter(s))
  {
    InsertPlaces(s);
    InsertBusy(s);
  }

  lemma InsertGrows(s: State)
    requires (s.phase.Ready? || s.phase.Room?) && Known(s, s.phase.h) && |s.entries| < s.size
    requires s.nodes[s.phase.h].name !in s.entries
    ensures |Enter(s).entries| <= s.size
  {
    Larger(s.entries, s.nodes[s.phase.h].name, s.phase.h);
  }

  lemma InsertInv(s: State)
    requires Inv(s) && ((s.phase.Ready? && |s.entries| < s.size) || s.phase.Room?)
    ensures Inv(Enter(s))
  {
    var s', h := Enter(s), s.phase.h;
    ToInsertFacts(s);
    InsertPhase(s);
    InsertGrows(s);
    InsertNode(s);
    InsertNodes(s);
    InsertTables(s);
    FreeAfter(s, s', h);
    IndexedAfter(s');
  }

  lemma InsertNodes(s: State)
    requires |s.nodes| == |s.place| && NodesOk(s) && (s.phase.Ready? || s.phase.Room?) && Known(s, s.phase.h)
    requires |s.entries| < s.size && s.place[s.phase.h] in {Back, New, Stray}
    requires NodeOk(s.nodes[s.phase.h], s.place[s.phase.h], s.holders[s.phase.h], s.evictors[s.phase.h], 0)
    requires s.phase.Room? ==> s.phase.lru != s.phase.h
    ensures NodesOk(Enter(s))
  {
    NodesAfter(s, Enter(s), s.phase.h);
  }

  lemma InsertTables(s: State)
    requires |s.nodes| == |s.place| && TablesOk(s) && (s.phase.Ready? || s.phase.Room?) && Known(s, s.phase.h)
    requires |s.entries| < s.size && s.place[s.phase.h] in {Back, New, Stray}
    requires s.nodes[s.phase.h].name !in s.entries && s.nodes[s.phase.h].name !in s.rm
             && |Enter(s).entries| <= s.size
    ensures TablesOk(Enter(s))
  {
    TablesAfter(s, Enter(s), s.phase.h);
  }

  lemma InsertNode(s: State)
    requires |s.nodes| == |s.place| && (s.phase.Ready? || s.phase.Room?) && Known(s, s.phase.h) && |s.entries| < s.size
    requires s.nodes[s.phase.h].ref > 0
    ensures var s' := Enter(s); var h := s.phase.h;
            && OnlyNode(s, s', h) && s'.place[h] == InEntries && s'.nodes[h] == s.nodes[h]
            && s'.holders[h] == (if s.place[h] == New && s.holders[h] > 0 then s.holders[h] - 1 else s.holders[h])
            && s'.evictors[h] == s.evictors[h]
  {
  }

  /** The end of insert or lookup touches the node that is returned and, when one was evicted, the puts owed. */
  lemma CountNodes(s: State)
    requires |s.nodes| == |s.place| && NodesOk(s) && PhaseOk(s) && (s.phase.Found? || s.phase.Inserted?)
    ensures NodesOk(DoCount(s))
  {
    var s' := DoCount(s);
    forall i | 0 <= i < |s'.nodes| && i < |s'.place|
      ensures NodeOk(s'.nodes[i], s'.place[i], s'.holders[i], s'.evictors[i], Owed(s'.phase, i))
    {
      assert NodeOk(s.nodes[i], s.place[i], s.holders[i], s.evictors[i], Owed(s.phase, i));
    }
  }

  lemma CountTables(s: State)
    requires |s.nodes| == |s.place| && TablesOk(s) && (s.phase.Found? || s.phase.Inserted?)
    requires Known(s, s.phase.h) && s.place[s.phase.h] == InEntries
    ensures TablesOk(DoCount(s))
  {
    var s', h := DoCount(s), s.phase.h;
    assert s'.place == s.place;
    NamedBy(s, h);
    ListsAfter(s.entries, s'.entries, s.nodes, s'.nodes, s.place, s'.place, InEntries, h);
    ListsAfter(s.rm, s'.rm, s.nodes, s'.nodes, s.place, s'.place, InRm, h);
  }

  lemma CountPlaces(s: State)
    requires |s.nodes| == |s.place| && FreeOk(s) && PhaseOk(s) && (s.phase.Found? || s.phase.Inserted?)
    ensures FreeOk(DoCount(s)) && PhaseOk(DoCount(s))
  {
    assert DoCount(s).place == s.place;
  }

  lemma CountInv(s: State)
    requires Inv(s) && (s.phase.Found? || s.phase.Inserted?)
    ensures Inv(DoCount(s))
  {
    CountNodes(s);
    CountTables(s);
    CountPlaces(s);
    IndexedAfter(DoCount(s));
  }

  // ----- put

  /** The state in which the reference is already nobody's, while ref still counts it. */
  ghost predicate BeforePut(s: State, s0: State, i: Idx) {
    && Known(s, i)
    && (|| (s0 == s.(holders := s.holders - multiset{i}) && s.holders[i] > Busy(s, i)
            && (s.place[i] == New ==> s.holders[i] > 1))
        || (s0 == s.(evictors := s.evictors - multiset{i}) && s.evictors[i] > 0))
  }

  /** A put that brings ref to zero finds the node in rm_entries. */
  lemma LastPut(s: State, s0: State, i: Idx)
    requires Inv(s) && BeforePut(s, s0, i)
    ensures s.nodes[i].ref >= 1
    ensures s.nodes[i].ref == 1 ==>
              && s.place[i] == InRm && s0.holders[i] == 0 && s0.evictors[i] == 0 && Owed(s.phase, i) == 0
              && Busy(s, i) == 0
              && s.nodes[i].name in s.rm && s.rm[s.nodes[i].name] == i
  {
    NodeAt(s, i);
    NamedBy(s, i);
  }

  /** Everything but the references of node i is as before. */
  ghost predicate OnlyRefs(s: State, s': State, i: Idx)
    requires Known(s, i)
  {
    && s'.size == s.size && s'.entries == s.entries && s'.rm == s.rm && s'.phase == s.phase && s'.bug == s.bug
    && s'.place == s.place && s'.freeQ == s.freeQ && s'.taken == s.taken && s'.given == s.given
    && |s'.nodes| == |s.nodes| && s'.nodes == s.nodes[i := s.nodes[i].(ref := s'.nodes[i].ref)]
    && (forall j | j != i :: s'.holders[j] == s.holders[j] && s'.evictors[j] == s.evictors[j])
  }

  lemma PutKeeps(s: State, s0: State, i: Idx, gets: nat)
    requires |s.nodes| == |s.place| && BeforePut(s, s0, i) && s.nodes[i].ref >= 1
    requires s.nodes[i].ref > 1 || gets > 0
    ensures var s' := DoPut(s0, i, gets); var g := if s.nodes[i].ref > 1 then 0 else gets;
            && OnlyRefs(s, s', i) && s'.nodes[i].ref == s.nodes[i].ref - 1 + g
            && s'.holders[i] == s0.holders[i] + g && s'.evictors[i] == s0.evictors[i]
  {
  }

  lemma RefsInv(s: State, s': State, i: Idx)
    requires Inv(s) && Known(s, i) && OnlyRefs(s, s', i)
    requires NodeOk(s'.nodes[i], s.place[i], s'.holders[i], s'.evictors[i], Owed(s.phase, i))
    requires Busy(s, i) > 0 ==> s'.holders[i] > 0
    ensures Inv(s')
  {
    QuietInv(s, s', i);
  }

  lemma PutQuiet(s: State, s0: State, i: Idx, gets: nat)
    requires Inv(s) && BeforePut(s, s0, i) && (s.nodes[i].ref > 1 || gets > 0)
    ensures Inv(DoPut(s0, i, gets))
  {
    LastPut(s, s0, i);
    NodeAt(s, i);
    PutKeeps(s, s0, i, gets);
    RefsInv(s, DoPut(s0, i, gets), i);
  }

  lemma PutGone(s: State, s0: State, i: Idx)
    requires |s.nodes| == |s.place| && BeforePut(s, s0, i) && s.nodes[i].ref == 1 && s.place[i] == InRm
    requires s.nodes[i].name in s.rm && s.rm[s.nodes[i].name] == i
    ensures var s' := DoPut(s0, i, 0);
            && OnlyNode(s, s', i) && s'.size == s.size && s'.entries == s.entries && s'.phase == s.phase
            && s'.rm == s.rm - {s.nodes[i].name} && FreeFollows(s, s', i)
            && s'.nodes[i] == s.nodes[i].(ref := 0) && s'.place[i] == Freeing
            && s'.holders[i] == s0.holders[i] && s'.evictors[i] == s0.evictors[i]
            && (forall j | j >= |s.place| :: s'.holders[j] == s.holders[j])
  {
  }

  lemma PutLast(s: State, s0: State, i: Idx)
    requires Inv(s) && BeforePut(s, s0, i) && s.nodes[i].ref == 1
    ensures Inv(DoPut(s0, i, 0))
  {
    LastPut(s, s0, i);
    Smaller(s.rm, s.nodes[i].name);
    PutGone(s, s0, i);
    GoneInv(s, DoPut(s0, i, 0), i);
  }

  /** The node leaves rm_entries for good. */
  lemma GoneInv(s: State, s': State, i: Idx)
    requires Inv(s) && OnlyNode(s, s', i) && i < |s.place| && s.place[i] == InRm && s'.place[i] == Freeing
    requires s'.size == s.size && s'.phase == s.phase && FreeFollows(s, s', i) && Busy(s, i) == 0
    requires s'.entries == s.entries && s'.rm == s.rm - {s.nodes[i].name} && |s'.rm| <= s.size
    requires s'.nodes[i].name == s.nodes[i].name
    requires s'.nodes[i].ref == 0 && s'.holders[i] == s'.evictors[i] == Owed(s.phase, i) == 0
    requires forall j | j >= |s.place| :: s'.holders[j] == s.holders[j]
    ensures Inv(s')
  {
    SearchedIsUsed(s);
    SamePhase(s, s', i);
    ChangeInv(s, s', i);
  }

  lemma PutInv(s: State, s0: State, i: Idx, gets: nat)
    requires Inv(s) && BeforePut(s, s0, i)
    ensures Inv(DoPut(s0, i, gets))
  {
    LastPut(s, s0, i);
    if s.nodes[i].ref > 1 || gets > 0 { PutQuiet(s, s0, i, gets); } else { PutLast(s, s0, i); }
  }

  // ----- runs

  lemma StepInv(s: State, c: Call)
    requires Inv(s) && Enabled(s, c)
    ensures Inv(Step(s, c))
  {
    match c
    case Alloc(name) => AllocInv(s, name);
    case Get(i) => GetInv(s, i);
    case Lookup(name) => SearchInv(s, name, {});
    case Begin(i) => BeginInv(s, i);
    case SearchRm => SearchRmInv(s);
    case Evict(lru) => EvictInv(s, lru);
    case StoreRm(memory) => DoStoreRmInv(s, memory);
    case Insert(memory) => DoInsertInv(s, memory);
    case Count => CountInv(s);
    case Put(i, gets) => PutInv(s, s.(holders := s.holders - multiset{i}), i, gets);
    case EvictorPut(i, gets) => PutInv(s, s.(evictors := s.evictors - multiset{i}), i, gets);
    case Release(i) => ReleaseInv(s, i);
    case FreeNew(i) => FreeNewInv(s, i);
  }

  lemma ReleaseInv(s: State, i: Idx)
    requires Inv(s) && Known(s, i) && s.place[i] == Freeing
    ensures Inv(Push(s, i))
  {
    NodeAt(s, i);
    PushInv(s, i);
    assert s.holders[i := 0] == s.holders;
  }

  lemma FreeNewInv(s: State, i: Idx)
    requires Inv(s) && Enabled(s, FreeNew(i))
    ensures Inv(Push(s.(holders := s.holders - multiset{i}), i))
  {
    PushInv(s, i);
    assert s.holders[i := 0] == s.holders - multiset{i};
  }

  /** A cache just made by xcache_init for size entries. */
  ghost predicate Initial(s: State) {
    && s.size > 0 && |s.nodes| == |s.place| == 2 * s.size
    && (forall i | 0 <= i < |s.nodes| :: s.nodes[i].ref == 0 && s.place[i] == Free)
    && (forall i :: multiset(s.freeQ)[i] == if 0 <= i < 2 * s.size then 1 else 0)
    && s.entries == map[] == s.rm && s.phase == Idle && !s.bug
    && s.holders == s.evictors == s.taken == s.given == multiset{}
  }

  lemma InitialInv(s: State)
    requires Initial(s)
    ensures Inv(s)
  {
    IndexedAfter(s);
  }

  /** Any interleaving of the steps of any threads. */
  ghost predicate Legal(s: State, cs: seq<Call>)
    requires Inv(s)
    decreases |cs|
  {
    cs == [] || (Enabled(s, cs[0]) && (StepInv(s, cs[0]); Legal(Step(s, cs[0]), cs[1..])))
  }

  ghost function Run(s: State, cs: seq<Call>): (s': State)
    requires Inv(s) && Legal(s, cs)
    ensures Inv(s')
    decreases |cs|
  {
    if cs == [] then s else StepInv(s, cs[0]); Run(Step(s, cs[0]), cs[1..])
  }

  ghost predicate LegalFrom(s: State, cs: seq<Call>) {
    Initial(s) && (InitialInv(s); Legal(s, cs))
  }

  ghost function Final(s: State, cs: seq<Call>): State
    requires LegalFrom(s, cs)
  {
    InitialInv(s);
    Run(s, cs)
  }

  // ----- what every run keeps

  /** 1 for a node that a table holds a reference to: one in entries, or on its way into or out of it. */
  ghost function ByTable(s: State, i: Idx): nat
    requires Known(s, i)
  {
    if (exists n :: n in s.entries && s.entries[n] == i) || s.place[i] == Back || s.place[i] == Stray then 1 else 0
  }

  /**
   The count of references: the outside holders, one for a node in entries (or just out of
   rm_entries and going there), and one for every put that an eviction owes.
   */
  lemma RefCounts(s0: State, cs: seq<Call>, i: Idx)
    requires LegalFrom(s0, cs) && Known(s0, i)
    ensures var s := Final(s0, cs);
            && Known(s, i)
            && s.nodes[i].ref == s.holders[i] + ByTable(s, i) + s.evictors[i] + Owed(s.phase, i)
            && (s.nodes[i].ref == 0 ==>
                s.nodes[i].name !in s.entries || s.entries[s.nodes[i].name] != i)
            && (s.nodes[i].ref == 0 ==> s.nodes[i].name !in s.rm || s.rm[s.nodes[i].name] != i)
  {
    InitialInv(s0);
    RunSize(s0, cs);
    var s := Final(s0, cs);
    NodeAt(s, i);
    NamedBy(s, i);
  }

  /** As many nodes as before, and all but a renamed one have the names they had. */
  ghost predicate SameNames(s: State, s': State, renamed: set<Idx>) {
    && s'.size == s.size && |s'.nodes| == |s.nodes| && |s'.place| == |s.place|
    && forall i | 0 <= i < |s.nodes| && i !in renamed :: s'.nodes[i].name == s.nodes[i].name
  }

  lemma SearchRmNames(s: State)
    requires s.phase.Searched? && Known(s, s.phase.h)
    ensures SameNames(s, DoSearchRm(s), {})
  {
  }

  lemma InsertNames(s: State, memory: bool)
    requires (s.phase.Ready? || s.phase.Room?) && Known(s, s.phase.h)
    ensures SameNames(s, DoInsert(s, memory), {})
  {
  }

  lemma PutNames(s: State, i: Idx, gets: nat)
    requires Known(s, i)
    ensures SameNames(s, DoPut(s, i, gets), {})
  {
  }

  lemma RefNames(s: State, i: Idx, n: int)
    requires Known(s, i)
    ensures SameNames(s, AddRef(s, i, n), {})
  {
  }

  lemma EvictNames(s: State, lru: Idx)
    requires s.phase.Ready? && Known(s, lru)
    ensures SameNames(s, DoEvict(s, lru), {})
  {
  }

  lemma StoreNames(s: State, memory: bool)
    requires s.phase.Evicting? && Known(s, s.phase.lru) && Known(s, s.phase.h)
    ensures SameNames(s, DoStoreRm(s, memory), {})
  {
  }

  lemma CountNames(s: State)
    requires (s.phase.Found? || s.phase.Inserted?) && Known(s, s.phase.h)
    ensures SameNames(s, DoCount(s), {})
  {
    RefNames(s, s.phase.h, 1);
  }

  lemma PushNames(s: State, i: Idx)
    requires Known(s, i)
    ensures SameNames(s, Push(s, i), {})
  {
  }

  lemma AllocNames(s: State, name: Name)
    requires Indexed(s) && s.freeQ != []
    ensures SameNames(s, DoAlloc(s, name), {s.freeQ[|s.freeQ| - 1]})
  {
    assert s.freeQ[|s.freeQ| - 1] in s.freeQ;
  }

  /** Only a node taken from the free queue gets a new name. */
  lemma NamesKept(s: State, c: Call)
    requires Indexed(s) && Enabled(s, c)
    ensures SameNames(s, Step(s, c), if c.Alloc? then {s.freeQ[|s.freeQ| - 1]} else {})
  {
    match c
    case Alloc(name) => AllocNames(s, name);
    case Get(i) => RefNames(s, i, 1);
    case Lookup(_) =>
    case Begin(_) =>
    case SearchRm => SearchRmNames(s);
    case Evict(lru) => EvictNames(s, lru);
    case StoreRm(memory) => StoreNames(s, memory);
    case Insert(memory) => InsertNames(s, memory);
    case Count => CountNames(s);
    case Put(i, gets) => PutNames(s.(holders := s.holders - multiset{i}), i, gets);
    case EvictorPut(i, gets) => PutNames(s.(evictors := s.evictors - multiset{i}), i, gets);
    case Release(i) => PushNames(s, i);
    case FreeNew(i) => PushNames(s.(holders := s.holders - multiset{i}), i);
  }

  lemma {:induction false} RunSize(s: State, cs: seq<Call>)
    requires Inv(s) && Legal(s, cs)
    ensures Run(s, cs).size == s.size && |Run(s, cs).nodes| == |s.nodes|
    decreases |cs|
  {
    if cs != [] {
      StepInv(s, cs[0]);
      NamesKept(s, cs[0]);
      RunSize(Step(s, cs[0]), cs[1..]);
    }
  }

  /**
   The steps at which a table that must be rebuilt finds no memory, after a node was already taken
   out of a table for the sake of the insertion.
   */
  ghost predicate Starves(s: State, c: Call)
    requires Indexed(s) && Enabled(s, c)
  {
    || (c.StoreRm? && !c.memory)
    || (c.Insert? && !c.memory && (s.phase.Room? || s.place[s.phase.h] == Back))
  }

  /** Of all the branches that are marked as bugs, a step takes one exactly if it is such a step. */
  lemma BugIff(s: State, c: Call)
    requires Inv(s) && Enabled(s, c)
    ensures Step(s, c).bug <==> s.bug || Starves(s, c)
  {
    if Inserting(c) { InsertionBug(s, c); } else { OtherBug(s, c); }
  }

  /** A step inside insert. */
  predicate Inserting(c: Call) { c.SearchRm? || c.Evict? || c.StoreRm? || c.Insert? || c.Count? }

  lemma InsertionBug(s: State, c: Call)
    requires Inv(s) && Enabled(s, c) && Inserting(c)
    ensures Step(s, c).bug <==> s.bug || Starves(s, c)
  {
    if c.SearchRm? || c.Evict? { SearchedBug(s, c); return; }
    match c
    case StoreRm(memory) => StoreBug(s, memory);
    case Insert(memory) => InsertBug(s, memory);
    case Count => CountBug(s);
  }

  lemma SearchedBug(s: State, c: Call)
    requires Inv(s) && Enabled(s, c) && (c.SearchRm? || c.Evict?)
    ensures Step(s, c).bug == s.bug
  {
    match c
    case SearchRm => SearchRmBug(s);
    case Evict(lru) => EvictBug(s, lru);
  }

  lemma OtherBug(s: State, c: Call)
    requires Inv(s) && Enabled(s, c) && !Inserting(c)
    ensures Step(s, c).bug == s.bug
  {
    match c
    case Alloc(name) => AllocBug(s, name);
    case Get(i) => GetBug(s, i);
    case Lookup(name) => SearchBug(s, name);
    case Begin(i) => BeginBug(s, i);
    case Put(i, gets) => PutBug(s, s.(holders := s.holders - multiset{i}), i, gets);
    case EvictorPut(i, gets) => PutBug(s, s.(evictors := s.evictors - multiset{i}), i, gets);
    case Release(i) => FreeRoom(s, i); PushBug(s, i);
    case FreeNew(i) => FreeRoom(s, i); PushBug(s.(holders := s.holders - multiset{i}), i);
  }

  lemma GetBug(s: State, i: Idx)
    requires Known(s, i)
    ensures AddRef(s, i, 1).bug == s.bug
  {
  }

  lemma SearchBug(s: State, name: Name)
    ensures DoSearch(s, name, {}).bug == s.bug
  {
  }

  lemma BeginBug(s: State, i: Idx)
    requires Known(s, i)
    ensures DoBegin(s, i).bug == s.bug
  {
  }

  lemma CountBug(s: State)
    requires (s.phase.Found? || s.phase.Inserted?) && Known(s, s.phase.h)
    ensures DoCount(s).bug == s.bug
  {
  }

  lemma PushBug(s: State, i: Idx)
    requires Known(s, i) && |s.freeQ| < 2 * s.size
    ensures Push(s, i).bug == s.bug
  {
  }

  lemma AllocBug(s: State, name: Name)
    requires Inv(s) && s.freeQ != []
    ensures DoAlloc(s, name).bug == s.bug
  {
    FirstFree(s);
  }

  lemma SearchRmBug(s: State)
    requires Inv(s) && s.phase.Searched?
    ensures DoSearchRm(s).bug == s.bug
  {
    SearchedFacts(s);
  }

  lemma EvictBug(s: State, lru: Idx)
    requires Inv(s) && s.phase.Ready? && Known(s, lru) && s.place[lru] == InEntries
    ensures DoEvict(s, lru).bug == s.bug
  {
    NodeAt(s, lru);
    NamedBy(s, lru);
  }

  lemma StoreBug(s: State, memory: bool)
    requires Inv(s) && s.phase.Evicting?
    ensures DoStoreRm(s, memory).bug <==> s.bug || !memory
  {
    RoomInRm(s);
  }

  lemma InsertBug(s: State, memory: bool)
    requires Inv(s) && Enabled(s, Insert(memory))
    ensures DoInsert(s, memory).bug <==> s.bug || (!memory && (s.phase.Room? || s.place[s.phase.h] == Back))
  {
    ToInsertFacts(s);
  }

  lemma PutBug(s: State, s0: State, i: Idx, gets: nat)
    requires Inv(s) && BeforePut(s, s0, i)
    ensures DoPut(s0, i, gets).bug == s.bug
  {
    LastPut(s, s0, i);
    PutFound(s0, i, gets);
  }

  lemma PutFound(s: State, i: Idx, gets: nat)
    requires Known(s, i) && s.nodes[i].ref >= 1
    requires s.nodes[i].ref == 1 ==> s.nodes[i].name in s.rm && s.rm[s.nodes[i].name] == i
    ensures DoPut(s, i, gets).bug == s.bug
  {
  }

  ghost predicate EverStarves(s: State, cs: seq<Call>)
    requires Inv(s) && Legal(s, cs)
    decreases |cs|
  {
    cs != [] && (Starves(s, cs[0]) || (StepInv(s, cs[0]); EverStarves(Step(s, cs[0]), cs[1..])))
  }

  lemma {:induction false} RunBug(s: State, cs: seq<Call>)
    requires Inv(s) && Legal(s, cs)
    ensures Run(s, cs).bug <==> s.bug || EverStarves(s, cs)
    decreases |cs|
  {
    if cs != [] {
      StepInv(s, cs[0]);
      BugIff(s, cs[0]);
      RunBug(Step(s, cs[0]), cs[1..]);
    }
  }

  /**
   The tables: no name is in both, neither outgrows its limit, and branches marked as bugs are
   taken exactly where an insertion into a table finds no memory after something was taken out.
   */
  lemma TablesKeepTheirLimits(s0: State, cs: seq<Call>)
    requires LegalFrom(s0, cs)
    ensures var s := Final(s0, cs);
            && (s.bug <==> (InitialInv(s0); EverStarves(s0, cs)))
            && |s.entries| <= s0.size && |s.rm| <= s0.size
            && (forall n | n in s.entries :: n !in s.rm && Known(s, s.entries[n]) && s.nodes[s.entries[n]].name == n)
            && (forall n | n in s.rm :: Known(s, s.rm[n]) && s.nodes[s.rm[n]].name == n && s.nodes[s.rm[n]].ref > 0)
  {
    InitialInv(s0);
    RunSize(s0, cs);
    RunBug(s0, cs);
    LimitsAt(Final(s0, cs));
  }

  lemma LimitsAt(s: State)
    requires Inv(s)
    ensures |s.entries| <= s.size && |s.rm| <= s.size
    ensures forall n | n in s.entries :: n !in s.rm && Known(s, s.entries[n]) && s.nodes[s.entries[n]].name == n
    ensures forall n | n in s.rm :: Known(s, s.rm[n]) && s.nodes[s.rm[n]].name == n && s.nodes[s.rm[n]].ref > 0
  {
    RmReferenced(s);
  }

  /** The nodes that such a step leaves behind: the one evicted, if it is not stored, and the one on its way back. */
  ghost predicate LeftBehind(s: State, c: Call, i: Idx)
    requires Indexed(s) && Enabled(s, c)
  {
    || (c.StoreRm? && !c.memory && (i == s.phase.lru || (i == s.phase.h && s.place[i] == Back)))
    || (c.Insert? && !c.memory && i == s.phase.h && s.place[i] == Back)
  }

  /**
   A node becomes a stray exactly so, and stays one until one of its holders inserts it again: no
   put frees it, because it keeps the reference of a table that no table will give up.
   */
  lemma StrayIff(s: State, c: Call, i: Idx)
    requires Inv(s) && Enabled(s, c) && Known(s, i)
    ensures var s' := Step(s, c);
            && Known(s', i)
            && (s'.place[i] == Stray <==>
                LeftBehind(s, c, i) || (s.place[i] == Stray && !(c == Insert(true) && s.phase.h == i)))
  {
    if Inserting(c) { InsertionStrays(s, c, i); } else { OtherStrays(s, c, i); }
  }

  lemma InsertionStrays(s: State, c: Call, i: Idx)
    requires Inv(s) && Enabled(s, c) && Known(s, i) && Inserting(c)
    ensures var s' := Step(s, c);
            && Known(s', i)
            && (s'.place[i] == Stray <==>
                LeftBehind(s, c, i) || (s.place[i] == Stray && !(c == Insert(true) && s.phase.h == i)))
  {
    if s.phase.Evicting? { RoomInRm(s); }
    if s.phase.Ready? || s.phase.Room? { ToInsertFacts(s); }
    if s.phase.Searched? { SearchedFacts(s); }
    if c.Evict? { EvictStrays(s, c.lru, i); } else { InsertionStraysIf(s, c, i); }
  }

  lemma InsertionStraysIf(s: State, c: Call, i: Idx)
    requires Indexed(s) && Enabled(s, c) && Known(s, i) && Inserting(c) && !c.Evict?
    requires (s.phase.Evicting? ==> |s.rm| < s.size && s.place[s.phase.lru] == Leaving)
    requires (s.phase.Room? ==> |s.entries| < s.size)
    requires s.phase.Searched? ==>
               var name := s.nodes[s.phase.h].name; name in s.rm ==> Known(s, s.rm[name]) && s.place[s.rm[name]] == InRm
    ensures var s' := Step(s, c);
            && Known(s', i)
            && (s'.place[i] == Stray <==>
                LeftBehind(s, c, i) || (s.place[i] == Stray && !(c == Insert(true) && s.phase.h == i)))
  {
    match c
    case SearchRm => SearchRmStrays(s, i);
    case StoreRm(memory) => StoreStrays(s, memory, i);
    case Insert(memory) => InsertStrays(s, memory, i);
    case Count =>
  }

  lemma OtherStrays(s: State, c: Call, i: Idx)
    requires Inv(s) && Enabled(s, c) && Known(s, i) && !Inserting(c)
    ensures SameStray(s, Step(s, c), i)
  {
    if c.Alloc? { FirstFree(s); }
    if c.Put? { LastPut(s, s.(holders := s.holders - multiset{c.i}), c.i); }
    if c.EvictorPut? { LastPut(s, s.(evictors := s.evictors - multiset{c.i}), c.i); }
    OtherStraysIf(s, c, i);
  }

  lemma OtherStraysIf(s: State, c: Call, i: Idx)
    requires Indexed(s) && Enabled(s, c) && Known(s, i) && !Inserting(c)
    requires c.Alloc? ==> var k := s.freeQ[|s.freeQ| - 1]; Known(s, k) && s.place[k] == Free
    requires c.Put? || c.EvictorPut? ==> s.nodes[c.i].ref > 1 || s.place[c.i] == InRm
    ensures SameStray(s, Step(s, c), i)
  {
    match c
    case Alloc(name) => AllocStrays(s, name, i);
    case Get(_) =>
    case Lookup(_) =>
    case Begin(_) =>
    case Put(k, gets) => PutPlace(s.(holders := s.holders - multiset{k}), k, gets);
    case EvictorPut(k, gets) => PutPlace(s.(evictors := s.evictors - multiset{k}), k, gets);
    case Release(k) => PushStrays(s, k, i);
    case FreeNew(k) => PushStrays(s.(holders := s.holders - multiset{k}), k, i);
  }

  /** Which nodes are strays does not change. */
  ghost predicate SameStray(s: State, s': State, i: Idx)
    requires Known(s, i)
  {
    Known(s', i) && (s'.place[i] == Stray <==> s.place[i] == Stray)
  }

  lemma AllocStrays(s: State, name: Name, i: Idx)
    requires s.freeQ != [] && Known(s, s.freeQ[|s.freeQ| - 1]) && s.place[s.freeQ[|s.freeQ| - 1]] == Free
    requires Known(s, i)
    ensures SameStray(s, DoAlloc(s, name), i)
  {
  }

  lemma SearchRmStrays(s: State, i: Idx)
    requires s.phase.Searched? && Known(s, s.phase.h) && Known(s, i)
    requires var name := s.nodes[s.phase.h].name; name in s.rm ==> Known(s, s.rm[name]) && s.place[s.rm[name]] == InRm
    ensures SameStray(s, DoSearchRm(s), i)
  {
  }

  lemma EvictStrays(s: State, lru: Idx, i: Idx)
    requires s.phase.Ready? && Known(s, lru) && s.place[lru] == InEntries && Known(s, i)
    ensures SameStray(s, DoEvict(s, lru), i)
  {
  }

  lemma StoreStrays(s: State, memory: bool, i: Idx)
    requires Indexed(s) && s.phase.Evicting? && Known(s, i) && |s.rm| < s.size && s.place[s.phase.lru] == Leaving
    ensures var s' := DoStoreRm(s, memory);
            && Known(s', i)
            && (s'.place[i] == Stray <==>
                s.place[i] == Stray || (!memory && (i == s.phase.lru || (i == s.phase.h && s.place[i] == Back))))
  {
  }

  lemma InsertStrays(s: State, memory: bool, i: Idx)
    requires Indexed(s) && Enabled(s, Insert(memory)) && Known(s, i) && |s.entries| < s.size
    ensures var s' := DoInsert(s, memory); var h := s.phase.h;
            && Known(s', i)
            && (s'.place[i] == Stray <==>
                (s.place[i] == Stray && !(memory && i == h)) || (!memory && i == h && s.place[i] == Back))
  {
  }

  lemma PutPlace(s: State, k: Idx, gets: nat)
    requires Known(s, k)
    ensures var s' := DoPut(s, k, gets);
            && |s'.nodes| == |s.nodes|
            && (s'.place == s.place || (s.nodes[k].ref <= 1 && s'.place == s.place[k := Freeing]))
  {
  }

  lemma PushStrays(s: State, k: Idx, i: Idx)
    requires Known(s, k) && Known(s, i) && (s.place[k] == Freeing || s.place[k] == New)
    ensures SameStray(s, Push(s, k), i)
  {
  }

  /** What a stray is: in neither table, with one reference more than it has holders and puts to come. */
  lemma StrayIs(s: State, i: Idx)
    requires Inv(s) && Known(s, i) && s.place[i] == Stray
    ensures s.nodes[i].ref == s.holders[i] + s.evictors[i] + 1 && !s.nodes[i].evicted
    ensures (forall n | n in s.entries :: s.entries[n] != i) && (forall n | n in s.rm :: s.rm[n] != i)
  {
    NodeAt(s, i);
  }

  lemma RmReferenced(s: State)
    requires Inv(s)
    ensures forall n | n in s.rm :: Known(s, s.rm[n]) && s.nodes[s.rm[n]].name == n && s.nodes[s.rm[n]].ref > 0
  {
    forall n | n in s.rm ensures Known(s, s.rm[n]) && s.nodes[s.rm[n]].name == n && s.nodes[s.rm[n]].ref > 0 {
      NodeAt(s, s.rm[n]);
    }
  }

  /** Between two times that a node is taken from the free queue it is given back exactly once. */
  lemma FreedOncePerLifetime(s0: State, cs: seq<Call>, i: Idx)
    requires LegalFrom(s0, cs) && Known(s0, i)
    ensures var s := Final(s0, cs);
            s.taken[i] == s.given[i] + (1 - multiset(s.freeQ)[i]) && multiset(s.freeQ)[i] <= 1
  {
    InitialInv(s0);
    RunSize(s0, cs);
  }

  /**
   Whoever has cache->lock can always go on: there is an entry to evict when one must be, and room
   wherever it is needed.
   */
  lemma InsertGoesOn(s: State)
    requires Inv(s) && !s.phase.Idle?
    ensures exists c :: Enabled(s, c) && (c.SearchRm? || c.Evict? || c.StoreRm? || c.Insert? || c.Count?)
  {
    match s.phase
    case Searched(_, _) => assert Enabled(s, SearchRm);
    case Evicting(_, _, _) => assert Enabled(s, StoreRm(true));
    case Room(_, _, _) => assert Enabled(s, Insert(true));
    case Found(_, _) => assert Enabled(s, Count);
    case Inserted(_, _, _) => assert Enabled(s, Count);
    case Ready(_, _) =>
      if |s.entries| < s.size {
        assert Enabled(s, Insert(true));
      } else {
        var n :| n in s.entries;
        EntryAt(s, n);
        assert Enabled(s, Evict(s.entries[n]));
      }
  }

  lemma NodeOfPhase(s: State, c: Call)
    requires Indexed(s) && Enabled(s, c) && !s.phase.Idle?
    ensures var s' := Step(s, c);
            || s'.phase.Idle? || s'.phase.h == s.phase.h
            || (c.SearchRm? && s.nodes[s.phase.h].name in s.rm && s'.phase.h == s.rm[s.nodes[s.phase.h].name])
  {
    match c
    case Alloc(_) =>
    case Get(_) =>
    case Lookup(_) =>
    case Begin(_) =>
    case SearchRm =>
    case Evict(_) =>
    case StoreRm(_) =>
    case Insert(_) =>
    case Count =>
    case Put(_, _) =>
    case EvictorPut(_, _) =>
    case Release(_) =>
    case FreeNew(_) =>
  }

  lemma NameStaysIf(s: State, c: Call)
    requires Indexed(s) && Enabled(s, c) && !s.phase.Idle?
    requires c.Alloc? ==> s.freeQ[|s.freeQ| - 1] != s.phase.h
    requires var name := s.nodes[s.phase.h].name;
             name in s.rm ==> Known(s, s.rm[name]) && s.nodes[s.rm[name]].name == name
    ensures var s' := Step(s, c); var h := if s'.phase.Idle? then s.phase.h else s'.phase.h;
            Known(s', h) && s'.nodes[h].name == s.nodes[s.phase.h].name
  {
    NamesKept(s, c);
    NodeOfPhase(s, c);
    NameOfNode(s, Step(s, c), if c.Alloc? then {s.freeQ[|s.freeQ| - 1]} else {});
  }

  lemma NameOfNode(s: State, s': State, renamed: set<Idx>)
    requires Indexed(s) && !s.phase.Idle? && SameNames(s, s', renamed) && |s.nodes| == |s.place|
    requires s.phase.h !in renamed
    requires var name := s.nodes[s.phase.h].name;
             && (name in s.rm ==> Known(s, s.rm[name]) && s.nodes[s.rm[name]].name == name)
             && (s'.phase.Idle? || s'.phase.h == s.phase.h
                 || (renamed == {} && name in s.rm && s'.phase.h == s.rm[name]))
    ensures var h := if s'.phase.Idle? then s.phase.h else s'.phase.h;
            Known(s', h) && s'.nodes[h].name == s.nodes[s.phase.h].name
  {
  }

  /** The node that an insertion or a lookup works for keeps its name, whatever other threads do meanwhile. */
  lemma NameStays(s: State, c: Call)
    requires Inv(s) && Enabled(s, c) && !s.phase.Idle?
    ensures var s' := Step(s, c); var h := if s'.phase.Idle? then s.phase.h else s'.phase.h;
            Known(s', h) && s'.nodes[h].name == s.nodes[s.phase.h].name
  {
    InUse(s);
    RmReferenced(s);
    if c.Alloc? { FirstFree(s); }
    NameStaysIf(s, c);
  }

  lemma InUse(s: State)
    requires Inv(s) && !s.phase.Idle?
    ensures s.place[s.phase.h] != Free
  {
    SearchedIsUsed(s);
  }

  /** What insert and lookup return is the entry of that name, and the caller holds one more reference to it. */
  lemma ReturnsEntry(s: State)
    requires Inv(s) && Enabled(s, Count)
    ensures var s' := Step(s, Count); var h := s.phase.h;
            && s.nodes[h].name in s'.entries && s'.entries[s.nodes[h].name] == h
            && s'.holders[h] == s.holders[h] + 1
  {
    NamedBy(s, s.phase.h);
  }

  /**
   Why the last reference to a node that was never inserted must not be put: a put by a holder
   takes a bug branch, or removes another node of the same name, exactly in that case (unless
   the finalize hook takes a reference meanwhile).
   */
  lemma LastPutOfNewNode(s: State, i: Idx, gets: nat)
    requires Inv(s) && Known(s, i) && s.holders[i] > Busy(s, i)
    ensures DoPut(s.(holders := s.holders - multiset{i}), i, gets).bug
            <==> s.bug || (s.place[i] == New && s.holders[i] == 1 && gets == 0)
  {
    NodeAt(s, i);
    if s.place[i] == New && s.holders[i] == 1 {
      NotListed(s, i);
    } else {
      LastPut(s, s.(holders := s.holders - multiset{i}), i);
    }
  }

  /** A new node is not what the table of removed entries has under its name. */
  lemma NotListed(s: State, i: Idx)
    requires Inv(s) && Known(s, i) && s.place[i] == New
    ensures s.nodes[i].name in s.rm ==> s.rm[s.nodes[i].name] != i
  {
  }
}
