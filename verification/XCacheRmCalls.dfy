/**
 What the calls of the cache with the table of removed entries come to, whatever other threads
 do meanwhile: how each step changes the tables, the free queue and what callers hold, and what
 a whole insertion or lookup, from its first step to its last, makes of the table of entries.
 */
module XCacheRmCalls {
  import opened Names
  import opened XCacheRm

  // ----- what steps rely on

  /** What the invariant says about the operands of a step. */
  ghost predicate Regular(s: State, c: Call) {
    && Indexed(s) && Enabled(s, c)
    && (c.SearchRm? ==> var name := s.nodes[s.phase.h].name; name in s.rm ==> Known(s, s.rm[name]))
    && (c.StoreRm? ==> |s.rm| < s.size)
    && (c.Insert? ==> |s.entries| < s.size)
    && (c.Put? || c.EvictorPut? ==> s.nodes[c.i].ref >= 1)
  }

  lemma InvRegular(s: State, c: Call)
    requires Inv(s) && Enabled(s, c)
    ensures Regular(s, c)
  {
    if c.SearchRm? { SearchedFacts(s); }
    if c.StoreRm? { RoomInRm(s); }
    if c.Insert? { ToInsertFacts(s); }
    if c.Put? { LastPut(s, s.(holders := s.holders - multiset{c.i}), c.i); }
    if c.EvictorPut? { LastPut(s, s.(evictors := s.evictors - multiset{c.i}), c.i); }
  }

  /** The put takes the last reference to its node, and the finalize hook takes none. */
  ghost predicate Finalizes(s: State, c: Call)
    requires Regular(s, c)
  {
    (c.Put? || c.EvictorPut?) && c.gets == 0 && s.nodes[c.i].ref == 1
  }

  // ----- the books

  /** The part of the state that callers can tell from the answers they get. */
  datatype Books = Books(
    entries: map<Name, Idx>,
    rm: map<Name, Idx>,
    freeQ: seq<Idx>,
    holders: multiset<Idx>,
    evictors: multiset<Idx>,
    phase: Phase
  )

  function BooksOf(s: State): Books {
    Books(s.entries, s.rm, s.freeQ, s.holders, s.evictors, s.phase)
  }

  /** A lookup and an insertion go on with the entry of the name, if there is one. */
  function Search(s: State, name: Name, busy: set<Idx>, otherwise: Phase): Phase {
    if name in s.entries then Found(busy, s.entries[name]) else otherwise
  }

  /** The puts that an insertion that is over still owes. */
  ghost function Debts(phase: Phase): multiset<Idx> {
    if phase.Room? then multiset{phase.lru} else if phase.Inserted? then multiset(phase.evicted) else multiset{}
  }

  ghost function Gone(s: State, c: Call, b: Books): (r: Books)
    requires Regular(s, c) && (c.Put? || c.EvictorPut?)
    ensures r.entries == b.entries && r.phase == b.phase && r.freeQ == b.freeQ
  {
    if Finalizes(s, c) then b.(rm := s.rm - {s.nodes[c.i].name})
    else if s.nodes[c.i].ref == 1 then b.(holders := b.holders[c.i := b.holders[c.i] + c.gets])
    else b
  }

  /** What a step of an insertion enters in the books. */
  ghost function InsertionBooks(s: State, c: Call): Books
    requires Regular(s, c) && Inserting(c)
  {
    var b, h := BooksOf(s), s.phase.h;
    match c
    case SearchRm =>
      var name := s.nodes[h].name;
      b.(rm := s.rm - {name}, phase := Ready(s.phase.busy, if name in s.rm then s.rm[name] else h))
    case Evict(lru) => b.(entries := s.entries - {s.nodes[lru].name}, phase := Evicting(s.phase.busy, h, lru))
    case StoreRm(memory) =>
      var lru := s.phase.lru;
      if memory then b.(rm := s.rm[s.nodes[lru].name := lru], phase := Room(s.phase.busy, h, lru))
      else b.(phase := Idle)
    case Insert(memory) =>
      var first := s.place[h] == New;
      if memory then
        b.(entries := s.entries[s.nodes[h].name := h],
           holders := if first then s.holders - multiset{h} else s.holders,
           phase := Inserted(if first then {} else s.phase.busy, h, if s.phase.Room? then {s.phase.lru} else {}))
      else b.(phase := Idle, evictors := s.evictors + Debts(s.phase))
    case Count => b.(holders := s.holders + multiset{h}, evictors := s.evictors + Debts(s.phase), phase := Idle)
  }

  /** What any other step does. */
  ghost function OtherBooks(s: State, c: Call): Books
    requires Regular(s, c) && !Inserting(c)
  {
    var b := BooksOf(s);
    match c
    case Alloc(_) =>
      var n := |s.freeQ| - 1;
      b.(freeQ := s.freeQ[..n], holders := s.holders + multiset{s.freeQ[n]})
    case Get(i) => b.(holders := s.holders + multiset{i})
    case Lookup(name) => b.(phase := Search(s, name, {}, Idle))
    case Begin(i) => b.(phase := Search(s, s.nodes[i].name, {i}, Searched({i}, i)))
    case Put(i, _) => Gone(s, c, b.(holders := s.holders - multiset{i}))
    case EvictorPut(i, _) => Gone(s, c, b.(evictors := s.evictors - multiset{i}))
    case Release(i) => b.(freeQ := s.freeQ + [i])
    case FreeNew(i) => b.(freeQ := s.freeQ + [i], holders := s.holders - multiset{i})
  }

  ghost function BooksAfter(s: State, c: Call): Books
    requires Regular(s, c)
  {
    if Inserting(c) then InsertionBooks(s, c) else OtherBooks(s, c)
  }

  /** Every step of every thread does that, and no more. */
  lemma BooksChange(s: State, c: Call)
    requires Inv(s) && Enabled(s, c)
    ensures Regular(s, c) && BooksOf(Step(s, c)) == BooksAfter(s, c)
  {
    InvRegular(s, c);
    RegularBooks(s, c);
  }

  lemma RegularBooks(s: State, c: Call)
    requires Regular(s, c)
    ensures BooksOf(Step(s, c)) == BooksAfter(s, c)
  {
    if Inserting(c) { RegularInsertion(s, c); } else { RegularOther(s, c); }
  }

  lemma RegularInsertion(s: State, c: Call)
    requires Regular(s, c) && Inserting(c)
    ensures BooksOf(Step(s, c)) == InsertionBooks(s, c)
  {
    match c
    case SearchRm => SearchRmBooks(s);
    case Evict(lru) =>
    case StoreRm(memory) => StoreBooks(s, memory);
    case Insert(memory) => InsertBooks(s, memory);
    case Count => CountBooks(s);
  }

  lemma RegularOther(s: State, c: Call)
    requires Regular(s, c) && !Inserting(c)
    ensures BooksOf(Step(s, c)) == OtherBooks(s, c)
  {
    match c
    case Alloc(name) => AllocBooks(s, name);
    case Get(i) =>
    case Lookup(name) =>
    case Begin(i) =>
    case Put(i, gets) => PutBooks(s, i, gets);
    case EvictorPut(i, gets) => EvictorPutBooks(s, i, gets);
    case Release(i) =>
    case FreeNew(i) =>
  }

  lemma AllocBooks(s: State, name: Name)
    requires Regular(s, Alloc(name))
    ensures BooksOf(DoAlloc(s, name)) == OtherBooks(s, Alloc(name))
  {
  }

  lemma SearchRmBooks(s: State)
    requires Regular(s, SearchRm)
    ensures BooksOf(DoSearchRm(s)) == InsertionBooks(s, SearchRm)
  {
    var name := s.nodes[s.phase.h].name;
    assert name !in s.rm ==> s.rm - {name} == s.rm;
  }

  lemma StoreBooks(s: State, memory: bool)
    requires Regular(s, StoreRm(memory))
    ensures BooksOf(DoStoreRm(s, memory)) == InsertionBooks(s, StoreRm(memory))
  {
  }

  lemma InsertBooks(s: State, memory: bool)
    requires Regular(s, Insert(memory))
    ensures BooksOf(DoInsert(s, memory)) == InsertionBooks(s, Insert(memory))
  {
  }

  lemma CountBooks(s: State)
    requires Regular(s, Count)
    ensures BooksOf(DoCount(s)) == InsertionBooks(s, Count)
  {
  }

  lemma PutBooks(s: State, i: Idx, gets: nat)
    requires Regular(s, Put(i, gets))
    ensures BooksOf(DoPut(s.(holders := s.holders - multiset{i}), i, gets)) == OtherBooks(s, Put(i, gets))
  {
    DropBooks(s.(holders := s.holders - multiset{i}), i, gets);
  }

  lemma EvictorPutBooks(s: State, i: Idx, gets: nat)
    requires Regular(s, EvictorPut(i, gets))
    ensures BooksOf(DoPut(s.(evictors := s.evictors - multiset{i}), i, gets)) == OtherBooks(s, EvictorPut(i, gets))
  {
    DropBooks(s.(evictors := s.evictors - multiset{i}), i, gets);
  }

  lemma DropBooks(s: State, i: Idx, gets: nat)
    requires Known(s, i) && s.nodes[i].ref >= 1
    ensures BooksOf(DoPut(s, i, gets))
            == if s.nodes[i].ref > 1 then BooksOf(s)
               else if gets > 0 then BooksOf(s).(holders := s.holders[i := s.holders[i] + gets])
               else BooksOf(s).(rm := s.rm - {s.nodes[i].name})
  {
  }

  /** An allocation hands out the first free node under the name that was asked for, and to its caller alone. */
  lemma AllocMeans(s: State, name: Name)
    requires Inv(s) && Enabled(s, Alloc(name))
    ensures var s' := Step(s, Alloc(name)); var i := s.freeQ[|s.freeQ| - 1];
            && s.freeQ == s'.freeQ + [i] && Known(s', i)
            && s'.nodes[i].name == name && s'.nodes[i].ref == 1 && s'.place[i] == New
            && s.holders[i] == 0 && s'.holders == s.holders + multiset{i}
  {
    FirstFree(s);
  }

  // ----- a whole insertion

  /**
   What is known of the insertion under way, for a node of that name, when the table of entries
   was e0 at its beginning.
   */
  ghost predicate Since(s: State, e0: map<Name, Idx>, name: Name) {
    match s.phase
    case Idle => true
    case Found(_, h) => name in e0 && e0[name] == h && Named(s, h, name) && s.entries == e0
    case Searched(_, h) => name !in e0 && Named(s, h, name) && s.entries == e0
    case Ready(_, h) => name !in e0 && Named(s, h, name) && s.entries == e0
    case Evicting(_, h, lru) => name !in e0 && Named(s, h, name) && OneLess(s, e0, s.entries, lru)
    case Room(_, h, lru) => name !in e0 && Named(s, h, name) && OneLess(s, e0, s.entries, lru)
    case Inserted(_, h, evicted) =>
      && name !in e0 && Named(s, h, name) && name in s.entries && s.entries[name] == h
      && if evicted == {} then |e0| < s.size && s.entries == e0[name := h]
         else exists lru :: evicted == {lru} && OneLess(s, e0, s.entries - {name}, lru)
  }

  predicate Named(s: State, h: Idx, name: Name) { h < |s.nodes| && s.nodes[h].name == name }

  /** The table was full, and has lost the entry of one name, which was lru. */
  ghost predicate OneLess(s: State, e0: map<Name, Idx>, entries: map<Name, Idx>, lru: Idx) {
    |e0| >= s.size && exists k :: k in e0 && e0[k] == lru && entries == e0 - {k}
  }

  lemma BeginSince(s: State, i: Idx)
    requires Inv(s) && Enabled(s, Begin(i))
    ensures Since(Step(s, Begin(i)), s.entries, s.nodes[i].name) && !Step(s, Begin(i)).phase.Idle?
  {
    BooksChange(s, Begin(i));
    NamesKept(s, Begin(i));
    if s.nodes[i].name in s.entries { EntryAt(s, s.nodes[i].name); }
  }

  /** What is known of the insertion under way stays true, whatever steps are taken. */
  lemma SinceStep(s: State, c: Call, e0: map<Name, Idx>, name: Name)
    requires Inv(s) && Enabled(s, c) && !s.phase.Idle? && Since(s, e0, name)
    ensures Since(Step(s, c), e0, name)
  {
    BooksChange(s, c);
    NameStays(s, c);
    NamesKept(s, c);
    if c.Evict? { NamedBy(s, c.lru); }
    SinceBooks(s, Step(s, c), c, e0, name);
  }

  lemma SinceBooks(s: State, s': State, c: Call, e0: map<Name, Idx>, name: Name)
    requires Regular(s, c) && Since(s, e0, name) && s'.size == s.size && BooksOf(s') == BooksAfter(s, c)
    requires !s.phase.Idle?
    requires var h := if s'.phase.Idle? then s.phase.h else s'.phase.h;
             Known(s', h) && s'.nodes[h].name == s.nodes[s.phase.h].name
    requires c.Evict? ==> s.nodes[c.lru].name in s.entries && s.entries[s.nodes[c.lru].name] == c.lru
    ensures Since(s', e0, name)
  {
    if Inserting(c) { SinceInsertion(s, s', c, e0, name); } else { SinceOther(s, s', c, e0, name); }
  }

  lemma SinceInsertion(s: State, s': State, c: Call, e0: map<Name, Idx>, name: Name)
    requires Regular(s, c) && Inserting(c) && Since(s, e0, name) && s'.size == s.size
    requires BooksOf(s') == InsertionBooks(s, c)
    requires var h := if s'.phase.Idle? then s.phase.h else s'.phase.h;
             Known(s', h) && s'.nodes[h].name == s.nodes[s.phase.h].name
    requires c.Evict? ==> s.nodes[c.lru].name in s.entries && s.entries[s.nodes[c.lru].name] == c.lru
    ensures Since(s', e0, name)
  {
    if c.SearchRm? {
      SinceSearchRm(s, s', e0, name);
    } else if c.Evict? {
      SinceEvict(s, s', c.lru, e0, name);
    } else if c.StoreRm? {
      SinceStore(s, s', c.memory, e0, name);
    } else if c.Insert? {
      SinceInsert(s, s', c, e0, name);
    } else {
      assert s'.phase.Idle?;
    }
  }

  lemma SinceStore(s: State, s': State, memory: bool, e0: map<Name, Idx>, name: Name)
    requires Regular(s, StoreRm(memory)) && Since(s, e0, name) && s'.size == s.size
    requires BooksOf(s') == InsertionBooks(s, StoreRm(memory)) && Named(s', s.phase.h, name)
    ensures Since(s', e0, name)
  {
    assert OneLess(s', e0, s'.entries, s.phase.lru);
  }

  /** The table of entries belongs to the owner of the lock. */
  lemma OthersAside(s: State, c: Call)
    requires Regular(s, c) && !Inserting(c) && !s.phase.Idle?
    ensures OtherBooks(s, c).phase == s.phase && OtherBooks(s, c).entries == s.entries
  {
  }

  lemma SinceOther(s: State, s': State, c: Call, e0: map<Name, Idx>, name: Name)
    requires Regular(s, c) && !Inserting(c) && Since(s, e0, name) && s'.size == s.size && !s.phase.Idle?
    requires BooksOf(s') == OtherBooks(s, c)
    requires Known(s', s.phase.h) && s'.nodes[s.phase.h].name == s.nodes[s.phase.h].name
    ensures Since(s', e0, name)
  {
    OthersAside(s, c);
    SinceKept(s, s', e0, name);
  }

  lemma SinceKept(s: State, s': State, e0: map<Name, Idx>, name: Name)
    requires Since(s, e0, name) && s'.phase == s.phase && s'.entries == s.entries && s'.size == s.size
    requires !s.phase.Idle? && Known(s', s.phase.h) && Known(s, s.phase.h)
    requires s'.nodes[s.phase.h].name == s.nodes[s.phase.h].name
    ensures Since(s', e0, name)
  {
    if s.phase.Inserted? && s.phase.evicted != {} {
      var lru :| s.phase.evicted == {lru} && OneLess(s, e0, s.entries - {name}, lru);
      assert OneLess(s', e0, s'.entries - {name}, lru);
    }
  }

  lemma SinceSearchRm(s: State, s': State, e0: map<Name, Idx>, name: Name)
    requires Regular(s, SearchRm) && Since(s, e0, name) && BooksOf(s') == InsertionBooks(s, SearchRm)
    requires Known(s', s'.phase.h) && s'.nodes[s'.phase.h].name == s.nodes[s.phase.h].name
    ensures Since(s', e0, name)
  {
  }

  lemma SinceEvict(s: State, s': State, lru: Idx, e0: map<Name, Idx>, name: Name)
    requires Regular(s, Evict(lru)) && Since(s, e0, name) && s'.size == s.size
    requires BooksOf(s') == InsertionBooks(s, Evict(lru)) && Named(s', s.phase.h, name)
    requires s.nodes[lru].name in s.entries && s.entries[s.nodes[lru].name] == lru
    ensures Since(s', e0, name)
  {
    assert OneLess(s', e0, s'.entries, lru);
  }

  lemma SinceInsert(s: State, s': State, c: Call, e0: map<Name, Idx>, name: Name)
    requires Regular(s, c) && c.Insert? && Since(s, e0, name) && s'.size == s.size
    requires BooksOf(s') == InsertionBooks(s, c) && Named(s', s.phase.h, name)
    ensures Since(s', e0, name)
  {
    if c.memory {
      if s.phase.Room? {
        RoomFilled(s', e0, s.entries, name, s.phase.h, s.phase.lru);
      } else {
        assert s'.entries == e0[name := s.phase.h];
      }
    }
  }

  lemma RoomFilled(s': State, e0: map<Name, Idx>, entries: map<Name, Idx>, name: Name, h: Idx, lru: Idx)
    requires name !in e0 && OneLess(s', e0, entries, lru) && s'.entries == entries[name := h]
    ensures OneLess(s', e0, s'.entries - {name}, lru)
  {
    assert s'.entries - {name} == entries;
  }

  /** From the state s on, the lock of the cache is held until the run ends. */
  ghost predicate UnderWay(s: State, cs: seq<Call>)
    requires Inv(s) && Legal(s, cs)
    decreases |cs|
  {
    !s.phase.Idle? && (cs == [] || (StepInv(s, cs[0]); UnderWay(Step(s, cs[0]), cs[1..])))
  }

  lemma {:induction false} SinceRun(s: State, cs: seq<Call>, e0: map<Name, Idx>, name: Name)
    requires Inv(s) && Legal(s, cs) && UnderWay(s, cs) && Since(s, e0, name)
    ensures Since(Run(s, cs), e0, name) && Run(s, cs).size == s.size
    decreases |cs|
  {
    if cs != [] {
      StepInv(s, cs[0]);
      SinceStep(s, cs[0], e0, name);
      NamesKept(s, cs[0]);
      SinceRun(Step(s, cs[0]), cs[1..], e0, name);
    }
  }

  /**
   An insertion that comes to its end, with any steps of other threads between its first one and
   its last: the name is in the table of entries, bound to the node that is returned, which has one
   more holder. If the name was there at the beginning nothing else has changed in that table; if
   not, it was added, and one other name has gone exactly if the table was full.
   */
  lemma InsertionMeans(s: State, i: Idx, s1: State, cs: seq<Call>, t: State)
    requires Inv(s) && Enabled(s, Begin(i)) && s1 == Step(s, Begin(i))
    requires Inv(s1) && Legal(s1, cs) && UnderWay(s1, cs) && t == Run(s1, cs) && Enabled(t, Count)
    ensures var t' := Step(t, Count); var h := t.phase.h; var name := s.nodes[i].name;
            && t'.phase.Idle? && t'.holders[h] == t.holders[h] + 1
            && Known(t', h) && t'.nodes[h].name == name && name in t'.entries && t'.entries[name] == h
            && (name in s.entries ==> t'.entries == s.entries)
            && (name !in s.entries && |s.entries| < s.size ==> t'.entries == s.entries[name := h])
            && (name !in s.entries && |s.entries| >= s.size ==>
                exists k :: k in s.entries && t'.entries == (s.entries - {k})[name := h])
  {
    BeginSince(s, i);
    NamesKept(s, Begin(i));
    SinceRun(s1, cs, s.entries, s.nodes[i].name);
    BooksChange(t, Count);
    NameStays(t, Count);
    EndMeans(t, s.entries, s.nodes[i].name);
  }

  lemma EndMeans(t: State, e0: map<Name, Idx>, name: Name)
    requires Since(t, e0, name) && (t.phase.Found? || t.phase.Inserted?)
    ensures var h := t.phase.h;
            && Named(t, h, name) && name in t.entries && t.entries[name] == h
            && (name in e0 ==> t.entries == e0)
            && (name !in e0 && |e0| < t.size ==> t.entries == e0[name := h])
            && (name !in e0 && |e0| >= t.size ==> exists k :: k in e0 && t.entries == (e0 - {k})[name := h])
  {
    if t.phase.Inserted? && t.phase.evicted != {} {
      var lru :| t.phase.evicted == {lru} && OneLess(t, e0, t.entries - {name}, lru);
      var k :| k in e0 && e0[k] == lru && t.entries - {name} == e0 - {k};
      assert t.entries == (t.entries - {name})[name := t.phase.h];
    }
  }

  /** A lookup finds the entry exactly if the name is there, and answers NoEntry otherwise; the table stays. */
  lemma LookupMeans(s: State, name: Name)
    requires Inv(s) && Enabled(s, Lookup(name))
    ensures var s' := Step(s, Lookup(name));
            && BooksOf(s') == BooksOf(s).(phase := s'.phase)
            && (name in s.entries ==> s'.phase == Found({}, s.entries[name]))
            && (name !in s.entries ==> s' == s)
  {
    BooksChange(s, Lookup(name));
  }

  /** An insertion ends without an answer exactly where a table finds no memory. */
  lemma GivesUpIff(s: State, c: Call)
    requires Inv(s) && Enabled(s, c) && !s.phase.Idle?
    ensures Step(s, c).phase.Idle? <==> c.Count? || c == StoreRm(false) || c == Insert(false)
  {
    BooksChange(s, c);
    PhaseAfter(s, c);
  }

  /** How many steps an insertion has to go. */
  function StepsLeft(phase: Phase): nat {
    match phase
    case Idle => 0
    case Found(_, _) => 1
    case Inserted(_, _, _) => 1
    case Room(_, _, _) => 2
    case Evicting(_, _, _) => 3
    case Ready(_, _) => 4
    case Searched(_, _) => 5
  }

  /** It takes at most six: the steps of the lock's owner lead towards the end, and others do not lead away from it. */
  lemma InsertionEnds(s: State, c: Call)
    requires Inv(s) && Enabled(s, c) && !s.phase.Idle?
    ensures if Inserting(c) then StepsLeft(Step(s, c).phase) < StepsLeft(s.phase) else Step(s, c).phase == s.phase
    ensures StepsLeft(s.phase) <= 5
  {
    BooksChange(s, c);
    PhaseAfter(s, c);
  }

  lemma PhaseAfter(s: State, c: Call)
    requires Regular(s, c) && !s.phase.Idle?
    ensures var phase := BooksAfter(s, c).phase;
            && (if Inserting(c) then StepsLeft(phase) < StepsLeft(s.phase) else phase == s.phase)
            && (phase.Idle? <==> c.Count? || c == StoreRm(false) || c == Insert(false))
  {
    if !Inserting(c) { OthersAside(s, c); }
  }
}
