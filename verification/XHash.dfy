/**
 The hash table of src/xtypes/xhash.c, with its arrays updated in place.

 Keys are values of a type K with a hash function on it: integers hash to themselves,
 strings are compared by content, and in both cases equal keys have equal hashes.
 */
module XHash {
  import opened Words
  import opened Probe
  import opened HashTable

  /** Return codes of src/include/xseg/xhash.h. */
  datatype Status = Ok | EResize | EExist | ENoSpc | ENoEnt

  // ----- sizing (pure reads)

  /** grow_check: the slots that are not UNUSED take up two thirds of the table. */
  predicate GrowCheck(notUnused: nat, shift: nat) {
    notUnused / 2 + notUnused >= Pow2(shift)
  }

  predicate ShrinkCheck(used: nat, shift: nat, minShift: nat) {
    4 * used < Pow2(shift) && shift > minShift
  }

  function GrowShift(used: nat, shift: nat): nat {
    if used / 2 + used >= Pow2(shift) then shift + 1 else shift
  }

  function ShrinkShift(shift: nat, minShift: nat): nat
    requires shift > 0
  {
    if shift - 1 < minShift then minShift else shift - 1
  }

  /** Outcome of xhash_insert, from the counters alone. */
  function InsertStatus(used: nat, dummies: nat, limit: Word, shift: nat): Status {
    if limit != 0 && used >= limit then ENoSpc
    else if GrowCheck(used + dummies, shift) then EResize
    else Ok
  }

  /** The thresholds: an insertion asks for a resize exactly from two thirds on, counting deleted slots. */
  lemma GrowCheckIff(notUnused: nat, shift: nat)
    ensures GrowCheck(notUnused, shift) <==> 3 * notUnused >= 2 * Pow2(shift)
    ensures GrowShift(notUnused, shift) == if 3 * notUnused >= 2 * Pow2(shift) then shift + 1 else shift
  {
  }

  /** A deletion asks for one exactly below a quarter, above the least size; a shrink halves the table. */
  lemma ShrinkCheckIff(used: nat, shift: nat, minShift: nat)
    requires 2 <= minShift <= shift
    ensures ShrinkCheck(used, shift, minShift) <==> used < Pow2(shift - 2) && shift > minShift
    ensures shift > minShift ==> ShrinkShift(shift, minShift) == shift - 1
  {
    assert Pow2(shift) == 2 * Pow2(shift - 1) == 4 * Pow2(shift - 2);
  }

  /** An insertion succeeds exactly below the limit, if there is one, and below two thirds. */
  lemma InsertStatusIff(used: nat, dummies: nat, limit: Word, shift: nat)
    ensures InsertStatus(used, dummies, limit, shift) == ENoSpc <==> 0 < limit <= used
    ensures InsertStatus(used, dummies, limit, shift) == Ok
            <==> (limit == 0 || used < limit) && 3 * (used + dummies) < 2 * Pow2(shift)
  {
  }

  /** The grow check leaves a never-used slot after an insertion exactly for shifts from 2 on. */
  lemma GrowCheckLeavesRoom(shift: nat)
    ensures (forall u: nat :: !GrowCheck(u, shift) ==> u + 1 < Pow2(shift)) <==> shift >= 2
  {
    if shift >= 2 {
      Pow2Monotone(2, shift);
      assert Pow2(2) == 4;
      forall u: nat | !GrowCheck(u, shift) ensures u + 1 < Pow2(shift) {
        assert u < 2 || u / 2 >= 1;
      }
    } else {
      assert Pow2(0) == 1 && Pow2(1) == 2;
      assert !GrowCheck(shift, shift) && !(shift + 1 < Pow2(shift));
    }
  }

  // ----- counting markers

  ghost predicate Counted(vals: seq<Word>, used: nat, dummies: nat) {
    && dummies == multiset(vals)[DUMMY]
    && used + dummies + multiset(vals)[UNUSED] == |vals|
  }

  lemma {:induction false} CountWrite(vals: seq<Word>, i: nat, v: Word)
    requires i < |vals|
    ensures multiset(vals[i := v]) == multiset(vals) - multiset{vals[i]} + multiset{v}
    ensures multiset(vals)[vals[i]] > 0
  {
    assert vals[i] in multiset(vals);
  }

  /** A table and the counters kept with it. */
  ghost predicate Consistent<K>(t: Table<K>, used: nat, dummies: nat) {
    t.WellFormed() && Counted(t.vals, used, dummies) && used == |t.Contents()|
  }

  lemma KillKeepsCounts<K>(t: Table<K>, i: nat, used: nat, dummies: nat)
    requires Consistent(t, used, dummies) && t.Occupied(i)
    ensures used > 0
    ensures Consistent(t.Write(i, t.keys[i], DUMMY), used - 1, dummies + 1)
    ensures t.keys[i] in t.Contents()
    ensures t.Write(i, t.keys[i], DUMMY).Contents() == t.Contents() - {t.keys[i]}
  {
    KillSlot(t, i);
    CountWrite(t.vals, i, DUMMY);
    SlotInContents(t, i);
    var m := t.Contents();
    assert |m - {t.keys[i]}| == |m| - 1 by {
      assert (m - {t.keys[i]}).Keys == m.Keys - {t.keys[i]};
    }
  }

  /** xhash_upd_set: the counters after an empty slot is filled. */
  lemma FillKeepsCounts<K>(t: Table<K>, key: K, val: Word, n: nat, used: nat, dummies: nat)
    requires Consistent(t, used, dummies) && !IsMarker(val) && key !in t.Contents()
    requires t.Passes(key, n) && !t.Occupied(t.At(key, n))
    ensures t.vals[t.At(key, n)] == DUMMY ==> dummies > 0
    ensures Consistent(t.Write(t.At(key, n), key, val), used + 1,
                       if t.vals[t.At(key, n)] == DUMMY then dummies - 1 else dummies)
  {
    FillSlot(t, key, val, n);
    CountWrite(t.vals, t.At(key, n), val);
  }

  lemma OverwriteKeepsCounts<K>(t: Table<K>, i: nat, key: K, val: Word, used: nat, dummies: nat)
    requires Consistent(t, used, dummies) && !IsMarker(val)
    requires t.Occupied(i) && t.keys[i] == key
    ensures Consistent(t.Write(i, key, val), used, dummies)
  {
    Overwrite(t, i, key, val);
    CountWrite(t.vals, i, val);
    SlotInContents(t, i);
  }

  /** If the counters leave room, some slot was never used. */
  lemma UnusedSlotExists(vals: seq<Word>, used: nat, dummies: nat) returns (i: nat)
    requires Counted(vals, used, dummies) && used + dummies < |vals|
    ensures i < |vals| && vals[i] == UNUSED
  {
    assert UNUSED in multiset(vals);
    i :| 0 <= i < |vals| && vals[i] == UNUSED;
  }

  lemma {:induction false} AllUnusedCount(vals: seq<Word>)
    requires forall i | 0 <= i < |vals| :: vals[i] == UNUSED
    ensures multiset(vals)[UNUSED] == |vals| && multiset(vals)[DUMMY] == 0
  {
    if |vals| > 0 {
      var front := vals[..|vals| - 1];
      AllUnusedCount(front);
      assert vals == front + [UNUSED];
    }
  }

  /** Everything an insertion does to the counters, whichever slot it stops at. */
  lemma InsertKeepsCounts<K>(t: Table<K>, key: K, val: Word, n: nat, used: nat, dummies: nat)
    requires Consistent(t, used, dummies) && !IsMarker(val) && InsertStops(t, key, n)
    ensures t.vals[t.At(key, n)] == DUMMY ==> dummies > 0
    ensures Consistent(t.Write(t.At(key, n), key, val),
                       if t.Occupied(t.At(key, n)) then used else used + 1,
                       if t.vals[t.At(key, n)] == DUMMY then dummies - 1 else dummies)
            <==> !t.BehindDummy(key)
    ensures !t.BehindDummy(key) ==> t.Write(t.At(key, n), key, val).Contents() == t.Contents()[key := val]
  {
    var i := t.At(key, n);
    InsertMeaning(t, key, val, n);
    CountWrite(t.vals, i, val);
    if t.Occupied(i) {
      OverwriteKeepsCounts(t, i, key, val, used, dummies);
    } else if key !in t.Contents() {
      FillKeepsCounts(t, key, val, n, used, dummies);
    } else {
      var j := ContentsHasSlot(t, key);
      PresentBehindStop(t, key, n, j);
    }
  }

  /** Without deleted slots an insertion is always a rebinding. */
  lemma FreshIsNotBehindDummy<K>(t: Table<K>, key: K)
    requires t.Shaped() && multiset(t.vals)[DUMMY] == 0
    ensures !t.BehindDummy(key)
  {
    forall d: nat ensures t.vals[t.At(key, d)] != DUMMY {
      assert t.vals[t.At(key, d)] in multiset(t.vals);
    }
  }

  /** Nor is an absent key ever behind a deleted slot. */
  lemma AbsentIsNotBehindDummy<K>(t: Table<K>, key: K)
    requires t.WellFormed() && key !in t.Contents()
    ensures !t.BehindDummy(key)
  {
    forall c: nat | t.Occupied(t.At(key, c)) ensures t.keys[t.At(key, c)] != key {
      SlotInContents(t, t.At(key, c));
    }
  }

  class XHash<K(==,0)> {
    const hash: K -> Word
    const sizeShift: nat
    const minsizeShift: nat
    const limit: Word
    var used: nat
    var dummies: nat
    const kvs: array<K>
    const vals: array<Word>

    ghost function View(): Table<K>
      reads this, kvs, vals
    {
      Table(hash, sizeShift, kvs[..], vals[..])
    }

    /** The slots form a table, and the counters agree with them. */
    ghost predicate ValidTable()
      reads this, kvs, vals
    {
      kvs as object != vals as object && Consistent(View(), used, dummies)
    }

    /** Some slot was never used, so every search stops. */
    ghost predicate Valid()
      reads this, kvs, vals
    {
      ValidTable() && used + dummies < Pow2(sizeShift)
    }

    ghost function Map(): map<K, Word>
      requires ValidTable()
      reads this, kvs, vals
    {
      View().Contents()
    }

    /** xhash_init__: a table of 2^shift never-used slots. */
    constructor (shift: nat, minShift: nat, lim: Word, h: K -> Word)
      requires shift <= MAX_SHIFT
      ensures Valid() && Map() == map[] && dummies == 0
      ensures sizeShift == shift && minsizeShift == minShift && limit == lim && hash == h
      ensures fresh(kvs) && fresh(vals)
    {
      hash := h;
      sizeShift := shift;
      minsizeShift := minShift;
      limit := lim;
      used := 0;
      dummies := 0;
      kvs := new K[Pow2(shift)];
      vals := new Word[Pow2(shift)];
      new;
      for i := 0 to vals.Length
        invariant i <= vals.Length && forall j | 0 <= j < i :: vals[j] == UNUSED
        invariant used == 0 && dummies == 0 && sizeShift == shift && minsizeShift == minShift && limit == lim
        invariant fresh(kvs) && fresh(vals) && kvs.Length == Pow2(shift) && vals.Length == Pow2(shift)
        invariant kvs as object != vals as object
      {
        vals[i] := UNUSED;
      }
      AllUnusedCount(vals[..]);
      assert View().Shaped();
      assert forall i :: !View().Occupied(i);
      EmptyPrefix(View(), Pow2(shift));
    }

    /** Every search meets a never-used slot within 13 + size probes. */
    lemma SearchEnds(key: K) returns (last: nat)
      requires Valid()
      ensures last < ProbeBound(sizeShift)
      ensures View().vals[View().At(key, last)] == UNUSED
    {
      var free := UnusedSlotExists(vals[..], used, dummies);
      last := VisitsEverySlot(hash(key), sizeShift, free);
    }

    /** The probing loop of xhash_lookup__ and xhash_delete__, given that it ends. */
    method FindSlot(key: K, ghost last: nat) returns (found: bool, idx: nat, ghost n: nat)
      requires View().Shaped() && View().vals[View().At(key, last)] == UNUSED
      ensures View().Misses(key, n) && idx == View().At(key, n) && n <= last
      ensures found ==> View().Occupied(idx) && View().keys[idx] == key
      ensures !found ==> View().vals[idx] == UNUSED
    {
      var perturb := hash(key);
      idx := hash(key) % Pow2(sizeShift);
      ghost var t := View();
      n := 0;
      while true
        invariant n <= last && idx == t.At(key, n) && perturb == Perturb(hash(key), n)
        invariant t.Misses(key, n)
        decreases last - n
      {
        if vals[idx] == UNUSED {
          return false, idx, n;
        }
        if vals[idx] != DUMMY && kvs[idx] == key {
          return true, idx, n;
        }
        NextProbe(t, key, n);
        idx := Advance(idx, perturb, sizeShift);
        perturb := perturb / PERTURB_SHIFT_FACTOR;
        n := n + 1;
      }
    }

    /** xhash_lookup */
    method Lookup(key: K) returns (st: Status, val: Word)
      requires Valid()
      ensures st == (if key in Map() then Ok else EExist)
      ensures key in Map() ==> val == Map()[key]
    {
      ghost var last := SearchEnds(key);
      var found, idx, n := FindSlot(key, last);
      if !found {
        StopMeansAbsent(View(), key, n);
        return EExist, 0;
      }
      SlotInContents(View(), idx);
      return Ok, vals[idx];
    }

    /** xhash_delete__ */
    method DeleteRaw(key: K) returns (st: Status)
      requires Valid()
      modifies this`used, this`dummies, vals
      ensures Valid()
      ensures st == (if key in old(Map()) then Ok else ENoEnt)
      ensures Map() == old(Map()) - {key}
      ensures used + dummies == old(used + dummies)
    {
      ghost var last := SearchEnds(key);
      var found, idx, n := FindSlot(key, last);
      ghost var t := View();
      if !found {
        StopMeansAbsent(t, key, n);
        assert t.Contents() - {key} == t.Contents();
        return ENoEnt;
      }
      SetDummy(idx);
      return Ok;
    }

    /** set_dummy_item, with the counters. */
    method SetDummy(idx: nat)
      requires ValidTable() && View().Occupied(idx)
      modifies this`used, this`dummies, vals
      ensures ValidTable() && View() == old(View()).Write(idx, old(kvs[idx]), DUMMY)
      ensures old(kvs[idx]) in old(Map()) && Map() == old(Map()) - {old(kvs[idx])}
      ensures used + dummies == old(used + dummies)
    {
      ghost var t := View();
      KillKeepsCounts(t, idx, used, dummies);
      vals[idx] := DUMMY;
      dummies := dummies + 1;
      used := used - 1;
      assert View() == t.Write(idx, t.keys[idx], DUMMY);
    }

    /** The probing loop of xhash_insert__: stops at an empty slot or at key itself. */
    method InsertSlot(key: K, ghost last: nat) returns (idx: nat, ghost n: nat)
      requires View().Shaped() && View().vals[View().At(key, last)] == UNUSED
      ensures InsertStops(View(), key, n) && idx == View().At(key, n) && n <= last
    {
      var perturb := hash(key);
      idx := hash(key) % Pow2(sizeShift);
      ghost var t := View();
      n := 0;
      while !IsMarker(vals[idx]) && kvs[idx] != key
        invariant n <= last && idx == t.At(key, n) && perturb == Perturb(hash(key), n)
        invariant t.Misses(key, n) && forall m | 0 <= m < n :: t.Occupied(t.At(key, m))
        decreases last - n
      {
        NextProbe(t, key, n);
        idx := Advance(idx, perturb, sizeShift);
        perturb := perturb / PERTURB_SHIFT_FACTOR;
        n := n + 1;
      }
    }

    /** xhash_insert__ */
    method InsertRaw(key: K, val: Word) returns (ghost n: nat)
      requires Valid() && !IsMarker(val)
      modifies this`used, this`dummies, kvs, vals
      ensures InsertStops(old(View()), key, n)
      ensures View() == old(View()).Write(old(View()).At(key, n), key, val)
      ensures ValidTable() <==> !old(View().BehindDummy(key))
      ensures !old(View().BehindDummy(key)) ==> Map() == old(Map())[key := val]
      ensures old(used + dummies) <= used + dummies <= old(used + dummies) + 1
      ensures old(dummies) == 0 ==> dummies == 0
    {
      var idx: nat;
      ghost var last := SearchEnds(key);
      idx, n := InsertSlot(key, last);
      ghost var t := View();
      InsertKeepsCounts(t, key, val, n, used, dummies);
      if IsMarker(vals[idx]) {
        if vals[idx] == DUMMY {
          dummies := dummies - 1;
        }
        used := used + 1;
      }
      kvs[idx] := key;
      vals[idx] := val;
      assert View() == t.Write(idx, key, val);
    }

    /** xhash_insert__ on a table without deleted slots. */
    method InsertClean(key: K, val: Word)
      requires Valid() && dummies == 0 && !IsMarker(val)
      modifies this`used, this`dummies, kvs, vals
      ensures ValidTable() && dummies == 0 && Map() == old(Map())[key := val]
    {
      FreshIsNotBehindDummy(View(), key);
      ghost var n := InsertRaw(key, val);
    }

    /** xhash_insert */
    method Insert(key: K, val: Word) returns (st: Status)
      requires Valid() && !IsMarker(val)
      modifies this`used, this`dummies, kvs, vals
      ensures st == InsertStatus(old(used), old(dummies), limit, sizeShift)
      ensures st != Ok ==> Valid() && Map() == old(Map()) && used == old(used) && dummies == old(dummies)
      ensures st == Ok ==> (ValidTable() <==> !old(View().BehindDummy(key)))
      ensures st == Ok && !old(View().BehindDummy(key)) ==> Map() == old(Map())[key := val]
      ensures st == Ok && !old(View().BehindDummy(key)) && sizeShift >= 2 ==> Valid()
      ensures old(dummies) == 0 ==> dummies == 0
    {
      if limit != 0 && used >= limit {
        return ENoSpc;
      }
      if GrowCheck(used + dummies, sizeShift) {
        return EResize;
      }
      GrowCheckLeavesRoom(sizeShift);
      ghost var n := InsertRaw(key, val);
      return Ok;
    }

    /** xhash_delete */
    method Delete(key: K) returns (st: Status)
      requires Valid()
      modifies this`used, this`dummies, vals
      ensures Valid()
      ensures st == (if ShrinkCheck(old(used), sizeShift, minsizeShift) then EResize
                     else if key in old(Map()) then Ok else ENoEnt)
      ensures Map() == if st == Ok then old(Map()) - {key} else old(Map())
    {
      if ShrinkCheck(used, sizeShift, minsizeShift) {
        return EResize;
      }
      assert key !in Map() ==> Map() - {key} == Map();
      st := DeleteRaw(key);
    }

    /** xhash_resize: a new table of another size with the same bindings and no deleted slots. */
    method Resize(newShift: nat, newLimit: Word) returns (r: XHash<K>)
      requires ValidTable() && newShift <= MAX_SHIFT && used < Pow2(newShift)
      ensures fresh(r) && fresh(r.kvs) && fresh(r.vals)
      ensures r.Valid() && r.Map() == Map() && r.dummies == 0 && r.used == used
      ensures r.sizeShift == newShift && r.minsizeShift == minsizeShift && r.limit == newLimit
      ensures r.hash == hash
    {
      r := new XHash(newShift, minsizeShift, newLimit, hash);
      CopyAll(r);
    }

    /** The loop of xhash_resize. */
    method CopyAll(r: XHash<K>)
      requires ValidTable() && r != this && {r.kvs, r.vals} !! {kvs as object, vals}
      requires r.Valid() && r.dummies == 0 && r.Map() == map[] && used < Pow2(r.sizeShift)
      modifies r`used, r`dummies, r.kvs, r.vals
      ensures View() == old(View()) && used == old(used) && dummies == old(dummies)
      ensures r.Valid() && r.dummies == 0 && r.Map() == Map() && r.used == used
    {
      ghost var t := View();
      for i := 0 to Pow2(sizeShift)
        invariant View() == t && used == old(used) && dummies == old(dummies)
        invariant r.Valid() && r.dummies == 0 && r.Map() == t.Prefix(i)
      {
        CopySlot(i, r);
      }
    }

    /** One round of the loop of xhash_resize. */
    method CopySlot(i: nat, r: XHash<K>)
      requires ValidTable() && i < Pow2(sizeShift)
      requires r != this && {r.kvs, r.vals} !! {kvs as object, vals}
      requires r.Valid() && r.dummies == 0 && r.Map() == View().Prefix(i) && used < Pow2(r.sizeShift)
      modifies r`used, r`dummies, r.kvs, r.vals
      ensures View() == old(View()) && used == old(used) && dummies == old(dummies)
      ensures r.Valid() && r.dummies == 0 && r.Map() == View().Prefix(i + 1)
    {
      if !IsMarker(vals[i]) {
        ghost var t := View();
        PrefixStep(t, i);
        PrefixSize(t, i + 1);
        r.InsertClean(kvs[i], vals[i]);
        assert View() == t;
      }
    }

    /**
     xhash_iterate: one step of a walk that has returned cnt entries from the slots below loc.
     While the table is not modified the walk meets every entry exactly once.
     */
    method Iterate(loc: nat, cnt: nat) returns (more: bool, key: K, val: Word, loc': nat, cnt': nat)
      requires ValidTable() && loc <= Pow2(sizeShift) && cnt == |View().Prefix(loc)|
      ensures loc' <= Pow2(sizeShift) && cnt' == |View().Prefix(loc')|
      ensures more <==> View().Prefix(loc) != Map()
      ensures more ==> key !in View().Prefix(loc) && View().Prefix(loc') == View().Prefix(loc)[key := val]
      ensures more ==> cnt' == cnt + 1 && loc < loc'
      ensures !more ==> loc' == loc && cnt' == cnt
    {
      ghost var t := View();
      var idx := loc;
      key, val := kvs[0], 0;
      PrefixSize(t, loc);
      while used != cnt && idx < Pow2(sizeShift)
        invariant loc <= idx <= Pow2(sizeShift) && t.Prefix(idx) == t.Prefix(loc)
      {
        if !IsMarker(vals[idx]) {
          PrefixStep(t, idx);
          return true, kvs[idx], vals[idx], idx + 1, cnt + 1;
        }
        idx := idx + 1;
      }
      return false, key, val, loc, cnt;
    }

    /** The loop of xhash_print: collects what successive calls of xhash_iterate return. */
    method Entries() returns (es: seq<K>)
      requires ValidTable()
      ensures Lists(es, Map())
    {
      var more, key, val, loc: nat, cnt: nat := true, kvs[0], 0 as Word, 0, 0;
      es := [];
      ghost var t := View();
      while more
        invariant loc <= Pow2(sizeShift) && cnt == |t.Prefix(loc)|
        invariant !more ==> t.Prefix(loc) == Map()
        invariant Lists(es, t.Prefix(loc))
        decreases more, |t.vals| - loc
      {
        ghost var m := t.Prefix(loc);
        more, key, val, loc, cnt := Iterate(loc, cnt);
        if more {
          ListsMore(es, m, key, val);
          es := es + [key];
        }
      }
    }
  }

  /** es enumerates the keys of m, each once. */
  ghost predicate Lists<K>(es: seq<K>, m: map<K, Word>) {
    && (forall i, j | 0 <= i < j < |es| :: es[i] != es[j])
    && (forall k | k in es :: k in m) && (forall k | k in m :: k in es)
  }

  lemma ListsMore<K>(es: seq<K>, m: map<K, Word>, key: K, val: Word)
    requires Lists(es, m) && key !in m
    ensures Lists(es + [key], m[key := val])
  {
  }
}
