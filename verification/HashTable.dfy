/**
 The open-addressing table of src/xtypes/xhash.c as a value: what the slots mean, which
 arrangements of the slots are well formed, and what a single write to a slot does to the
 finite map the table stands for. The build is the one with the markers in the values.
 */
module HashTable {
  import opened Words
  import opened Probe

  const UNUSED: Word := WORD_LIMIT - 1  // this entry was never used
  const DUMMY: Word := WORD_LIMIT - 2   // this entry was used, but now it is empty

  /** Largest shift for which the byte size of the table fits a 64-bit size. */
  const MAX_SHIFT: nat := 59

  predicate IsMarker(v: Word) { v == UNUSED || v == DUMMY }

  datatype Table<!K(==)> = Table(hash: K -> Word, shift: nat, keys: seq<K>, vals: seq<Word>) {

    ghost predicate Shaped() {
      shift <= MAX_SHIFT && |keys| == Pow2(shift) && |vals| == Pow2(shift)
    }

    ghost predicate Occupied(i: int)
      requires Shaped()
    {
      0 <= i < |vals| && !IsMarker(vals[i])
    }

    /** The slot of the n-th probe for key. */
    ghost function At(key: K, n: nat): (i: nat)
      requires Shaped()
      ensures i < |vals|
    {
      Slot(hash(key), shift, n)
    }

    /** The first n probes for key meet no never-used slot, so a search goes on past them. */
    ghost predicate Passes(key: K, n: nat)
      requires Shaped()
    {
      forall m | 0 <= m < n :: vals[At(key, m)] != UNUSED
    }

    /** Slot i is found by a search for key. */
    ghost predicate Reaches(key: K, i: nat)
      requires Shaped()
    {
      exists n: nat :: Passes(key, n) && At(key, n) == i
    }

    ghost predicate Distinct()
      requires Shaped()
    {
      forall i, j :: Occupied(i) && Occupied(j) && keys[i] == keys[j] ==> i == j
    }

    ghost predicate Chained()
      requires Shaped()
    {
      forall i :: Occupied(i) ==> Reaches(keys[i], i)
    }

    ghost predicate WellFormed() {
      Shaped() && Distinct() && Chained()
    }

    /** The bindings found in the first n slots. */
    ghost function Prefix(n: nat): map<K, Word>
      requires Shaped() && n <= |vals|
    {
      if n == 0 then map[]
      else if Occupied(n - 1) then Prefix(n - 1)[keys[n - 1] := vals[n - 1]]
      else Prefix(n - 1)
    }

    /** The finite map the table stands for. */
    ghost function Contents(): map<K, Word>
      requires Shaped()
    {
      Prefix(|vals|)
    }

    /** The first n probes for key do not hold key. */
    ghost predicate Misses(key: K, n: nat)
      requires Shaped()
    {
      forall m | 0 <= m < n :: Occupied(At(key, m)) ==> keys[At(key, m)] != key
    }

    /** key sits behind a deleted slot of its own probe sequence. */
    ghost predicate BehindDummy(key: K)
      requires Shaped()
    {
      exists n: nat, d: nat :: d < n && Misses(key, n) && vals[At(key, d)] == DUMMY
                    && Occupied(At(key, n)) && keys[At(key, n)] == key
    }

    ghost function Write(i: nat, key: K, val: Word): Table<K>
      requires Shaped() && i < |vals|
    {
      Table(hash, shift, keys[i := key], vals[i := val])
    }
  }

  // ----- reading the map off the slots

  lemma {:induction false} SlotInPrefix<K>(t: Table<K>, n: nat, i: nat)
    requires t.Shaped() && t.Distinct() && i < n <= |t.vals| && t.Occupied(i)
    ensures t.keys[i] in t.Prefix(n) && t.Prefix(n)[t.keys[i]] == t.vals[i]
  {
    if i < n - 1 {
      SlotInPrefix(t, n - 1, i);
    }
  }

  lemma {:induction false} PrefixHasSlot<K>(t: Table<K>, n: nat, key: K) returns (i: nat)
    requires t.Shaped() && n <= |t.vals| && key in t.Prefix(n)
    ensures i < n && t.Occupied(i) && t.keys[i] == key && t.Prefix(n)[key] == t.vals[i]
  {
    if t.Occupied(n - 1) && t.keys[n - 1] == key {
      i := n - 1;
    } else {
      i := PrefixHasSlot(t, n - 1, key);
    }
  }

  lemma {:induction false} EmptyPrefix<K>(t: Table<K>, n: nat)
    requires t.Shaped() && n <= |t.vals| && forall i :: !t.Occupied(i)
    ensures t.Prefix(n) == map[]
  {
    if n > 0 {
      EmptyPrefix(t, n - 1);
    }
  }

  lemma SlotInContents<K>(t: Table<K>, i: nat)
    requires t.Shaped() && t.Distinct() && t.Occupied(i)
    ensures t.keys[i] in t.Contents() && t.Contents()[t.keys[i]] == t.vals[i]
  {
    SlotInPrefix(t, |t.vals|, i);
  }

  lemma ContentsHasSlot<K>(t: Table<K>, key: K) returns (i: nat)
    requires t.Shaped() && key in t.Contents()
    ensures t.Occupied(i) && t.keys[i] == key && t.Contents()[key] == t.vals[i]
  {
    i := PrefixHasSlot(t, |t.vals|, key);
  }

  /** The next occupied slot holds a key not met before. */
  lemma PrefixStep<K>(t: Table<K>, n: nat)
    requires t.Shaped() && t.Distinct() && n < |t.vals| && t.Occupied(n)
    ensures t.keys[n] !in t.Prefix(n)
    ensures |t.Prefix(n + 1)| == |t.Prefix(n)| + 1
  {
    if t.keys[n] in t.Prefix(n) {
      var i := PrefixHasSlot(t, n, t.keys[n]);
    }
  }

  lemma {:induction false} PrefixSize<K>(t: Table<K>, n: nat)
    requires t.Shaped() && t.Distinct() && n <= |t.vals|
    ensures |t.Prefix(n)| <= |t.Contents()|
    ensures |t.Prefix(n)| == |t.Contents()| ==> t.Prefix(n) == t.Contents()
    decreases |t.vals| - n
  {
    if n < |t.vals| {
      PrefixSize(t, n + 1);
      if t.Occupied(n) {
        PrefixStep(t, n);
      }
    }
  }

  lemma ContentsEqual<K>(t: Table<K>, m: map<K, Word>)
    requires t.Shaped() && t.Distinct()
    requires forall i :: t.Occupied(i) ==> t.keys[i] in m && m[t.keys[i]] == t.vals[i]
    requires forall key :: key in m ==> exists i :: t.Occupied(i) && t.keys[i] == key
    ensures t.Contents() == m
  {
    forall key | key in m ensures key in t.Contents() && t.Contents()[key] == m[key] {
      var i :| t.Occupied(i) && t.keys[i] == key;
      SlotInContents(t, i);
    }
    forall key | key in t.Contents() ensures key in m {
      var i := ContentsHasSlot(t, key);
    }
  }

  /** No probe that finds key lies beyond a never-used slot. */
  lemma NoHitPastStop<K>(t: Table<K>, key: K, n: nat, c: nat)
    requires t.Shaped()
    requires t.Misses(key, n) && t.vals[t.At(key, n)] == UNUSED
    ensures t.Passes(key, c) && t.Occupied(t.At(key, c)) ==> t.keys[t.At(key, c)] != key
  {
  }

  /** A search that runs into a never-used slot has proved the key absent. */
  lemma StopMeansAbsent<K>(t: Table<K>, key: K, n: nat)
    requires t.WellFormed()
    requires t.Misses(key, n) && t.vals[t.At(key, n)] == UNUSED
    ensures key !in t.Contents()
  {
    forall c: nat {
      NoHitPastStop(t, key, n, c);
    }
    forall i | t.Occupied(i) ensures t.keys[i] != key {
      var c: nat :| t.Passes(t.keys[i], c) && t.At(t.keys[i], c) == i;
    }
    if key in t.Contents() {
      var i := ContentsHasSlot(t, key);
    }
  }

  lemma NextProbe<K>(t: Table<K>, key: K, n: nat)
    requires t.Shaped() && t.Misses(key, n)
    requires t.Occupied(t.At(key, n)) ==> t.keys[t.At(key, n)] != key
    ensures t.Misses(key, n + 1)
    ensures t.At(key, n + 1) == Advance(t.At(key, n), Perturb(t.hash(key), n), t.shift)
    ensures Perturb(t.hash(key), n + 1) == Perturb(t.hash(key), n) / PERTURB_SHIFT_FACTOR
  {
  }

  // ----- what one write does

  /** Filling an empty slot, reached by a search for an absent key, adds one binding. */
  lemma FillSlot<K>(t: Table<K>, key: K, val: Word, n: nat)
    requires t.WellFormed() && key !in t.Contents() && !IsMarker(val)
    requires t.Passes(key, n) && !t.Occupied(t.At(key, n))
    ensures t.Write(t.At(key, n), key, val).WellFormed()
    ensures t.Write(t.At(key, n), key, val).Contents() == t.Contents()[key := val]
  {
    var i := t.At(key, n);
    var t' := t.Write(i, key, val);
    forall j | t'.Occupied(j) && j != i ensures t.Occupied(j) && t'.keys[j] != key {
      SlotInContents(t, j);
    }
    WriteKeepsChains(t, i, key, val);
    assert t'.Reaches(key, i) by {
      PassesAfterWrite(t, i, key, val, key, n);
    }
    var m := t.Contents()[key := val];
    forall j | t'.Occupied(j) ensures t'.keys[j] in m && m[t'.keys[j]] == t'.vals[j] {
      if j != i {
        SlotInContents(t, j);
      }
    }
    forall k | k in m ensures exists j :: t'.Occupied(j) && t'.keys[j] == k {
      if k == key {
        assert t'.Occupied(i);
      } else {
        var j := ContentsHasSlot(t, k);
        assert t'.Occupied(j) && t'.keys[j] == k;
      }
    }
    ContentsEqual(t', m);
  }

  /** Overwriting a slot that holds key rebinds it. */
  lemma Overwrite<K>(t: Table<K>, i: nat, key: K, val: Word)
    requires t.WellFormed() && t.Occupied(i) && t.keys[i] == key && !IsMarker(val)
    ensures t.Write(i, key, val).WellFormed()
    ensures t.Write(i, key, val).Contents() == t.Contents()[key := val]
  {
    var t' := t.Write(i, key, val);
    assert forall j :: t'.Occupied(j) <==> t.Occupied(j);
    assert t'.keys == t.keys;
    WriteKeepsChains(t, i, key, val);
    assert t'.Reaches(key, i) by {
      var n: nat :| t.Passes(key, n) && t.At(key, n) == i;
      PassesAfterWrite(t, i, key, val, key, n);
    }
    var m := t.Contents()[key := val];
    forall j | t'.Occupied(j) ensures t'.keys[j] in m && m[t'.keys[j]] == t'.vals[j] {
      SlotInContents(t, j);
    }
    forall k | k in m ensures exists j :: t'.Occupied(j) && t'.keys[j] == k {
      if k == key {
        assert t'.Occupied(i);
      } else {
        var j := ContentsHasSlot(t, k);
        assert t'.Occupied(j) && t'.keys[j] == k;
      }
    }
    ContentsEqual(t', m);
  }

  /** Turning an occupied slot into DUMMY removes its binding and cuts no chain. */
  lemma KillSlot<K>(t: Table<K>, i: nat)
    requires t.WellFormed() && t.Occupied(i)
    ensures t.Write(i, t.keys[i], DUMMY).WellFormed()
    ensures t.Write(i, t.keys[i], DUMMY).Contents() == t.Contents() - {t.keys[i]}
  {
    var t' := t.Write(i, t.keys[i], DUMMY);
    assert t'.keys == t.keys;
    WriteKeepsChains(t, i, t.keys[i], DUMMY);
    var m := t.Contents() - {t.keys[i]};
    forall j | t'.Occupied(j) ensures t'.keys[j] in m && m[t'.keys[j]] == t'.vals[j] {
      assert j != i;
      SlotInContents(t, j);
    }
    forall k | k in m ensures exists j :: t'.Occupied(j) && t'.keys[j] == k {
      var j := ContentsHasSlot(t, k);
      assert t'.Occupied(j) && t'.keys[j] == k;
    }
    ContentsEqual(t', m);
  }

  lemma PassesAfterWrite<K>(t: Table<K>, i: nat, key: K, val: Word, k: K, n: nat)
    requires t.Shaped() && i < |t.vals| && val != UNUSED
    requires t.Passes(k, n)
    ensures t.Write(i, key, val).Passes(k, n)
    ensures t.Write(i, key, val).At(k, n) == t.At(k, n)
  {
    var t' := t.Write(i, key, val);
    forall m | 0 <= m < n ensures t'.vals[t'.At(k, m)] != UNUSED {
      assert t.vals[t.At(k, m)] != UNUSED;
    }
  }

  /** No write other than UNUSED can separate another key from its slot. */
  lemma WriteKeepsChains<K>(t: Table<K>, i: nat, key: K, val: Word)
    requires t.WellFormed() && i < |t.vals| && val != UNUSED
    ensures forall j :: t.Write(i, key, val).Occupied(j) && j != i
                        ==> t.Write(i, key, val).Reaches(t.keys[j], j)
  {
    var t' := t.Write(i, key, val);
    forall j | t'.Occupied(j) && j != i ensures t'.Reaches(t.keys[j], j) {
      assert t.Occupied(j);
      var n: nat :| t.Passes(t.keys[j], n) && t.At(t.keys[j], n) == j;
      PassesAfterWrite(t, i, key, val, t.keys[j], n);
    }
  }

  // ----- inserting a key that may be present

  /** The probe at which an insertion of key stops: an empty slot, or the key itself. */
  ghost predicate InsertStops<K>(t: Table<K>, key: K, n: nat)
    requires t.Shaped()
  {
    && t.Misses(key, n)
    && (forall m | 0 <= m < n :: t.Occupied(t.At(key, m)))
    && (t.Occupied(t.At(key, n)) ==> t.keys[t.At(key, n)] == key)
  }

  /** An insertion means "bind key to val" except when a deleted slot precedes the key. */
  lemma InsertMeaning<K>(t: Table<K>, key: K, val: Word, n: nat)
    requires t.WellFormed() && InsertStops(t, key, n) && !IsMarker(val)
    ensures t.Write(t.At(key, n), key, val).WellFormed() <==> !t.BehindDummy(key)
    ensures !t.BehindDummy(key)
            ==> t.Write(t.At(key, n), key, val).Contents() == t.Contents()[key := val]
  {
    var i := t.At(key, n);
    var t' := t.Write(i, key, val);
    if t.Occupied(i) {
      Overwrite(t, i, key, val);
      NotBehindDummy(t, key, n);
    } else if key !in t.Contents() {
      assert t.Passes(key, n);
      FillSlot(t, key, val, n);
      forall c: nat | t.Occupied(t.At(key, c)) ensures t.keys[t.At(key, c)] != key {
        SlotInContents(t, t.At(key, c));
      }
    } else {
      var j := ContentsHasSlot(t, key);
      assert t'.Occupied(i) && t'.Occupied(j) && t'.keys[i] == t'.keys[j] && i != j;
      assert !t'.WellFormed();
      PresentBehindStop(t, key, n, j);
    }
  }

  /** Such tables exist: key 8 was pushed on by key 7, which was deleted since; inserting 8 again makes a second 8. */
  lemma BehindDummyExample()
    ensures var t := Table((key: nat) => 0, 2, [7, 8, 9, 9], [DUMMY, 5, UNUSED, UNUSED]);
            t.WellFormed() && t.BehindDummy(8) && InsertStops(t, 8, 0) && !t.Write(t.At(8, 0), 8, 6).WellFormed()
  {
    var t := Table((key: nat) => 0, 2, [7, 8, 9, 9], [DUMMY, 5, UNUSED, UNUSED]);
    assert Pow2(2) == 4;
    assert t.At(8, 0) == 0;
    assert t.At(8, 1) == 1;
    assert t.Passes(8, 1) && t.Reaches(8, 1);
    assert t.Misses(8, 1) && t.BehindDummy(8);
    InsertMeaning(t, 8, 6, 0);
  }

  lemma NotBehindDummy<K>(t: Table<K>, key: K, n: nat)
    requires t.WellFormed() && InsertStops(t, key, n) && t.Occupied(t.At(key, n))
    ensures !t.BehindDummy(key)
  {
    forall c: nat, d: nat | d < c && t.Misses(key, c)
      ensures c <= n && t.Occupied(t.At(key, d))
    {
      assert !(n < c);
    }
  }

  lemma PresentBehindStop<K>(t: Table<K>, key: K, n: nat, j: nat)
    requires t.WellFormed() && InsertStops(t, key, n) && !t.Occupied(t.At(key, n))
    requires t.Occupied(j) && t.keys[j] == key
    ensures t.BehindDummy(key)
  {
    var c: nat :| t.Passes(key, c) && t.At(key, c) == j;
    var f := FirstHit(t, key, c);
    assert n < f && t.Passes(key, f);
    assert t.vals[t.At(key, n)] != UNUSED;
    assert t.vals[t.At(key, n)] == DUMMY;
    assert t.Misses(key, f) && t.Occupied(t.At(key, f)) && t.keys[t.At(key, f)] == key;
  }

  /** The least probe that finds key. */
  lemma {:induction false} FirstHit<K>(t: Table<K>, key: K, c: nat) returns (f: nat)
    requires t.Shaped() && t.Occupied(t.At(key, c)) && t.keys[t.At(key, c)] == key
    ensures f <= c && t.Misses(key, f) && t.Occupied(t.At(key, f)) && t.keys[t.At(key, f)] == key
    decreases c
  {
    if t.Misses(key, c) {
      f := c;
    } else {
      var m :| 0 <= m < c && t.Occupied(t.At(key, m)) && t.keys[t.At(key, m)] == key;
      f := FirstHit(t, key, m);
    }
  }
}
