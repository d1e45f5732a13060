/**
 How src/xtypes/xcache.c sizes and uses its two hash tables. The sizing makes every insertion
 below the limit succeed, at the latest after a rebuild of the same size, and makes every
 removal succeed at once; so the tables behave as the maps that XCacheRm takes them for.
 */
module XCacheTable {
  import opened Names
  import opened Words
  import opened HashTable
  import opened XHash

  /** The number of binary digits of n, which is 32 minus the count of leading zeros. */
  function Bits(n: nat): (k: nat)
    ensures n < Pow2(k)
    ensures n > 0 ==> k > 0 && Pow2(k - 1) <= n
  {
    if n == 0 then 0 else Bits(n / 2) + 1
  }

  /** The power of two that xcache_init rounds a requested size to. */
  function CacheSize(n: nat): nat
    requires n > 0
  {
    var floor, ceil := Pow2(Bits(n) - 1), Pow2(Bits(n));
    if n - floor < ceil - n then floor else ceil
  }

  function Distance(a: nat, b: nat): nat { if a < b then b - a else a - b }

  /** It is a power of two, and none is closer to the size requested; of two that are as close it is the larger. */
  lemma CacheSizeIsNearest(n: nat, k: nat)
    requires n > 0
    ensures exists j: nat :: CacheSize(n) == Pow2(j)
    ensures Distance(CacheSize(n), n) <= Distance(Pow2(k), n)
    ensures Distance(CacheSize(n), n) == Distance(Pow2(k), n) ==> Pow2(k) <= CacheSize(n)
  {
    var b := Bits(n);
    if CacheSize(n) == Pow2(b - 1) { } else { assert CacheSize(n) == Pow2(b); }
    if k < b { Pow2Monotone(k, b - 1); } else { Pow2Monotone(b, k); }
  }

  /** The largest size for which the 32-bit computations of xcache_init do not wrap around. */
  const MAX_SIZE: nat := 0x4000_0000

  /** The size_shift of both tables. */
  function HashShift(size: nat): nat { Bits(3 * size / 2) + 3 }

  lemma ShiftFits(size: nat)
    requires 0 < size <= MAX_SIZE
    ensures 4 <= HashShift(size) <= MAX_SHIFT
  {
    var n := 3 * size / 2;
    assert Pow2(10) == 1024;
    Pow2Add(10, 10);
    Pow2Add(20, 20);
    assert n < Pow2(40);
    if Bits(n) > 40 { Pow2Monotone(40, Bits(n) - 1); }
  }

  /** Eight times the least power of two above three halves of the size. */
  lemma HashShiftIsLeast(size: nat, k: nat)
    requires 0 < size
    ensures HashShift(size) >= 3 && 3 * size / 2 < Pow2(HashShift(size) - 3)
    ensures 3 * size / 2 < Pow2(k) ==> HashShift(size) <= k + 3
  {
    if Bits(3 * size / 2) > k { Pow2Monotone(k, Bits(3 * size / 2) - 1); }
  }

  /** A table below its limit that has no deleted slots takes one more without growing, eight times over. */
  lemma RoomWithoutDummies(used: nat, size: nat)
    requires used < size
    ensures !GrowCheck(used, HashShift(size))
    ensures 8 * (used + used / 2) < Pow2(HashShift(size))
  {
    Pow2Add(Bits(3 * size / 2), 3);
    assert Pow2(3) == 8;
    assert used + used / 2 <= 3 * size / 2;
  }

  class CacheTable {
    var table: XHash<Name>
    const size: nat

    ghost predicate Valid()
      reads this, table, table.kvs, table.vals
    {
      && 0 < size <= MAX_SIZE && table.Valid() && table.limit == size
      && table.sizeShift == table.minsizeShift == HashShift(size)
    }

    ghost function Map(): map<Name, Word>
      requires Valid()
      reads this, table, table.kvs, table.vals
    {
      table.Map()
    }

    constructor (n: nat, hash: Name -> Word)
      requires 0 < n <= MAX_SIZE
      ensures Valid() && size == n && Map() == map[]
      ensures fresh(table) && fresh(table.kvs) && fresh(table.vals)
    {
      ShiftFits(n);
      size := n;
      table := new XHash<Name>(HashShift(n), HashShift(n), n, hash);
    }

    /**
     __table_insert of a name that is not in the table. Below the limit it fails only if it must
     rebuild and has no memory for that; the insertion after a rebuild never fails.
     */
    method Insert(name: Name, h: Word, memory: bool) returns (st: Status)
      requires Valid() && name !in Map() && !IsMarker(h)
      modifies this, table, table.kvs, table.vals
      ensures Valid()
      ensures st == if |old(Map())| >= size then ENoSpc
                    else if !memory && old(GrowCheck(table.used + table.dummies, table.sizeShift)) then EResize
                    else Ok
      ensures Map() == if st == Ok then old(Map())[name := h] else old(Map())
      ensures fresh(table) || table == old(table)
    {
      ShiftFits(size);
      AbsentIsNotBehindDummy(table.View(), name);
      st := table.Insert(name, h);
      if st == EResize && memory {
        RoomWithoutDummies(table.used, size);
        Rebuild();
        FreshIsNotBehindDummy(table.View(), name);
        st := table.Insert(name, h);
      }
    }

    method Rebuild()
      requires Valid() && table.used < size
      modifies this
      ensures Valid() && Map() == old(Map()) && table.dummies == 0 && table.used == old(table.used)
      ensures fresh(table) && fresh(table.kvs) && fresh(table.vals)
    {
      ShiftFits(size);
      RoomWithoutDummies(table.used, size);
      table := table.Resize(table.sizeShift, table.limit);
    }

    /** __table_remove: the table has its smallest size, so that it is never asked to shrink. */
    method Remove(name: Name) returns (st: Status)
      requires Valid()
      modifies this, table, table.kvs, table.vals
      ensures Valid()
      ensures st == if name in old(Map()) then Ok else ENoEnt
      ensures Map() == old(Map()) - {name}
      ensures table == old(table)
    {
      st := table.Delete(name);
      assert name !in old(Map()) ==> old(Map()) - {name} == old(Map());
    }

    /** __table_lookup */
    method Lookup(name: Name) returns (st: Status, h: Word)
      requires Valid()
      ensures st == if name in Map() then Ok else EExist
      ensures name in Map() ==> h == Map()[name]
    {
      st, h := table.Lookup(name);
    }
  }
}
