/**
 The request-data table of src/xseg.c (xseg_set_req_data, xseg_get_req_data): an xhash that
 its client resizes whenever an operation answers EResize, and then tries once more.

 Growing and shrinking hold each other in check: what a grow leaves behind never asks for a
 shrink, and a table that has just been resized never asks for the same resize again.
 */
module ReqData {
  import opened Words
  import opened HashTable
  import opened XHash

  /** The hysteresis invariant: above its smallest size the table stays a quarter full. */
  ghost predicate Dense(used: nat, shift: nat, minShift: nat) {
    4 * (used + 1) >= Pow2(shift) || shift == minShift
  }

  /** After a resize to the grown shift there is room, so the second insert cannot ask again. */
  lemma GrowSettles(used: nat, shift: nat, minShift: nat)
    requires 2 <= minShift <= shift && used < Pow2(shift)
    ensures used < Pow2(GrowShift(used, shift))
    ensures !GrowCheck(used, GrowShift(used, shift))
    ensures Dense(used, shift, minShift) ==> Dense(used, GrowShift(used, shift), minShift)
  {
  }

  /** After one shrink of a dense table the second delete cannot ask again. */
  lemma ShrinkSettles(used: nat, shift: nat, minShift: nat)
    requires 2 <= minShift <= shift && ShrinkCheck(used, shift, minShift) && Dense(used, shift, minShift)
    ensures used < Pow2(ShrinkShift(shift, minShift))
    ensures !ShrinkCheck(used, ShrinkShift(shift, minShift), minShift)
    ensures Dense(used, ShrinkShift(shift, minShift), minShift)
  {
    Pow2Monotone(2, shift - 1);
    assert Pow2(2) == 4;
  }

  /** Without the invariant one shrink is not enough: 1 binding in 32 slots, smallest size 4. */
  lemma SparseNeedsTwoShrinks()
    ensures !Dense(1, 5, 2) && ShrinkCheck(1, 5, 2) && ShrinkCheck(1, ShrinkShift(5, 2), 2)
  {
    assert Pow2(5) == 32 && Pow2(4) == 16;
  }

  class ReqData {
    var table: XHash<Word>

    ghost predicate Valid()
      reads this, table, table.kvs, table.vals
    {
      && table.Valid()
      && 2 <= table.minsizeShift <= table.sizeShift && table.limit == 0
      && Dense(table.used, table.sizeShift, table.minsizeShift)
    }

    ghost function Map(): map<Word, Word>
      requires Valid()
      reads this, table, table.kvs, table.vals
    {
      table.Map()
    }

    constructor (hash: Word -> Word)
      ensures Valid() && Map() == map[]
      ensures fresh(table) && fresh(table.kvs) && fresh(table.vals)
    {
      table := new XHash<Word>(3, 3, 0, hash);
    }

    /** Replaces the table by a copy of another size. */
    method Rebuild(shift: nat)
      requires Valid() && shift <= MAX_SHIFT && table.used < Pow2(shift)
      requires table.minsizeShift <= shift && Dense(table.used, shift, table.minsizeShift)
      modifies this
      ensures Valid() && Map() == old(Map())
      ensures table.sizeShift == shift && table.dummies == 0 && table.used == old(table.used)
      ensures table.minsizeShift == old(table.minsizeShift)
      ensures fresh(table) && fresh(table.kvs) && fresh(table.vals)
    {
      table := table.Resize(shift, 0);
    }

    /**
     xseg_set_req_data. When memory is available the binding is always made: the insert that
     follows a resize never answers EResize. Without a resize, a request that is present behind a
     deleted slot gets a second binding, and the table is not in order any more.
     */
    method Set(req: Word, data: Word, memory: bool) returns (st: Status)
      requires Valid() && !IsMarker(data)
      modifies this, table, table.kvs, table.vals
      ensures st == Ok || st == EResize
      ensures st == Ok ==> (Valid() <==> !old(table.View().BehindDummy(req))
                                         || old(GrowCheck(table.used + table.dummies, table.sizeShift)))
      ensures st == Ok && Valid() ==> Map() == old(Map())[req := data]
      ensures st == EResize ==> Valid() && Map() == old(Map())
      ensures st == Ok <==> || 3 * old(table.used + table.dummies) < 2 * old(Pow2(table.sizeShift))
                            || (memory && old(GrowShift(table.used, table.sizeShift)) <= MAX_SHIFT)
    {
      GrowCheckIff(table.used + table.dummies, table.sizeShift);
      st := table.Insert(req, data);
      if st == EResize && memory && GrowShift(table.used, table.sizeShift) <= MAX_SHIFT {
        GrowSettles(table.used, table.sizeShift, table.minsizeShift);
        Rebuild(GrowShift(table.used, table.sizeShift));
        FreshIsNotBehindDummy(table.View(), req);
        st := table.Insert(req, data);
      }
    }

    /**
     xseg_get_req_data: takes the binding out. When memory is available a present request is
     always removed: the delete that follows a shrink never answers EResize.
     */
    method Get(req: Word, memory: bool) returns (st: Status, data: Word)
      requires Valid()
      modifies this, table, table.kvs, table.vals
      ensures Valid()
      ensures req !in old(Map()) ==> st == EExist && Map() == old(Map())
      ensures req in old(Map()) ==> data == old(Map())[req]
      ensures req in old(Map()) ==>
                (st == Ok <==> memory || old(table.used) >= Pow2(old(table.sizeShift) - 2)
                               || old(table.sizeShift) == old(table.minsizeShift))
      ensures st == Ok ==> req in old(Map()) && Map() == old(Map()) - {req}
      ensures req in old(Map()) && st != Ok ==> st == EResize && Map() == old(Map())
    {
      ShrinkCheckIff(table.used, table.sizeShift, table.minsizeShift);
      st, data := table.Lookup(req);
      if st == Ok {
        st := table.Delete(req);
        if st == EResize && memory {
          ShrinkSettles(table.used, table.sizeShift, table.minsizeShift);
          Rebuild(ShrinkShift(table.sizeShift, table.minsizeShift));
          st := table.Delete(req);
        }
      }
    }
  }
}
