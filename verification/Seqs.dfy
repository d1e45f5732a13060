/** Reversal of sequences, which growing a queue performs (src/xtypes/xq.c, __xq_resize). */
module Seqs {

  ghost function Reversed<T>(s: seq<T>): (r: seq<T>)
    ensures |r| == |s|
  {
    if s == [] then [] else Reversed(s[1..]) + [s[0]]
  }

  lemma {:induction false} ReversedAppend<T>(s: seq<T>, x: T)
    ensures Reversed(s + [x]) == [x] + Reversed(s)
  {
    if s == [] {
      assert [x][1..] == [] && Reversed([x]) == Reversed([]) + [x];
    } else {
      ReversedAppend(s[1..], x);
      assert (s + [x])[1..] == s[1..] + [x];
    }
  }

  lemma ReversedPrepend<T>(s: seq<T>, x: T)
    ensures Reversed([x] + s) == Reversed(s) + [x]
  {
    assert ([x] + s)[1..] == s;
  }

  lemma {:induction false} ReversedTwice<T>(s: seq<T>)
    ensures Reversed(Reversed(s)) == s
  {
    if s != [] {
      ReversedAppend(Reversed(s[1..]), s[0]);
      ReversedTwice(s[1..]);
    }
  }

  lemma {:induction false} ReversedKeepsElements<T>(s: seq<T>)
    ensures multiset(Reversed(s)) == multiset(s)
  {
    if s != [] {
      ReversedKeepsElements(s[1..]);
      assert s == [s[0]] + s[1..];
    }
  }

  /** There are no more than n numbers below n. */
  lemma {:induction false} FewBelow(n: nat, s: set<nat>)
    requires forall p | p in s :: p < n
    ensures |s| <= n
    decreases n
  {
    if n == 0 {
      assert s == {};
    } else {
      FewBelow(n - 1, s - {n - 1});
    }
  }

  /** A queue that lists numbers below n at most once, and i not at all, is shorter than n. */
  lemma Sparse(q: seq<nat>, n: nat, i: nat)
    requires (forall j :: multiset(q)[j] <= if j < n then 1 else 0) && i < n && multiset(q)[i] == 0
    ensures |q| < n
  {
    var all := set j | j in q;
    OnceEach(q, all);
    forall j | j in all ensures j < n && j != i {
      assert multiset(q)[j] > 0;
    }
    FewBelow(n, all + {i});
  }

  lemma {:induction false} OnceEach(q: seq<nat>, all: set<nat>)
    requires (forall j :: multiset(q)[j] <= 1) && forall j :: j in all <==> j in q
    ensures |all| == |q|
  {
    if q == [] {
      assert all == {};
    } else {
      var rest, last := q[..|q| - 1], q[|q| - 1];
      assert q == rest + [last];
      forall j ensures multiset(rest)[j] <= 1 && (j in all - {last} <==> j in rest) {
        assert multiset(q)[j] == multiset(rest)[j] + if j == last then 1 else 0;
        assert j in rest <==> multiset(rest)[j] > 0;
        assert j in q <==> multiset(q)[j] > 0;
      }
      OnceEach(rest, all - {last});
    }
  }
}
