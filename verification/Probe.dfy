/**
 The probe sequence of the open-addressing table (src/xtypes/xhash.c):
 `idx = 5*idx + 1 + perturb mod 2^k`, `perturb >>= 5`, both starting from the hash.

 The sequence reaches every slot. Once `perturb` has been shifted out the recurrence is
 the map x -> 5x + 1, and 2^k iterations of that map act as adding 2^k modulo 2^(k+1);
 this doubles the set of residues reached at each step of an induction over k.
 */
module Probe {
  import opened Words

  const PERTURB_SHIFT_FACTOR: nat := 32  // one shift by PERTURB_SHIFT == 5

  /** Value of `perturb` when the n-th probe is made. */
  function Perturb(hash: Word, n: nat): Word {
    if n == 0 then hash else Perturb(hash, n - 1) / PERTURB_SHIFT_FACTOR
  }

  /** One step of the C recurrence, on 64-bit words. */
  function Advance(idx: nat, perturb: Word, k: nat): (r: nat)
    ensures r < Pow2(k)
  {
    ((5 * idx + 1 + perturb) % WORD_LIMIT) % Pow2(k)
  }

  /** Value of `idx` when the n-th probe is made. */
  function Slot(hash: Word, k: nat, n: nat): (r: nat)
    ensures r < Pow2(k)
  {
    if n == 0 then hash % Pow2(k)
    else Advance(Slot(hash, k, n - 1), Perturb(hash, n - 1), k)
  }

  /** The number of probes that are enough to see every slot. */
  function ProbeBound(k: nat): nat { 13 + Pow2(k) }

  // ----- the unperturbed map, on unbounded integers

  function Iterate(n: nat, x: int): int {
    if n == 0 then x else 5 * Iterate(n - 1, x) + 1
  }

  lemma {:induction false} IterateCompose(m: nat, n: nat, x: int)
    ensures Iterate(m + n, x) == Iterate(m, Iterate(n, x))
  {
    if m == 0 {
    } else {
      IterateCompose(m - 1, n, x);
    }
  }

  /** 2^k iterations form the affine map with slope 1 mod 2^(k+2) and offset 2^k mod 2^(k+1). */
  lemma {:induction false} IterateAffine(k: nat) returns (u: int, v: int)
    ensures forall x :: Iterate(Pow2(k), x) == (1 + 4 * Pow2(k) * u) * x + Pow2(k) * (1 + 2 * v)
  {
    if k == 0 {
      u, v := 1, 0;
      forall x ensures Iterate(1, x) == 5 * x + 1 {
        assert Iterate(1, x) == 5 * Iterate(0, x) + 1;
      }
    } else {
      var u0, v0 := IterateAffine(k - 1);
      var p := Pow2(k - 1);
      var a := 1 + 4 * p * u0;
      var b := p * (1 + 2 * v0);
      u := u0 + 2 * p * u0 * u0;
      v := v0 + p * u0 * (1 + 2 * v0);
      forall x ensures Iterate(2 * p, x) == (1 + 4 * (2 * p) * u) * x + (2 * p) * (1 + 2 * v) {
        IterateCompose(p, p, x);
        assert Iterate(p, x) == a * x + b;
        assert Iterate(p, a * x + b) == a * (a * x + b) + b;
        Doubling(p, u0, v0, x);
      }
    }
  }

  /** Squaring the affine map of IterateAffine, as an identity of integers. */
  lemma Doubling(p: int, u: int, v: int, x: int)
    ensures var a := 1 + 4 * p * u; var b := p * (1 + 2 * v);
            a * (a * x + b) + b
            == (1 + 4 * (2 * p) * (u + 2 * p * u * u)) * x + (2 * p) * (1 + 2 * (v + p * u * (1 + 2 * v)))
  {
    var pu := p * u;
    var a := 1 + 4 * pu;
    var w := 1 + 2 * v;
    var b := p * w;
    assert 4 * p * u == 4 * pu;
    assert a * a == 1 + 8 * pu + 16 * (pu * pu);
    assert a * (a * x + b) + b == (a * a) * x + (a * b + b);
    assert a * b + b == 2 * b + 4 * (pu * b);
    assert 4 * (2 * p) * (u + 2 * p * u * u) == 8 * pu + 16 * (pu * pu) by {
      assert p * (2 * p * u * u) == 2 * (pu * pu);
    }
    assert (2 * p) * (1 + 2 * (v + p * u * w)) == 2 * b + 4 * (pu * b) by {
      assert p * (1 + 2 * (v + pu * w)) == p * w + 2 * (p * (pu * w));
      assert p * (pu * w) == pu * b;
    }
  }

  /** 2^k iterations add 2^k modulo 2^(k+1). */
  lemma IterateJump(k: nat, x: int)
    ensures Iterate(Pow2(k), x) % Pow2(k + 1) == (x + Pow2(k)) % Pow2(k + 1)
  {
    var u, v := IterateAffine(k);
    var p := Pow2(k);
    AffineJump(p, u, v, x);
    SameRemainder(Iterate(p, x), x + p, 2 * p, 2 * u * x + v);
  }

  lemma AffineJump(p: int, u: int, v: int, x: int)
    ensures (1 + 4 * p * u) * x + p * (1 + 2 * v) == x + p + (2 * p) * (2 * u * x + v)
  {
    assert (4 * p * u) * x == (2 * p) * (2 * u * x);
    assert p * (1 + 2 * v) == p + (2 * p) * v;
    assert (2 * p) * (2 * u * x) + (2 * p) * v == (2 * p) * (2 * u * x + v);
  }

  /** x -> 5x + 1 visits every residue modulo 2^k within 2^k steps, from any start. */
  lemma {:induction false} IterateFullCycle(k: nat, x: int, t: nat) returns (n: nat)
    requires t < Pow2(k)
    ensures n < Pow2(k)
    ensures Iterate(n, x) % Pow2(k) == t
  {
    if k == 0 {
      n := 0;
    } else {
      var p := Pow2(k - 1);
      var low := t % p;
      n := IterateFullCycle(k - 1, x, low);
      var y := Iterate(n, x);
      ModOfMod(y, p, 2);
      assert (y % (2 * p)) % p == low;
      HalfOrOther(y % (2 * p), t, p);
      if y % (2 * p) != t {
        IterateCompose(p, n, x);
        IterateJump(k - 1, y);
        n := n + p;
        assert Iterate(n, x) % (2 * p) == (y + p) % (2 * p);
        OtherHalf(y, t, p);
      }
    }
  }

  /** Equal residues go on equal. */
  lemma {:induction false} IterateCongruent(n: nat, x: int, y: int, m: nat)
    requires m > 0 && x % m == y % m
    ensures Iterate(n, x) % m == Iterate(n, y) % m
  {
    if n > 0 {
      IterateCongruent(n - 1, x, y, m);
      FiveTimesRemainder(Iterate(n - 1, x), m);
      FiveTimesRemainder(Iterate(n - 1, y), m);
    }
  }

  /** The residues met in the first n steps. */
  ghost function Orbit(x: int, n: nat, m: nat): (s: set<int>)
    requires m > 0
    ensures |s| <= n
  {
    if n == 0 then {} else Orbit(x, n - 1, m) + {Iterate(n - 1, x) % m}
  }

  lemma {:induction false} InOrbit(x: int, i: nat, n: nat, m: nat)
    requires m > 0 && i < n
    ensures Iterate(i, x) % m in Orbit(x, n, m)
    decreases n
  {
    if i < n - 1 { InOrbit(x, i, n - 1, m); }
  }

  /** If the start comes back after n steps, nothing else is ever met. */
  lemma {:induction false} OrbitCloses(x: int, i: nat, n: nat, m: nat)
    requires m > 0 && n > 0 && Iterate(n, x) % m == x % m
    ensures Iterate(i, x) % m in Orbit(x, n, m)
    decreases i
  {
    if i < n {
      InOrbit(x, i, n, m);
    } else {
      IterateCompose(i - n, n, x);
      IterateCongruent(i - n, Iterate(n, x), x, m);
      OrbitCloses(x, i - n, n, m);
    }
  }

  /** A set that holds 0 .. n-1 has at least n members. */
  lemma {:induction false} AtLeast(n: nat, s: set<int>)
    requires forall t | 0 <= t < n :: t in s
    ensures |s| >= n
    decreases n
  {
    if n > 0 {
      AtLeast(n - 1, s - {n - 1});
    }
  }

  /** Starting anywhere, the walk x -> 5x + 1 modulo 2^k is back first after exactly 2^k steps. */
  lemma FirstReturn(k: nat, x: int, n: nat)
    requires 0 < n <= Pow2(k)
    ensures Iterate(n, x) % Pow2(k) == x % Pow2(k) <==> n == Pow2(k)
  {
    var m := Pow2(k);
    if n < m && Iterate(n, x) % m == x % m {
      forall t | 0 <= t < m ensures t in Orbit(x, n, m) {
        var i := IterateFullCycle(k, x, t);
        OrbitCloses(x, i, n, m);
      }
      AtLeast(m, Orbit(x, n, m));
    }
    IterateJump(k, x);
    ModOfMod(Iterate(m, x), m, 2);
    ModOfMod(x + m, m, 2);
    SameRemainder(x + m, x, m, 1);
  }

  lemma HalfOrOther(r: nat, t: nat, p: nat)
    requires p > 0 && r < 2 * p && t < 2 * p
    requires r % p == t % p
    ensures r == t || r == t + p || t == r + p
  {
    if r < p {
      RemainderUnique(r, p, 0, r);
    } else {
      RemainderUnique(r, p, 1, r - p);
    }
    if t < p {
      RemainderUnique(t, p, 0, t);
    } else {
      RemainderUnique(t, p, 1, t - p);
    }
  }

  lemma OtherHalf(y: int, t: nat, p: nat)
    requires p > 0 && t < 2 * p
    requires y % (2 * p) == t + p || t == y % (2 * p) + p
    ensures (y + p) % (2 * p) == t
  {
    var d := y / (2 * p);
    var r := y % (2 * p);
    assert y == (2 * p) * d + r;
    if r < p {
      RemainderUnique(y + p, 2 * p, d, r + p);
    } else {
      assert (2 * p) * (d + 1) == (2 * p) * d + 2 * p;
      RemainderUnique(y + p, 2 * p, d + 1, r - p);
    }
  }

  // ----- the perturbed sequence

  lemma {:induction false} PerturbBound(hash: Word, n: nat)
    requires n <= 13
    ensures Perturb(hash, n) < Pow2(65 - 5 * n)
  {
    if n == 0 {
      Pow2Of64();
      assert Pow2(65) == 2 * Pow2(64);
    } else {
      PerturbBound(hash, n - 1);
      Pow2Add(65 - 5 * n, 5);
      assert Pow2(5) == 32;
    }
  }

  /** After thirteen shifts nothing of a 64-bit hash is left. */
  lemma {:induction false} PerturbRunsOut(hash: Word, n: nat)
    requires n >= 13
    ensures Perturb(hash, n) == 0
  {
    if n == 13 {
      PerturbBound(hash, 13);
    } else {
      PerturbRunsOut(hash, n - 1);
    }
  }

  lemma {:induction false} SlotFollowsIterate(hash: Word, k: nat, n: nat)
    requires k <= 64
    ensures Slot(hash, k, 13 + n) == Iterate(n, Slot(hash, k, 13)) % Pow2(k)
  {
    var m := Pow2(k);
    var x := Slot(hash, k, 13);
    if n == 0 {
      RemainderUnique(x, m, 0, x);
    } else {
      SlotFollowsIterate(hash, k, n - 1);
      PerturbRunsOut(hash, 13 + (n - 1));
      var y := Iterate(n - 1, x);
      assert Slot(hash, k, 13 + n) == Advance(y % m, 0, k);
      AdvanceUnperturbed(y, k);
    }
  }

  /** A whole number of m more changes nothing. */
  lemma FiveTimes(q: int, r: int, m: nat)
    requires m > 0
    ensures (5 * (m * q + r) + 1) % m == (5 * r + 1) % m
  {
    assert m * (5 * q) == 5 * (m * q);
    SameRemainder(5 * (m * q + r) + 1, 5 * r + 1, m, 5 * q);
  }

  lemma FiveTimesRemainder(y: int, m: nat)
    requires m > 0
    ensures (5 * y + 1) % m == (5 * (y % m) + 1) % m
  {
    assert y == m * (y / m) + y % m;
    FiveTimes(y / m, y % m, m);
  }

  lemma AdvanceUnperturbed(y: int, k: nat)
    requires k <= 64
    ensures Advance(y % Pow2(k), 0, k) == (5 * y + 1) % Pow2(k)
  {
    WrapThenMask(5 * (y % Pow2(k)) + 1, k);
    FiveTimesRemainder(y, Pow2(k));
  }

  /** Every slot of the table is probed within 13 + 2^k probes, for every hash. */
  lemma VisitsEverySlot(hash: Word, k: nat, t: nat) returns (n: nat)
    requires k <= 64 && t < Pow2(k)
    ensures n < ProbeBound(k)
    ensures Slot(hash, k, n) == t
  {
    var i := IterateFullCycle(k, Slot(hash, k, 13), t);
    SlotFollowsIterate(hash, k, i);
    n := 13 + i;
  }
}
