/**
 Machine words and the arithmetic of powers of two.

 The library computes on 64-bit unsigned words. A word is a subset type of `nat`, and
 every place where the C code can wrap around writes the reduction out.
 */
module Words {

  const WORD_LIMIT: nat := 0x1_0000_0000_0000_0000

  type Word = w: nat | w < WORD_LIMIT

  /** The all-ones word: `Noneidx`, `NoNode`, `NoIndex` and the like. */
  const NONE: Word := WORD_LIMIT - 1

  function Pow2(k: nat): (p: nat)
    ensures p > 0
  {
    if k == 0 then 1 else 2 * Pow2(k - 1)
  }

  lemma {:induction false} Pow2Add(a: nat, b: nat)
    ensures Pow2(a + b) == Pow2(a) * Pow2(b)
  {
    if b == 0 {
    } else {
      Pow2Add(a, b - 1);
      assert Pow2(a + b) == 2 * Pow2(a + (b - 1));
      assert 2 * (Pow2(a) * Pow2(b - 1)) == Pow2(a) * (2 * Pow2(b - 1));
    }
  }

  lemma {:induction false} Pow2Monotone(a: nat, b: nat)
    requires a <= b
    ensures Pow2(a) <= Pow2(b)
    decreases b
  {
    if a < b {
      Pow2Monotone(a, b - 1);
    }
  }

  lemma Pow2Of64()
    ensures Pow2(64) == WORD_LIMIT
  {
    assert Pow2(4) == 16;
    Pow2Add(4, 4);
    Pow2Add(8, 8);
    Pow2Add(16, 16);
    Pow2Add(32, 32);
  }

  /** x and y differ by a whole multiple of m exactly when they have the same remainder. */
  lemma SameRemainder(x: int, y: int, m: nat, q: int)
    requires m > 0
    requires x == y + m * q
    ensures x % m == y % m
  {
    var r := y % m;
    var d := y / m;
    assert y == m * d + r;
    assert x == m * (d + q) + r by {
      assert m * d + m * q == m * (d + q);
    }
    RemainderUnique(x, m, d + q, r);
  }

  lemma RemainderUnique(x: int, m: nat, d: int, r: int)
    requires 0 <= r < m
    requires x == m * d + r
    ensures x % m == r && x / m == d
  {
    var e := x / m - d;
    assert x == m * (x / m) + x % m;
    assert m * (x / m) == m * d + m * e;
    assert m * e == r - x % m;
    if e >= 1 {
      MulMonotone(m, 1, e);
    } else if e <= -1 {
      MulMonotone(m, e, -1);
    }
  }

  lemma MulMonotone(m: nat, a: int, b: int)
    requires a <= b
    ensures m * a <= m * b
  {
  }

  /** One wrap-around at most: the usual case for counters. */
  lemma WrapNear(x: int)
    requires 0 <= x + WORD_LIMIT && x < 2 * WORD_LIMIT
    ensures x % WORD_LIMIT == if x < 0 then x + WORD_LIMIT else if x < WORD_LIMIT then x else x - WORD_LIMIT
  {
    if x < 0 {
      RemainderUnique(x, WORD_LIMIT, -1, x + WORD_LIMIT);
    } else if x >= WORD_LIMIT {
      RemainderUnique(x, WORD_LIMIT, 1, x - WORD_LIMIT);
    }
  }

  /** Reducing modulo a multiple first does not change the remainder. */
  lemma ModOfMod(x: int, m: nat, c: nat)
    requires m > 0 && c > 0
    ensures m * c > 0
    ensures (x % (m * c)) % m == x % m
  {
    assert m * c > 0;
    var q := x / (m * c);
    assert x == (m * c) * q + x % (m * c);
    assert (m * c) * q == m * (c * q);
    SameRemainder(x, x % (m * c), m, c * q);
  }

  /** A 64-bit wrap-around is invisible to a later reduction modulo 2^k. */
  lemma WrapThenMask(x: int, k: nat)
    requires k <= 64
    ensures (x % WORD_LIMIT) % Pow2(k) == x % Pow2(k)
  {
    Pow2Of64();
    Pow2Add(k, 64 - k);
    ModOfMod(x, Pow2(k), Pow2(64 - k));
  }
}
