/**
 The size classes of src/xtypes/xheap.c. A request of b bytes is given a payload that is b and
 the header rounded up, less the header; free chunks are kept in one list per class of payloads.
 */
module XHeapSizes {
  import opened Words

  /** sizeof(struct xheap_header) */
  const HEADER: nat := 24

  /** __align, for a positive x and a unit m. */
  function Align(x: nat, m: nat): nat
    requires x > 0 && m > 0
  {
    m * ((x - 1) / m + 1)
  }

  /** The unit that a request is rounded to: 1, 4 or 128 pages u. */
  function Unit(b: nat, u: nat): nat {
    if b < 32 * u then u else if b < 1024 * u then 4 * u else 128 * u
  }

  /** __get_alloc_bytes, with u == 1 << alignment_unit. */
  function AllocBytes(b: nat, u: nat): nat
    requires u > 0
  {
    Align(b + HEADER, Unit(b, u))
  }

  /** The payload of the chunk for a request: what the header keeps as its size. */
  function Payload(b: nat, u: nat): (p: nat)
    requires u > 0
    ensures p >= b
  {
    AlignUp(b + HEADER, Unit(b, u));
    AllocBytes(b, u) - HEADER
  }

  /** The class of a payload. */
  function Class(p: nat, u: nat): nat
    requires u > 0
  {
    if p < 32 * u then p / u
    else if p < 1024 * u then 24 + p / (4 * u)
    else 1016 + p / (128 * u)
  }

  /** __get_index */
  function Index(b: nat, u: nat): nat
    requires u > 0
  {
    Class(Payload(b, u), u)
  }

  lemma AlignUp(x: nat, m: nat)
    requires x > 0 && m > 0
    ensures x <= Align(x, m) < x + m && Align(x, m) % m == 0
  {
    var q := (x - 1) / m;
    assert m * q <= x - 1 < m * q + m;
    RemainderUnique(m * (q + 1), m, q + 1, 0);
  }

  // ----- the classes

  /** A chunk of k + 1 units of size m has a payload of k whole units and a bit. */
  lemma WholeUnits(k: nat, m: nat)
    requires m >= 32
    ensures (m * (k + 1) - HEADER) / m == k
  {
    RemainderUnique(m * (k + 1) - HEADER, m, k, m - HEADER);
  }

  /** How many whole units a request and its header fill, less the last one. */
  function Units(b: nat, u: nat): nat
    requires u > 0
  {
    (b + HEADER - 1) / Unit(b, u)
  }

  /** The request and the payload in units, and how k compares with n. */
  lemma InUnits(b: nat, u: nat, m: nat, k: nat)
    requires u >= 32 && m == Unit(b, u) && k == Units(b, u)
    ensures m * k <= b + 23 < m * k + m && Payload(b, u) == m * k + m - HEADER && Payload(b, u) / m == k
  {
    assert m * (k + 1) == m * k + m;
    WholeUnits(k, m);
  }

  lemma Compare(m: nat, k: nat, n: nat)
    ensures k < n ==> m * k + m <= m * n
    ensures k >= n ==> m * k >= m * n
  {
    if k < n { MulMonotone(m, k + 1, n); } else { MulMonotone(m, n, k); }
  }

  lemma SmallCase(b: nat, u: nat)
    requires u >= 32 && b < 32 * u
    ensures var k := Units(b, u); k <= 32 && Index(b, u) == k && (k == 32 <==> b + HEADER > 32 * u)
  {
    var k := Units(b, u);
    InUnits(b, u, u, k);
    Compare(u, k, 33);
    Compare(u, k, 32);
    if k == 32 { RemainderUnique(33 * u - HEADER, 4 * u, 8, u - HEADER); }
  }

  lemma MediumCase(b: nat, u: nat)
    requires u >= 32 && 32 * u <= b < 1024 * u
    ensures var k := Units(b, u);
            && 8 <= k <= 256 && Index(b, u) == (if k < 256 then 24 + k else 1024)
            && (k == 256 <==> b + HEADER > 1024 * u)
  {
    var m := 4 * u;
    var k := Units(b, u);
    InUnits(b, u, m, k);
    Compare(m, k, 257);
    Compare(m, k, 256);
    Compare(m, k, 8);
    if k == 256 { RemainderUnique(257 * m - HEADER, 32 * m, 8, m - HEADER); }
  }

  lemma LargeCase(b: nat, u: nat)
    requires u >= 32 && b >= 1024 * u
    ensures 8 <= Units(b, u) && Index(b, u) == 1016 + Units(b, u)
  {
    InUnits(b, u, 128 * u, Units(b, u));
    Compare(128 * u, Units(b, u), 8);
  }

  /** The 23 requests below each limit that the header pushes over it. */
  predicate InWindow(b: nat, u: nat) {
    32 * u - HEADER < b < 32 * u || 1024 * u - HEADER < b < 1024 * u
  }

  /** The class and the payload of a request by its number of units. */
  lemma AllCases(b: nat, u: nat)
    requires u >= 32
    ensures var k := Units(b, u);
            && Payload(b, u) == Unit(b, u) * k + Unit(b, u) - HEADER
            && (b < 32 * u ==> k <= 32 && Index(b, u) == k)
            && (32 * u <= b < 1024 * u ==> 8 <= k <= 256 && Index(b, u) == if k < 256 then 24 + k else 1024)
            && (b >= 1024 * u ==> 8 <= k && Index(b, u) == 1016 + k)
            && (InWindow(b, u) <==> (b < 32 * u && k == 32) || (32 * u <= b < 1024 * u && k == 256))
  {
    InUnits(b, u, Unit(b, u), Units(b, u));
    if b < 32 * u { SmallCase(b, u); } else if b < 1024 * u { MediumCase(b, u); } else { LargeCase(b, u); }
  }

  /** A payload in the same case as its request is made of as many units, so it is stable. */
  lemma SameCaseStable(b: nat, u: nat)
    requires u >= 32 && Unit(Payload(b, u), u) == Unit(b, u)
    ensures Payload(Payload(b, u), u) == Payload(b, u)
  {
    AllCases(b, u);
    var k, m := Units(b, u), Unit(b, u);
    RemainderUnique(Payload(b, u) + 23, m, k, m - 1);
    assert m * (k + 1) == m * k + m;
  }

  /** A payload of k units and one more is in the case of its request exactly outside the windows. */
  lemma SameCaseIff(b: nat, u: nat)
    requires u >= 32
    ensures Unit(Payload(b, u), u) == Unit(b, u) <==> !InWindow(b, u)
    ensures InWindow(b, u) ==> Payload(b, u) == if b < 32 * u then 33 * u - HEADER else 1028 * u - HEADER
  {
    AllCases(b, u);
    var k, m := Units(b, u), Unit(b, u);
    if b < 32 * u { Compare(u, k, 32); } else if b < 1024 * u { Compare(m, k, 256); }
  }

  /** A payload asked for again is given the same payload, except for requests in the two windows. */
  lemma StableIff(b: nat, u: nat)
    requires u >= 32
    ensures Payload(Payload(b, u), u) == Payload(b, u) <==> !InWindow(b, u)
    ensures InWindow(b, u) ==> Index(Payload(b, u), u) == if b < 32 * u then 32 else 1024
  {
    SameCaseIff(b, u);
    if InWindow(b, u) {
      var p := Payload(b, u);
      if b < 32 * u {
        RemainderUnique(p + 23, 4 * u, 8, u - 1);
      } else {
        RemainderUnique(p + 23, 128 * u, 8, 4 * u - 1);
      }
      AllCases(p, u);
    } else {
      SameCaseStable(b, u);
    }
  }

  /** A freed chunk goes back to the list it came from, in the windows too. */
  lemma SameList(b: nat, u: nat)
    requires u >= 32
    ensures Index(Payload(b, u), u) == Index(b, u)
  {
    StableIff(b, u);
    AllCases(b, u);
  }

  lemma IndexMonotone(b: nat, c: nat, u: nat)
    requires u >= 32 && b <= c
    ensures Index(b, u) <= Index(c, u)
  {
    AllCases(b, u);
    AllCases(c, u);
    if Unit(b, u) == Unit(c, u) {
      QuotientMonotone(b + 23, c + 23, Unit(b, u));
    }
  }

  lemma QuotientMonotone(x: nat, y: nat, m: nat)
    requires m > 0 && x <= y
    ensures x / m <= y / m
  {
    assert m * (x / m) <= x && y < m * (y / m) + m;
    if x / m > y / m { MulMonotone(m, y / m + 1, x / m); }
  }

  /** Requests of one class get payloads of one size exactly if both are in a window or neither is. */
  lemma SameClassIff(b: nat, c: nat, u: nat)
    requires u >= 32 && Index(b, u) == Index(c, u)
    ensures Payload(b, u) == Payload(c, u) <==> (InWindow(b, u) <==> InWindow(c, u))
  {
    AllCases(b, u);
    AllCases(c, u);
  }

  /**
   The refusal happens: a request just below the first limit and one at the limit are of one class
   and get different payloads.
   */
  lemma WindowClash(u: nat)
    requires u >= 32
    ensures Index(32 * u - 1, u) == Index(32 * u, u) == 32
    ensures Payload(32 * u - 1, u) == 33 * u - HEADER && Payload(32 * u, u) == 36 * u - HEADER
  {
    SameCaseIff(32 * u - 1, u);
    AllCases(32 * u - 1, u);
    RemainderUnique(32 * u + 23, 4 * u, 8, 23);
    AllCases(32 * u, u);
  }

  /** Above the small requests less than an eighth is wasted, and below less than one page. */
  lemma Slack(b: nat, u: nat)
    requires u >= 32
    ensures b < 32 * u ==> Payload(b, u) - b < u
    ensures b >= 32 * u ==> 8 * (Payload(b, u) - b) < b
  {
    AlignUp(b + HEADER, Unit(b, u));
  }

  /** The list heads of all classes below that of a size take up no more than that size. */
  lemma ListHeadsFit(size: nat, u: nat)
    requires u >= 32 && size >= u
    ensures 8 * Index(size, u) <= size
  {
    AllCases(size, u);
    UnitsAreFew(size, u, if size < 32 * u then 1 else if size < 1024 * u then 4 else 128);
  }

  lemma UnitsAreFew(size: nat, u: nat, c: nat)
    requires u >= 32 && Unit(size, u) == c * u && c > 0
    ensures 32 * c * Units(size, u) <= size + 23
  {
    var k, m := Units(size, u), Unit(size, u);
    InUnits(size, u, m, k);
    MulMonotone(c, 32, u);
    MulMonotone(k, c * 32, m);
  }
}
