/**
 The allocator of src/xtypes/xheap.c: chunks are carved one after the other out of one region,
 and a freed chunk is kept in the list of its size class, linked through its own payload. The
 heads of the lists are an array at the start of the region.

 mem[o] is the 64-bit word at byte offset o of the region; only multiples of 8 are used.
 Offsets count from the start of the region, whose address is base.
 */
module XHeap {
  import opened Words
  import opened XHeapSizes

  const MAGIC: Word := 0xdead_beaf

  /** A chunk is with a caller, in its free list, or popped and then refused. */
  datatype Status = Live | Listed | Lost

  /** A carved chunk by the request it was carved for. */
  datatype Chunk = Chunk(req: nat, status: Status)

  /** What does not change: page size, address and size of the region, first header, number of classes. */
  datatype Region = Region(u: nat, base: nat, size: nat, lo: nat, classes: nat)

  /** The carved chunks by the offset of their payload, and the free lists from the head on. */
  datatype Chunks = Chunks(at: map<nat, Chunk>, lists: seq<seq<nat>>)

  ghost predicate GoodRegion(g: Region) {
    32 <= g.u < WORD_LIMIT && g.u % 8 == 0 && g.size < WORD_LIMIT && 8 * g.classes <= g.lo && g.lo % 8 == 0
  }

  // ----- layout

  ghost predicate InPlace(g: Region, cur: nat, p: nat, req: nat)
    requires g.u > 0
  {
    && p % 8 == 0 && g.lo + HEADER <= p && p + Payload(req, g.u) <= cur
    && (g.base + p) % g.u == 0 && Index(req, g.u) < g.classes
  }

  /** Chunks lie in order, each with its header before it, and do not overlap. */
  ghost predicate Apart(u: nat, at: map<nat, Chunk>)
    requires u > 0
  {
    forall p, q | p in at && q in at && p < q :: p + Payload(at[p].req, u) + HEADER <= q
  }

  ghost predicate LaidOut(g: Region, cur: nat, at: map<nat, Chunk>)
    requires g.u > 0
  {
    && g.lo <= cur <= g.size && cur % 8 == 0 && (g.base + cur + HEADER) % g.u == 0
    && (forall p | p in at :: InPlace(g, cur, p, at[p].req))
    && Apart(g.u, at)
  }

  ghost predicate HasHeader(m: seq<Word>, p: nat, payload: nat) {
    24 <= p < |m| && m[p - 24] == MAGIC && m[p - 8] == payload
  }

  ghost predicate Headers(g: Region, m: seq<Word>, at: map<nat, Chunk>)
    requires g.u > 0
  {
    forall p | p in at :: HasHeader(m, p, Payload(at[p].req, g.u))
  }

  // ----- lists

  /** The word at o starts a chain through the words at the offsets in l, which ends with 0. */
  ghost predicate Chain(m: seq<Word>, o: nat, l: seq<nat>)
    decreases |l|
  {
    o < |m| && if l == [] then m[o] == 0 else m[o] == l[0] && l[0] != 0 && Chain(m, l[0], l[1..])
  }

  ghost predicate NoRepeats(l: seq<nat>) {
    forall i, j | 0 <= i < j < |l| :: l[i] != l[j]
  }

  ghost predicate OfClass(u: nat, at: map<nat, Chunk>, r: nat, p: nat)
    requires u > 0
  {
    p in at && at[p].status == Listed && Index(at[p].req, u) == r
  }

  /** Each list holds exactly the freed chunks of its class, each once. */
  ghost predicate ListsOk(g: Region, c: Chunks)
    requires g.u > 0
  {
    && |c.lists| == g.classes
    && (forall r | 0 <= r < g.classes :: NoRepeats(c.lists[r]))
    && (forall r, p | 0 <= r < g.classes :: p in c.lists[r] <==> OfClass(g.u, c.at, r, p))
  }

  ghost predicate Chains(g: Region, m: seq<Word>, lists: seq<seq<nat>>) {
    |lists| == g.classes && forall r | 0 <= r < g.classes :: Chain(m, 8 * r, lists[r])
  }

  ghost predicate Good(g: Region, m: seq<Word>, cur: nat, c: Chunks) {
    GoodRegion(g) && |m| == g.size && LaidOut(g, cur, c.at) && Headers(g, m, c.at) && ListsOk(g, c)
        && Chains(g, m, c.lists)
  }

  // ----- arithmetic

  /** A multiple of u * c is a multiple of u. */
  lemma MultipleOfFactor(n: nat, u: nat, c: nat)
    requires u > 0 && c > 0 && u * c > 0 && n % (u * c) == 0
    ensures n % u == 0
  {
    ModOfMod(n, u, c);
  }

  lemma DivideBy8(x: nat, page: nat)
    requires page > 0 && page % 8 == 0 && x % page == 0
    ensures x % 8 == 0
  {
    assert page == 8 * (page / 8);
    ModOfMod(x, 8, page / 8);
  }

  lemma InWholePages(b: nat, u: nat)
    requires u > 0
    ensures AllocBytes(b, u) % u == 0 && AllocBytes(b, u) >= b + HEADER
  {
    var m := Unit(b, u);
    AlignUp(b + HEADER, m);
    MultipleOfFactor(AllocBytes(b, u), u, if b < 32 * u then 1 else if b < 1024 * u then 4 else 128);
  }

  lemma PayloadFacts(b: nat, u: nat)
    requires u >= 32 && u % 8 == 0
    ensures AllocBytes(b, u) % u == 0 && AllocBytes(b, u) % 8 == 0 && Payload(b, u) % 8 == 0
    ensures Payload(b, u) >= 8 && AllocBytes(b, u) == Payload(b, u) + HEADER
  {
    InWholePages(b, u);
    DivideBy8(AllocBytes(b, u), u);
    NotZeroMod(AllocBytes(b, u), u);
  }

  lemma NotZeroMod(n: nat, u: nat)
    requires u >= 32 && n > 0 && n % u == 0
    ensures n >= u
  {
    if n < u { RemainderUnique(n, u, 0, n); }
  }

  lemma AddMultiple(x: nat, y: nat, u: nat)
    requires u > 0 && x % u == 0 && y % u == 0
    ensures (x + y) % u == 0
  {
    SameRemainder(x + y, x, u, y / u);
  }

  // ----- chains

  /** A chain may be entered elsewhere and may lie in another memory, if the words that matter are the same. */
  lemma {:induction false} ChainMoves(m: seq<Word>, m': seq<Word>, o: nat, o': nat, l: seq<nat>)
    requires Chain(m, o, l) && o' < |m'| && m'[o'] == m[o]
    requires forall x | x in l && x < |m| :: x < |m'| && m'[x] == m[x]
    ensures Chain(m', o', l)
    decreases |l|
  {
    if l != [] {
      assert l[0] in l && l[0] < |m|;
      forall x | x in l[1..] && x < |m| ensures x < |m'| && m'[x] == m[x] {
        assert x in l;
      }
      ChainMoves(m, m', l[0], l[0], l[1..]);
    }
  }

  /** Following a chain as long as it goes meets the chunks of the list in order and then ends. */
  lemma {:induction false} ChainIsTheList(m: seq<Word>, o: nat, l: seq<nat>, i: nat)
    requires Chain(m, o, l) && i < |l|
    ensures 0 < l[i] < |m| && o < |m|
    ensures i == 0 ==> m[o] == l[0]
    ensures i > 0 ==> l[i - 1] < |m| && m[l[i - 1]] == l[i]
    ensures i == |l| - 1 ==> m[l[i]] == 0
    decreases |l|
  {
    assert Chain(m, l[0], l[1..]);
    if i > 0 {
      ChainIsTheList(m, l[0], l[1..], i - 1);
      assert l[1..][i - 1] == l[i];
      if i > 1 { assert l[1..][i - 2] == l[i - 1]; }
    }
  }

  // ----- what a pop leaves

  /** The words that lists and headers do not use may change. */
  ghost predicate SameWords(m: seq<Word>, m': seq<Word>, changed: set<nat>) {
    |m'| == |m| && forall o | 0 <= o < |m| && o !in changed :: m'[o] == m[o]
  }

  lemma HeadersKept(g: Region, m: seq<Word>, m': seq<Word>, at: map<nat, Chunk>, at': map<nat, Chunk>,
                    changed: set<nat>)
    requires g.u > 0 && Headers(g, m, at) && SameWords(m, m', changed)
    requires forall p | p in at' :: p in at && at'[p].req == at[p].req
    requires forall p | p in at :: p - 24 !in changed && p - 8 !in changed
    ensures Headers(g, m', at')
  {
    forall p | p in at' ensures HasHeader(m', p, Payload(at'[p].req, g.u)) {
      assert HasHeader(m, p, Payload(at[p].req, g.u));
    }
  }

  /** A change of status moves no chunk. */
  lemma LaidOutKept(g: Region, cur: nat, at: map<nat, Chunk>, at': map<nat, Chunk>)
    requires g.u > 0 && LaidOut(g, cur, at)
    requires forall p | p in at' :: p in at && at'[p].req == at[p].req
    ensures LaidOut(g, cur, at')
  {
    forall p | p in at' ensures InPlace(g, cur, p, at'[p].req) {
      assert InPlace(g, cur, p, at[p].req);
    }
  }

  lemma ChainsKept(g: Region, m: seq<Word>, m': seq<Word>, lists: seq<seq<nat>>, r: nat, l: seq<nat>, changed: set<nat>)
    requires Chains(g, m, lists) && r < g.classes && SameWords(m, m', changed) && Chain(m', 8 * r, l)
    requires forall k | 0 <= k < g.classes && k != r :: 8 * k !in changed && forall x | x in lists[k] :: x !in changed
    ensures Chains(g, m', lists[r := l])
  {
    forall k | 0 <= k < g.classes ensures Chain(m', 8 * k, lists[r := l][k]) {
      if k != r {
        assert Chain(m, 8 * k, lists[k]);
        ChainMoves(m, m', 8 * k, 8 * k, lists[k]);
      }
    }
  }

  ghost function Popped(c: Chunks, r: nat, status: Status): Chunks
    requires r < |c.lists| && c.lists[r] != [] && c.lists[r][0] in c.at
  {
    var p := c.lists[r][0];
    Chunks(c.at[p := c.at[p].(status := status)], c.lists[r := c.lists[r][1..]])
  }

  lemma PopLists(g: Region, c: Chunks, r: nat, status: Status)
    requires g.u > 0 && ListsOk(g, c) && r < g.classes && c.lists[r] != [] && status != Listed
    ensures OfClass(g.u, c.at, r, c.lists[r][0]) && ListsOk(g, Popped(c, r, status))
  {
    var l := c.lists[r];
    assert l[0] in l && OfClass(g.u, c.at, r, l[0]);
    var c' := Popped(c, r, status);
    forall k, p | 0 <= k < g.classes ensures p in c'.lists[k] <==> OfClass(g.u, c'.at, k, p) {
      assert p in c.lists[k] <==> OfClass(g.u, c.at, k, p);
      assert l == [l[0]] + l[1..];
    }
  }

  /** The first chunk of a list, as the memory shows it. */
  lemma HeadOf(g: Region, m: seq<Word>, cur: nat, c: Chunks, r: nat)
    requires Good(g, m, cur, c) && r < g.classes
    ensures 8 * r < |m| && (m[8 * r] == 0 <==> c.lists[r] == [])
    ensures c.lists[r] != [] ==>
              var p := c.lists[r][0];
              && m[8 * r] == p && OfClass(g.u, c.at, r, p) && InPlace(g, cur, p, c.at[p].req)
              && HasHeader(m, p, Payload(c.at[p].req, g.u)) && g.lo < p < |m|
  {
    assert Chain(m, 8 * r, c.lists[r]);
    if c.lists[r] != [] {
      assert c.lists[r][0] in c.lists[r];
      PayloadFacts(c.at[c.lists[r][0]].req, g.u);
    }
  }

  lemma PopGood(g: Region, m: seq<Word>, cur: nat, c: Chunks, r: nat, status: Status)
    requires Good(g, m, cur, c) && r < g.classes && c.lists[r] != [] && status != Listed
    ensures 8 * r < |m| && c.lists[r][0] < |m| && c.lists[r][0] in c.at
    ensures Good(g, m[8 * r := m[c.lists[r][0]]], cur, Popped(c, r, status))
  {
    HeadOf(g, m, cur, c, r);
    PopLists(g, c, r, status);
    var l := c.lists[r];
    var m' := m[8 * r := m[l[0]]];
    var c' := Popped(c, r, status);
    LaidOutKept(g, cur, c.at, c'.at);
    ChunksAbove(g, cur, c, r);
    HeadersKept(g, m, m', c.at, c'.at, {8 * r});
    PopChain(g, m, c, r);
    ChainsKept(g, m, m', c.lists, r, l[1..], {8 * r});
  }

  /** No chunk is where the list heads are. */
  lemma ChunksAbove(g: Region, cur: nat, c: Chunks, r: nat)
    requires GoodRegion(g) && LaidOut(g, cur, c.at) && ListsOk(g, c) && r < g.classes
    ensures forall p | p in c.at :: p - 24 > 8 * r
    ensures forall k, x | 0 <= k < g.classes && x in c.lists[k] :: x > 8 * r
  {
    forall p | p in c.at ensures p - 24 > 8 * r {
      assert InPlace(g, cur, p, c.at[p].req);
    }
  }

  lemma PopChain(g: Region, m: seq<Word>, c: Chunks, r: nat)
    requires Chains(g, m, c.lists) && r < g.classes && c.lists[r] != [] && 8 * r < |m| && 8 * r !in c.lists[r]
    requires c.lists[r][0] < |m|
    ensures Chain(m[8 * r := m[c.lists[r][0]]], 8 * r, c.lists[r][1..])
  {
    var l := c.lists[r];
    assert Chain(m, 8 * r, l);
    ChainMoves(m, m[8 * r := m[l[0]]], l[0], 8 * r, l[1..]);
  }

  // ----- what a push leaves

  ghost function Pushed(c: Chunks, r: nat, p: nat): Chunks
    requires r < |c.lists| && p in c.at
  {
    Chunks(c.at[p := c.at[p].(status := Listed)], c.lists[r := [p] + c.lists[r]])
  }

  ghost function PushedMem(m: seq<Word>, r: nat, p: Word): seq<Word>
    requires 8 * r < |m| && p < |m|
  {
    m[p := m[8 * r]][8 * r := p]
  }

  lemma PushLists(g: Region, c: Chunks, r: nat, p: nat)
    requires g.u > 0 && ListsOk(g, c) && p in c.at && c.at[p].status == Live && r == Index(c.at[p].req, g.u) < g.classes
    ensures ListsOk(g, Pushed(c, r, p)) && forall k | 0 <= k < g.classes :: p !in c.lists[k]
  {
    var c' := Pushed(c, r, p);
    forall k: nat ensures 0 <= k < g.classes ==> p !in c.lists[k] {
      assert !OfClass(g.u, c.at, k, p);
    }
    forall k, x | 0 <= k < g.classes ensures x in c'.lists[k] <==> OfClass(g.u, c'.at, k, x) {
      assert x in c.lists[k] <==> OfClass(g.u, c.at, k, x);
    }
  }

  lemma PushChain(g: Region, m: seq<Word>, c: Chunks, r: nat, p: Word)
    requires Chains(g, m, c.lists) && r < g.classes && 8 * r < |m| && 8 * r !in c.lists[r] && p !in c.lists[r]
    requires 8 * r < p < |m|
    ensures Chain(PushedMem(m, r, p), 8 * r, [p] + c.lists[r])
  {
    var l := c.lists[r];
    var m' := PushedMem(m, r, p);
    assert Chain(m, 8 * r, l);
    ChainMoves(m, m', 8 * r, p, l);
    assert ([p] + l)[1..] == l;
  }

  /** The first payload word of a chunk is in no other chunk, nor in a header. */
  lemma PayloadIsItsOwn(g: Region, cur: nat, at: map<nat, Chunk>, p: nat, o: nat)
    requires GoodRegion(g) && LaidOut(g, cur, at) && p in at && o % 8 == 0
    requires p <= o && o + 8 <= p + Payload(at[p].req, g.u)
    ensures forall q | q in at :: q - 24 != o && q - 8 != o && (q != p ==> q != o)
    ensures g.lo < o && o + 8 <= cur
  {
    assert InPlace(g, cur, p, at[p].req);
    forall q | q in at ensures q - 24 != o && q - 8 != o && (q != p ==> q != o) {
      if q > p { assert p + Payload(at[p].req, g.u) + HEADER <= q; }
    }
  }

  lemma PushGood(g: Region, m: seq<Word>, cur: nat, c: Chunks, r: nat, p: nat)
    requires Good(g, m, cur, c) && p in c.at && c.at[p].status == Live && r == Index(c.at[p].req, g.u)
    ensures r < g.classes && 8 * r < p < |m| && p < WORD_LIMIT
    ensures Good(g, PushedMem(m, r, p), cur, Pushed(c, r, p))
  {
    PushPlace(g, m, cur, c, p);
    PushLists(g, c, r, p);
    LaidOutKept(g, cur, c.at, Pushed(c, r, p).at);
    ChunksAbove(g, cur, c, r);
    PushHeaders(g, m, c, r, p);
    PushChains(g, m, c, r, p);
  }

  lemma PushPlace(g: Region, m: seq<Word>, cur: nat, c: Chunks, p: nat)
    requires GoodRegion(g) && |m| == g.size && LaidOut(g, cur, c.at) && p in c.at
    ensures g.lo < p < |m| && p < WORD_LIMIT && Index(c.at[p].req, g.u) < g.classes
    ensures forall q | q in c.at :: q - 24 != p && q - 8 != p
  {
    assert InPlace(g, cur, p, c.at[p].req);
    PayloadFacts(c.at[p].req, g.u);
    PayloadIsItsOwn(g, cur, c.at, p, p);
  }

  lemma PushHeaders(g: Region, m: seq<Word>, c: Chunks, r: nat, p: Word)
    requires g.u > 0 && Headers(g, m, c.at) && p in c.at && r < |c.lists| && 8 * r < |m| && p < |m|
    requires forall q | q in c.at :: q - 24 != p && q - 8 != p && q - 24 > 8 * r
    ensures Headers(g, PushedMem(m, r, p), Pushed(c, r, p).at)
  {
    HeadersKept(g, m, PushedMem(m, r, p), c.at, Pushed(c, r, p).at, {p, 8 * r});
  }

  lemma PushChains(g: Region, m: seq<Word>, c: Chunks, r: nat, p: Word)
    requires Chains(g, m, c.lists) && r < g.classes && p in c.at && 8 * r < p < |m| && 8 * g.classes <= p
    requires forall k | 0 <= k < g.classes :: p !in c.lists[k]
    requires forall k, x | 0 <= k < g.classes && x in c.lists[k] :: x > 8 * r
    ensures Chains(g, PushedMem(m, r, p), Pushed(c, r, p).lists)
  {
    PushChain(g, m, c, r, p);
    ChainsKept(g, m, PushedMem(m, r, p), c.lists, r, [p] + c.lists[r], {p, 8 * r});
  }

  // ----- what carving leaves

  ghost function Carved(cur: nat, c: Chunks, b: nat): Chunks {
    c.(at := c.at[cur + HEADER := Chunk(b, Live)])
  }

  ghost function CarvedMem(m: seq<Word>, cur: nat, self: Word, payload: Word): seq<Word>
    requires cur + HEADER <= |m|
  {
    m[cur := MAGIC][cur + 8 := self][cur + 16 := payload]
  }

  lemma PayloadEnds(g: Region, cur: nat, at: map<nat, Chunk>, p: nat)
    requires GoodRegion(g) && LaidOut(g, cur, at) && p in at
    ensures p + 8 <= p + Payload(at[p].req, g.u) <= cur
  {
    assert InPlace(g, cur, p, at[p].req);
    PayloadFacts(at[p].req, g.u);
  }

  lemma NewInPlace(g: Region, cur: nat, b: nat)
    requires GoodRegion(g) && g.lo <= cur && cur % 8 == 0 && (g.base + cur + HEADER) % g.u == 0
             && Index(b, g.u) < g.classes
    ensures InPlace(g, cur + AllocBytes(b, g.u), cur + HEADER, b)
    ensures (cur + AllocBytes(b, g.u)) % 8 == 0 && (g.base + (cur + AllocBytes(b, g.u)) + HEADER) % g.u == 0
  {
    PayloadFacts(b, g.u);
    AddMultiple(g.base + cur + HEADER, AllocBytes(b, g.u), g.u);
    AddMultiple(cur, AllocBytes(b, g.u), 8);
    assert g.base + cur + HEADER + AllocBytes(b, g.u) == g.base + (cur + AllocBytes(b, g.u)) + HEADER;
    assert (cur + HEADER) % 8 == 0;
  }

  lemma CarveLayout(g: Region, cur: nat, c: Chunks, b: nat)
    requires GoodRegion(g) && LaidOut(g, cur, c.at) && Index(b, g.u) < g.classes
    requires cur + AllocBytes(b, g.u) <= g.size
    ensures cur + HEADER !in c.at && LaidOut(g, cur + AllocBytes(b, g.u), Carved(cur, c, b).at)
  {
    NewInPlace(g, cur, b);
    forall p | p in c.at ensures p + 8 <= p + Payload(c.at[p].req, g.u) <= cur
        && InPlace(g, cur + AllocBytes(b, g.u), p, c.at[p].req) {
      PayloadEnds(g, cur, c.at, p);
      assert InPlace(g, cur, p, c.at[p].req);
    }
  }

  lemma CarveLists(g: Region, cur: nat, c: Chunks, b: nat)
    requires g.u > 0 && ListsOk(g, c) && cur + HEADER !in c.at
    ensures ListsOk(g, Carved(cur, c, b))
  {
    var c' := Carved(cur, c, b);
    forall k, x | 0 <= k < g.classes ensures x in c'.lists[k] <==> OfClass(g.u, c'.at, k, x) {
      assert x in c.lists[k] <==> OfClass(g.u, c.at, k, x);
    }
  }

  /** All chains lie below the uncarved space. */
  lemma ChainsBelow(g: Region, m: seq<Word>, m': seq<Word>, cur: nat, c: Chunks, changed: set<nat>)
    requires GoodRegion(g) && LaidOut(g, cur, c.at) && ListsOk(g, c) && Chains(g, m, c.lists)
             && SameWords(m, m', changed)
    requires forall o | o in changed :: o >= cur
    ensures Chains(g, m', c.lists)
  {
    forall k | 0 <= k < g.classes ensures Chain(m', 8 * k, c.lists[k]) {
      assert Chain(m, 8 * k, c.lists[k]);
      forall x | x in c.lists[k] && x < |m| ensures x < |m'| && m'[x] == m[x] {
        assert OfClass(g.u, c.at, k, x);
        assert InPlace(g, cur, x, c.at[x].req);
        PayloadFacts(c.at[x].req, g.u);
      }
      ChainMoves(m, m', 8 * k, 8 * k, c.lists[k]);
    }
  }

  lemma CarveGood(g: Region, m: seq<Word>, cur: nat, c: Chunks, b: nat, self: Word)
    requires Good(g, m, cur, c) && Index(b, g.u) < g.classes && cur + AllocBytes(b, g.u) <= g.size
    ensures cur + HEADER <= |m| && Payload(b, g.u) < WORD_LIMIT && cur + HEADER !in c.at
    ensures Good(g, CarvedMem(m, cur, self, Payload(b, g.u)), cur + AllocBytes(b, g.u), Carved(cur, c, b))
  {
    PayloadFacts(b, g.u);
    CarveLayout(g, cur, c, b);
    CarveLists(g, cur, c, b);
    var m' := CarvedMem(m, cur, self, Payload(b, g.u));
    var changed := {cur, cur + 8, cur + 16};
    ChainsBelow(g, m, m', cur, c, changed);
    CarveHeaders(g, m, m', cur, c, b);
  }

  lemma CarveHeaders(g: Region, m: seq<Word>, m': seq<Word>, cur: nat, c: Chunks, b: nat)
    requires GoodRegion(g) && LaidOut(g, cur, c.at) && Headers(g, m, c.at) && SameWords(m, m', {cur, cur + 8, cur + 16})
    requires HasHeader(m', cur + HEADER, Payload(b, g.u)) && cur + HEADER !in c.at
    ensures Headers(g, m', Carved(cur, c, b).at)
  {
    forall p | p in c.at ensures p - 24 < cur && p - 8 < cur {
      assert InPlace(g, cur, p, c.at[p].req);
      PayloadFacts(c.at[p].req, g.u);
    }
    HeadersKept(g, m, m', c.at, c.at, {cur, cur + 8, cur + 16});
  }

  // ----- what a caller may write

  /** A write to the payload of a live chunk is not seen by the allocator. */
  lemma WriteGood(g: Region, m: seq<Word>, cur: nat, c: Chunks, p: nat, o: nat, v: Word)
    requires Good(g, m, cur, c) && p in c.at && c.at[p].status == Live
    requires o % 8 == 0 && p <= o && o + 8 <= p + Payload(c.at[p].req, g.u)
    ensures o < |m| && Good(g, m[o := v], cur, c)
  {
    PayloadIsItsOwn(g, cur, c.at, p, o);
    HeadersKept(g, m, m[o := v], c.at, c.at, {o});
    forall k | 0 <= k < g.classes ensures Chain(m[o := v], 8 * k, c.lists[k]) {
      assert Chain(m, 8 * k, c.lists[k]);
      forall x | x in c.lists[k] ensures x != o {
        assert OfClass(g.u, c.at, k, x);
      }
      ChainMoves(m, m[o := v], 8 * k, 8 * k, c.lists[k]);
    }
  }

  /** Any two chunks, whatever became of them, occupy different bytes, and none reaches into the list heads. */
  lemma ChunksAreDisjoint(g: Region, m: seq<Word>, cur: nat, c: Chunks, p: nat, q: nat, o: nat)
    requires Good(g, m, cur, c) && p in c.at && q in c.at && p != q
    requires p - HEADER <= o < p + Payload(c.at[p].req, g.u)
    ensures !(q - HEADER <= o < q + Payload(c.at[q].req, g.u)) && 8 * g.classes <= o < g.size
  {
    assert InPlace(g, cur, p, c.at[p].req);
    if p < q {
      assert p + Payload(c.at[p].req, g.u) + HEADER <= q;
    } else {
      assert q + Payload(c.at[q].req, g.u) + HEADER <= p;
    }
  }

  /** No request so far was in a window, and so no chunk was lost. */
  ghost predicate Clean(u: nat, c: Chunks) {
    forall p | p in c.at :: !InWindow(c.at[p].req, u) && c.at[p].status != Lost
  }

  /** The payloads of live chunks are untouched. */
  ghost predicate KeepsPayloads(g: Region, m: seq<Word>, m': seq<Word>, c: Chunks)
    requires g.u > 0
  {
    |m'| == |m| && forall p, o | p in c.at && c.at[p].status == Live && p <= o < p + Payload(c.at[p].req, g.u)
        && o < |m| && o % 8 == 0 :: m'[o] == m[o]
  }

  lemma PayloadsKept(g: Region, m: seq<Word>, m': seq<Word>, cur: nat, c: Chunks, changed: set<nat>)
    requires Good(g, m, cur, c) && SameWords(m, m', changed)
    requires forall o | o in changed :: o < g.lo || o >= cur
    ensures KeepsPayloads(g, m, m', c)
  {
    forall p, o | p in c.at && c.at[p].status == Live && p <= o < p + Payload(c.at[p].req, g.u) && o < |m| && o % 8 == 0
      ensures m'[o] == m[o]
    {
      assert InPlace(g, cur, p, c.at[p].req);
    }
  }

  lemma PushKeepsPayloads(g: Region, m: seq<Word>, cur: nat, c: Chunks, r: nat, p: Word)
    requires Good(g, m, cur, c) && p in c.at && r < |c.lists| && r < g.classes && p < |m| && 8 * r < |m|
    ensures KeepsPayloads(g, m, PushedMem(m, r, p), Pushed(c, r, p))
  {
    var c' := Pushed(c, r, p);
    forall q, o | q in c'.at && c'.at[q].status == Live && q <= o < q + Payload(c'.at[q].req, g.u) && o < |m|
        && o % 8 == 0
      ensures PushedMem(m, r, p)[o] == m[o]
    {
      assert InPlace(g, cur, q, c.at[q].req) && InPlace(g, cur, p, c.at[p].req);
      if p < q { assert p + Payload(c.at[p].req, g.u) + HEADER <= q; }
      if q < p { assert q + Payload(c.at[q].req, g.u) + HEADER <= p; }
    }
  }

  lemma FirstPage(address: nat, page: nat)
    requires address > 0 && page > 0
    ensures address <= Align(address, page) < address + page && Align(address, page) % page == 0
  {
    AlignUp(address, page);
  }

  lemma PageFacts(unit: nat)
    requires Pow2(unit) >= HEADER
    ensures Pow2(unit) >= 32 && Pow2(unit) % 8 == 0
  {
    assert Pow2(4) == 16 && Pow2(3) == 8;
    if unit < 5 { Pow2Monotone(unit, 4); }
    Pow2Monotone(5, unit);
    Pow2Add(3, unit - 3);
    assert Pow2(unit) == 8 * Pow2(unit - 3);
  }

  /** The first header: over the list heads, so that payloads are aligned, and no higher than needed. */
  ghost predicate IsFirst(o: nat, address: nat, page: nat, r: nat)
    requires page > 0
  {
    (address + o + HEADER) % page == 0 && 8 * r <= o && (o < page || o < 8 * r + page)
  }

  /** A header at o has an aligned payload. */
  ghost predicate HeaderAt(o: int, address: nat, page: nat)
    requires page > 0
  {
    (address + o + HEADER) % page == 0 && o % 8 == 0
  }

  lemma NextHeader(o: int, address: nat, page: nat)
    requires page > 0 && page % 8 == 0 && HeaderAt(o, address, page) && address + o + HEADER >= 0
    ensures HeaderAt(o + page, address, page)
  {
    AddMultiple(address + o + HEADER, page, page);
    assert address + o + HEADER + page == address + (o + page) + HEADER;
  }

  lemma HeaderBelow(x: nat, address: nat, page: nat)
    requires page > 0 && x % page == 0 && x % 8 == 0 && address % 8 == 0
    ensures HeaderAt(x - address - HEADER, address, page)
  {
    assert address + (x - address - HEADER) + HEADER == x;
  }

  lemma FirstCandidate(address: nat, page: nat)
    requires address > 0 && address % 8 == 0 && page >= 32 && page % 8 == 0
    ensures address <= Align(address, page) < address + page
    ensures HeaderAt(Align(address, page) - address - HEADER, address, page)
  {
    FirstPage(address, page);
    var x := Align(address, page);
    DivideBy8(x, page);
    HeaderBelow(x, address, page);
  }

  /** The search of xheap_init for the first header. */
  method FirstHeader(address: nat, page: nat, r: nat) returns (o: nat)
    requires address > 0 && address % 8 == 0 && page >= 32 && page % 8 == 0
    ensures HeaderAt(o, address, page) && 8 * r <= o && (o < page || o < 8 * r + page)
  {
    FirstCandidate(address, page);
    o := Align(address, page) - address;
    if o < HEADER {
      NextHeader(o - HEADER, address, page);
      o := o + page;
    }
    o := o - HEADER;
    while o < 8 * r
      invariant HeaderAt(o, address, page)
      invariant o < page || o < 8 * r + page
      decreases 8 * r - o
    {
      NextHeader(o, address, page);
      o := o + page;
    }
  }

  /** The loop of xheap_init over the list heads. */
  method ClearHeads(mem: array<Word>, r: nat)
    requires 8 * r <= mem.Length
    modifies mem
    ensures forall k | 0 <= k < r :: mem[8 * k] == 0
  {
    for i := 0 to r
      invariant forall k | 0 <= k < i :: mem[8 * k] == 0
    {
      mem[8 * i] := 0;
    }
  }

  lemma FreshGood(g: Region, m: seq<Word>)
    requires GoodRegion(g) && |m| == g.size && g.lo < g.size && (g.base + g.lo + HEADER) % g.u == 0
    requires forall k | 0 <= k < g.classes :: 8 * k < |m| && m[8 * k] == 0
    ensures Good(g, m, g.lo, Chunks(map[], seq(g.classes, _ => [])))
  {
    var lists := seq(g.classes, _ => []);
    forall k | 0 <= k < g.classes ensures Chain(m, 8 * k, lists[k]) {
      assert lists[k] == [];
    }
  }

  class XHeap {
    const alignmentUnit: nat
    const base: nat
    const size: nat
    const self: Word
    const mem: array<Word>
    var cur: nat
    /** Whether xheap_init returned 0. */
    const ready: bool
    ghost const lo: nat
    ghost const classes: nat
    ghost var chunks: Chunks

    ghost function G(): Region {
      Region(Pow2(alignmentUnit), base, size, lo, classes)
    }

    ghost predicate Valid()
      reads this, mem
    {
      ready && Good(G(), mem[..], cur, chunks)
    }

    /** The list head that the allocator would pop for a request of b bytes. */
    ghost function FreeList(b: nat): seq<nat>
      requires Valid() && Index(b, Pow2(alignmentUnit)) < classes
      reads this, mem
    {
      chunks.lists[Index(b, Pow2(alignmentUnit))]
    }

    /** xheap_init over a region of a positive address that is a multiple of 8, at least one page long. */
    constructor (bytes: nat, unit: nat, address: nat, me: Word)
      requires 0 < address && address % 8 == 0 && unit < 31 && Pow2(unit) <= bytes < WORD_LIMIT
      ensures size == bytes && alignmentUnit == unit && base == address
      ensures ready ==> Valid() && cur == lo && chunks.at == map[] && classes == Index(bytes, Pow2(unit))
      ensures Pow2(unit) < HEADER ==> !ready
      ensures Pow2(unit) >= HEADER ==>
                IsFirst(lo, address, Pow2(unit), Index(bytes, Pow2(unit))) && (ready <==> lo < bytes - Pow2(unit))
      ensures fresh(mem)
    {
      var page := Pow2(unit);
      var r := Index(bytes, page);
      var first := 0;
      if page >= HEADER {
        PageFacts(unit);
        ListHeadsFit(bytes, page);
        first := FirstHeader(address, page, r);
      }
      alignmentUnit, base, size, self := unit, address, bytes, me;
      cur, lo, classes := first, first, r;
      ready := page >= HEADER && first < bytes - page;
      chunks := Chunks(map[], seq(r, _ => []));
      mem := new Word[bytes];
      new;
      if page >= HEADER {
        ClearHeads(mem, r);
        if ready { FreshGood(G(), mem[..]); }
      }
    }

    /**
     xheap_allocate, of a class that has a list. NULL is 0. A freed chunk of the class is
     taken if there is one; it is refused, and lost, if its size is not the one that b gets,
     which happens exactly if b is in a window and the request it was carved for is not, or
     the other way round.
     */
    method Allocate(b: nat) returns (p: nat)
      requires Valid() && Index(b, Pow2(alignmentUnit)) < classes
      modifies this`cur, this`chunks, mem
      ensures Valid()
      ensures old(FreeList(b)) == [] ==>
                && p == (if old(cur) + AllocBytes(b, Pow2(alignmentUnit)) > size then 0 else old(cur) + HEADER)
                && cur == (if p == 0 then old(cur) else old(cur) + AllocBytes(b, Pow2(alignmentUnit)))
                && chunks == (if p == 0 then old(chunks) else Carved(old(cur), old(chunks), b))
      ensures old(FreeList(b)) != [] ==>
                var q := old(FreeList(b))[0]; var r := Index(b, Pow2(alignmentUnit));
                && q in old(chunks).at && cur == old(cur)
                && p == (if InWindow(old(chunks).at[q].req, Pow2(alignmentUnit)) <==> InWindow(b, Pow2(alignmentUnit))
                         then q else 0)
                && chunks == Popped(old(chunks), r, if p == 0 then Lost else Live)
      ensures p != 0 ==> Granted(p, b) && (p in old(chunks).at ==> old(chunks).at[p].status == Listed)
      ensures old(Clean(Pow2(alignmentUnit), chunks)) && !InWindow(b, Pow2(alignmentUnit)) ==>
                Clean(Pow2(alignmentUnit), chunks)
      ensures KeepsPayloads(G(), old(mem[..]), mem[..], old(chunks))
    {
      HeadOf(G(), mem[..], cur, chunks, Index(b, Pow2(alignmentUnit)));
      if mem[8 * Index(b, Pow2(alignmentUnit))] == 0 {
        p := Carve(b);
      } else {
        p := TakeHead(b);
      }
    }

    /** What a caller gets: an aligned payload that is large enough and that nobody else has. */
    ghost predicate Granted(p: nat, b: nat)
      reads this`chunks
    {
      && p in chunks.at && chunks.at[p].status == Live
      && Payload(chunks.at[p].req, Pow2(alignmentUnit)) == Payload(b, Pow2(alignmentUnit)) >= b
      && (base + p) % Pow2(alignmentUnit) == 0
    }

    /** The branch of xheap_allocate that takes a chunk out of the list, and its checks. */
    method TakeHead(b: nat) returns (p: nat)
      requires Valid() && Index(b, Pow2(alignmentUnit)) < classes && FreeList(b) != []
      modifies this`chunks, mem
      ensures Valid()
      ensures var q := old(FreeList(b))[0]; var r := Index(b, Pow2(alignmentUnit));
              && q in old(chunks).at && old(chunks).at[q].status == Listed
              && p == (if InWindow(old(chunks).at[q].req, Pow2(alignmentUnit)) <==> InWindow(b, Pow2(alignmentUnit))
                       then q else 0)
              && chunks == Popped(old(chunks), r, if p == 0 then Lost else Live)
      ensures p != 0 ==> Granted(p, b)
      ensures old(Clean(Pow2(alignmentUnit), chunks)) && !InWindow(b, Pow2(alignmentUnit)) ==>
                Clean(Pow2(alignmentUnit), chunks)
      ensures KeepsPayloads(G(), old(mem[..]), mem[..], old(chunks))
    {
      ghost var m, c := mem[..], chunks;
      var u := Pow2(alignmentUnit);
      var r := Index(b, u);
      HeadOf(G(), m, cur, c, r);
      var head := mem[8 * r];
      SameClassIff(b, c.at[head].req, u);
      PopGood(G(), m, cur, c, r, Live);
      PopGood(G(), m, cur, c, r, Lost);
      mem[8 * r] := mem[head];
      assert mem[..] == m[8 * r := m[head]];
      PayloadsKept(G(), m, mem[..], cur, c, {8 * r});
      if mem[head - 8] < b || mem[head - 8] != Payload(b, u) {
        chunks := Popped(c, r, Lost);
        p := 0;
      } else {
        chunks := Popped(c, r, Live);
        p := head;
      }
    }

    /** The branch of xheap_allocate that carves a new chunk. */
    method Carve(b: nat) returns (p: nat)
      requires Valid() && Index(b, Pow2(alignmentUnit)) < classes
      modifies this`cur, this`chunks, mem
      ensures Valid()
      ensures p == (if old(cur) + AllocBytes(b, Pow2(alignmentUnit)) > size then 0 else old(cur) + HEADER)
      ensures cur == (if p == 0 then old(cur) else old(cur) + AllocBytes(b, Pow2(alignmentUnit)))
      ensures chunks == (if p == 0 then old(chunks) else Carved(old(cur), old(chunks), b))
      ensures p != 0 ==> p !in old(chunks).at && Granted(p, b)
      ensures old(Clean(Pow2(alignmentUnit), chunks)) && !InWindow(b, Pow2(alignmentUnit)) ==>
                Clean(Pow2(alignmentUnit), chunks)
      ensures KeepsPayloads(G(), old(mem[..]), mem[..], old(chunks))
    {
      ghost var m, c := mem[..], chunks;
      var bytes := AllocBytes(b, Pow2(alignmentUnit));
      if cur + bytes > size {
        return 0;
      }
      CarveGood(G(), m, cur, c, b, self);
      p := cur + HEADER;
      mem[cur] := MAGIC;
      mem[cur + 8] := self;
      mem[cur + 16] := bytes - HEADER;
      assert mem[..] == CarvedMem(m, cur, self, bytes - HEADER);
      PayloadsKept(G(), m, mem[..], cur, c, {cur, cur + 8, cur + 16});
      chunks := Carved(cur, c, b);
      cur := cur + bytes;
    }

    /**
     xheap_free of a chunk that its caller has: it goes to the front of the list that it was, or
     would have been, taken from.
     */
    method Free(p: nat)
      requires Valid() && p in chunks.at && chunks.at[p].status == Live
      modifies this`chunks, mem
      ensures Valid() && cur == old(cur)
      ensures var r := Index(old(chunks).at[p].req, Pow2(alignmentUnit));
              r < classes && chunks == Pushed(old(chunks), r, p)
      ensures old(Clean(Pow2(alignmentUnit), chunks)) ==> Clean(Pow2(alignmentUnit), chunks)
      ensures KeepsPayloads(G(), old(mem[..]), mem[..], chunks)
    {
      ghost var m, c := mem[..], chunks;
      assert HasHeader(m, p, Payload(c.at[p].req, Pow2(alignmentUnit)));
      var bytes := mem[p - 8];
      SameList(c.at[p].req, Pow2(alignmentUnit));
      var r := Index(bytes, Pow2(alignmentUnit));
      PushGood(G(), m, cur, c, r, p);
      mem[p] := mem[8 * r];
      mem[8 * r] := p;
      assert mem[..] == PushedMem(m, r, p);
      chunks := Pushed(c, r, p);
      PushKeepsPayloads(G(), m, cur, c, r, p);
    }

    /** What a caller does with its chunk. */
    method Write(p: nat, o: nat, v: Word)
      requires Valid() && p in chunks.at && chunks.at[p].status == Live
      requires o % 8 == 0 && p <= o && o + 8 <= p + Payload(chunks.at[p].req, Pow2(alignmentUnit))
      modifies mem
      ensures Valid() && mem[..] == old(mem[..])[o := v]
    {
      WriteGood(G(), mem[..], cur, chunks, p, o, v);
      ghost var m := mem[..];
      mem[o] := v;
      assert mem[..] == m[o := v];
    }
  }
}
