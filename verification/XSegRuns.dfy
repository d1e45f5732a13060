/**
 What the request protocol guarantees over whole runs: conservation of requests, the counters
 of the ports, and the discipline of the path stack.
 */
module XSegRuns {
  import opened Seqs
  import opened XSegState
  import opened XSegProtocol
  import opened Words

  lemma StepInv(w: World, c: Call)
    requires Inv(w) && Enabled(w, c)
    ensures Inv(Step(w, c))
  {
    match c
    case Get(src, dst, local, batch) => GetInv(w, src, dst, local, batch);
    case Submit(r, who, xalloc, grow) => SubmitInv(w, r, who, xalloc, grow);
    case Forward(r, to, who, xalloc, grow) => ForwardInv(w, r, to, who, xalloc, grow);
    case Accept(p) => AcceptInv(w, p);
    case Respond(r, xalloc, grow) => RespondInv(w, r, xalloc, grow);
    case Receive(p) => ReceiveInv(w, p);
    case Put(r) => PutInv(w, r);
    case FinishPut(p) => FinishPutInv(w, p);
  }

  // ----- runs

  /** A segment just created: all queues are empty and all requests are in the pool. */
  ghost predicate Created(w: World) {
    && Static(w.seg)
    && (forall p | p in w.seg.ports ::
          var port := w.seg.ports[p];
          port.freeQ == [] && port.reqQ == [] && port.repQ == [] && port.alloc == 0 <= port.max)
    && Distinct(w.seg.pool)
    && (forall r :: r in w.seg.reqs <==> r in w.seg.pool)
    && w.loc == (map r | r in w.seg.reqs :: InPool)
    && w.asked == (map r | r in w.seg.reqs :: [])
    && w.pend == w.charged == w.given == multiset{} && w.astray == {} && w.validGets
  }

  lemma CreatedPlaced(w: World)
    requires Created(w)
    ensures Placed(w)
  {
    DistinctCounts(w.seg.pool);
    forall l | IsQueue(l) && LocOk(w.seg, l) ensures PlacedAt(w, l) {
    }
  }

  lemma CreatedInv(w: World)
    requires Created(w)
    ensures Inv(w)
  {
    CreatedPlaced(w);
    forall p | p in w.seg.ports ensures Owned(w, p) == {} {
      forall r | r in w.loc ensures OwnerOf(w, r) != p {
      }
    }
  }

  /** Each call is made in a state in which the API allows it. */
  ghost predicate Legal(w: World, cs: seq<Call>)
    requires Inv(w)
    decreases |cs|
  {
    cs == [] || (Enabled(w, cs[0]) && (StepInv(w, cs[0]); Legal(Step(w, cs[0]), cs[1..])))
  }

  /** The state after a sequence of calls, whoever makes them; it keeps the invariant. */
  ghost function Run(w: World, cs: seq<Call>): (w': World)
    requires Inv(w) && Legal(w, cs)
    ensures Inv(w')
    decreases |cs|
  {
    if cs == [] then w else StepInv(w, cs[0]); Run(Step(w, cs[0]), cs[1..])
  }

  ghost predicate LegalFrom(w0: World, cs: seq<Call>) {
    Created(w0) && (CreatedInv(w0); Legal(w0, cs))
  }

  ghost function Final(w0: World, cs: seq<Call>): World
    requires LegalFrom(w0, cs)
  {
    CreatedInv(w0);
    Run(w0, cs)
  }

  // ----- conservation

  /** The ports and the requests are still there, and no others unless some may be added. */
  ghost predicate Kept(g: Segment, g': Segment, mayAdd: bool) {
    g.reqs.Keys <= g'.reqs.Keys && (g'.reqs.Keys <= g.reqs.Keys || mayAdd) && g'.ports.Keys == g.ports.Keys
  }

  lemma SubmitMembers(g: Segment, r: Req, xalloc: bool, grow: nat)
    requires r in g.reqs && |g.next| == g.nports
    ensures Kept(g, XSegState.Submit(g, r, xalloc, grow).0, false)
  {
    var req := g.reqs[r];
    if ValidPort(g, req.transit) && ValidPort(g, req.effDst) {
      TakerExists(g, req.transit, req.effDst, g.nports + 1);
    }
  }

  lemma ForwardMembers(g: Segment, r: Req, to: PortNo, xalloc: bool, grow: nat)
    requires r in g.reqs && |g.next| == g.nports
    ensures Kept(g, XSegState.Forward(g, r, to, xalloc, grow).0, false)
  {
    if ValidPort(g, to) {
      SubmitMembers(SetReq(g, r, g.reqs[r].(effDst := to)), r, xalloc, grow);
    }
  }

  lemma HandMembers(w: World, g: Segment, r: Req, src: PortNo, dst: PortNo)
    requires r in g.reqs
    ensures Kept(g, Hand(w.(seg := g), r, src, dst).seg, false)
  {
  }

  lemma GetFreeMembers(w: World, src: PortNo, dst: PortNo, local: bool, batch: Batch)
    requires Placed(w) && HasPort(w.seg, src) && w.seg.ports[src].freeQ != []
    ensures Kept(w.seg, DoGet(w, src, dst, local, batch).seg, true)
  {
    var port := w.seg.ports[src];
    QueueMember(w, InFree(src), Last(port.freeQ));
    HandMembers(w, SetPort(w.seg, src, port.(freeQ := Front(port.freeQ))), Last(port.freeQ), src, dst);
  }

  lemma FromPoolMembers(w: World, src: PortNo, dst: PortNo)
    requires HasPort(w.seg, src) && w.seg.pool != [] && w.seg.pool[0] in w.seg.reqs
    requires w.seg.ports[src].alloc < w.seg.ports[src].max
    ensures Kept(w.seg, FromPool(w, src, dst).seg, false)
  {
    HandMembers(w, Charged(w.seg, src), w.seg.pool[0], src, dst);
  }

  lemma GrownMembers(w: World, batch: Batch)
    ensures Kept(w.seg, Grown(w, batch).seg, true)
  {
  }

  lemma GetMembers(w: World, src: PortNo, dst: PortNo, local: bool, batch: Batch)
    requires Placed(w)
    ensures Kept(w.seg, DoGet(w, src, dst, local, batch).seg, true)
  {
    if HasPort(w.seg, src) {
      if w.seg.ports[src].freeQ != [] {
        GetFreeMembers(w, src, dst, local, batch);
      } else if !local && w.seg.ports[src].alloc < w.seg.ports[src].max {
        GetIsFromPool(w, src, dst, local, batch);
        GrownMembers(w, batch);
        var w1 := if w.seg.pool == [] then Grown(w, batch) else w;
        if w1.seg.pool != [] && w1.seg.pool[0] in w1.seg.reqs {
          FromPoolMembers(w1, src, dst);
        }
      }
    }
  }

  lemma PutMembers(w: World, r: Req)
    requires HeldReq(w, r)
    ensures Kept(w.seg, DoPut(w, r).seg, false)
  {
  }

  lemma RespondMembers(w: World, r: Req, xalloc: bool, grow: nat)
    requires HeldReq(w, r)
    ensures Kept(w.seg, DoRespond(w, r, xalloc, grow).seg, false)
  {
    DropDeafFacts(w.seg, w.seg.reqs[r].path);
  }

  lemma ReceiveMembers(w: World, p: PortNo)
    requires Inv(w)
    ensures Kept(w.seg, DoReceive(w, p).seg, false)
  {
    if HasPort(w.seg, p) && w.seg.ports[p].repQ != [] {
      QueueMember(w, InReply(p), Last(w.seg.ports[p].repQ));
      ReplyFacts(w, p, Last(w.seg.ports[p].repQ));
      ReceiveIsMove(w, p);
    }
  }

  lemma AcceptMembers(w: World, p: PortNo)
    requires Placed(w)
    ensures Kept(w.seg, DoAccept(w, p).seg, false)
  {
    if HasPort(w.seg, p) && w.seg.ports[p].reqQ != [] {
      AcceptIsMove(w, p);
    }
  }

  lemma FinishPutMembers(g: Segment, p: PortNo)
    requires p in g.ports
    ensures Kept(g, XSegState.FinishPut(g, p), false)
  {
  }

  /** Nothing that a call does makes a request vanish; only a get may add some. */
  lemma StepKeepsRequests(w: World, c: Call)
    requires Inv(w) && Enabled(w, c)
    ensures Kept(w.seg, Step(w, c).seg, c.Get?)
  {
    match c
    case Get(src, dst, local, batch) => GetMembers(w, src, dst, local, batch);
    case Submit(r, who, xalloc, grow) => SubmitMembers(w.seg, r, xalloc, grow);
    case Forward(r, to, who, xalloc, grow) => ForwardMembers(w.seg, r, to, xalloc, grow);
    case Accept(p) => AcceptMembers(w, p);
    case Respond(r, xalloc, grow) => RespondMembers(w, r, xalloc, grow);
    case Receive(p) => ReceiveMembers(w, p);
    case Put(r) => PutMembers(w, r);
    case FinishPut(p) => FinishPutMembers(w.seg, p);
  }

  /**
   In every state a run reaches, every request is in exactly one place, and the queues are no
   longer than they may be.
   */
  lemma EveryRequestIsInOnePlace(w0: World, cs: seq<Call>)
    requires LegalFrom(w0, cs)
    ensures var w := Final(w0, cs);
            && w0.seg.reqs.Keys <= w.seg.reqs.Keys == w.loc.Keys
            && (forall r, l | r in w.loc && IsQueue(l) && LocOk(w.seg, l) ::
                  multiset(QueueAt(w.seg, l))[r] == if w.loc[r] == l then 1 else 0)
            && (w.validGets ==> forall r | r in w.loc :: !w.loc[r].Lost?)
  {
    CreatedInv(w0);
    RunKeepsRequests(w0, cs);
    var w := Run(w0, cs);
    forall r, l | r in w.loc && IsQueue(l) && LocOk(w.seg, l)
      ensures multiset(QueueAt(w.seg, l))[r] == if w.loc[r] == l then 1 else 0
    {
      assert PlacedAt(w, l);
    }
  }

  lemma {:induction false} RunKeepsRequests(w: World, cs: seq<Call>)
    requires Inv(w) && Legal(w, cs)
    ensures w.seg.reqs.Keys <= Run(w, cs).seg.reqs.Keys && w.seg.ports.Keys == Run(w, cs).seg.ports.Keys
    decreases |cs|
  {
    if cs != [] {
      StepInv(w, cs[0]);
      StepKeepsRequests(w, cs[0]);
      RunKeepsRequests(Step(w, cs[0]), cs[1..]);
    }
  }

  /**
   The counter of a port is the number of its requests outside the pool and of the decrements to
   come, shifted by the gets for invalid destinations that moved a request between ports. Without
   such it is exact as soon as no decrement is outstanding, and never exceeds the limit.
   */
  ghost predicate CounterRight(w: World, p: PortNo)
    requires w.loc.Keys == w.seg.reqs.Keys && p in w.seg.ports
  {
    var n := |Owned(w, p)| + w.pend[p];
    var shift := w.charged[p] as int - w.given[p];
    && w.seg.ports[p].alloc == (n + shift) % WORD_LIMIT && n + shift <= w.seg.ports[p].max
    && (w.seg.ports[p].alloc == n % WORD_LIMIT <==> shift % WORD_LIMIT == 0)
    && (w.validGets ==> shift == 0)
    && (shift == 0 ==> && |Owned(w, p)| <= w.seg.ports[p].alloc <= w.seg.ports[p].max
                       && (w.seg.ports[p].alloc == |Owned(w, p)| <==> p !in w.pend))
  }

  /** That is so for every port over every run. */
  lemma CountersAreRight(w0: World, cs: seq<Call>, p: PortNo)
    requires LegalFrom(w0, cs)
    requires p in w0.seg.ports
    ensures p in Final(w0, cs).seg.ports && CounterRight(Final(w0, cs), p)
  {
    CreatedInv(w0);
    RunKeepsRequests(w0, cs);
    CounterAt(Final(w0, cs), p);
  }

  lemma CounterAt(w: World, p: PortNo)
    requires w.loc.Keys == w.seg.reqs.Keys && p in w.seg.ports && Balanced(w, p) && NoneLost(w)
    ensures CounterRight(w, p)
  {
    CountShows(w.seg.ports[p].alloc, |Owned(w, p)| + w.pend[p], w.charged[p] as int - w.given[p], w.seg.ports[p].max);
  }

  lemma CountShows(alloc: Word, n: nat, shift: int, max: Word)
    requires alloc == (n + shift) % WORD_LIMIT && n + shift <= max
    ensures alloc == n % WORD_LIMIT <==> shift % WORD_LIMIT == 0
    ensures shift == 0 ==> alloc == n
  {
    ShiftShows(n, shift);
  }

  lemma ShiftShows(n: nat, shift: int)
    ensures (n + shift) % WORD_LIMIT == n % WORD_LIMIT <==> shift % WORD_LIMIT == 0
  {
    SameRemainder(n + shift, n + shift % WORD_LIMIT, WORD_LIMIT, shift / WORD_LIMIT);
    SameRemainder(n + shift, n % WORD_LIMIT + shift % WORD_LIMIT, WORD_LIMIT, n / WORD_LIMIT + shift / WORD_LIMIT);
  }

  /**
   What a get makes of the request r that it took, whose record named s as its source: the caller
   has it exactly if the destination is valid. Otherwise it is put to port s, and lost exactly if
   there is no such port.
   */
  ghost predicate Handed(w: World, w': World, r: Req, s: PortNo, src: PortNo, dst: PortNo) {
    var strays := !ValidPort(w.seg, dst) && HasPort(w.seg, s);
    && r in w'.loc && r !in w'.astray
    && w'.loc[r] == (if ValidPort(w.seg, dst) then Held(src, false)
                     else if !HasPort(w.seg, s) then Lost(src)
                     else if |w.seg.ports[s].freeQ| < w.seg.ports[s].freeCap then InFree(s)
                     else InPool)
    && w'.validGets == (w.validGets && ValidPort(w.seg, dst))
    && w'.charged == (if strays then w.charged + multiset{src} else w.charged)
    && w'.given == (if strays then w.given + multiset{s} else w.given)
    && w'.pend == (if strays && w'.loc[r] == InPool then w.pend + multiset{s} else w.pend)
  }

  /** No other call shifts a request between ports. */
  lemma OnlyGetsShift(w: World, c: Call)
    requires Inv(w) && Enabled(w, c) && !c.Get?
    ensures SameShifts(w, Step(w, c))
  {
    match c
    case Submit(q, who, xalloc, grow) => SubmitAstray(w, q, who, XSegState.Submit(w.seg, q, xalloc, grow));
    case Forward(q, to, who, xalloc, grow) => SubmitAstray(w, q, who, XSegState.Forward(w.seg, q, to, xalloc, grow));
    case Accept(p) => AcceptAstray(w, p);
    case Respond(q, xalloc, grow) => RespondAstray(w, q, xalloc, grow);
    case Receive(p) => ReceiveAstray(w, p);
    case Put(q) => PutAstray(w, q);
    case FinishPut(_) =>
  }

  /** A get served from the free queue of the port loses the request exactly if the destination is invalid. */
  lemma GetLosesIff(w: World, src: PortNo, dst: PortNo, local: bool, batch: Batch)
    requires Inv(w) && HasPort(w.seg, src) && w.seg.ports[src].freeQ != []
    ensures Handed(w, DoGet(w, src, dst, local, batch), Last(w.seg.ports[src].freeQ), NO_PORT, src, dst)
    ensures !HasPort(w.seg, NO_PORT)
  {
    var r := Last(w.seg.ports[src].freeQ);
    QueueMember(w, InFree(src), r);
    IdleFacts(w, r);
    GetFromFree(w, src, dst, local, batch);
  }

  /**
   A get served from the pool loses it exactly if, moreover, the record of the request does not
   name an existing port. For an object not used before, it names what its memory happens to hold.
   */
  lemma PoolGetLosesIff(w: World, src: PortNo, dst: PortNo, batch: Batch)
    requires Inv(w) && Enabled(w, Get(src, dst, false, batch))
    requires HasPort(w.seg, src) && w.seg.ports[src].freeQ == [] && w.seg.ports[src].alloc < w.seg.ports[src].max
    requires w.seg.pool != [] || batch.objs != []
    ensures var r := if w.seg.pool != [] then w.seg.pool[0] else batch.objs[0];
            var known := w.seg.pool != [];
            && (if known then r in w.seg.reqs else r in batch.recs)
            && Handed(w, DoGet(w, src, dst, false, batch), r,
                      if known then w.seg.reqs[r].src else batch.recs[r].src, src, dst)
  {
    GetIsFromPool(w, src, dst, false, batch);
    if w.seg.pool == [] { GrownInv(w, batch); }
    var w1 := if w.seg.pool == [] then Grown(w, batch) else w;
    FirstOfPool(w1, src, dst);
  }

  lemma FirstOfPool(w: World, src: PortNo, dst: PortNo)
    requires Inv(w) && HasPort(w.seg, src) && w.seg.pool != [] && w.seg.ports[src].alloc < w.seg.ports[src].max
    requires w.seg.ports[src].freeQ == []
    ensures var r := w.seg.pool[0]; r in w.seg.reqs && Handed(w, FromPool(w, src, dst), r, w.seg.reqs[r].src, src, dst)
  {
    QueueMember(w, InPool, w.seg.pool[0]);
    FromPoolIs(w, src, dst);
    var r, s := w.seg.pool[0], w.seg.reqs[w.seg.pool[0]].src;
    if !ValidPort(w.seg, dst) && HasPort(w.seg, s) {
      PutBack(Refiled(Taken(w, src, Request(src, src, dst, dst, []), Held(src, false), w.validGets), r, src, s), r, s);
    }
  }

  lemma PutBack(w: World, r: Req, s: PortNo)
    requires HeldReq(w, r) && w.seg.reqs[r].src == s && HasPort(w.seg, s)
    ensures var w' := DoPut(w, r); var room := |w.seg.ports[s].freeQ| < w.seg.ports[s].freeCap;
            && r in w'.loc && w'.loc[r] == (if room then InFree(s) else InPool)
            && w'.charged == w.charged && w'.given == w.given && w'.validGets == w.validGets
            && w'.astray == w.astray - {r} && w'.pend == (if room then w.pend else w.pend + multiset{s})
  {
  }

  /**
   A get for an invalid destination that takes a request whose record names another port: the
   caller's counter is raised for nothing, and that port has one request, or one decrement to
   come, that its counter does not count.
   */
  lemma StrayGetShifts(w: World, src: PortNo, dst: PortNo, batch: Batch)
    requires Inv(w) && HasPort(w.seg, src) && w.seg.ports[src].freeQ == []
    requires w.seg.ports[src].alloc < w.seg.ports[src].max && w.seg.pool != [] && w.seg.pool[0] in w.seg.reqs
    requires var s := w.seg.reqs[w.seg.pool[0]].src; !ValidPort(w.seg, dst) && HasPort(w.seg, s) && s != src
    ensures var w' := DoGet(w, src, dst, false, batch); var s := w.seg.reqs[w.seg.pool[0]].src;
            && src in w'.seg.ports && s in w'.seg.ports && w'.loc.Keys == w'.seg.reqs.Keys
            && w'.seg.ports[src].alloc == w.seg.ports[src].alloc + 1 && Owned(w', src) == Owned(w, src)
            && w'.seg.ports[s].alloc == w.seg.ports[s].alloc
            && |Owned(w', s)| + w'.pend[s] == |Owned(w, s)| + w.pend[s] + 1
  {
    var r, s := w.seg.pool[0], w.seg.reqs[w.seg.pool[0]].src;
    QueueMember(w, InPool, r);
    GetIsFromPool(w, src, dst, false, batch);
    FromPoolIs(w, src, dst);
    var w1 := Refiled(Taken(w, src, Request(src, src, dst, dst, []), Held(src, false), w.validGets), r, src, s);
    RefiledRest(w, w1, src, dst);
    PutBack(w1, r, s);
    PutRest(w1, r);
    StrayOwners(w, DoPut(w1, r), r, src, s);
  }

  lemma RefiledRest(w: World, w1: World, src: PortNo, dst: PortNo)
    requires w.loc.Keys == w.seg.reqs.Keys && src in w.seg.ports && w.seg.pool != []
    requires w.seg.pool[0] in w.seg.reqs && w.seg.ports[src].alloc < w.seg.ports[src].max
    requires var r := w.seg.pool[0];
             w1 == Refiled(Taken(w, src, Request(src, src, dst, dst, []), Held(src, false), w.validGets), r, src,
                           w.seg.reqs[r].src)
    ensures var r := w.seg.pool[0];
            && HeldReq(w1, r) && w1.seg.reqs[r].src == w.seg.reqs[r].src && w1.pend == w.pend
            && w1.loc.Keys == w1.seg.reqs.Keys == w.loc.Keys && w1.seg.ports.Keys == w.seg.ports.Keys
            && w1.seg.nports == w.seg.nports
            && (forall p | p in w.seg.ports ::
                  w1.seg.ports[p].alloc == if p == src then w.seg.ports[p].alloc + 1 else w.seg.ports[p].alloc)
            && (forall x | x in w.loc && x != r :: w1.loc[x] == w.loc[x] && w1.seg.reqs[x] == w.seg.reqs[x])
  {
  }

  lemma StrayOwners(w: World, w': World, r: Req, src: PortNo, s: PortNo)
    requires w.loc.Keys == w.seg.reqs.Keys == w'.loc.Keys == w'.seg.reqs.Keys && r in w.loc && w.loc[r] == InPool
    requires forall x | x in w.loc && x != r :: w'.loc[x] == w.loc[x] && w'.seg.reqs[x] == w.seg.reqs[x]
    requires (w'.loc[r] == InFree(s) || w'.loc[r] == InPool) && src != s && src != NO_PORT && s != NO_PORT
    ensures Owned(w', src) == Owned(w, src)
    ensures |Owned(w', s)| == |Owned(w, s)| + if w'.loc[r] == InPool then 0 else 1
  {
    OwnerChanges(w, w', r, src);
    OwnerChanges(w, w', r, s);
  }

  lemma PutRest(w: World, r: Req)
    requires HeldReq(w, r) && HasPort(w.seg, w.seg.reqs[r].src) && w.loc.Keys == w.seg.reqs.Keys
    ensures var w' := DoPut(w, r);
            && w'.loc.Keys == w'.seg.reqs.Keys == w.loc.Keys && w'.seg.ports.Keys == w.seg.ports.Keys
            && (forall p | p in w.seg.ports :: w'.seg.ports[p].alloc == w.seg.ports[p].alloc)
            && (forall x | x in w.loc && x != r :: w'.loc[x] == w.loc[x] && w'.seg.reqs[x] == w.seg.reqs[x])
  {
  }

  // ----- a run that makes a counter wrap around

  function Bare(freeQ: seq<Req>, alloc: Word): Port { Port(3, freeQ, 1, [], 1, [], 1, alloc, 5) }

  /** Two ports, and two requests that were never used; the memory they lie in reads as zero. */
  function TwoPorts(zero: Port, one: Port, reqs: map<Req, Request>, pool: seq<Req>): Segment {
    Segment(2, [NO_PORT, NO_PORT], map[0 := zero, 1 := one], reqs, pool)
  }

  function Unused(): Request { Request(0, 0, 0, 0, []) }

  ghost function FreshWorld(): World {
    World(TwoPorts(Bare([], 0), Bare([], 0), map[7 := Unused(), 8 := Unused()], [7, 8]),
          map[7 := InPool, 8 := InPool], map[7 := [], 8 := []], multiset{}, multiset{}, multiset{}, {}, true)
  }

  ghost function AfterOne(): World {
    World(TwoPorts(Bare([7], 0), Bare([], 1), map[7 := Blank(), 8 := Unused()], [8]),
          map[7 := InFree(0), 8 := InPool], map[7 := [], 8 := []],
          multiset{}, multiset{1}, multiset{0}, {}, false)
  }

  ghost function AfterTwo(): World {
    World(TwoPorts(Bare([7], 0), Bare([], 2), map[7 := Blank(), 8 := Blank()], [8]),
          map[7 := InFree(0), 8 := InPool], map[7 := [], 8 := []],
          multiset{0}, multiset{1, 1}, multiset{0, 0}, {}, false)
  }

  function StrayGet(): Call { Get(1, 9, false, Batch([], map[])) }

  lemma FirstGet()
    ensures FromPool(FreshWorld(), 1, 9) == AfterOne()
  {
    var w := FreshWorld();
    assert [7, 8][1..] == [8] && [] + [7] == [7];
    assert w.seg.ports[1 := Bare([], 1)] == map[0 := Bare([], 0), 1 := Bare([], 1)];
    assert w.seg.reqs[7 := Blank()] == map[7 := Blank(), 8 := Unused()];
    StrayedIs(w, 1, 9, 7, 0, [7], [8]);
    assert w.seg.ports[1 := Bare([], 1)][0 := Bare([7], 0)] == map[0 := Bare([7], 0), 1 := Bare([], 1)];
    assert w.loc[7 := InFree(0)] == map[7 := InFree(0), 8 := InPool];
    assert w.asked[7 := []] == map[7 := [], 8 := []];
  }

  lemma SecondGet()
    ensures FromPool(AfterOne(), 1, 9) == AfterTwo()
  {
    var w := AfterOne();
    assert [8][1..] == [] && [8] + [] == [8];
    assert w.seg.ports[1 := Bare([], 2)] == map[0 := Bare([7], 0), 1 := Bare([], 2)];
    assert w.seg.reqs[8 := Blank()] == map[7 := Blank(), 8 := Blank()];
    StrayedIs(w, 1, 9, 8, 0, [7], []);
    assert w.loc[8 := InPool] == map[7 := InFree(0), 8 := InPool];
    assert w.asked[8 := []] == map[7 := [], 8 := []];
  }

  /** What a get for an invalid destination that finds a request of port s in the pool does to the world. */
  lemma StrayedIs(w: World, src: PortNo, dst: PortNo, r: Req, s: PortNo, freeQ: seq<Req>, rest: seq<Req>)
    requires HasPort(w.seg, src) && w.seg.ports[src].alloc < w.seg.ports[src].max && !ValidPort(w.seg, dst)
    requires w.seg.pool == [r] + rest && r in w.seg.reqs && w.seg.reqs[r].src == s && HasPort(w.seg, s) && s != src
    requires var q := w.seg.ports[s].freeQ; freeQ == if |q| < w.seg.ports[s].freeCap then q + [r] else q
    ensures var room := |w.seg.ports[s].freeQ| < w.seg.ports[s].freeCap;
            var ports := w.seg.ports[src := w.seg.ports[src].(alloc := w.seg.ports[src].alloc + 1)];
            FromPool(w, src, dst)
            == World(w.seg.(ports := ports[s := w.seg.ports[s].(freeQ := freeQ)],
                            reqs := w.seg.reqs[r := Blank()], pool := if room then rest else [r] + rest),
                     w.loc[r := if room then InFree(s) else InPool], w.asked[r := []],
                     if room then w.pend else w.pend + multiset{s},
                     w.charged + multiset{src}, w.given + multiset{s}, w.astray - {r}, false)
  {
    assert w.seg.pool[1..] == rest;
    var ports := w.seg.ports[src := w.seg.ports[src].(alloc := w.seg.ports[src].alloc + 1)];
    assert ports[s := ports[s]] == ports;
  }

  lemma RunOfThree(w0: World, w1: World, w2: World, a: Call, b: Call, c: Call)
    requires Inv(w0) && Enabled(w0, a) && Step(w0, a) == w1 && Inv(w1) && Enabled(w1, b) && Step(w1, b) == w2
    requires Inv(w2) && Enabled(w2, c) && Inv(Step(w2, c))
    ensures Legal(w0, [a, b, c]) && Run(w0, [a, b, c]) == Step(w2, c)
  {
    RunOfTwo(w1, w2, b, c);
    assert [a] + [b, c] == [a, b, c];
    RunCons(w0, w1, a, [b, c]);
  }

  lemma RunOfTwo(w1: World, w2: World, b: Call, c: Call)
    requires Inv(w1) && Enabled(w1, b) && Step(w1, b) == w2 && Inv(w2) && Enabled(w2, c) && Inv(Step(w2, c))
    ensures Legal(w1, [b, c]) && Run(w1, [b, c]) == Step(w2, c)
  {
    RunCons(w2, Step(w2, c), c, []);
    assert [c] + [] == [c] && [b] + [c] == [b, c];
    RunCons(w1, w2, b, [c]);
  }

  lemma RunCons(w: World, w1: World, c: Call, cs: seq<Call>)
    requires Inv(w) && Inv(w1) && Enabled(w, c) && Step(w, c) == w1 && Legal(w1, cs)
    ensures Legal(w, [c] + cs) && Run(w, [c] + cs) == Run(w1, cs)
  {
    assert ([c] + cs)[1..] == cs;
  }

  lemma StrayGetSteps(w: World)
    requires Inv(w) && w.seg.nports == 2 && 1 in w.seg.ports && w.seg.ports[1].freeQ == [] && w.seg.pool != []
    requires w.seg.ports[1].alloc < w.seg.ports[1].max && w.seg.pool[0] in w.seg.reqs
    ensures Enabled(w, StrayGet()) && Step(w, StrayGet()) == FromPool(w, 1, 9) && Inv(FromPool(w, 1, 9))
  {
    GetIsFromPool(w, 1, 9, false, Batch([], map[]));
    StepInv(w, StrayGet());
  }

  lemma WrapRun(w0: World, w1: World, w2: World)
    requires w0 == FreshWorld() && w1 == AfterOne() && w2 == AfterTwo() && Inv(w0)
    ensures Legal(w0, [StrayGet(), StrayGet(), FinishPut(0)])
    ensures Enabled(w2, FinishPut(0)) && Placed(w2)
            && Run(w0, [StrayGet(), StrayGet(), FinishPut(0)]) == Step(w2, FinishPut(0))
  {
    FirstGet();
    StrayGetSteps(w0);
    SecondGet();
    StrayGetSteps(w1);
    StepInv(w2, FinishPut(0));
    RunOfThree(w0, w1, w2, StrayGet(), StrayGet(), FinishPut(0));
  }

  lemma FreshIsCreated()
    ensures Created(FreshWorld())
  {
    var w := FreshWorld();
    assert forall r :: r in w.seg.reqs <==> r in w.seg.pool;
    assert w.loc == map r | r in w.seg.reqs :: InPool;
    assert w.asked == map r | r in w.seg.reqs :: [];
  }

  lemma WrapEnd(w0: World)
    requires w0 == FreshWorld() && Created(w0)
    ensures LegalFrom(w0, [StrayGet(), StrayGet(), FinishPut(0)])
    ensures var w := Final(w0, [StrayGet(), StrayGet(), FinishPut(0)]);
            && 0 in w.seg.ports && w.seg.ports[0].alloc == WORD_LIMIT - 1
            && 1 in w.seg.ports && w.seg.ports[1].alloc == 2 && Owned(w, 1) == {}
  {
    CreatedInv(w0);
    var w2 := AfterTwo();
    WrapRun(w0, AfterOne(), w2);
    LastStep(w2, Step(w2, FinishPut(0)));
  }

  lemma LastStep(w2: World, w3: World)
    requires w2 == AfterTwo() && w3 == w2.(seg := XSegState.FinishPut(w2.seg, 0), pend := w2.pend - multiset{0})
    ensures && 0 in w3.seg.ports && w3.seg.ports[0].alloc == WORD_LIMIT - 1 && w3.loc.Keys == w3.seg.reqs.Keys
            && 1 in w3.seg.ports && w3.seg.ports[1].alloc == 2 && Owned(w3, 1) == {}
  {
  }

  /**
   Two gets of port 1 for port 9, which does not exist, and the counter of port 0, which did
   nothing, wraps around to the greatest word; port 1 has no request and its counter says two.
   */
  lemma CounterWrapsExample()
    ensures var cs := [StrayGet(), StrayGet(), FinishPut(0)];
            && LegalFrom(FreshWorld(), cs)
            && var w := Final(FreshWorld(), cs);
               && 0 in w.seg.ports && w.seg.ports[0].alloc == WORD_LIMIT - 1
               && 1 in w.seg.ports && w.seg.ports[1].alloc == 2 && Owned(w, 1) == {}
  {
    FreshIsCreated();
    WrapEnd(FreshWorld());
  }

  // ----- the path

  /** The request carries the stack of ports that submitted it and have no reply yet. */
  ghost predicate PathIsStack(w: World, r: Req) {
    r in w.seg.reqs && r in w.asked && w.seg.reqs[r].path == w.asked[r]
  }

  /** The call submits r, and not from its port of transit. */
  ghost predicate SubmitsAstray(w: World, c: Call, r: Req)
    requires Enabled(w, c)
  {
    || (c.Submit? && c.req == r && c.who != w.seg.reqs[r].transit)
    || (c.Forward? && c.req == r && c.who != w.seg.reqs[r].transit)
  }

  /** A submit keeps that exactly if the submitter is the port that the request is in transit at. */
  lemma SubmitKeepsStackIff(w: World, r: Req, who: PortNo, xalloc: bool, grow: nat)
    requires Inv(w) && Enabled(w, Submit(r, who, xalloc, grow)) && PathIsStack(w, r)
    requires XSegState.Submit(w.seg, r, xalloc, grow).1 != NO_PORT
    ensures PathIsStack(Step(w, Submit(r, who, xalloc, grow)), r) <==> who == w.seg.reqs[r].transit
  {
    SubmitEffect(w.seg, r, xalloc, grow);
    var path := w.seg.reqs[r].path;
    assert (path + [who])[|path|] == who && (path + [w.seg.reqs[r].transit])[|path|] == w.seg.reqs[r].transit;
  }

  /** A submit that fails, for whatever reason, leaves the whole segment as it was. */
  lemma FailedSubmitChangesNothing(w: World, r: Req, who: PortNo, xalloc: bool, grow: nat)
    requires Inv(w) && Enabled(w, Submit(r, who, xalloc, grow))
    requires XSegState.Submit(w.seg, r, xalloc, grow).1 == NO_PORT
    ensures Step(w, Submit(r, who, xalloc, grow)) == w
  {
    SubmitEffect(w.seg, r, xalloc, grow);
  }

  /** A port that got or accepted a request is the one it is in transit at; so its submits keep the stack. */
  lemma FirstSubmitIsFaithful(w: World, r: Req, who: PortNo, xalloc: bool, grow: nat)
    requires Inv(w) && Enabled(w, Submit(r, who, xalloc, grow)) && w.loc[r] == Held(who, false)
    ensures w.seg.reqs[r].transit == who
    ensures Step(w, Submit(r, who, xalloc, grow)).astray == w.astray
  {
    HeldFacts(w, r);
  }

  /**
   Replies unwind the stack: a response goes to the last submitter that can receive, over the
   heads of those that cannot, and when that port receives it, it is taken off the stack.
   */
  lemma RepliesUnwind(w: World, r: Req, xalloc: bool, grow: nat)
    requires Inv(w) && Enabled(w, Respond(r, xalloc, grow)) && PathIsStack(w, r)
    ensures var w' := Step(w, Respond(r, xalloc, grow)); var asked := w.asked[r]; var rest := w'.asked[r];
            && rest <= asked && PathIsStack(w', r)
            && (forall i | |rest| <= i < |asked| :: HasPort(w.seg, asked[i]) && !CanReceive(w.seg.ports[asked[i]]))
            && (w'.loc[r].InReply? ==>
                rest != [] && w'.loc[r].port == Last(rest) && CanReceive(w.seg.ports[Last(rest)]))
            && (!w'.loc[r].InReply? ==> w'.loc[r] == w.loc[r])
  {
    HeldFacts(w, r);
    DropDeafFacts(w.seg, w.asked[r]);
  }

  lemma ReplyTop(w: World, p: PortNo, r: Req)
    requires Inv(w) && r in w.loc && w.loc[r] == InReply(p) && r in w.seg.reqs && r in w.asked
    ensures var path := w.seg.reqs[r].path;
            path != [] && path == Front(path) + [p] && (r !in w.astray ==> w.asked[r] == path)
  {
    assert ReqOk(w.seg, w.loc[r], w.seg.reqs[r], w.asked[r], r !in w.astray);
    var path := w.seg.reqs[r].path;
    assert path == Front(path) + [Last(path)];
  }

  /** Whoever receives was the top of the stack, and the rest of the stack is what remains. */
  lemma ReceivePopsTop(w: World, p: PortNo)
    requires Inv(w) && HasPort(w.seg, p) && w.seg.ports[p].repQ != []
    ensures var r := Last(w.seg.ports[p].repQ); var w' := DoReceive(w, p);
            && r in w.seg.reqs && r in w'.seg.reqs && r in w.asked && r in w'.asked
            && w.seg.reqs[r].path == w'.seg.reqs[r].path + [p]
            && (PathIsStack(w, r) ==> w.asked[r] == w'.asked[r] + [p])
            && w'.seg.reqs[r].transit == w.seg.reqs[r].transit
  {
    var r := Last(w.seg.ports[p].repQ);
    QueueMember(w, InReply(p), r);
    ReplyTop(w, p, r);
    ReceiveIsMove(w, p);
  }

  lemma AnswerIsMove(w: World, r: Req, a: PortNo)
    requires Static(w.seg) && HeldReq(w, r) && w.seg.reqs[r].path == [a] == w.asked[r]
    requires HasPort(w.seg, a) && CanReceive(w.seg.ports[a]) && w.seg.ports[a].repQ == [] && w.seg.ports[a].repCap > 0
    ensures DoRespond(w, r, false, 0)
            == Moved(w, a, w.seg.ports[a].(repQ := [r]), r, w.seg.reqs[r], [a], InReply(a), w.astray, w.validGets)
  {
    assert [r] + w.seg.ports[a].repQ == [r];
    assert Last([a]) == a;
    assert DropDeaf(w.seg, [a]) == [a];
    assert w.seg.reqs[r].(path := [a]) == w.seg.reqs[r];
  }

  /**
   A receive does not reset the port of transit. So when a port a gets its request back from b
   and submits it again, b goes on the stack and not a.
   */
  lemma ResubmitGoesAstray(w: World, w1: World, w2: World, r: Req, a: PortNo, b: PortNo, xalloc: bool, grow: nat)
    requires Inv(w) && HeldReq(w, r) && w.loc[r] == Held(b, false) && a != b
    requires w.seg.reqs[r].path == [a] == w.asked[r]
    requires HasPort(w.seg, a) && CanReceive(w.seg.ports[a]) && w.seg.ports[a].repQ == [] && w.seg.ports[a].repCap > 0
    requires w1 == DoRespond(w, r, false, 0) && Inv(w1) && w2 == DoReceive(w1, a) && Inv(w2)
    ensures HeldReq(w2, r) && w2.loc[r] == Held(a, true) && PathIsStack(w2, r)
    ensures Enabled(w2, Submit(r, a, xalloc, grow)) && XSegState.Submit(w2.seg, r, xalloc, grow).1 != NO_PORT
            ==> !PathIsStack(Step(w2, Submit(r, a, xalloc, grow)), r)
  {
    HeldFacts(w, r);
    AnswerIsMove(w, r, a);
    assert w1.seg.ports[a].repQ == [r];
    ReceiveIsMove(w1, a);
    assert Front([a]) == [];
    if Enabled(w2, Submit(r, a, xalloc, grow)) && XSegState.Submit(w2.seg, r, xalloc, grow).1 != NO_PORT {
      SubmitKeepsStackIff(w2, r, a, xalloc, grow);
    }
  }

  /**
   The path discipline over runs: a reply waits at the port on top of its path; and the path of
   a request is the stack of its unanswered submitters, unless the request itself, since it was
   got, has been submitted by another port than the one it was in transit at.
   */
  lemma PathsAreStacks(w0: World, cs: seq<Call>, r: Req)
    requires LegalFrom(w0, cs) && r in Final(w0, cs).loc
    ensures var w := Final(w0, cs); var l := w.loc[r];
            && r in w.seg.reqs
            && (l.InReply? ==> w.seg.reqs[r].path != [] && Last(w.seg.reqs[r].path) == l.port)
            && (r !in w.astray && InUse(l) ==> PathIsStack(w, r))
            && (l.InPool? || l.Lost? || |w.seg.reqs[r].path| <= MAX_PATH_LEN)
  {
    CreatedInv(w0);
    var w := Final(w0, cs);
    assert ReqOk(w.seg, w.loc[r], w.seg.reqs[r], w.asked[r], r !in w.astray);
  }

  lemma GetAstray(w: World, src: PortNo, dst: PortNo, local: bool, batch: Batch)
    requires Placed(w)
    ensures DoGet(w, src, dst, local, batch).astray <= w.astray
  {
    if HasPort(w.seg, src) {
      var port := w.seg.ports[src];
      if port.freeQ != [] {
        QueueMember(w, InFree(src), Last(port.freeQ));
        HandAstray(w.(seg := SetPort(w.seg, src, port.(freeQ := Front(port.freeQ)))), Last(port.freeQ), src, dst);
      } else if !local && port.alloc < port.max {
        GetIsFromPool(w, src, dst, local, batch);
        var w1 := if w.seg.pool == [] then Grown(w, batch) else w;
        if w1.seg.pool != [] && w1.seg.pool[0] in w1.seg.reqs {
          HandAstray(w1.(seg := Charged(w1.seg, src)), w1.seg.pool[0], src, dst);
        }
      }
    }
  }

  lemma HandAstray(w: World, r: Req, src: PortNo, dst: PortNo)
    requires r in w.seg.reqs
    ensures Hand(w, r, src, dst).astray <= w.astray
  {
  }

  /** A request goes astray only by a submit of its own, and not by what happens to others. */
  lemma OnlyOwnSubmits(w: World, c: Call, r: Req)
    requires Inv(w) && Enabled(w, c) && r !in w.astray && !SubmitsAstray(w, c, r)
    ensures r !in Step(w, c).astray
  {
    match c
    case Get(src, dst, local, batch) => GetAstray(w, src, dst, local, batch);
    case Submit(q, who, xalloc, grow) => SubmitAstray(w, q, who, XSegState.Submit(w.seg, q, xalloc, grow));
    case Forward(q, to, who, xalloc, grow) => SubmitAstray(w, q, who, XSegState.Forward(w.seg, q, to, xalloc, grow));
    case Accept(p) => AcceptAstray(w, p);
    case Respond(q, xalloc, grow) => RespondAstray(w, q, xalloc, grow);
    case Receive(p) => ReceiveAstray(w, p);
    case Put(q) => PutAstray(w, q);
    case FinishPut(_) =>
  }

  lemma SubmitAstray(w: World, q: Req, who: PortNo, result: (Segment, PortNo))
    requires HeldReq(w, q)
    ensures DoSubmit(w, q, who, result).astray <= w.astray + if who == w.seg.reqs[q].transit then {} else {q}
    ensures SameShifts(w, DoSubmit(w, q, who, result))
  {
  }

  lemma AcceptAstray(w: World, p: PortNo)
    requires Placed(w)
    ensures DoAccept(w, p).astray == w.astray
    ensures SameShifts(w, DoAccept(w, p))
  {
  }

  lemma RespondAstray(w: World, q: Req, xalloc: bool, grow: nat)
    requires HeldReq(w, q)
    ensures DoRespond(w, q, xalloc, grow).astray == w.astray
    ensures SameShifts(w, DoRespond(w, q, xalloc, grow))
  {
  }

  lemma ReceiveAstray(w: World, p: PortNo)
    requires Placed(w)
    ensures DoReceive(w, p).astray == w.astray
    ensures SameShifts(w, DoReceive(w, p))
  {
  }

  lemma PutAstray(w: World, q: Req)
    requires HeldReq(w, q)
    ensures DoPut(w, q).astray <= w.astray
    ensures SameShifts(w, DoPut(w, q))
  {
  }

  /** No call of the run submits r from another port than the one it is in transit at. */
  ghost predicate SubmittedInTransit(w: World, cs: seq<Call>, r: Req)
    requires Inv(w) && Legal(w, cs)
    decreases |cs|
  {
    cs == [] || (!SubmitsAstray(w, cs[0], r) && (StepInv(w, cs[0]); SubmittedInTransit(Step(w, cs[0]), cs[1..], r)))
  }

  lemma {:induction false} NotAstray(w: World, cs: seq<Call>, r: Req)
    requires Inv(w) && Legal(w, cs) && SubmittedInTransit(w, cs, r) && r !in w.astray
    ensures r !in Run(w, cs).astray
    decreases |cs|
  {
    if cs != [] {
      StepInv(w, cs[0]);
      OnlyOwnSubmits(w, cs[0], r);
      NotAstray(Step(w, cs[0]), cs[1..], r);
    }
  }

  /**
   From any state in which r has not gone astray, as when it has just been got: if all its
   submits come from its port of transit, its path is the stack of its unanswered submitters at
   the end, whatever the calls do with all other requests.
   */
  lemma StackOverRun(w: World, cs: seq<Call>, r: Req)
    requires Inv(w) && Legal(w, cs) && SubmittedInTransit(w, cs, r) && r !in w.astray && r in Run(w, cs).loc
    ensures InUse(Run(w, cs).loc[r]) ==> PathIsStack(Run(w, cs), r)
  {
    NotAstray(w, cs, r);
    var w' := Run(w, cs);
    assert ReqOk(w'.seg, w'.loc[r], w'.seg.reqs[r], w'.asked[r], r !in w'.astray);
  }
}
