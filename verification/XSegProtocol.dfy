/**
 Runs of the request protocol: any interleaving of the calls of XSegState by any peers, and
 what every reachable state keeps.
 */
module XSegProtocol {
  import opened Seqs
  import opened XSegState
  import opened Words

  /**
   Where a request is. A held request was taken by get or accept, or came back by receive.
   A lost one is in no queue and nobody has it.
   */
  datatype Loc =
    | InPool
    | InFree(port: PortNo)
    | InRequest(port: PortNo)
    | InReply(port: PortNo)
    | Held(port: PortNo, back: bool)
    | Lost(port: PortNo)

  /**
   The segment with the history that the claims speak of: the place of every request, the
   stack of ports that submitted it and have no reply yet, the ports whose counter is still to
   be lowered, the requests that, since they were got, have been submitted by another port than
   the one they were in transit at, and whether every get so far named a valid destination.

   A get for an invalid destination can give the request that it took to another port, the one
   that the record of the request happens to name: charged and given list the port that got it
   counted and the port that got it, once for each such get.
   */
  datatype World = World(
    seg: Segment,
    loc: map<Req, Loc>,
    asked: map<Req, seq<PortNo>>,
    pend: multiset<PortNo>,
    charged: multiset<PortNo>,
    given: multiset<PortNo>,
    astray: set<Req>,
    validGets: bool
  )

  datatype Call =
    | Get(src: PortNo, dst: PortNo, local: bool, batch: Batch)
    | Submit(req: Req, who: PortNo, xalloc: bool, grow: nat)
    | Forward(req: Req, to: PortNo, who: PortNo, xalloc: bool, grow: nat)
    | Accept(port: PortNo)
    | Respond(req: Req, xalloc: bool, grow: nat)
    | Receive(port: PortNo)
    | Put(req: Req)
    | FinishPut(port: PortNo)

  ghost predicate HeldReq(w: World, r: Req) {
    r in w.seg.reqs && r in w.asked && r in w.loc && w.loc[r].Held?
  }

  /** The call is made as the API allows, and the loop of a submit ends. */
  ghost predicate Enabled(w: World, c: Call) {
    match c
    case Get(_, _, _, batch) =>
      Distinct(batch.objs) && batch.recs.Keys !! w.seg.reqs.Keys && forall r :: r in batch.recs <==> r in batch.objs
    case Submit(r, _, _, grow) => HeldReq(w, r) && WalkEnds(w.seg, w.seg.reqs[r])
    case Forward(r, to, _, _, grow) =>
      HeldReq(w, r) && WalkEnds(w.seg, w.seg.reqs[r].(effDst := to))
    case Respond(r, _, grow) => HeldReq(w, r)
    case Put(r) => HeldReq(w, r)
    case Accept(_) => true
    case Receive(_) => true
    case FinishPut(p) => p in w.pend && p in w.seg.ports
  }

  ghost predicate Distinct(s: seq<Req>) { forall i, j | 0 <= i < j < |s| :: s[i] != s[j] }

  ghost predicate WalkEnds(g: Segment, req: Request) {
    |g.next| == g.nports
    && (ValidPort(g, req.transit) && ValidPort(g, req.effDst) ==>
        !WalkFrom(g, req.transit, req.effDst, g.nports + 1).Unfinished?)
  }

  // ----- the invariant

  ghost predicate Static(g: Segment) {
    |g.next| == g.nports <= NO_PORT && forall p | p in g.ports :: p < g.nports
  }

  predicate IsQueue(l: Loc) { l.InPool? || l.InFree? || l.InRequest? || l.InReply? }

  ghost predicate LocOk(g: Segment, l: Loc) {
    l.InPool? || l.Held? || l.port in g.ports
  }

  ghost function QueueAt(g: Segment, l: Loc): seq<Req>
    requires IsQueue(l) && LocOk(g, l)
  {
    match l
    case InPool => g.pool
    case InFree(p) => g.ports[p].freeQ
    case InRequest(p) => g.ports[p].reqQ
    case InReply(p) => g.ports[p].repQ
  }

  /** The queue holds exactly the requests that are there, each once. */
  ghost predicate PlacedAt(w: World, l: Loc)
    requires IsQueue(l) && LocOk(w.seg, l)
  {
    forall r :: multiset(QueueAt(w.seg, l))[r] == if r in w.loc && w.loc[r] == l then 1 else 0
  }

  /** Every request is in exactly one place. */
  ghost predicate Placed(w: World) {
    && w.loc.Keys == w.seg.reqs.Keys == w.asked.Keys
    && (forall r | r in w.loc :: LocOk(w.seg, w.loc[r]))
    && (forall l | IsQueue(l) && LocOk(w.seg, l) :: PlacedAt(w, l))
  }

  ghost predicate WithinCaps(g: Segment) {
    forall p | p in g.ports ::
      |g.ports[p].freeQ| <= g.ports[p].freeCap && |g.ports[p].reqQ| <= g.ports[p].reqCap
      && |g.ports[p].repQ| <= g.ports[p].repCap
  }

  /** Somebody has the request, or it is on its way. */
  predicate InUse(l: Loc) { l.InRequest? || l.InReply? || l.Held? }

  /** What is true of one request, given its place and its stack of submitters. */
  ghost predicate ReqOk(g: Segment, l: Loc, req: Request, asked: seq<PortNo>, faithful: bool) {
    && (l.InFree? ==> req.src == NO_PORT)
    && (l.Lost? ==> req.src !in g.ports)
    && (InUse(l) ==> req.src in g.ports)
    && (l.InPool? || l.Lost? || |req.path| <= MAX_PATH_LEN)
    && (l.InReply? ==> req.path != [] && Last(req.path) == l.port)
    && (l.Held? && !l.back ==> req.transit == l.port)
    && (faithful && InUse(l) ==> req.path == asked)
  }

  ghost predicate ReqsOk(w: World)
    requires w.loc.Keys == w.seg.reqs.Keys == w.asked.Keys
  {
    forall r | r in w.loc :: ReqOk(w.seg, w.loc[r], w.seg.reqs[r], w.asked[r], r !in w.astray)
  }

  /** The port whose counter counts a request, or NO_PORT. */
  ghost function OwnerAt(l: Loc, req: Request): PortNo {
    match l
    case InPool => NO_PORT
    case InFree(p) => p
    case Lost(p) => p
    case _ => req.src
  }

  ghost function OwnerOf(w: World, r: Req): PortNo
    requires r in w.loc && r in w.seg.reqs
  {
    OwnerAt(w.loc[r], w.seg.reqs[r])
  }

  ghost function Owned(w: World, p: PortNo): set<Req>
    requires w.loc.Keys == w.seg.reqs.Keys
  {
    set r | r in w.loc && OwnerOf(w, r) == p
  }

  /**
   The requests of the port outside the pool, the decrements to come, and what gets for invalid
   destinations have shifted between it and other ports.
   */
  ghost function Balance(w: World, p: PortNo): int
    requires w.loc.Keys == w.seg.reqs.Keys
  {
    |Owned(w, p)| + w.pend[p] + w.charged[p] - w.given[p]
  }

  /** alloc_reqs is that number, as a word. */
  ghost predicate Balanced(w: World, p: PortNo)
    requires w.loc.Keys == w.seg.reqs.Keys && p in w.seg.ports
  {
    w.seg.ports[p].alloc == Balance(w, p) % WORD_LIMIT && Balance(w, p) <= w.seg.ports[p].max
  }

  ghost predicate Accounted(w: World)
    requires w.loc.Keys == w.seg.reqs.Keys
  {
    forall p | p in w.seg.ports :: Balanced(w, p)
  }

  ghost predicate NoneLost(w: World) {
    w.validGets ==> w.charged == w.given == multiset{} && forall r | r in w.loc :: !w.loc[r].Lost?
  }

  ghost predicate Inv(w: World) {
    Static(w.seg) && Placed(w) && WithinCaps(w.seg) && ReqsOk(w) && Accounted(w) && NoneLost(w)
  }

  lemma QueueMember(w: World, l: Loc, r: Req)
    requires Placed(w) && IsQueue(l) && LocOk(w.seg, l) && r in QueueAt(w.seg, l)
    ensures r in w.loc && w.loc[r] == l && r in w.seg.reqs && r in w.asked
  {
    assert PlacedAt(w, l);
    assert multiset(QueueAt(w.seg, l))[r] > 0;
  }

  // ----- one call

  /**
   A taken request is handed to the caller of get. If the destination is invalid it is put back
   with the source that its record names: to that port, or, if there is none, nowhere.
   */
  ghost function Hand(w: World, r: Req, src: PortNo, dst: PortNo): World
    requires r in w.seg.reqs
  {
    var w1 := w.(loc := w.loc[r := Held(src, false)], asked := w.asked[r := []], astray := w.astray - {r});
    if ValidPort(w.seg, dst) then w1.(seg := Prepare(w.seg, r, src, dst))
    else if HasPort(w.seg, w.seg.reqs[r].src) then DoPut(Misfiled(w1, src, w.seg.reqs[r].src), r)
    else w1.(seg := XSegState.Put(w.seg, r).0, loc := w.loc[r := Lost(src)], validGets := false)
  }

  /** A request that src was charged for counts as one of port s. */
  ghost function Misfiled(w: World, src: PortNo, s: PortNo): World {
    w.(charged := w.charged + multiset{src}, given := w.given + multiset{s}, validGets := false)
  }

  ghost function DoGet(w: World, src: PortNo, dst: PortNo, local: bool, batch: Batch): World
    requires Placed(w)
  {
    if !HasPort(w.seg, src) then w
    else
      var port := w.seg.ports[src];
      if port.freeQ != [] then
        var r := Last(port.freeQ);
        QueueMember(w, InFree(src), r);
        Hand(w.(seg := SetPort(w.seg, src, port.(freeQ := Front(port.freeQ)))), r, src, dst)
      else if local || port.alloc >= port.max then w
      else
        var w1 := if w.seg.pool == [] then Grown(w, batch) else w;
        if w1.seg.pool == [] || w1.seg.pool[0] !in w1.seg.reqs then w1
        else FromPool(w1, src, dst)
  }

  /** Taking the first request of the pool, which the port is charged for. */
  ghost function FromPool(w: World, src: PortNo, dst: PortNo): World
    requires HasPort(w.seg, src) && w.seg.ports[src].alloc < w.seg.ports[src].max
    requires w.seg.pool != [] && w.seg.pool[0] in w.seg.reqs
  {
    Hand(w.(seg := Charged(w.seg, src)), w.seg.pool[0], src, dst)
  }

  ghost function Charged(g: Segment, src: PortNo): Segment
    requires src in g.ports && g.ports[src].alloc < g.ports[src].max && g.pool != []
  {
    SetPort(g, src, g.ports[src].(alloc := g.ports[src].alloc + 1)).(pool := g.pool[1..])
  }

  ghost function Grown(w: World, batch: Batch): World {
    w.(seg := AddObjects(w.seg, batch),
       loc := (map r | r in batch.recs :: InPool) + w.loc,
       asked := (map r | r in batch.recs :: []) + w.asked)
  }

  ghost function DoSubmit(w: World, r: Req, who: PortNo, result: (Segment, PortNo)): World
    requires HeldReq(w, r)
  {
    if result.1 == NO_PORT then w.(seg := result.0)
    else w.(seg := result.0,
            loc := w.loc[r := InRequest(result.1)],
            asked := w.asked[r := w.asked[r] + [who]],
            astray := if who == w.seg.reqs[r].transit then w.astray else w.astray + {r})
  }

  ghost function DoRespond(w: World, r: Req, xalloc: bool, grow: nat): World
    requires HeldReq(w, r)
  {
    var (g, p) := XSegState.Respond(w.seg, r, xalloc, grow);
    var w1 := w.(seg := g, asked := w.asked[r := DropDeaf(w.seg, w.asked[r])]);
    if p == NO_PORT then w1 else w1.(loc := w.loc[r := InReply(p)])
  }

  ghost function DoAccept(w: World, p: PortNo): World
    requires Placed(w)
  {
    if !HasPort(w.seg, p) || w.seg.ports[p].reqQ == [] then w
    else
      QueueMember(w, InRequest(p), Last(w.seg.ports[p].reqQ));
      var (g, r) := XSegState.Accept(w.seg, p);
      w.(seg := g, loc := w.loc[r := Held(p, false)])
  }

  ghost function DoReceive(w: World, p: PortNo): World
    requires Placed(w)
  {
    if !HasPort(w.seg, p) then w
    else
      ReplyMembers(w, p);
      var (g, a, n) := XSegState.Receive(w.seg, p);
      if a == Nothing then w.(seg := g)
      else
        var asked := if a.req in w.asked then w.asked[a.req] else [];
        w.(seg := g, loc := w.loc[a.req := Held(p, true)],
           asked := w.asked[a.req := if asked == [] then [] else Front(asked)])
  }

  lemma ReplyMembers(w: World, p: PortNo)
    requires Placed(w) && HasPort(w.seg, p)
    ensures forall r | r in w.seg.ports[p].repQ :: r in w.seg.reqs
  {
    forall r | r in w.seg.ports[p].repQ ensures r in w.seg.reqs {
      QueueMember(w, InReply(p), r);
    }
  }

  ghost function DoPut(w: World, r: Req): World
    requires HeldReq(w, r)
  {
    var (g, ok) := XSegState.Put(w.seg, r);
    if !ok then w
    else
      var src := w.seg.reqs[r].src;
      var w1 := w.(seg := g, asked := w.asked[r := []], astray := w.astray - {r});
      if |w.seg.ports[src].freeQ| < w.seg.ports[src].freeCap then w1.(loc := w.loc[r := InFree(src)])
      else w1.(loc := w.loc[r := InPool], pend := w.pend + multiset{src})
  }

  ghost function Step(w: World, c: Call): World
    requires Placed(w) && Enabled(w, c)
  {
    match c
    case Get(src, dst, local, batch) => DoGet(w, src, dst, local, batch)
    case Submit(r, who, xalloc, grow) => DoSubmit(w, r, who, XSegState.Submit(w.seg, r, xalloc, grow))
    case Forward(r, to, who, xalloc, grow) => DoSubmit(w, r, who, XSegState.Forward(w.seg, r, to, xalloc, grow))
    case Accept(p) => DoAccept(w, p)
    case Respond(r, xalloc, grow) => DoRespond(w, r, xalloc, grow)
    case Receive(p) => DoReceive(w, p)
    case Put(r) => DoPut(w, r)
    case FinishPut(p) => w.(seg := XSegState.FinishPut(w.seg, p), pend := w.pend - multiset{p})
  }

  // ----- a step that moves one request by way of one port

  /** Only r may have come or gone. */
  ghost predicate SameBut(a: set<Req>, b: set<Req>, r: Req) {
    forall x | x != r :: x in a <==> x in b
  }

  /** The world after r, now with record req and stack asked, has moved to l by way of port p. */
  ghost function Moved(w: World, p: PortNo, port: Port, r: Req, req: Request, asked: seq<PortNo>, l: Loc,
                       astray: set<Req>, validGets: bool): World
  {
    w.(seg := SetReq(SetPort(w.seg, p, port), r, req), loc := w.loc[r := l], asked := w.asked[r := asked],
       astray := astray, validGets := validGets)
  }

  /** m with r taken out or put in, or as it was. */
  ghost function Shift(m: multiset<Req>, r: Req, leaves: bool, enters: bool): multiset<Req> {
    if leaves && !enters then m - multiset{r} else if enters && !leaves then m + multiset{r} else m
  }

  /** The queues of a port as r moves from one place to another. */
  ghost predicate PortFollows(port: Port, port': Port, p: PortNo, r: Req, from: Loc, to: Loc) {
    && multiset(port'.freeQ) == Shift(multiset(port.freeQ), r, from == InFree(p), to == InFree(p))
    && multiset(port'.reqQ) == Shift(multiset(port.reqQ), r, from == InRequest(p), to == InRequest(p))
    && multiset(port'.repQ) == Shift(multiset(port.repQ), r, from == InReply(p), to == InReply(p))
  }

  ghost predicate FitsCaps(port: Port) {
    |port.freeQ| <= port.freeCap && |port.reqQ| <= port.reqCap && |port.repQ| <= port.repCap
  }

  /** Not a queue of another port, nor the pool. */
  ghost predicate AtPort(l: Loc, p: PortNo) { IsQueue(l) ==> !l.InPool? && l.port == p }

  lemma MovedPlacedAt(w: World, w': World, r: Req, from: Loc, to: Loc, l: Loc)
    requires IsQueue(l) && LocOk(w.seg, l) && LocOk(w'.seg, l) && PlacedAt(w, l)
    requires r in w.loc && w.loc[r] == from && w'.loc == w.loc[r := to]
    requires multiset(QueueAt(w'.seg, l)) == Shift(multiset(QueueAt(w.seg, l)), r, from == l, to == l)
    ensures PlacedAt(w', l)
  {
    var q, q' := multiset(QueueAt(w.seg, l)), multiset(QueueAt(w'.seg, l));
    assert q[r] == if w.loc[r] == l then 1 else 0;
    forall x ensures q'[x] == if x in w'.loc && w'.loc[x] == l then 1 else 0 {
      assert q[x] == if x in w.loc && w.loc[x] == l then 1 else 0;
    }
  }

  lemma MovedPlaced(w: World, w': World, p: PortNo, r: Req)
    requires Placed(w) && p in w.seg.ports && r in w.loc
    requires w'.loc.Keys == w'.seg.reqs.Keys == w'.asked.Keys
    requires r in w'.loc && w'.loc == w.loc[r := w'.loc[r]] && LocOk(w.seg, w'.loc[r])
    requires AtPort(w.loc[r], p) && AtPort(w'.loc[r], p)
    requires p in w'.seg.ports && w'.seg.ports == w.seg.ports[p := w'.seg.ports[p]] && w'.seg.pool == w.seg.pool
    requires PortFollows(w.seg.ports[p], w'.seg.ports[p], p, r, w.loc[r], w'.loc[r])
    ensures Placed(w')
  {
    forall l | IsQueue(l) && LocOk(w'.seg, l) ensures PlacedAt(w', l) {
      MovedPlacedFrom(w, w', p, r, l);
    }
    LocsKept(w, w', r);
  }

  lemma MovedPlacedFrom(w: World, w': World, p: PortNo, r: Req, l: Loc)
    requires p in w.seg.ports && p in w'.seg.ports && r in w.loc && r in w'.loc && w'.loc == w.loc[r := w'.loc[r]]
    requires IsQueue(l) && LocOk(w.seg, l) && PlacedAt(w, l)
    requires AtPort(w.loc[r], p) && AtPort(w'.loc[r], p)
    requires w'.seg.ports == w.seg.ports[p := w'.seg.ports[p]] && w'.seg.pool == w.seg.pool
    requires PortFollows(w.seg.ports[p], w'.seg.ports[p], p, r, w.loc[r], w'.loc[r])
    ensures LocOk(w'.seg, l) && PlacedAt(w', l)
  {
    MovedPlacedAt(w, w', r, w.loc[r], w'.loc[r], l);
  }

  lemma MovedReqs(w: World, w': World, r: Req)
    requires w.loc.Keys == w.seg.reqs.Keys == w.asked.Keys && w'.loc.Keys == w'.seg.reqs.Keys == w'.asked.Keys
    requires ReqsOk(w) && w'.seg.ports.Keys == w.seg.ports.Keys && SameBut(w.astray, w'.astray, r)
    requires forall x | x in w'.loc && x != r ::
               x in w.loc && w'.loc[x] == w.loc[x] && w'.seg.reqs[x] == w.seg.reqs[x] && w'.asked[x] == w.asked[x]
    requires r in w'.loc && ReqOk(w'.seg, w'.loc[r], w'.seg.reqs[r], w'.asked[r], r !in w'.astray)
    ensures ReqsOk(w')
  {
    forall x | x in w'.loc ensures ReqOk(w'.seg, w'.loc[x], w'.seg.reqs[x], w'.asked[x], x !in w'.astray) {
      assert x != r ==> ReqOk(w.seg, w.loc[x], w.seg.reqs[x], w.asked[x], x !in w.astray);
    }
  }

  /** As long as r keeps its owner, every port owns what it owned. */
  lemma OwnedKept(w: World, w': World, r: Req)
    requires w.loc.Keys == w.seg.reqs.Keys == w'.loc.Keys == w'.seg.reqs.Keys && r in w.loc
    requires forall x | x in w.loc && x != r :: w'.loc[x] == w.loc[x] && w'.seg.reqs[x] == w.seg.reqs[x]
    requires OwnerOf(w', r) == OwnerOf(w, r)
    ensures forall p :: Owned(w', p) == Owned(w, p)
  {
    forall x | x in w.loc ensures OwnerOf(w', x) == OwnerOf(w, x) {
    }
  }

  ghost predicate SameAccounts(w: World, w': World) {
    w'.pend == w.pend && SameShifts(w, w')
  }

  ghost predicate SameShifts(w: World, w': World) {
    w'.charged == w.charged && w'.given == w.given
  }

  lemma MovedAccounted(w: World, w': World, p: PortNo, r: Req)
    requires w.loc.Keys == w.seg.reqs.Keys == w'.loc.Keys == w'.seg.reqs.Keys && r in w.loc
    requires Accounted(w) && SameAccounts(w, w') && p in w.seg.ports && p in w'.seg.ports
    requires w'.seg.ports == w.seg.ports[p := w'.seg.ports[p]]
    requires w'.seg.ports[p].alloc == w.seg.ports[p].alloc && w'.seg.ports[p].max == w.seg.ports[p].max
    requires forall x | x in w.loc && x != r :: w'.loc[x] == w.loc[x] && w'.seg.reqs[x] == w.seg.reqs[x]
    requires OwnerOf(w', r) == OwnerOf(w, r)
    ensures Accounted(w')
  {
    OwnedKept(w, w', r);
  }

  /** What a move leaves as it was. */
  lemma MovedShape(w: World, p: PortNo, port: Port, r: Req, req: Request, asked: seq<PortNo>, l: Loc,
                   astray: set<Req>, validGets: bool)
    requires Placed(w) && p in w.seg.ports && r in w.loc
    ensures var w' := Moved(w, p, port, r, req, asked, l, astray, validGets);
            && w'.loc.Keys == w'.seg.reqs.Keys == w'.asked.Keys == w.loc.Keys
            && w'.seg.ports.Keys == w.seg.ports.Keys && w'.seg.pool == w.seg.pool
            && w'.seg.nports == w.seg.nports && w'.seg.next == w.seg.next
            && (forall x | x in w'.loc && x != r ::
                  x in w.loc && w'.loc[x] == w.loc[x] && w'.seg.reqs[x] == w.seg.reqs[x] && w'.asked[x] == w.asked[x])
  {
  }

  lemma CapsAfter(g: Segment, g': Segment, p: PortNo)
    requires WithinCaps(g) && p in g'.ports && g'.ports == g.ports[p := g'.ports[p]] && FitsCaps(g'.ports[p])
    ensures WithinCaps(g')
  {
  }

  /** A move keeps the invariant if the port, the request and its owner are in order. */
  lemma MovedInv(w: World, p: PortNo, port: Port, r: Req, req: Request, asked: seq<PortNo>, l: Loc,
                 astray: set<Req>, validGets: bool)
    requires Inv(w) && p in w.seg.ports && r in w.loc
    requires AtPort(w.loc[r], p) && AtPort(l, p) && LocOk(w.seg, l)
    requires PortFollows(w.seg.ports[p], port, p, r, w.loc[r], l) && FitsCaps(port)
    requires port.alloc == w.seg.ports[p].alloc && port.max == w.seg.ports[p].max
    requires SameBut(w.astray, astray, r) && ReqOk(w.seg, l, req, asked, r !in astray)
    requires OwnerAt(l, req) == OwnerOf(w, r)
    requires validGets ==> w.validGets && !l.Lost?
    ensures Inv(Moved(w, p, port, r, req, asked, l, astray, validGets))
  {
    var w' := Moved(w, p, port, r, req, asked, l, astray, validGets);
    MovedShape(w, p, port, r, req, asked, l, astray, validGets);
    SameReqOk(w.seg, w'.seg, l, req, asked, r !in astray);
    MovedParts(w, w', p, r);
  }

  lemma MovedParts(w: World, w': World, p: PortNo, r: Req)
    requires Inv(w) && p in w.seg.ports && r in w.loc
    requires w'.loc.Keys == w'.seg.reqs.Keys == w'.asked.Keys == w.loc.Keys
    requires w'.seg.ports.Keys == w.seg.ports.Keys && w'.seg.ports == w.seg.ports[p := w'.seg.ports[p]]
    requires w'.seg.pool == w.seg.pool && w'.seg.nports == w.seg.nports && w'.seg.next == w.seg.next
    requires w'.loc == w.loc[r := w'.loc[r]] && SameAccounts(w, w')
    requires forall x | x in w'.loc && x != r ::
               w'.loc[x] == w.loc[x] && w'.seg.reqs[x] == w.seg.reqs[x] && w'.asked[x] == w.asked[x]
    requires AtPort(w.loc[r], p) && AtPort(w'.loc[r], p) && LocOk(w.seg, w'.loc[r])
    requires PortFollows(w.seg.ports[p], w'.seg.ports[p], p, r, w.loc[r], w'.loc[r]) && FitsCaps(w'.seg.ports[p])
    requires w'.seg.ports[p].alloc == w.seg.ports[p].alloc && w'.seg.ports[p].max == w.seg.ports[p].max
    requires SameBut(w.astray, w'.astray, r)
    requires ReqOk(w'.seg, w'.loc[r], w'.seg.reqs[r], w'.asked[r], r !in w'.astray)
    requires OwnerOf(w', r) == OwnerOf(w, r)
    requires w'.validGets ==> w.validGets && !w'.loc[r].Lost?
    ensures Inv(w')
  {
    MovedPlaced(w, w', p, r);
    MovedReqs(w, w', r);
    MovedAccounted(w, w', p, r);
    CapsAfter(w.seg, w'.seg, p);
    NoneLostKept(w, w', r);
  }

  lemma SameReqOk(g: Segment, g': Segment, l: Loc, req: Request, asked: seq<PortNo>, faithful: bool)
    requires ReqOk(g, l, req, asked, faithful) && g.ports.Keys == g'.ports.Keys
    ensures ReqOk(g', l, req, asked, faithful)
  {
  }

  lemma FrontLast<T>(s: seq<T>)
    requires s != []
    ensures s == Front(s) + [Last(s)]
    ensures multiset(Front(s)) == multiset(s) - multiset{Last(s)}
  {
    assert s == Front(s) + [Last(s)];
  }

  // ----- accept

  lemma AcceptIsMove(w: World, p: PortNo)
    requires Placed(w) && HasPort(w.seg, p) && w.seg.ports[p].reqQ != []
    ensures var port := w.seg.ports[p]; var r := Last(port.reqQ);
            && r in w.loc && w.loc[r] == InRequest(p) && r in w.seg.reqs && r in w.asked
            && DoAccept(w, p)
               == Moved(w, p, port.(reqQ := Front(port.reqQ)), r, w.seg.reqs[r].(transit := p), w.asked[r],
                        Held(p, false), w.astray, w.validGets)
  {
    var r := Last(w.seg.ports[p].reqQ);
    QueueMember(w, InRequest(p), r);
    assert w.asked[r := w.asked[r]] == w.asked;
  }

  lemma AcceptInv(w: World, p: PortNo)
    requires Inv(w)
    ensures Inv(DoAccept(w, p))
  {
    if HasPort(w.seg, p) && w.seg.ports[p].reqQ != [] {
      var port := w.seg.ports[p];
      var r := Last(port.reqQ);
      AcceptIsMove(w, p);
      FrontLast(port.reqQ);
      assert ReqOk(w.seg, w.loc[r], w.seg.reqs[r], w.asked[r], r !in w.astray);
      MovedInv(w, p, port.(reqQ := Front(port.reqQ)), r, w.seg.reqs[r].(transit := p), w.asked[r],
               Held(p, false), w.astray, w.validGets);
    }
  }

  // ----- submit and forward

  lemma PushFacts(q: seq<Req>, cap: nat, r: Req, xalloc: bool, grow: nat)
    requires |q| <= cap
    ensures var (q', cap', ok) := Push(q, cap, r, xalloc, grow);
            ok ==> multiset(q') == multiset(q) + multiset{r} && |q'| <= cap'
  {
    ReversedKeepsElements(q);
  }

  lemma {:induction false} TakerExists(g: Segment, at: PortNo, eff: PortNo, fuel: nat)
    requires |g.next| == g.nports && ValidPort(g, at)
    ensures var w := WalkFrom(g, at, eff, fuel); w.Taker? ==> HasPort(g, w.port) && !PassesOver(g.ports[w.port])
    decreases fuel
  {
    if fuel > 0 && at != eff {
      var n := if g.next[at] != NO_PORT then g.next[at] else eff;
      if HasPort(g, n) && PassesOver(g.ports[n]) {
        TakerExists(g, n, eff, fuel - 1);
      }
    }
  }

  /** A submit fails and changes nothing, or puts the request into one queue with one more port on its path. */
  lemma SubmitEffect(g: Segment, r: Req, xalloc: bool, grow: nat)
    requires Static(g) && r in g.reqs && WithinCaps(g)
    ensures var (g', p) := XSegState.Submit(g, r, xalloc, grow);
            if p == NO_PORT then g' == g
            else
              && p in g.ports && !PassesOver(g.ports[p]) && |g.reqs[r].path| < MAX_PATH_LEN
              && var (q, cap, ok) := Push(g.ports[p].reqQ, g.ports[p].reqCap, r, xalloc, grow);
                 && ok && multiset(q) == multiset(g.ports[p].reqQ) + multiset{r} && |q| <= cap
                 && g' == SetReq(SetPort(g, p, g.ports[p].(reqQ := q, reqCap := cap)), r,
                                 g.reqs[r].(path := g.reqs[r].path + [g.reqs[r].transit]))
  {
    var req := g.reqs[r];
    if ValidPort(g, req.transit) && ValidPort(g, req.effDst) {
      TakerExists(g, req.transit, req.effDst, g.nports + 1);
      var w := WalkFrom(g, req.transit, req.effDst, g.nports + 1);
      if w.Taker? {
        PushFacts(g.ports[w.port].reqQ, g.ports[w.port].reqCap, r, xalloc, grow);
      }
    }
  }

  lemma RecordIsMove(w: World, p: PortNo, r: Req, req: Request, asked: seq<PortNo>)
    requires p in w.seg.ports && r in w.loc
    ensures w.(seg := SetReq(w.seg, r, req), asked := w.asked[r := asked])
            == Moved(w, p, w.seg.ports[p], r, req, asked, w.loc[r], w.astray, w.validGets)
  {
    assert w.seg.ports[p := w.seg.ports[p]] == w.seg.ports && w.loc[r := w.loc[r]] == w.loc;
  }

  /** Changing only what the invariant does not mention. */
  lemma SameButRecord(w: World, r: Req, req: Request, asked: seq<PortNo>)
    requires Inv(w) && HeldReq(w, r)
    requires ReqOk(w.seg, w.loc[r], req, asked, r !in w.astray) && req.src == w.seg.reqs[r].src
    ensures Inv(w.(seg := SetReq(w.seg, r, req), asked := w.asked[r := asked]))
  {
    HeldFacts(w, r);
    CapsAt(w.seg, req.src);
    RecordIsMove(w, req.src, r, req, asked);
    MovedInv(w, req.src, w.seg.ports[req.src], r, req, asked, w.loc[r], w.astray, w.validGets);
  }

  lemma HeldFacts(w: World, r: Req)
    requires Inv(w) && HeldReq(w, r)
    ensures w.seg.reqs[r].src in w.seg.ports && ReqOk(w.seg, w.loc[r], w.seg.reqs[r], w.asked[r], r !in w.astray)
    ensures OwnerOf(w, r) == w.seg.reqs[r].src
  {
    assert ReqOk(w.seg, w.loc[r], w.seg.reqs[r], w.asked[r], r !in w.astray);
  }

  lemma CapsAt(g: Segment, p: PortNo)
    requires WithinCaps(g) && p in g.ports
    ensures FitsCaps(g.ports[p])
  {
  }

  lemma SubmitInv(w: World, r: Req, who: PortNo, xalloc: bool, grow: nat)
    requires Inv(w) && HeldReq(w, r)
    ensures Inv(DoSubmit(w, r, who, XSegState.Submit(w.seg, r, xalloc, grow)))
  {
    SubmitEffect(w.seg, r, xalloc, grow);
    var (g', p) := XSegState.Submit(w.seg, r, xalloc, grow);
    if p != NO_PORT {
      var req := w.seg.reqs[r];
      assert ReqOk(w.seg, w.loc[r], req, w.asked[r], r !in w.astray);
      var (q, cap, ok) := Push(w.seg.ports[p].reqQ, w.seg.ports[p].reqCap, r, xalloc, grow);
      MovedInv(w, p, w.seg.ports[p].(reqQ := q, reqCap := cap), r, req.(path := req.path + [req.transit]),
               w.asked[r] + [who], InRequest(p), if who == req.transit then w.astray else w.astray + {r}, w.validGets);
    }
  }

  /** Forwarding is submitting after the destination was changed. */
  lemma ForwardIsSubmit(w: World, r: Req, to: PortNo, who: PortNo, xalloc: bool, grow: nat)
    requires HeldReq(w, r) && |w.seg.next| == w.seg.nports && ValidPort(w.seg, to)
    ensures var w1 := w.(seg := SetReq(w.seg, r, w.seg.reqs[r].(effDst := to)));
            && w1 == w.(seg := SetReq(w.seg, r, w.seg.reqs[r].(effDst := to)), asked := w.asked[r := w.asked[r]])
            && HeldReq(w1, r)
            && DoSubmit(w, r, who, XSegState.Forward(w.seg, r, to, xalloc, grow))
               == DoSubmit(w1, r, who, XSegState.Submit(w1.seg, r, xalloc, grow))
  {
    assert w.asked[r := w.asked[r]] == w.asked;
  }

  lemma ForwardInv(w: World, r: Req, to: PortNo, who: PortNo, xalloc: bool, grow: nat)
    requires Inv(w) && HeldReq(w, r)
    ensures Inv(DoSubmit(w, r, who, XSegState.Forward(w.seg, r, to, xalloc, grow)))
  {
    if ValidPort(w.seg, to) {
      HeldFacts(w, r);
      ForwardIsSubmit(w, r, to, who, xalloc, grow);
      SameButRecord(w, r, w.seg.reqs[r].(effDst := to), w.asked[r]);
      SubmitInv(w.(seg := SetReq(w.seg, r, w.seg.reqs[r].(effDst := to))), r, who, xalloc, grow);
    }
  }

  // ----- respond and receive

  lemma {:induction false} DropDeafFacts(g: Segment, path: seq<PortNo>)
    ensures var d := DropDeaf(g, path);
            && |d| <= |path| && d == path[..|d|]
            && (d != [] ==> !HasPort(g, Last(d)) || CanReceive(g.ports[Last(d)]))
            && (forall i | |d| <= i < |path| :: HasPort(g, path[i]) && !CanReceive(g.ports[path[i]]))
    decreases |path|
  {
    if path != [] && HasPort(g, Last(path)) && !CanReceive(g.ports[Last(path)]) {
      var front := Front(path);
      assert path == front + [Last(path)];
      DropDeafFacts(g, front);
      var d := DropDeaf(g, path);
      assert d == front[..|d|] == path[..|d|];
      forall i | |d| <= i < |path| ensures HasPort(g, path[i]) && !CanReceive(g.ports[path[i]]) {
        if i < |front| { assert path[i] == front[i]; } else { assert path[i] == Last(path); }
      }
    }
  }

  lemma RespondInv(w: World, r: Req, xalloc: bool, grow: nat)
    requires Inv(w) && HeldReq(w, r)
    ensures Inv(DoRespond(w, r, xalloc, grow))
  {
    var req := w.seg.reqs[r];
    DropDeafFacts(w.seg, req.path);
    assert ReqOk(w.seg, w.loc[r], req, w.asked[r], r !in w.astray);
    var path := DropDeaf(w.seg, req.path);
    var asked := DropDeaf(w.seg, w.asked[r]);
    var (g, p) := XSegState.Respond(w.seg, r, xalloc, grow);
    if p == NO_PORT {
      SameButRecord(w, r, req.(path := path), asked);
    } else {
      var port := w.seg.ports[p];
      var (q, cap, ok) := Push(port.repQ, port.repCap, r, xalloc, grow);
      PushFacts(port.repQ, port.repCap, r, xalloc, grow);
      MovedInv(w, p, port.(repQ := q, repCap := cap), r, req.(path := path), asked, InReply(p),
               w.astray, w.validGets);
      assert DoRespond(w, r, xalloc, grow)
          == Moved(w, p, port.(repQ := q, repCap := cap), r, req.(path := path), asked, InReply(p),
                   w.astray, w.validGets);
    }
  }

  /** The branch of xseg_receive that "should never happen" does not: the popped request has its port on its path. */
  lemma ReceiveNeverRetries(w: World, p: PortNo)
    requires Inv(w) && HasPort(w.seg, p) && (forall r | r in w.seg.ports[p].repQ :: r in w.seg.reqs)
    ensures XSegState.Receive(w.seg, p).2 == 0
    ensures w.seg.ports[p].repQ != []
            ==> var r := Last(w.seg.ports[p].repQ);
                && XSegState.Receive(w.seg, p).1 == Got(r)
                && w.loc[r] == InReply(p) && w.seg.reqs[r].path != [] && Last(w.seg.reqs[r].path) == p
  {
    if w.seg.ports[p].repQ != [] {
      var r := Last(w.seg.ports[p].repQ);
      QueueMember(w, InReply(p), r);
      assert ReqOk(w.seg, w.loc[r], w.seg.reqs[r], w.asked[r], r !in w.astray);
    }
  }

  lemma ReceiveIsMove(w: World, p: PortNo)
    requires Placed(w) && HasPort(w.seg, p) && w.seg.ports[p].repQ != []
    requires var r := Last(w.seg.ports[p].repQ); r in w.seg.reqs && w.seg.reqs[r].path != []
    ensures var port := w.seg.ports[p]; var r := Last(port.repQ);
            && r in w.loc && w.loc[r] == InReply(p) && r in w.asked
            && DoReceive(w, p)
               == Moved(w, p, port.(repQ := Front(port.repQ)), r,
                        w.seg.reqs[r].(path := Front(w.seg.reqs[r].path)),
                        if w.asked[r] == [] then [] else Front(w.asked[r]),
                        Held(p, true), w.astray, w.validGets)
  {
    ReplyMembers(w, p);
    QueueMember(w, InReply(p), Last(w.seg.ports[p].repQ));
  }

  /** What a reply that is taken has become. */
  lemma ReplyFacts(w: World, p: PortNo, r: Req)
    requires Inv(w) && HasPort(w.seg, p) && r in w.loc && w.loc[r] == InReply(p) && r in w.seg.reqs && r in w.asked
    ensures w.seg.reqs[r].path != [] && OwnerOf(w, r) == w.seg.reqs[r].src
    ensures ReqOk(w.seg, Held(p, true), w.seg.reqs[r].(path := Front(w.seg.reqs[r].path)),
                  if w.asked[r] == [] then [] else Front(w.asked[r]), r !in w.astray)
  {
    assert ReqOk(w.seg, w.loc[r], w.seg.reqs[r], w.asked[r], r !in w.astray);
  }

  lemma ReplyTaken(port: Port, p: PortNo)
    requires port.repQ != [] && FitsCaps(port)
    ensures var r := Last(port.repQ); var port' := port.(repQ := Front(port.repQ));
            PortFollows(port, port', p, r, InReply(p), Held(p, true)) && FitsCaps(port')
  {
    FrontLast(port.repQ);
  }

  lemma ReceiveInv(w: World, p: PortNo)
    requires Inv(w)
    ensures Inv(DoReceive(w, p))
  {
    if HasPort(w.seg, p) && w.seg.ports[p].repQ != [] {
      var port := w.seg.ports[p];
      var r := Last(port.repQ);
      QueueMember(w, InReply(p), r);
      ReplyFacts(w, p, r);
      ReceiveIsMove(w, p);
      CapsAt(w.seg, p);
      ReplyTaken(port, p);
      MovedInv(w, p, port.(repQ := Front(port.repQ)), r, w.seg.reqs[r].(path := Front(w.seg.reqs[r].path)),
               if w.asked[r] == [] then [] else Front(w.asked[r]), Held(p, true), w.astray, w.validGets);
    }
  }

  // ----- put

  ghost function Blank(): Request { Request(NO_PORT, NO_PORT, NO_PORT, NO_PORT, []) }

  lemma FreedFollows(port: Port, p: PortNo, r: Req)
    requires FitsCaps(port) && |port.freeQ| < port.freeCap
    ensures var port' := port.(freeQ := port.freeQ + [r]);
            PortFollows(port, port', p, r, Held(p, true), InFree(p)) && FitsCaps(port')
  {
  }

  /** The world after r, with an empty stack, went into the pool or came out of it, at the expense of port p. */
  ghost function Pooled(w: World, p: PortNo, alloc: Word, pool: seq<Req>, r: Req, req: Request, l: Loc,
                        pend: multiset<PortNo>, validGets: bool): World
    requires p in w.seg.ports
  {
    w.(seg := SetReq(SetPort(w.seg, p, w.seg.ports[p].(alloc := alloc)), r, req).(pool := pool),
       loc := w.loc[r := l], asked := w.asked[r := []], pend := pend, astray := w.astray - {r}, validGets := validGets)
  }

  lemma PooledQueue(g: Segment, p: PortNo, alloc: Word, pool: seq<Req>, r: Req, req: Request, k: Loc)
    requires p in g.ports && IsQueue(k) && LocOk(g, k)
    ensures var g' := SetReq(SetPort(g, p, g.ports[p].(alloc := alloc)), r, req).(pool := pool);
            LocOk(g', k) && QueueAt(g', k) == if k == InPool then pool else QueueAt(g, k)
  {
  }

  lemma PooledPlaced(w: World, p: PortNo, alloc: Word, pool: seq<Req>, r: Req, req: Request, l: Loc,
                     pend: multiset<PortNo>, validGets: bool)
    requires Placed(w) && p in w.seg.ports && r in w.loc
    requires (IsQueue(w.loc[r]) ==> w.loc[r] == InPool) && (IsQueue(l) ==> l == InPool) && LocOk(w.seg, l)
    requires multiset(pool) == Shift(multiset(w.seg.pool), r, w.loc[r] == InPool, l == InPool)
    ensures Placed(Pooled(w, p, alloc, pool, r, req, l, pend, validGets))
  {
    var w' := Pooled(w, p, alloc, pool, r, req, l, pend, validGets);
    PooledShape(w, p, alloc, pool, r, req, l, pend, validGets);
    forall k | IsQueue(k) && LocOk(w'.seg, k) ensures PlacedAt(w', k) {
      PooledPlacedAt(w, p, alloc, pool, r, req, l, pend, validGets, k);
    }
    LocsKept(w, w', r);
  }

  lemma LocsKept(w: World, w': World, r: Req)
    requires (forall x | x in w.loc :: LocOk(w.seg, w.loc[x])) && w'.seg.ports.Keys == w.seg.ports.Keys
    requires r in w'.loc && w'.loc == w.loc[r := w'.loc[r]] && LocOk(w.seg, w'.loc[r])
    ensures forall x | x in w'.loc :: LocOk(w'.seg, w'.loc[x])
  {
    forall x | x in w'.loc ensures LocOk(w'.seg, w'.loc[x]) {
      assert x != r ==> LocOk(w.seg, w.loc[x]);
    }
  }

  lemma PooledPlacedAt(w: World, p: PortNo, alloc: Word, pool: seq<Req>, r: Req, req: Request, l: Loc,
                       pend: multiset<PortNo>, validGets: bool, k: Loc)
    requires p in w.seg.ports && r in w.loc && IsQueue(k) && LocOk(w.seg, k) && PlacedAt(w, k)
    requires (IsQueue(w.loc[r]) ==> w.loc[r] == InPool) && (IsQueue(l) ==> l == InPool)
    requires multiset(pool) == Shift(multiset(w.seg.pool), r, w.loc[r] == InPool, l == InPool)
    ensures var w' := Pooled(w, p, alloc, pool, r, req, l, pend, validGets); LocOk(w'.seg, k) && PlacedAt(w', k)
  {
    PooledQueue(w.seg, p, alloc, pool, r, req, k);
    MovedPlacedAt(w, Pooled(w, p, alloc, pool, r, req, l, pend, validGets), r, w.loc[r], l, k);
  }

  /** Ownership, when only r changes hands. */
  lemma OwnerChanges(w: World, w': World, r: Req, p: PortNo)
    requires w.loc.Keys == w.seg.reqs.Keys == w'.loc.Keys == w'.seg.reqs.Keys && r in w.loc
    requires forall x | x in w.loc && x != r :: w'.loc[x] == w.loc[x] && w'.seg.reqs[x] == w.seg.reqs[x]
    ensures r in Owned(w, p) <==> OwnerOf(w, r) == p
    ensures Owned(w', p) == (if p == OwnerOf(w', r) then Owned(w, p) + {r} else Owned(w, p) - {r})
  {
    forall x | x in w.loc && x != r ensures OwnerOf(w', x) == OwnerOf(w, x) {
    }
  }

  /** What r is counted for before and after, and how the counter and the pending decrements follow. */
  ghost predicate Counts(w: World, p: PortNo, alloc: Word, before: PortNo, after: PortNo, pend: multiset<PortNo>)
    requires p in w.seg.ports
  {
    && (|| (before == p && after == NO_PORT && alloc == w.seg.ports[p].alloc && pend == w.pend + multiset{p})
        || (before == NO_PORT && after == p && w.seg.ports[p].alloc < w.seg.ports[p].max
            && alloc == w.seg.ports[p].alloc + 1 && pend == w.pend))
  }

  lemma PooledAccounted(w: World, w': World, p: PortNo, alloc: Word, r: Req)
    requires w.loc.Keys == w.seg.reqs.Keys == w'.loc.Keys == w'.seg.reqs.Keys && r in w.loc && p in w.seg.ports
    requires Accounted(w) && NO_PORT !in w.seg.ports
    requires w'.seg.ports == w.seg.ports[p := w.seg.ports[p].(alloc := alloc)]
    requires forall x | x in w.loc && x != r :: w'.loc[x] == w.loc[x] && w'.seg.reqs[x] == w.seg.reqs[x]
    requires Counts(w, p, alloc, OwnerOf(w, r), OwnerOf(w', r), w'.pend) && SameShifts(w, w')
    ensures Accounted(w')
  {
    forall q | q in w'.seg.ports ensures Balanced(w', q) {
      assert Balanced(w, q);
      PooledBalance(w, w', p, alloc, r, q);
      if q == p && alloc == w.seg.ports[p].alloc + 1 { CountUp(Balance(w, q), w.seg.ports[q].max); }
    }
  }

  lemma PooledBalance(w: World, w': World, p: PortNo, alloc: Word, r: Req, q: PortNo)
    requires w.loc.Keys == w.seg.reqs.Keys == w'.loc.Keys == w'.seg.reqs.Keys && r in w.loc && p in w.seg.ports
    requires forall x | x in w.loc && x != r :: w'.loc[x] == w.loc[x] && w'.seg.reqs[x] == w.seg.reqs[x]
    requires Counts(w, p, alloc, OwnerOf(w, r), OwnerOf(w', r), w'.pend) && SameShifts(w, w')
    requires q != NO_PORT && p != NO_PORT
    ensures Balance(w', q) == Balance(w, q) + if q == p && alloc == w.seg.ports[p].alloc + 1 then 1 else 0
  {
    OwnerChanges(w, w', r, q);
  }

  /** A counter below its limit, be it wrapped or not, can be raised. */
  lemma CountUp(n: int, max: Word)
    requires n <= max && n % WORD_LIMIT < max
    ensures (n + 1) % WORD_LIMIT == n % WORD_LIMIT + 1 && n + 1 <= max
  {
    if n >= 0 { assert n % WORD_LIMIT == n; }
    SameRemainder(n + 1, n % WORD_LIMIT + 1, WORD_LIMIT, n / WORD_LIMIT);
  }

  lemma CountDown(n: int)
    ensures (n - 1) % WORD_LIMIT == Down(n % WORD_LIMIT)
  {
    var k := n / WORD_LIMIT;
    SameRemainder(n - 1, n % WORD_LIMIT - 1, WORD_LIMIT, k);
  }

  lemma PooledInv(w: World, w': World, p: PortNo, alloc: Word, pool: seq<Req>, r: Req, req: Request, l: Loc,
                  pend: multiset<PortNo>, validGets: bool)
    requires Inv(w) && p in w.seg.ports && r in w.loc && r in w.seg.reqs
    requires (IsQueue(w.loc[r]) ==> w.loc[r] == InPool) && (IsQueue(l) ==> l == InPool) && LocOk(w.seg, l)
    requires multiset(pool) == Shift(multiset(w.seg.pool), r, w.loc[r] == InPool, l == InPool)
    requires ReqOk(w.seg, l, req, [], true) && (validGets ==> w.validGets && !l.Lost?)
    requires Counts(w, p, alloc, OwnerAt(w.loc[r], w.seg.reqs[r]), OwnerAt(l, req), pend)
    requires w' == Pooled(w, p, alloc, pool, r, req, l, pend, validGets)
    ensures Inv(w')
  {
    PooledPlaced(w, p, alloc, pool, r, req, l, pend, validGets);
    PooledShape(w, p, alloc, pool, r, req, l, pend, validGets);
    SameReqOk(w.seg, w'.seg, l, req, [], true);
    PooledParts(w, w', p, alloc, r);
  }

  lemma PooledParts(w: World, w': World, p: PortNo, alloc: Word, r: Req)
    requires Inv(w) && p in w.seg.ports && r in w.loc && Placed(w')
    requires w'.loc.Keys == w'.seg.reqs.Keys == w'.asked.Keys == w.loc.Keys
    requires w'.seg.ports.Keys == w.seg.ports.Keys && w'.seg.ports == w.seg.ports[p := w.seg.ports[p].(alloc := alloc)]
    requires w'.seg.nports == w.seg.nports && w'.seg.next == w.seg.next
    requires forall x | x in w'.loc && x != r ::
               w'.loc[x] == w.loc[x] && w'.seg.reqs[x] == w.seg.reqs[x] && w'.asked[x] == w.asked[x]
    requires ReqOk(w'.seg, w'.loc[r], w'.seg.reqs[r], w'.asked[r], r !in w'.astray) && SameBut(w.astray, w'.astray, r)
    requires w'.validGets ==> w.validGets && !w'.loc[r].Lost?
    requires Counts(w, p, alloc, OwnerOf(w, r), OwnerOf(w', r), w'.pend) && SameShifts(w, w')
    ensures Inv(w')
  {
    MovedReqs(w, w', r);
    PooledAccounted(w, w', p, alloc, r);
    CapsAt(w.seg, p);
    CapsAfter(w.seg, w'.seg, p);
    NoneLostKept(w, w', r);
  }

  lemma NoneLostKept(w: World, w': World, r: Req)
    requires NoneLost(w) && SameShifts(w, w') && w'.loc.Keys == w.loc.Keys
    requires r in w'.loc && forall x | x in w'.loc && x != r :: w'.loc[x] == w.loc[x]
    requires w'.validGets ==> w.validGets && !w'.loc[r].Lost?
    ensures NoneLost(w')
  {
  }

  lemma PooledShape(w: World, p: PortNo, alloc: Word, pool: seq<Req>, r: Req, req: Request, l: Loc,
                    pend: multiset<PortNo>, validGets: bool)
    requires Placed(w) && p in w.seg.ports && r in w.loc
    ensures var w' := Pooled(w, p, alloc, pool, r, req, l, pend, validGets);
            && w'.loc.Keys == w'.seg.reqs.Keys == w'.asked.Keys == w.loc.Keys
            && w'.seg.ports.Keys == w.seg.ports.Keys && SameBut(w.astray, w'.astray, r)
            && (forall x | x in w'.loc && x != r ::
                  x in w.loc && w'.loc[x] == w.loc[x] && w'.seg.reqs[x] == w.seg.reqs[x] && w'.asked[x] == w.asked[x])
  {
  }

  lemma PutInFree(w: World, r: Req)
    requires Inv(w) && HeldReq(w, r)
    ensures var src := w.seg.reqs[r].src;
            && src in w.seg.ports && src < w.seg.nports
            && (|w.seg.ports[src].freeQ| < w.seg.ports[src].freeCap ==>
                DoPut(w, r) == Moved(w, src, w.seg.ports[src].(freeQ := w.seg.ports[src].freeQ + [r]), r, Blank(), [],
                                     InFree(src), w.astray - {r}, w.validGets))
  {
    HeldFacts(w, r);
  }

  lemma PutPoolIs(w: World, r: Req)
    requires HeldReq(w, r) && HasPort(w.seg, w.seg.reqs[r].src)
    requires var port := w.seg.ports[w.seg.reqs[r].src]; |port.freeQ| >= port.freeCap
    ensures var src := w.seg.reqs[r].src;
            DoPut(w, r) == Pooled(w, src, w.seg.ports[src].alloc, [r] + w.seg.pool, r, Blank(), InPool,
                                  w.pend + multiset{src}, w.validGets)
  {
    var src := w.seg.reqs[r].src;
    assert w.seg.ports[src := w.seg.ports[src]] == w.seg.ports;
  }

  lemma PutInPool(w: World, r: Req)
    requires Inv(w) && HeldReq(w, r)
    requires var src := w.seg.reqs[r].src; src in w.seg.ports && |w.seg.ports[src].freeQ| >= w.seg.ports[src].freeCap
    ensures Inv(DoPut(w, r))
  {
    HeldFacts(w, r);
    var src := w.seg.reqs[r].src;
    PutPoolIs(w, r);
    PooledInv(w, DoPut(w, r), src, w.seg.ports[src].alloc, [r] + w.seg.pool, r, Blank(), InPool,
              w.pend + multiset{src}, w.validGets);
  }

  lemma PutInv(w: World, r: Req)
    requires Inv(w) && HeldReq(w, r)
    ensures Inv(DoPut(w, r))
  {
    HeldFacts(w, r);
    PutInFree(w, r);
    var src := w.seg.reqs[r].src;
    var port := w.seg.ports[src];
    if |port.freeQ| < port.freeCap {
      CapsAt(w.seg, src);
      FreedFollows(port, src, r);
      MovedInv(w, src, port.(freeQ := port.freeQ + [r]), r, Blank(), [], InFree(src), w.astray - {r}, w.validGets);
    } else {
      PutInPool(w, r);
    }
  }

  lemma FinishPutInv(w: World, p: PortNo)
    requires Inv(w) && p in w.pend && p in w.seg.ports
    ensures Inv(w.(seg := XSegState.FinishPut(w.seg, p), pend := w.pend - multiset{p}))
  {
    var w' := w.(seg := XSegState.FinishPut(w.seg, p), pend := w.pend - multiset{p});
    forall l | IsQueue(l) && LocOk(w'.seg, l) ensures PlacedAt(w', l) {
      assert PlacedAt(w, l);
    }
    FinishPutAccounted(w, w', p);
  }

  lemma FinishPutAccounted(w: World, w': World, p: PortNo)
    requires w.loc.Keys == w.seg.reqs.Keys && Accounted(w) && p in w.pend && p in w.seg.ports
    requires w' == w.(seg := XSegState.FinishPut(w.seg, p), pend := w.pend - multiset{p})
    ensures Accounted(w')
  {
    forall q | q in w'.seg.ports ensures Balanced(w', q) {
      assert Owned(w', q) == Owned(w, q);
      assert Balanced(w, q);
      CountDown(Balance(w, q));
    }
  }

  // ----- get

  lemma GetFromFree(w: World, src: PortNo, dst: PortNo, local: bool, batch: Batch)
    requires Placed(w) && Static(w.seg) && HasPort(w.seg, src) && w.seg.ports[src].freeQ != []
    requires var r := Last(w.seg.ports[src].freeQ); r in w.seg.reqs ==> w.seg.reqs[r].src == NO_PORT
    ensures var port := w.seg.ports[src]; var r := Last(port.freeQ); var port' := port.(freeQ := Front(port.freeQ));
            && r in w.loc && w.loc[r] == InFree(src) && r in w.seg.reqs && r in w.asked
            && DoGet(w, src, dst, local, batch)
               == if ValidPort(w.seg, dst)
                  then Moved(w, src, port', r, Request(src, src, dst, dst, []), [], Held(src, false),
                             w.astray - {r}, w.validGets)
                  else Moved(w, src, port', r, w.seg.reqs[r], [], Lost(src), w.astray - {r}, false)
  {
    QueueMember(w, InFree(src), Last(w.seg.ports[src].freeQ));
    assert w.seg.reqs[Last(w.seg.ports[src].freeQ) := w.seg.reqs[Last(w.seg.ports[src].freeQ)]] == w.seg.reqs;
  }

  lemma FreeTaken(port: Port, p: PortNo)
    requires port.freeQ != [] && FitsCaps(port)
    ensures var r := Last(port.freeQ); var port' := port.(freeQ := Front(port.freeQ));
            && PortFollows(port, port', p, r, InFree(p), Held(p, false))
            && PortFollows(port, port', p, r, InFree(p), Lost(p)) && FitsCaps(port')
  {
    FrontLast(port.freeQ);
  }

  /** A request that nobody has: its place says who pays for it, and its record, if it was used, names no source. */
  lemma IdleFacts(w: World, r: Req)
    requires Inv(w) && r in w.loc && (w.loc[r].InFree? || w.loc[r].InPool?)
    ensures r in w.seg.reqs && r in w.asked && (w.loc[r].InFree? ==> w.seg.reqs[r].src == NO_PORT)
    ensures OwnerOf(w, r) == if w.loc[r].InFree? then w.loc[r].port else NO_PORT
  {
    assert ReqOk(w.seg, w.loc[r], w.seg.reqs[r], w.asked[r], r !in w.astray);
  }

  lemma GetFreeInv(w: World, src: PortNo, dst: PortNo, local: bool, batch: Batch)
    requires Inv(w) && HasPort(w.seg, src) && w.seg.ports[src].freeQ != []
    ensures Inv(DoGet(w, src, dst, local, batch))
  {
    var port := w.seg.ports[src];
    var r := Last(port.freeQ);
    QueueMember(w, InFree(src), r);
    IdleFacts(w, r);
    GetFromFree(w, src, dst, local, batch);
    CapsAt(w.seg, src);
    FreeTaken(port, src);
    if ValidPort(w.seg, dst) {
      MovedInv(w, src, port.(freeQ := Front(port.freeQ)), r, Request(src, src, dst, dst, []), [], Held(src, false),
               w.astray - {r}, w.validGets);
    } else {
      MovedInv(w, src, port.(freeQ := Front(port.freeQ)), r, w.seg.reqs[r], [], Lost(src), w.astray - {r}, false);
    }
  }

  lemma GrownPlaced(w: World, batch: Batch)
    requires Placed(w) && w.seg.pool == [] && Enabled(w, Get(0, 0, false, batch))
    ensures Placed(Grown(w, batch))
  {
    var w' := Grown(w, batch);
    DistinctCounts(batch.objs);
    forall l | IsQueue(l) && LocOk(w'.seg, l) ensures PlacedAt(w', l) {
      assert PlacedAt(w, l);
    }
  }

  lemma GrownReqs(w: World, batch: Batch)
    requires w.loc.Keys == w.seg.reqs.Keys == w.asked.Keys && ReqsOk(w)
    ensures var w' := Grown(w, batch); w'.loc.Keys == w'.seg.reqs.Keys == w'.asked.Keys && ReqsOk(w')
  {
    var w' := Grown(w, batch);
    forall r | r in w'.loc ensures ReqOk(w'.seg, w'.loc[r], w'.seg.reqs[r], w'.asked[r], r !in w'.astray) {
      assert r in w.loc ==> ReqOk(w.seg, w.loc[r], w.seg.reqs[r], w.asked[r], r !in w.astray);
    }
  }

  lemma GrownAccounted(w: World, batch: Batch)
    requires w.loc.Keys == w.seg.reqs.Keys == w.asked.Keys && Accounted(w) && NO_PORT !in w.seg.ports
    ensures var w' := Grown(w, batch); w'.loc.Keys == w'.seg.reqs.Keys && Accounted(w')
  {
    var w' := Grown(w, batch);
    forall p | p in w'.seg.ports ensures Owned(w', p) == Owned(w, p) {
    }
  }

  lemma GrownInv(w: World, batch: Batch)
    requires Inv(w) && w.seg.pool == [] && Enabled(w, Get(0, 0, false, batch))
    ensures Inv(Grown(w, batch))
  {
    GrownPlaced(w, batch);
    GrownReqs(w, batch);
    GrownAccounted(w, batch);
  }

  lemma {:induction false} DistinctCounts(s: seq<Req>)
    requires Distinct(s)
    ensures forall r :: multiset(s)[r] == if r in s then 1 else 0
  {
    if s != [] {
      DistinctCounts(Front(s));
      assert s == Front(s) + [Last(s)];
    }
  }

  lemma FromPoolIs(w: World, src: PortNo, dst: PortNo)
    requires HasPort(w.seg, src) && w.seg.pool != [] && w.seg.nports <= NO_PORT
    requires w.seg.pool[0] in w.seg.reqs && w.seg.ports[src].alloc < w.seg.ports[src].max
    ensures var r := w.seg.pool[0]; var s := w.seg.reqs[r].src;
            FromPool(w, src, dst)
            == if ValidPort(w.seg, dst)
               then Taken(w, src, Request(src, src, dst, dst, []), Held(src, false), w.validGets)
               else if !HasPort(w.seg, s)
               then Taken(w, src, w.seg.reqs[r], Lost(src), false)
               else DoPut(Refiled(Taken(w, src, Request(src, src, dst, dst, []), Held(src, false), w.validGets),
                                  r, src, s), r)
  {
    var r, s := w.seg.pool[0], w.seg.reqs[w.seg.pool[0]].src;
    assert w.seg.reqs[r := w.seg.reqs[r]] == w.seg.reqs;
    if !ValidPort(w.seg, dst) && HasPort(w.seg, s) {
      MisfiledIsRefiled(w, src, dst);
    }
  }

  /** A put looks at the source in the record, and at nothing else in it. */
  lemma MisfiledIsRefiled(w: World, src: PortNo, dst: PortNo)
    requires HasPort(w.seg, src) && w.seg.pool != [] && w.seg.ports[src].alloc < w.seg.ports[src].max
    requires var r := w.seg.pool[0]; r in w.seg.reqs && !ValidPort(w.seg, dst) && HasPort(w.seg, w.seg.reqs[r].src)
    ensures var r := w.seg.pool[0];
            FromPool(w, src, dst)
            == DoPut(Refiled(Taken(w, src, Request(src, src, dst, dst, []), Held(src, false), w.validGets),
                             r, src, w.seg.reqs[r].src), r)
  {
    var r := w.seg.pool[0];
    var w1 := Taken(w, src, Request(src, src, dst, dst, []), Held(src, false), w.validGets);
    var w2 := w.(seg := Charged(w.seg, src), loc := w.loc[r := Held(src, false)], asked := w.asked[r := []],
                 astray := w.astray - {r});
    PutSees(Misfiled(w2, src, w.seg.reqs[r].src), Refiled(w1, r, src, w.seg.reqs[r].src), r);
  }

  lemma PutSees(w: World, w': World, r: Req)
    requires HeldReq(w, r) && HeldReq(w', r) && w.seg.reqs[r].src == w'.seg.reqs[r].src
    requires HasPort(w.seg, w.seg.reqs[r].src)
    requires w'.seg == SetReq(w.seg, r, w'.seg.reqs[r]) && w' == w.(seg := w'.seg)
    ensures DoPut(w, r) == DoPut(w', r)
  {
    assert w.seg.reqs[r := Blank()] == w'.seg.reqs[r := Blank()];
    assert SetReq(w'.seg, r, Blank()) == SetReq(w.seg, r, Blank());
    assert w'.seg.ports == w.seg.ports && w'.seg.nports == w.seg.nports && w'.seg.pool == w.seg.pool;
    assert XSegState.Put(w.seg, r) == XSegState.Put(w'.seg, r);
  }

  /** The held request r of port src counts as one of port s. */
  ghost function Refiled(w: World, r: Req, src: PortNo, s: PortNo): World
    requires r in w.seg.reqs
  {
    Misfiled(w.(seg := SetReq(w.seg, r, w.seg.reqs[r].(src := s))), src, s)
  }

  lemma RefiledInv(w: World, r: Req, src: PortNo, s: PortNo)
    requires Inv(w) && HeldReq(w, r) && w.seg.reqs[r].src == src && s in w.seg.ports
    ensures Inv(Refiled(w, r, src, s)) && HeldReq(Refiled(w, r, src, s), r)
  {
    var w' := Refiled(w, r, src, s);
    HeldFacts(w, r);
    MovedReqs(w, w', r);
    RefiledPlaced(w, r, src, s);
    RefiledAccounted(w, r, src, s);
  }

  lemma RefiledAccounted(w: World, r: Req, src: PortNo, s: PortNo)
    requires w.loc.Keys == w.seg.reqs.Keys && Accounted(w) && HeldReq(w, r) && w.seg.reqs[r].src == src
    ensures Accounted(Refiled(w, r, src, s))
  {
    var w' := Refiled(w, r, src, s);
    forall q | q in w'.seg.ports ensures Balanced(w', q) {
      OwnerChanges(w, w', r, q);
      assert Balanced(w, q) && Balance(w', q) == Balance(w, q);
    }
  }

  lemma RefiledPlaced(w: World, r: Req, src: PortNo, s: PortNo)
    requires Placed(w) && r in w.seg.reqs
    ensures Placed(Refiled(w, r, src, s))
  {
    var w' := Refiled(w, r, src, s);
    forall l | IsQueue(l) && LocOk(w'.seg, l) ensures PlacedAt(w', l) {
      assert PlacedAt(w, l);
    }
  }

  lemma FromPoolInv(w: World, src: PortNo, dst: PortNo)
    requires Inv(w) && HasPort(w.seg, src) && w.seg.pool != [] && w.seg.ports[src].alloc < w.seg.ports[src].max
    ensures w.seg.pool[0] in w.seg.reqs && Inv(FromPool(w, src, dst))
  {
    QueueMember(w, InPool, w.seg.pool[0]);
    IdleFacts(w, w.seg.pool[0]);
    FromPoolIs(w, src, dst);
    var r, s := w.seg.pool[0], w.seg.reqs[w.seg.pool[0]].src;
    if ValidPort(w.seg, dst) || HasPort(w.seg, s) {
      var w1 := Taken(w, src, Request(src, src, dst, dst, []), Held(src, false), w.validGets);
      TakenInv(w, w1, src, Request(src, src, dst, dst, []), Held(src, false), w.validGets);
      if !ValidPort(w.seg, dst) {
        RefiledInv(w1, r, src, s);
        PutInv(Refiled(w1, r, src, s), r);
      }
    } else {
      TakenInv(w, Taken(w, src, w.seg.reqs[r], Lost(src), false), src, w.seg.reqs[r], Lost(src), false);
    }
  }

  /** The world after src was charged for the first request of the pool, which is now at l. */
  ghost function Taken(w: World, src: PortNo, req: Request, l: Loc, validGets: bool): World
    requires src in w.seg.ports && w.seg.pool != [] && w.seg.ports[src].alloc < w.seg.ports[src].max
  {
    Pooled(w, src, w.seg.ports[src].alloc + 1, w.seg.pool[1..], w.seg.pool[0], req, l, w.pend, validGets)
  }

  lemma PoolHead(w: World)
    requires Inv(w) && w.seg.pool != []
    ensures var r := w.seg.pool[0];
            && r in w.loc && r in w.seg.reqs && w.loc[r] == InPool && OwnerOf(w, r) == NO_PORT
            && multiset(w.seg.pool[1..]) == Shift(multiset(w.seg.pool), r, true, false)
  {
    QueueMember(w, InPool, w.seg.pool[0]);
    assert w.seg.pool == [w.seg.pool[0]] + w.seg.pool[1..];
  }

  lemma TakenCounts(w: World, src: PortNo, r: Req, req: Request, l: Loc)
    requires src in w.seg.ports && w.seg.ports[src].alloc < w.seg.ports[src].max
    requires r in w.loc && r in w.seg.reqs && OwnerOf(w, r) == NO_PORT
    requires (l == Held(src, false) && req.src == src) || l == Lost(src)
    ensures Counts(w, src, w.seg.ports[src].alloc + 1, OwnerAt(w.loc[r], w.seg.reqs[r]), OwnerAt(l, req), w.pend)
    ensures !IsQueue(l) && LocOk(w.seg, l)
  {
  }

  lemma TakenInv(w: World, w1: World, src: PortNo, req: Request, l: Loc, validGets: bool)
    requires Inv(w) && src in w.seg.ports && w.seg.pool != [] && w.seg.ports[src].alloc < w.seg.ports[src].max
    requires (l == Held(src, false) && req.src == src) || l == Lost(src)
    requires ReqOk(w.seg, l, req, [], true)
    requires validGets ==> w.validGets && !l.Lost?
    requires w1 == Taken(w, src, req, l, validGets)
    ensures Inv(w1)
  {
    PoolHead(w);
    TakenCounts(w, src, w.seg.pool[0], req, l);
    PooledInv(w, w1, src, w.seg.ports[src].alloc + 1, w.seg.pool[1..], w.seg.pool[0], req, l, w.pend, validGets);
  }

  lemma GetIsFromPool(w: World, src: PortNo, dst: PortNo, local: bool, batch: Batch)
    requires Placed(w) && HasPort(w.seg, src) && w.seg.ports[src].freeQ == []
    requires !local && w.seg.ports[src].alloc < w.seg.ports[src].max
    ensures var w1 := if w.seg.pool == [] then Grown(w, batch) else w;
            && HasPort(w1.seg, src) && w1.seg.ports == w.seg.ports
            && DoGet(w, src, dst, local, batch)
               == if w1.seg.pool == [] || w1.seg.pool[0] !in w1.seg.reqs then w1 else FromPool(w1, src, dst)
  {
  }

  lemma GetInv(w: World, src: PortNo, dst: PortNo, local: bool, batch: Batch)
    requires Inv(w) && Enabled(w, Get(src, dst, local, batch))
    ensures Inv(DoGet(w, src, dst, local, batch))
  {
    if HasPort(w.seg, src) {
      var port := w.seg.ports[src];
      if port.freeQ != [] {
        GetFreeInv(w, src, dst, local, batch);
      } else if !local && port.alloc < port.max {
        GetIsFromPool(w, src, dst, local, batch);
        if w.seg.pool == [] { GrownInv(w, batch); }
        var w1 := if w.seg.pool == [] then Grown(w, batch) else w;
        if w1.seg.pool != [] {
          FromPoolInv(w1, src, dst);
        }
      }
    }
  }
}
