/**
 What the calls of the request protocol come to: exactly when each one succeeds and where it
 leaves the request, and in which order requests come out of the queues over whole runs.
 */
module XSegCalls {
  import opened Seqs
  import opened Words
  import opened XSegState
  import opened XSegProtocol
  import opened XSegRuns
  import opened XSegWalk

  // ----- submit, forward and respond

  /** The port p is the first one from the port of transit towards the destination with a flag set. */
  ghost predicate Reaches(g: Segment, req: Request, p: PortNo)
    requires |g.next| == g.nports
  {
    && ValidPort(g, req.transit) && ValidPort(g, req.effDst)
    && exists path: seq<PortNo> :: IsWalk(g, path, req.effDst) && path[0] == req.transit && Last(path) == p
  }

  /** The queue has room, or may be replaced by one that has. */
  predicate Fits(q: seq<Req>, cap: nat, xalloc: bool, grow: nat) {
    |q| < cap || (xalloc && grow > |q|)
  }

  /**
   A submit answers p exactly if p is the port that the walk finds, the path has a place left, and
   the request queue of p has room or can grow.
   */
  lemma SubmitIff(g: Segment, r: Req, xalloc: bool, grow: nat, p: PortNo)
    requires Static(g) && r in g.reqs && p != NO_PORT
    ensures XSegState.Submit(g, r, xalloc, grow).1 == p
            <==> && Reaches(g, g.reqs[r], p) && |g.reqs[r].path| < 32
                 && p in g.ports && Fits(g.ports[p].reqQ, g.ports[p].reqCap, xalloc, grow)
  {
    var req := g.reqs[r];
    if ValidPort(g, req.transit) && ValidPort(g, req.effDst) {
      TakerIsFirst(g, req.transit, req.effDst, p);
      TakerExists(g, req.transit, req.effDst, g.nports + 1);
    }
  }

  /** A forward is a submit to the new destination, if that is valid. */
  lemma ForwardIff(g: Segment, r: Req, to: PortNo, xalloc: bool, grow: nat, p: PortNo)
    requires Static(g) && r in g.reqs && p != NO_PORT
    ensures XSegState.Forward(g, r, to, xalloc, grow).1 == p
            <==> && ValidPort(g, to) && Reaches(g, g.reqs[r].(effDst := to), p) && |g.reqs[r].path| < 32
                 && p in g.ports && Fits(g.ports[p].reqQ, g.ports[p].reqCap, xalloc, grow)
  {
    if ValidPort(g, to) {
      var g1 := SetReq(g, r, g.reqs[r].(effDst := to));
      SubmitIff(g1, r, xalloc, grow, p);
      SameReach(g, g1, g.reqs[r].(effDst := to), p);
    }
  }

  lemma SameReach(g: Segment, g1: Segment, req: Request, p: PortNo)
    requires |g.next| == g.nports && g1 == g.(reqs := g1.reqs)
    ensures Reaches(g, req, p) <==> Reaches(g1, req, p)
  {
    forall path: seq<PortNo> ensures IsWalk(g, path, req.effDst) <==> IsWalk(g1, path, req.effDst) {
    }
  }

  /** Place k of the path is the last one whose port can receive; those above it exist and cannot. */
  ghost predicate LastReceiver(g: Segment, path: seq<PortNo>, k: nat) {
    && k < |path| && HasPort(g, path[k]) && CanReceive(g.ports[path[k]])
    && forall i | k < i < |path| :: HasPort(g, path[i]) && !CanReceive(g.ports[path[i]])
  }

  /** A respond answers p exactly if p is the last submitter that can receive, and its queue has room or can grow. */
  lemma RespondIff(g: Segment, r: Req, xalloc: bool, grow: nat, p: PortNo)
    requires Static(g) && r in g.reqs && p != NO_PORT
    ensures XSegState.Respond(g, r, xalloc, grow).1 == p
            <==> && (exists k: nat :: LastReceiver(g, g.reqs[r].path, k) && g.reqs[r].path[k] == p)
                 && p in g.ports && Fits(g.ports[p].repQ, g.ports[p].repCap, xalloc, grow)
  {
    var path := g.reqs[r].path;
    var d := DropDeaf(g, path);
    DropDeafFacts(g, path);
    if d != [] && HasPort(g, Last(d)) {
      assert LastReceiver(g, path, |d| - 1) && path[|d| - 1] == Last(d);
    }
    forall k: nat | LastReceiver(g, path, k) ensures d != [] && Last(d) == path[k] {
      assert k < |d|;
      assert k == |d| - 1;
    }
  }

  // ----- what changes

  /** The requests in the order in which they come out of a queue: that of requests, or that of replies. */
  ghost function Line(g: Segment, p: PortNo, reply: bool): seq<Req>
    requires p in g.ports
  {
    Reversed(if reply then g.ports[p].repQ else g.ports[p].reqQ)
  }

  ghost function Cap(g: Segment, p: PortNo, reply: bool): nat
    requires p in g.ports
  {
    if reply then g.ports[p].repCap else g.ports[p].reqCap
  }

  /** A request that is pushed comes out last; a queue that grows for it comes out the other way round. */
  lemma PushOrder(q: seq<Req>, cap: nat, r: Req, xalloc: bool, grow: nat)
    requires |q| <= cap
    ensures var (q', cap', ok) := Push(q, cap, r, xalloc, grow);
            && (ok <==> Fits(q, cap, xalloc, grow))
            && cap' == (if ok && |q| == cap then grow else cap) && (ok && |q| == cap ==> grow > cap)
            && (ok ==> Reversed(q') == (if |q| < cap then Reversed(q) else q) + [r])
            && (!ok ==> q' == q)
  {
    ReversedPrepend(q, r);
    ReversedPrepend(Reversed(q), r);
    ReversedTwice(q);
  }

  lemma PopOrder(q: seq<Req>)
    requires q != []
    ensures Reversed(q) == [Last(q)] + Reversed(Front(q))
  {
    assert q == Front(q) + [Last(q)];
    ReversedAppend(Front(q), Last(q));
  }

  /**
   What a successful submit does: the request, with the port of transit on its path, is the last
   to come out of the request queue of that port, and nothing else in the segment changes.
   */
  lemma SubmitMeans(g: Segment, r: Req, xalloc: bool, grow: nat, g': Segment, p: PortNo)
    requires Static(g) && WithinCaps(g) && r in g.reqs
    requires (g', p) == XSegState.Submit(g, r, xalloc, grow) && p != NO_PORT
    ensures p in g.ports && p in g'.ports
    ensures Line(g', p, false) == (if Cap(g', p, false) == Cap(g, p, false) then Line(g, p, false)
                                   else Reversed(Line(g, p, false))) + [r]
    ensures Cap(g', p, false) != Cap(g, p, false) <==> |g.ports[p].reqQ| == g.ports[p].reqCap
    ensures g'.reqs == g.reqs[r := g.reqs[r].(path := g.reqs[r].path + [g.reqs[r].transit])]
    ensures g'.ports == g.ports[p := g.ports[p].(reqQ := g'.ports[p].reqQ, reqCap := g'.ports[p].reqCap)]
    ensures g' == g.(reqs := g'.reqs, ports := g'.ports)
  {
    SubmitEffect(g, r, xalloc, grow);
    PushOrder(g.ports[p].reqQ, g.ports[p].reqCap, r, xalloc, grow);
    ReversedTwice(g.ports[p].reqQ);
  }

  lemma RespondMeans(g: Segment, r: Req, xalloc: bool, grow: nat, g': Segment, p: PortNo)
    requires Static(g) && WithinCaps(g) && r in g.reqs
    requires (g', p) == XSegState.Respond(g, r, xalloc, grow) && p != NO_PORT
    ensures p in g.ports && p in g'.ports
    ensures Line(g', p, true) == (if Cap(g', p, true) == Cap(g, p, true) then Line(g, p, true)
                                  else Reversed(Line(g, p, true))) + [r]
    ensures Cap(g', p, true) != Cap(g, p, true) <==> |g.ports[p].repQ| == g.ports[p].repCap
    ensures g'.ports == g.ports[p := g.ports[p].(repQ := g'.ports[p].repQ, repCap := g'.ports[p].repCap)]
    ensures g' == g.(reqs := g'.reqs, ports := g'.ports)
  {
    PushOrder(g.ports[p].repQ, g.ports[p].repCap, r, xalloc, grow);
    ReversedTwice(g.ports[p].repQ);
  }

  /** An accept hands the first request of the line to its port, which it is now in transit at. */
  lemma AcceptMeans(w: World, p: PortNo)
    requires Inv(w) && p in w.seg.ports
    ensures var w' := DoAccept(w, p);
            if w.seg.ports[p].reqQ == [] then w' == w
            else
              && p in w'.seg.ports && var r := Line(w.seg, p, false)[0];
              && Line(w.seg, p, false) == [r] + Line(w'.seg, p, false)
              && r in w.seg.reqs && w'.loc == w.loc[r := Held(p, false)]
              && w'.seg.reqs == w.seg.reqs[r := w.seg.reqs[r].(transit := p)]
              && w'.seg.ports == w.seg.ports[p := w.seg.ports[p].(reqQ := w'.seg.ports[p].reqQ)]
              && w' == w.(seg := w.seg.(ports := w'.seg.ports, reqs := w'.seg.reqs), loc := w'.loc)
  {
    if w.seg.ports[p].reqQ != [] {
      PopOrder(w.seg.ports[p].reqQ);
      AcceptIsMove(w, p);
      assert w.asked[Last(w.seg.ports[p].reqQ) := w.asked[Last(w.seg.ports[p].reqQ)]] == w.asked;
    }
  }

  /** A receive takes the first reply of the line, and its port off the path. */
  lemma ReceiveMeans(w: World, p: PortNo)
    requires Inv(w) && p in w.seg.ports
    ensures var w' := DoReceive(w, p);
            if w.seg.ports[p].repQ == [] then w' == w
            else
              && p in w'.seg.ports && var r := Line(w.seg, p, true)[0];
              && Line(w.seg, p, true) == [r] + Line(w'.seg, p, true)
              && r in w.seg.reqs && r in w'.seg.reqs && w'.loc == w.loc[r := Held(p, true)]
              && w.seg.reqs[r].path == w'.seg.reqs[r].path + [p]
              && w'.seg.reqs == w.seg.reqs[r := w.seg.reqs[r].(path := w'.seg.reqs[r].path)]
              && w'.seg.ports == w.seg.ports[p := w.seg.ports[p].(repQ := w'.seg.ports[p].repQ)]
  {
    if w.seg.ports[p].repQ != [] {
      PopOrder(w.seg.ports[p].repQ);
      ReceivePopsTop(w, p);
      QueueMember(w, InReply(p), Last(w.seg.ports[p].repQ));
      ReplyFacts(w, p, Last(w.seg.ports[p].repQ));
      ReceiveIsMove(w, p);
    }
  }

  // ----- get and put

  /** A get finds a request: in the free queue of the port or, unless it is local, within the limit in the pool. */
  ghost predicate Available(g: Segment, src: PortNo, local: bool, batch: Batch) {
    && HasPort(g, src)
    && (|| g.ports[src].freeQ != []
        || (!local && g.ports[src].alloc < g.ports[src].max && (g.pool != [] || batch.objs != [])))
  }

  /** The one it finds: what was put last comes first. */
  ghost function FirstAvailable(g: Segment, src: PortNo, batch: Batch): Req
    requires Available(g, src, false, batch)
  {
    if g.ports[src].freeQ != [] then Last(g.ports[src].freeQ)
    else if g.pool != [] then g.pool[0]
    else batch.objs[0]
  }

  /** A get that finds no request answers NULL and changes nothing. */
  lemma GetNothing(w: World, src: PortNo, dst: PortNo, local: bool, batch: Batch)
    requires Inv(w) && Enabled(w, Get(src, dst, local, batch)) && !Available(w.seg, src, local, batch)
    ensures DoGet(w, src, dst, local, batch) == w
  {
    if HasPort(w.seg, src) && !local && w.seg.ports[src].alloc < w.seg.ports[src].max {
      GetIsFromPool(w, src, dst, local, batch);
      GrownByNothing(w, batch);
    }
  }

  lemma GrownByNothing(w: World, batch: Batch)
    requires w.seg.pool == [] && batch.objs == [] && forall r :: r in batch.recs <==> r in batch.objs
    ensures Grown(w, batch) == w
  {
    assert batch.recs == map[];
  }

  /** The request r is handed to port src, with an empty path, addressed to dst and in transit at src. */
  ghost predicate HandedOut(w: World, w': World, r: Req, src: PortNo, dst: PortNo) {
    && r in w'.loc && w'.loc[r] == Held(src, false)
    && (r in w.loc ==> w.loc[r] == InFree(src) || w.loc[r] == InPool)
    && r in w'.seg.reqs && w'.seg.reqs[r] == Request(src, src, dst, dst, [])
    && (forall x | x in w.loc && x != r :: x in w'.loc && w'.loc[x] == w.loc[x])
  }

  /**
   A get that finds one and names a valid destination hands it out; the counter rises exactly if
   it is from the pool.
   */
  lemma GetMeans(w: World, src: PortNo, dst: PortNo, local: bool, batch: Batch)
    requires Inv(w) && Enabled(w, Get(src, dst, local, batch)) && Available(w.seg, src, local, batch)
    requires ValidPort(w.seg, dst)
    ensures var w' := DoGet(w, src, dst, local, batch);
            && HandedOut(w, w', FirstAvailable(w.seg, src, batch), src, dst) && src in w'.seg.ports
            && w'.seg.ports[src].alloc == w.seg.ports[src].alloc + (if w.seg.ports[src].freeQ == [] then 1 else 0)
  {
    if w.seg.ports[src].freeQ != [] {
      GetFreeMeans(w, src, dst, local, batch);
    } else {
      GetPooled(w, src, dst, local, batch);
    }
  }

  lemma GetPooled(w: World, src: PortNo, dst: PortNo, local: bool, batch: Batch)
    requires Inv(w) && Enabled(w, Get(src, dst, local, batch)) && Available(w.seg, src, local, batch)
    requires ValidPort(w.seg, dst) && w.seg.ports[src].freeQ == []
    ensures var w' := DoGet(w, src, dst, local, batch);
            && HandedOut(w, w', FirstAvailable(w.seg, src, batch), src, dst) && src in w'.seg.ports
            && w'.seg.ports[src].alloc == w.seg.ports[src].alloc + 1
  {
    GetIsFromPool(w, src, dst, local, batch);
    if w.seg.pool == [] {
      GrownInv(w, batch);
      GetPoolMeans(Grown(w, batch), src, dst);
    } else {
      GetPoolMeans(w, src, dst);
    }
  }

  lemma GetFreeMeans(w: World, src: PortNo, dst: PortNo, local: bool, batch: Batch)
    requires Inv(w) && HasPort(w.seg, src) && w.seg.ports[src].freeQ != [] && ValidPort(w.seg, dst)
    ensures var w' := DoGet(w, src, dst, local, batch); var r := Last(w.seg.ports[src].freeQ);
            && r in w.loc && w.loc[r] == InFree(src) && w'.loc == w.loc[r := Held(src, false)]
            && r in w'.seg.reqs && w'.seg.reqs[r] == Request(src, src, dst, dst, [])
            && src in w'.seg.ports && w'.seg.ports[src].alloc == w.seg.ports[src].alloc
  {
    QueueMember(w, InFree(src), Last(w.seg.ports[src].freeQ));
    IdleFacts(w, Last(w.seg.ports[src].freeQ));
    GetFromFree(w, src, dst, local, batch);
  }

  lemma GetPoolMeans(w: World, src: PortNo, dst: PortNo)
    requires Inv(w) && HasPort(w.seg, src) && w.seg.ports[src].alloc < w.seg.ports[src].max && w.seg.pool != []
    requires ValidPort(w.seg, dst)
    ensures w.seg.pool[0] in w.seg.reqs
    ensures var w' := FromPool(w, src, dst); var r := w.seg.pool[0];
            && r in w.loc && w.loc[r] == InPool && w'.loc == w.loc[r := Held(src, false)]
            && r in w'.seg.reqs && w'.seg.reqs[r] == Request(src, src, dst, dst, [])
            && src in w'.seg.ports && w'.seg.ports[src].alloc == w.seg.ports[src].alloc + 1
  {
    QueueMember(w, InPool, w.seg.pool[0]);
    FromPoolIs(w, src, dst);
  }

  /**
   A put of a request that its caller holds always succeeds: the request goes to the free queue of
   the port that it was got from, if there is room, and into the pool otherwise; only in that case
   is the counter to be lowered.
   */
  lemma PutMeans(w: World, r: Req)
    requires Inv(w) && HeldReq(w, r)
    ensures var w' := DoPut(w, r); var src := w.seg.reqs[r].src;
            && src in w.seg.ports && src in w'.seg.ports && w'.seg.reqs == w.seg.reqs[r := Blank()]
            && if |w.seg.ports[src].freeQ| < w.seg.ports[src].freeCap then
                 && w'.loc == w.loc[r := InFree(src)] && w'.pend == w.pend && w'.seg.pool == w.seg.pool
                 && w'.seg.ports == w.seg.ports[src := w.seg.ports[src].(freeQ := w.seg.ports[src].freeQ + [r])]
               else
                 && w'.loc == w.loc[r := InPool] && w'.pend == w.pend + multiset{src}
                 && w'.seg.pool == [r] + w.seg.pool && w'.seg.ports == w.seg.ports
  {
    HeldFacts(w, r);
    PutInFree(w, r);
    if |w.seg.ports[w.seg.reqs[r].src].freeQ| >= w.seg.ports[w.seg.reqs[r].src].freeCap { PutPoolIs(w, r); }
  }

  /** What was put last is got first: by the same port, or, from the pool, by any port without free requests. */
  lemma PutThenGet(w: World, r: Req, w1: World, p: PortNo, dst: PortNo, batch: Batch)
    requires Inv(w) && HeldReq(w, r) && w1 == DoPut(w, r) && Inv(w1)
    requires Enabled(w1, Get(p, dst, false, batch)) && HasPort(w1.seg, p) && ValidPort(w1.seg, dst)
    requires if w1.loc[r].InFree? then p == w.seg.reqs[r].src
             else w1.seg.ports[p].freeQ == [] && w1.seg.ports[p].alloc < w1.seg.ports[p].max
    ensures var w2 := DoGet(w1, p, dst, false, batch); r in w2.loc && w2.loc[r] == Held(p, false)
  {
    PutMeans(w, r);
    assert FirstAvailable(w1.seg, p, batch) == r;
    GetMeans(w1, p, dst, false, batch);
  }

  // ----- the order of requests and replies

  /** The request that a call appends to a queue. */
  ghost function Enters(w: World, c: Call, p: PortNo, reply: bool): seq<Req>
    requires Placed(w) && Enabled(w, c)
  {
    match c
    case Submit(r, _, xalloc, grow) =>
      if !reply && XSegState.Submit(w.seg, r, xalloc, grow).1 == p then [r] else []
    case Forward(r, to, _, xalloc, grow) =>
      if !reply && XSegState.Forward(w.seg, r, to, xalloc, grow).1 == p then [r] else []
    case Respond(r, xalloc, grow) =>
      if reply && XSegState.Respond(w.seg, r, xalloc, grow).1 == p then [r] else []
    case _ => []
  }

  /** The request that a call takes from it and answers. */
  ghost function Leaves(w: World, c: Call, p: PortNo, reply: bool): seq<Req>
    requires Placed(w) && Enabled(w, c)
  {
    if !HasPort(w.seg, p) then []
    else if c == Accept(p) && !reply && w.seg.ports[p].reqQ != [] then
      QueueMember(w, InRequest(p), Last(w.seg.ports[p].reqQ));
      [XSegState.Accept(w.seg, p).1]
    else if c == Receive(p) && reply then
      ReplyMembers(w, p);
      match XSegState.Receive(w.seg, p).1
      case Got(r) => [r]
      case Nothing => []
    else []
  }

  /**
   How a line moves: what is answered comes from its front, what is appended goes to its end, and
   if the queue was replaced by a larger one, the line was turned round in between.
   */
  ghost predicate LineMoves(g: Segment, g': Segment, p: PortNo, reply: bool, out: seq<Req>, into: seq<Req>)
    requires p in g.ports
  {
    && p in g'.ports
    && out + Line(g', p, reply)
       == (if Cap(g', p, reply) == Cap(g, p, reply) then Line(g, p, reply) else Reversed(Line(g, p, reply))) + into
  }

  /** The queue of the port is as it was. */
  ghost predicate SameQueue(g: Segment, g': Segment, p: PortNo, reply: bool)
    requires p in g.ports
  {
    && p in g'.ports
    && (if reply then g'.ports[p].repQ == g.ports[p].repQ && g'.ports[p].repCap == g.ports[p].repCap
        else g'.ports[p].reqQ == g.ports[p].reqQ && g'.ports[p].reqCap == g.ports[p].reqCap)
  }

  lemma SameLine(g: Segment, g': Segment, p: PortNo, reply: bool)
    requires p in g.ports && SameQueue(g, g', p, reply)
    ensures LineMoves(g, g', p, reply, [], [])
  {
  }

  /** So moves the line of every queue with every call. */
  lemma LineStep(w: World, c: Call, p: PortNo, reply: bool)
    requires Inv(w) && Enabled(w, c) && p in w.seg.ports
    ensures LineMoves(w.seg, Step(w, c).seg, p, reply, Leaves(w, c, p, reply), Enters(w, c, p, reply))
  {
    if c.Submit? || c.Forward? || c.Respond? {
      AppendingLine(w, c, p, reply);
    } else if c.Accept? {
      AcceptLine(w, c.port, p, reply);
    } else if c.Receive? {
      ReceiveLine(w, c.port, p, reply);
    } else {
      StillLine(w, c, p, reply);
    }
  }

  lemma AppendingLine(w: World, c: Call, p: PortNo, reply: bool)
    requires Placed(w) && Static(w.seg) && WithinCaps(w.seg) && Enabled(w, c) && p in w.seg.ports
    requires c.Submit? || c.Forward? || c.Respond?
    ensures LineMoves(w.seg, Step(w, c).seg, p, reply, [], Enters(w, c, p, reply))
  {
    match c
    case Submit(r, _, xalloc, grow) => SubmitLine(w.seg, r, xalloc, grow, p, reply);
    case Forward(r, to, _, xalloc, grow) => ForwardLine(w.seg, r, to, xalloc, grow, p, reply);
    case Respond(r, xalloc, grow) => RespondLine(w.seg, r, xalloc, grow, p, reply);
  }

  lemma StillLine(w: World, c: Call, p: PortNo, reply: bool)
    requires Placed(w) && Enabled(w, c) && p in w.seg.ports && (c.Get? || c.Put? || c.FinishPut?)
    ensures LineMoves(w.seg, Step(w, c).seg, p, reply, [], [])
  {
    if c.Get? { GetQueues(w, c.src, c.dst, c.local, c.batch, p, reply); }
    if c.Put? { PutQueues(w, c.req, p, reply); }
    SameLine(w.seg, Step(w, c).seg, p, reply);
  }

  lemma HandQueues(w: World, r: Req, src: PortNo, dst: PortNo, p: PortNo, reply: bool)
    requires r in w.seg.reqs && p in w.seg.ports
    ensures SameQueue(w.seg, Hand(w, r, src, dst).seg, p, reply)
  {
  }

  lemma GetQueues(w: World, src: PortNo, dst: PortNo, local: bool, batch: Batch, p: PortNo, reply: bool)
    requires Placed(w) && p in w.seg.ports
    ensures SameQueue(w.seg, DoGet(w, src, dst, local, batch).seg, p, reply)
  {
    if HasPort(w.seg, src) {
      var port := w.seg.ports[src];
      if port.freeQ != [] {
        QueueMember(w, InFree(src), Last(port.freeQ));
        HandQueues(w.(seg := SetPort(w.seg, src, port.(freeQ := Front(port.freeQ)))), Last(port.freeQ), src, dst,
                   p, reply);
      } else if !local && port.alloc < port.max {
        GetIsFromPool(w, src, dst, local, batch);
        var w1 := if w.seg.pool == [] then Grown(w, batch) else w;
        if w1.seg.pool != [] && w1.seg.pool[0] in w1.seg.reqs { PoolQueues(w1, src, dst, p, reply); }
      }
    }
  }

  lemma PoolQueues(w: World, src: PortNo, dst: PortNo, p: PortNo, reply: bool)
    requires HasPort(w.seg, src) && w.seg.ports[src].alloc < w.seg.ports[src].max && p in w.seg.ports
    requires w.seg.pool != [] && w.seg.pool[0] in w.seg.reqs
    ensures SameQueue(w.seg, FromPool(w, src, dst).seg, p, reply)
  {
    HandQueues(w.(seg := Charged(w.seg, src)), w.seg.pool[0], src, dst, p, reply);
  }

  lemma PutQueues(w: World, r: Req, p: PortNo, reply: bool)
    requires HeldReq(w, r) && p in w.seg.ports
    ensures SameQueue(w.seg, DoPut(w, r).seg, p, reply)
  {
  }

  lemma SubmitLine(g: Segment, r: Req, xalloc: bool, grow: nat, p: PortNo, reply: bool)
    requires Static(g) && WithinCaps(g) && r in g.reqs && p in g.ports
    ensures var (g', q) := XSegState.Submit(g, r, xalloc, grow);
            LineMoves(g, g', p, reply, [], if !reply && q == p then [r] else [])
  {
    var (g', q) := XSegState.Submit(g, r, xalloc, grow);
    if q == NO_PORT { SubmitEffect(g, r, xalloc, grow); } else { SubmitMeans(g, r, xalloc, grow, g', q); }
  }

  lemma ForwardLine(g: Segment, r: Req, to: PortNo, xalloc: bool, grow: nat, p: PortNo, reply: bool)
    requires Static(g) && WithinCaps(g) && r in g.reqs && p in g.ports
    ensures var (g', q) := XSegState.Forward(g, r, to, xalloc, grow);
            LineMoves(g, g', p, reply, [], if !reply && q == p then [r] else [])
  {
    if ValidPort(g, to) {
      SubmitLine(SetReq(g, r, g.reqs[r].(effDst := to)), r, xalloc, grow, p, reply);
    }
  }

  lemma RespondLine(g: Segment, r: Req, xalloc: bool, grow: nat, p: PortNo, reply: bool)
    requires Static(g) && WithinCaps(g) && r in g.reqs && p in g.ports
    ensures var (g', q) := XSegState.Respond(g, r, xalloc, grow);
            LineMoves(g, g', p, reply, [], if reply && q == p then [r] else [])
  {
    var (g', q) := XSegState.Respond(g, r, xalloc, grow);
    if q != NO_PORT { RespondMeans(g, r, xalloc, grow, g', q); }
  }

  lemma AcceptLine(w: World, q: PortNo, p: PortNo, reply: bool)
    requires Inv(w) && p in w.seg.ports
    ensures LineMoves(w.seg, DoAccept(w, q).seg, p, reply, Leaves(w, Accept(q), p, reply), [])
  {
    if q in w.seg.ports {
      AcceptMeans(w, q);
      if w.seg.ports[q].reqQ != [] { PopOrder(w.seg.ports[q].reqQ); }
    }
  }

  lemma ReceiveLine(w: World, q: PortNo, p: PortNo, reply: bool)
    requires Inv(w) && p in w.seg.ports
    ensures LineMoves(w.seg, DoReceive(w, q).seg, p, reply, Leaves(w, Receive(q), p, reply), [])
  {
    if q in w.seg.ports {
      ReceiveMeans(w, q);
      ReplyMembers(w, q);
      ReceiveNeverRetries(w, q);
      if w.seg.ports[q].repQ != [] { PopOrder(w.seg.ports[q].repQ); }
    }
  }

  // ----- whole runs

  ghost function Entered(w: World, cs: seq<Call>, p: PortNo, reply: bool): seq<Req>
    requires Inv(w) && Legal(w, cs)
    decreases |cs|
  {
    if cs == [] then []
    else StepInv(w, cs[0]); Enters(w, cs[0], p, reply) + Entered(Step(w, cs[0]), cs[1..], p, reply)
  }

  ghost function Left(w: World, cs: seq<Call>, p: PortNo, reply: bool): seq<Req>
    requires Inv(w) && Legal(w, cs)
    decreases |cs|
  {
    if cs == [] then []
    else StepInv(w, cs[0]); Leaves(w, cs[0], p, reply) + Left(Step(w, cs[0]), cs[1..], p, reply)
  }

  /** The queue never grows in the course of the run. */
  ghost predicate KeepsQueue(w: World, cs: seq<Call>, p: PortNo, reply: bool)
    requires Inv(w) && Legal(w, cs)
    decreases |cs|
  {
    cs == [] || (&& p in w.seg.ports && p in Step(w, cs[0]).seg.ports
                 && Cap(Step(w, cs[0]).seg, p, reply) == Cap(w.seg, p, reply)
                 && (StepInv(w, cs[0]); KeepsQueue(Step(w, cs[0]), cs[1..], p, reply)))
  }

  /**
   First in, first out: over any run in which the queue does not grow, the requests that were
   answered and those still in the queue are, in this order, those that were in it at the
   beginning and those appended since. So it is for requests and accept, and for replies and
   receive. What a growth does to the order is said by LineStep: it turns it round.
   */
  lemma {:induction false} FirstInFirstOut(w: World, cs: seq<Call>, p: PortNo, reply: bool)
    requires Inv(w) && Legal(w, cs) && p in w.seg.ports && KeepsQueue(w, cs, p, reply)
    ensures p in Run(w, cs).seg.ports
    ensures Left(w, cs, p, reply) + Line(Run(w, cs).seg, p, reply) == Line(w.seg, p, reply) + Entered(w, cs, p, reply)
    decreases |cs|
  {
    if cs != [] {
      var w1 := Step(w, cs[0]);
      StepInv(w, cs[0]);
      LineStep(w, cs[0], p, reply);
      FirstInFirstOut(w1, cs[1..], p, reply);
      Chain(Leaves(w, cs[0], p, reply), Left(w1, cs[1..], p, reply), Line(Run(w1, cs[1..]).seg, p, reply),
            Line(w1.seg, p, reply), Entered(w1, cs[1..], p, reply), Line(w.seg, p, reply), Enters(w, cs[0], p, reply));
    }
  }

  lemma Chain(out: seq<Req>, outs: seq<Req>, end: seq<Req>, mid: seq<Req>, ins: seq<Req>, start: seq<Req>,
              into: seq<Req>)
    requires out + mid == start + into && outs + end == mid + ins
    ensures (out + outs) + end == start + (into + ins)
  {
    assert (out + outs) + end == out + (outs + end) == (out + mid) + ins;
  }
}
