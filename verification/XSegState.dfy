/**
 The request protocol of src/xseg.c: requests travel between ports through request and reply
 queues, and carry the stack of ports to which replies must go back.

 A state of the segment is a value. Every call of the API is a function on states; a call
 makes one shared change (a queue operation under one lock) and otherwise changes only the
 request its caller holds, so the calls of any number of peers interleave as steps. Returning
 an object to the pool and lowering the port's counter are under two locks, and are two steps.
 */
module XSegState {
  import opened Seqs
  import opened Words

  type PortNo = nat
  type Req = nat

  const NO_PORT: PortNo := 0xFFFF_FFFF
  const MAX_PATH_LEN: nat := 32

  /** Queues list requests from the tail (last appended) to the head (next popped). */
  datatype Port = Port(
    flags: nat,
    freeQ: seq<Req>, freeCap: nat,
    reqQ: seq<Req>, reqCap: nat,
    repQ: seq<Req>, repCap: nat,
    alloc: Word, max: Word
  )

  datatype Request = Request(src: PortNo, transit: PortNo, dst: PortNo, effDst: PortNo, path: seq<PortNo>)

  /**
   New objects for the pool, the next to be handed out first, and what their memory holds when
   they are read as requests: nobody has written that, so it can be anything.
   */
  datatype Batch = Batch(objs: seq<Req>, recs: map<Req, Request>)

  /** pool is the list of free request objects of the segment. */
  datatype Segment = Segment(
    nports: nat,
    next: seq<PortNo>,
    ports: map<PortNo, Port>,
    reqs: map<Req, Request>,
    pool: seq<Req>
  )

  /** __validate_port */
  predicate ValidPort(g: Segment, p: PortNo) { p < g.nports }

  /** xseg_get_port does not answer NULL. */
  predicate HasPort(g: Segment, p: PortNo) { ValidPort(g, p) && p in g.ports }

  /** The loop of xseg_submit goes on past a port exactly if all its flags are clear. */
  predicate PassesOver(port: Port) { port.flags == 0 }

  /** The bit CAN_ACCEPT of the flags, which the loop means to test. */
  predicate CanAccept(port: Port) { port.flags % 2 == 1 }

  /** The bit CAN_RECEIVE. */
  predicate CanReceive(port: Port) { (port.flags / 2) % 2 == 1 }

  // ----- finding the port to submit to

  datatype Walk = NoTaker | Taker(port: PortNo) | Unfinished

  /** Where the do-while loop of xseg_submit gets to from `at` in at most fuel rounds. */
  function WalkFrom(g: Segment, at: PortNo, eff: PortNo, fuel: nat): Walk
    requires |g.next| == g.nports && ValidPort(g, at)
    decreases fuel
  {
    if fuel == 0 then Unfinished
    else if at == eff then NoTaker
    else
      var n := if g.next[at] != NO_PORT then g.next[at] else eff;
      if !HasPort(g, n) then NoTaker
      else if PassesOver(g.ports[n]) then WalkFrom(g, n, eff, fuel - 1)
      else Taker(n)
  }

  // ----- queues

  /**
   An append at the tail, and with X_ALLOC a second one after moving to a queue of size grow, if
   there is memory for one that holds more; without memory, grow is 0.
   */
  ghost function Push(q: seq<Req>, cap: nat, r: Req, xalloc: bool, grow: nat): (seq<Req>, nat, bool) {
    if |q| < cap then ([r] + q, cap, true)
    else if xalloc && grow > |q| then ([r] + Reversed(q), grow, true)
    else (q, cap, false)
  }

  function Last<T>(s: seq<T>): T
    requires s != []
  {
    s[|s| - 1]
  }

  function Front<T>(s: seq<T>): seq<T>
    requires s != []
  {
    s[..|s| - 1]
  }

  // ----- calls that move one request

  ghost function SetPort(g: Segment, p: PortNo, port: Port): Segment {
    g.(ports := g.ports[p := port])
  }

  ghost function SetReq(g: Segment, r: Req, req: Request): Segment {
    g.(reqs := g.reqs[r := req])
  }

  /** xseg_submit of a request that its caller holds. */
  ghost function Submit(g: Segment, r: Req, xalloc: bool, grow: nat): (Segment, PortNo)
    requires r in g.reqs && |g.next| == g.nports
  {
    var req := g.reqs[r];
    if !ValidPort(g, req.transit) || !ValidPort(g, req.effDst) then (g, NO_PORT)
    else
      var w := WalkFrom(g, req.transit, req.effDst, g.nports + 1);
      if !w.Taker? || !HasPort(g, w.port) || |req.path| >= MAX_PATH_LEN then (g, NO_PORT)
      else
        var port := g.ports[w.port];
        var (q, cap, ok) := Push(port.reqQ, port.reqCap, r, xalloc, grow);
        if !ok then (g, NO_PORT)
        else (SetReq(SetPort(g, w.port, port.(reqQ := q, reqCap := cap)),
                     r, req.(path := req.path + [req.transit])), w.port)
  }

  /** xseg_forward */
  ghost function Forward(g: Segment, r: Req, newDst: PortNo, xalloc: bool, grow: nat): (Segment, PortNo)
    requires r in g.reqs && |g.next| == g.nports
  {
    if !ValidPort(g, newDst) then (g, NO_PORT)
    else Submit(SetReq(g, r, g.reqs[r].(effDst := newDst)), r, xalloc, grow)
  }

  /** xseg_accept, when the request queue of p is not empty. */
  ghost function Accept(g: Segment, p: PortNo): (Segment, Req)
    requires HasPort(g, p) && g.ports[p].reqQ != [] && Last(g.ports[p].reqQ) in g.reqs
  {
    var port := g.ports[p];
    var r := Last(port.reqQ);
    (SetReq(SetPort(g, p, port.(reqQ := Front(port.reqQ))), r, g.reqs[r].(transit := p)), r)
  }

  /** The ports on top of the path that cannot receive are dropped, up to one that does not exist. */
  ghost function DropDeaf(g: Segment, path: seq<PortNo>): seq<PortNo> {
    if path == [] then []
    else if HasPort(g, Last(path)) && !CanReceive(g.ports[Last(path)]) then DropDeaf(g, Front(path))
    else path
  }

  /** xseg_respond of a request that its caller holds. */
  ghost function Respond(g: Segment, r: Req, xalloc: bool, grow: nat): (Segment, PortNo)
    requires r in g.reqs
  {
    var path := DropDeaf(g, g.reqs[r].path);
    var g1 := SetReq(g, r, g.reqs[r].(path := path));
    if path == [] || !HasPort(g, Last(path)) then (g1, NO_PORT)
    else
      var p := Last(path);
      var port := g.ports[p];
      var (q, cap, ok) := Push(port.repQ, port.repCap, r, xalloc, grow);
      if !ok then (g1, NO_PORT) else (SetPort(g1, p, port.(repQ := q, repCap := cap)), p)
  }

  datatype Answer = Nothing | Got(req: Req)

  /** xseg_receive, with its retry for a request whose path is empty; dropped counts the retries. */
  ghost function Receive(g: Segment, p: PortNo): (Segment, Answer, nat)
    requires HasPort(g, p) && forall r | r in g.ports[p].repQ :: r in g.reqs
    decreases if p in g.ports then |g.ports[p].repQ| else 0
  {
    var port := g.ports[p];
    if port.repQ == [] then (g, Nothing, 0)
    else
      var r := Last(port.repQ);
      var g1 := SetPort(g, p, port.(repQ := Front(port.repQ)));
      var path := g.reqs[r].path;
      if path == [] then var (g2, a, n) := Receive(g1, p); (g2, a, n + 1)
      else (SetReq(g1, r, g.reqs[r].(path := Front(path))), Got(r), 0)
  }

  // ----- getting and putting

  /** xseg_put_request up to the free queue or the pool; the port's counter is lowered by FinishPut. */
  ghost function Put(g: Segment, r: Req): (Segment, bool)
    requires r in g.reqs
  {
    var src := g.reqs[r].src;
    if !HasPort(g, src) then (g, false)
    else
      var port := g.ports[src];
      var g1 := SetReq(g, r, Request(NO_PORT, NO_PORT, NO_PORT, NO_PORT, []));
      if |port.freeQ| < port.freeCap then (SetPort(g1, src, port.(freeQ := port.freeQ + [r])), true)
      else (g1.(pool := [r] + g1.pool), true)
  }

  /** The counter is a 64-bit word, and wraps around below zero. */
  ghost function FinishPut(g: Segment, p: PortNo): Segment
    requires p in g.ports
  {
    SetPort(g, p, g.ports[p].(alloc := Down(g.ports[p].alloc)))
  }

  function Down(n: Word): Word { if n == 0 then WORD_LIMIT - 1 else n - 1 }

  /** xseg_prep_ports and the other assignments at the end of xseg_get_request. */
  ghost function Prepare(g: Segment, r: Req, src: PortNo, dst: PortNo): Segment {
    SetReq(g, r, Request(src, src, dst, dst, []))
  }

  /** An empty pool grows. */
  ghost function AddObjects(g: Segment, batch: Batch): Segment {
    g.(pool := batch.objs, reqs := batch.recs + g.reqs)
  }
}
