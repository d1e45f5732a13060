/**
 The walk of xseg_submit along path_next: which port it finds, and when it does not end. It
 passes over ports without flags, and a chain of such ports can be a cycle.
 */
module XSegWalk {
  import opened Seqs
  import opened XSegState

  /** The port the loop looks at after `at`. */
  function NextPort(g: Segment, at: PortNo, eff: PortNo): PortNo
    requires |g.next| == g.nports && ValidPort(g, at)
  {
    if g.next[at] != NO_PORT then g.next[at] else eff
  }

  /** The loop goes on from `at`. */
  predicate GoesOn(g: Segment, at: PortNo, eff: PortNo)
    requires |g.next| == g.nports && ValidPort(g, at)
  {
    at != eff && HasPort(g, NextPort(g, at, eff)) && PassesOver(g.ports[NextPort(g, at, eff)])
  }

  predicate Ends(g: Segment, at: PortNo, eff: PortNo, fuel: nat)
    requires |g.next| == g.nports && ValidPort(g, at)
  {
    !WalkFrom(g, at, eff, fuel).Unfinished?
  }

  /** How many rounds the loop takes. */
  function Rounds(g: Segment, at: PortNo, eff: PortNo, fuel: nat): nat
    requires |g.next| == g.nports && ValidPort(g, at)
    decreases fuel
  {
    if fuel == 0 || !GoesOn(g, at, eff) then 1 else Rounds(g, NextPort(g, at, eff), eff, fuel - 1) + 1
  }

  lemma {:induction false} RoundsFit(g: Segment, at: PortNo, eff: PortNo, fuel: nat)
    requires |g.next| == g.nports && ValidPort(g, at) && Ends(g, at, eff, fuel)
    ensures Rounds(g, at, eff, fuel) <= fuel
    decreases fuel
  {
    if GoesOn(g, at, eff) { RoundsFit(g, NextPort(g, at, eff), eff, fuel - 1); }
  }

  /** As many rounds as are needed are enough, and more change nothing. */
  lemma {:induction false} EnoughRounds(g: Segment, at: PortNo, eff: PortNo, fuel: nat, other: nat)
    requires |g.next| == g.nports && ValidPort(g, at) && Ends(g, at, eff, fuel)
    requires other >= Rounds(g, at, eff, fuel)
    ensures WalkFrom(g, at, eff, other) == WalkFrom(g, at, eff, fuel)
    ensures Rounds(g, at, eff, other) == Rounds(g, at, eff, fuel)
    decreases fuel
  {
    if GoesOn(g, at, eff) {
      EnoughRounds(g, NextPort(g, at, eff), eff, fuel - 1, other - 1);
    }
  }

  /** The ports the loop stands at. */
  ghost function Visited(g: Segment, at: PortNo, eff: PortNo, fuel: nat): set<PortNo>
    requires |g.next| == g.nports && ValidPort(g, at)
    decreases fuel
  {
    {at} + if fuel == 0 || !GoesOn(g, at, eff) then {} else Visited(g, NextPort(g, at, eff), eff, fuel - 1)
  }

  /** From a port it stood at, the loop has no more rounds to go than from the start. */
  lemma {:induction false} VisitedRounds(g: Segment, at: PortNo, eff: PortNo, fuel: nat, q: PortNo)
    requires |g.next| == g.nports && ValidPort(g, at) && Ends(g, at, eff, fuel)
    requires q in Visited(g, at, eff, fuel)
    ensures ValidPort(g, q) && Ends(g, q, eff, fuel) && Rounds(g, q, eff, fuel) <= Rounds(g, at, eff, fuel)
    decreases fuel
  {
    if q != at {
      var n := NextPort(g, at, eff);
      VisitedRounds(g, n, eff, fuel - 1, q);
      RoundsFit(g, q, eff, fuel - 1);
      EnoughRounds(g, q, eff, fuel - 1, fuel);
    }
  }

  /** So an ending loop never stands at a port twice. */
  lemma {:induction false} VisitedOnce(g: Segment, at: PortNo, eff: PortNo, fuel: nat)
    requires |g.next| == g.nports && ValidPort(g, at) && Ends(g, at, eff, fuel)
    ensures |Visited(g, at, eff, fuel)| == Rounds(g, at, eff, fuel)
    decreases fuel
  {
    if GoesOn(g, at, eff) {
      var n := NextPort(g, at, eff);
      VisitedOnce(g, n, eff, fuel - 1);
      if at in Visited(g, n, eff, fuel - 1) {
        VisitedRounds(g, n, eff, fuel - 1, at);
        RoundsFit(g, at, eff, fuel - 1);
        EnoughRounds(g, at, eff, fuel - 1, fuel);
      }
    }
  }

  /** The loop ends at all exactly if it ends within as many rounds as there are ports. */
  lemma EndsSoonOrNever(g: Segment, at: PortNo, eff: PortNo, fuel: nat)
    requires |g.next| == g.nports && ValidPort(g, at)
    ensures Ends(g, at, eff, fuel) ==>
              && Rounds(g, at, eff, fuel) <= g.nports
              && WalkFrom(g, at, eff, g.nports + 1) == WalkFrom(g, at, eff, fuel)
    ensures Ends(g, at, eff, g.nports + 1) <==> exists n: nat :: Ends(g, at, eff, n)
  {
    if exists n: nat :: Ends(g, at, eff, n) {
      var n: nat :| Ends(g, at, eff, n);
      SoonEnough(g, at, eff, n);
    }
    if Ends(g, at, eff, fuel) {
      SoonEnough(g, at, eff, fuel);
    }
  }

  lemma SoonEnough(g: Segment, at: PortNo, eff: PortNo, fuel: nat)
    requires |g.next| == g.nports && ValidPort(g, at) && Ends(g, at, eff, fuel)
    ensures Rounds(g, at, eff, fuel) <= g.nports
    ensures WalkFrom(g, at, eff, g.nports + 1) == WalkFrom(g, at, eff, fuel)
  {
    VisitedOnce(g, at, eff, fuel);
    forall q | q in Visited(g, at, eff, fuel) ensures q < g.nports {
      VisitedRounds(g, at, eff, fuel, q);
    }
    FewBelow(g.nports, Visited(g, at, eff, fuel));
    EnoughRounds(g, at, eff, fuel, g.nports + 1);
  }

  // ----- when it does not end

  /** Ports other than the destination that lead only to each other, and none of which has a flag set. */
  ghost predicate Trap(g: Segment, s: set<PortNo>, eff: PortNo)
    requires |g.next| == g.nports
  {
    forall p | p in s :: ValidPort(g, p) && GoesOn(g, p, eff) && NextPort(g, p, eff) in s
  }

  lemma {:induction false} Trapped(g: Segment, s: set<PortNo>, at: PortNo, eff: PortNo, fuel: nat)
    requires |g.next| == g.nports && Trap(g, s, eff) && at in s
    ensures ValidPort(g, at) && !Ends(g, at, eff, fuel)
    decreases fuel
  {
    if fuel > 0 { Trapped(g, s, NextPort(g, at, eff), eff, fuel - 1); }
  }

  ghost predicate Endless(g: Segment, p: PortNo, eff: PortNo)
    requires |g.next| == g.nports
  {
    ValidPort(g, p) && !Ends(g, p, eff, g.nports + 1)
  }

  /** From a port where the loop does not end it goes on to another one. */
  lemma NoEndAfter(g: Segment, at: PortNo, eff: PortNo)
    requires |g.next| == g.nports && ValidPort(g, at) && !Ends(g, at, eff, g.nports + 1)
    ensures GoesOn(g, at, eff) && ValidPort(g, NextPort(g, at, eff))
    ensures !Ends(g, NextPort(g, at, eff), eff, g.nports + 1)
  {
    var n := NextPort(g, at, eff);
    if Ends(g, n, eff, g.nports + 1) {
      assert Ends(g, at, eff, g.nports + 2);
      SoonEnough(g, at, eff, g.nports + 2);
    }
  }

  /** The loop never ends exactly if it starts among ports without flags that lead only to each other. */
  lemma LoopsForeverIff(g: Segment, at: PortNo, eff: PortNo)
    requires |g.next| == g.nports && ValidPort(g, at)
    ensures (forall fuel: nat :: !Ends(g, at, eff, fuel)) <==> exists s :: Trap(g, s, eff) && at in s
  {
    if forall fuel: nat :: !Ends(g, at, eff, fuel) {
      var s := set p: PortNo | p < g.nports && Endless(g, p, eff);
      forall p | p in s ensures ValidPort(g, p) && GoesOn(g, p, eff) && NextPort(g, p, eff) in s {
        NoEndAfter(g, p, eff);
      }
      assert Trap(g, s, eff) && at in s;
    }
    if s :| Trap(g, s, eff) && at in s {
      forall fuel: nat ensures !Ends(g, at, eff, fuel) {
        Trapped(g, s, at, eff, fuel);
      }
    }
  }

  function BarePort(flags: nat): Port { Port(flags, [], 1, [], 1, [], 1, 0, 1) }

  /** Such segments exist: ports 0 and 1 name each other, and a submit from 0 to 2 never returns. */
  lemma LoopExample(fuel: nat)
    ensures var g := Segment(3, [1, 0, NO_PORT], map[0 := BarePort(0), 1 := BarePort(0), 2 := BarePort(1)], map[], []);
            !Ends(g, 0, 2, fuel)
  {
    var g := Segment(3, [1, 0, NO_PORT], map[0 := BarePort(0), 1 := BarePort(0), 2 := BarePort(1)], map[], []);
    Trapped(g, {0, 1}, 0, 2, fuel);
  }

  // ----- which port it finds

  /**
   The walk as a list of ports: it starts at path[0], each port but the last is not the
   destination and leads to the next, those between pass the request on, and the last does not.
   */
  ghost predicate IsWalk(g: Segment, path: seq<PortNo>, eff: PortNo)
    requires |g.next| == g.nports
  {
    && |path| >= 2
    && (forall i {:trigger path[i]} | 0 <= i < |path| - 1 :: ValidPort(g, path[i]) && path[i] != eff)
    && (forall i | 1 <= i < |path| :: HasPort(g, path[i]) && path[i] == NextPort(g, path[i - 1], eff))
    && (forall i | 1 <= i < |path| :: PassesOver(g.ports[path[i]]) <==> i < |path| - 1)
  }

  /** A walk is what the loop does, if it is allowed that many rounds. */
  lemma {:induction false} WalkIsFollowed(g: Segment, path: seq<PortNo>, eff: PortNo, fuel: nat)
    requires |g.next| == g.nports && IsWalk(g, path, eff) && fuel >= |path| - 1
    ensures ValidPort(g, path[0]) && WalkFrom(g, path[0], eff, fuel) == Taker(Last(path))
    decreases |path|
  {
    assert path[1] == NextPort(g, path[0], eff);
    if |path| > 2 {
      var rest := path[1..];
      forall i | 1 <= i < |rest|
        ensures HasPort(g, rest[i]) && rest[i] == NextPort(g, rest[i - 1], eff)
                && (PassesOver(g.ports[rest[i]]) <==> i < |rest| - 1)
      {
        assert rest[i] == path[i + 1] && rest[i - 1] == path[i];
      }
      WalkIsFollowed(g, rest, eff, fuel - 1);
    }
  }

  /** And if the loop finds a port, there is a walk to it. */
  lemma {:induction false} FollowedIsWalk(g: Segment, at: PortNo, eff: PortNo, fuel: nat) returns (path: seq<PortNo>)
    requires |g.next| == g.nports && ValidPort(g, at) && WalkFrom(g, at, eff, fuel).Taker?
    ensures IsWalk(g, path, eff) && path[0] == at && Last(path) == WalkFrom(g, at, eff, fuel).port
    decreases fuel
  {
    var n := NextPort(g, at, eff);
    if PassesOver(g.ports[n]) {
      var rest := FollowedIsWalk(g, n, eff, fuel - 1);
      path := [at] + rest;
    } else {
      path := [at, n];
    }
  }

  /** The loop finds n exactly if n is the first port along the chain that does not pass the request on. */
  lemma TakerIsFirst(g: Segment, at: PortNo, eff: PortNo, n: PortNo)
    requires |g.next| == g.nports && ValidPort(g, at)
    ensures WalkFrom(g, at, eff, g.nports + 1) == Taker(n)
            <==> exists path: seq<PortNo> :: IsWalk(g, path, eff) && path[0] == at && Last(path) == n
  {
    if WalkFrom(g, at, eff, g.nports + 1) == Taker(n) {
      var path := FollowedIsWalk(g, at, eff, g.nports + 1);
    }
    if path: seq<PortNo> :| IsWalk(g, path, eff) && path[0] == at && Last(path) == n {
      WalkIsFollowed(g, path, eff, |path|);
      SoonEnough(g, at, eff, |path|);
    }
  }

  lemma NoTakerIff(g: Segment, at: PortNo, eff: PortNo)
    requires |g.next| == g.nports && ValidPort(g, at) && Ends(g, at, eff, g.nports + 1)
    ensures var w := WalkFrom(g, at, eff, g.nports + 1);
            && (w.Taker? ==> exists path: seq<PortNo> :: IsWalk(g, path, eff) && path[0] == at && Last(path) == w.port)
            && (w == NoTaker <==> !exists path: seq<PortNo> :: IsWalk(g, path, eff) && path[0] == at)
  {
    var w := WalkFrom(g, at, eff, g.nports + 1);
    if w.Taker? { TakerIsFirst(g, at, eff, w.port); }
    if path: seq<PortNo> :| IsWalk(g, path, eff) && path[0] == at {
      TakerIsFirst(g, at, eff, Last(path));
    }
  }

  /**
   The flag that the loop means to test is not what it tests: a submit hands the request to a
   port that cannot accept exactly if the first port along the chain with any flag set is such.
   */
  lemma UnwillingTakerIff(g: Segment, r: Req, xalloc: bool, grow: nat)
    requires r in g.reqs && |g.next| == g.nports && g.nports <= NO_PORT
    requires XSegState.Submit(g, r, xalloc, grow).1 != NO_PORT
    ensures var p := XSegState.Submit(g, r, xalloc, grow).1; var req := g.reqs[r];
            && p in g.ports
            && (!CanAccept(g.ports[p])
                <==> exists path: seq<PortNo> ::
                       IsWalk(g, path, req.effDst) && path[0] == req.transit && !CanAccept(g.ports[Last(path)]))
  {
    var p, req := XSegState.Submit(g, r, xalloc, grow).1, g.reqs[r];
    TakerIsFirst(g, req.transit, req.effDst, p);
    if path: seq<PortNo> :| IsWalk(g, path, req.effDst) && path[0] == req.transit && !CanAccept(g.ports[Last(path)]) {
      TakerIsFirst(g, req.transit, req.effDst, Last(path));
    }
  }

  /** It happens: port 1 can only receive, and is handed a request. */
  lemma UnwillingTakerExample()
    ensures var g := Segment(2, [NO_PORT, NO_PORT], map[0 := BarePort(3), 1 := BarePort(2)],
                             map[7 := Request(0, 0, 1, 1, [])], []);
            XSegState.Submit(g, 7, false, 0).1 == 1 && !CanAccept(g.ports[1])
  {
    var g := Segment(2, [NO_PORT, NO_PORT], map[0 := BarePort(3), 1 := BarePort(2)],
                     map[7 := Request(0, 0, 1, 1, [])], []);
    assert WalkFrom(g, 0, 1, 3) == Taker(1);
  }

  /** The do-while loop of xseg_submit, on a segment where it ends. */
  method FindTaker(g: Segment, transit: PortNo, eff: PortNo) returns (w: Walk)
    requires |g.next| == g.nports && ValidPort(g, transit) && Ends(g, transit, eff, g.nports + 1)
    ensures w == WalkFrom(g, transit, eff, g.nports + 1)
    ensures w.Taker? ==> exists path: seq<PortNo> :: IsWalk(g, path, eff) && path[0] == transit && Last(path) == w.port
    ensures w == NoTaker <==> !exists path: seq<PortNo> :: IsWalk(g, path, eff) && path[0] == transit
  {
    NoTakerIff(g, transit, eff);
    var next := transit;
    ghost var fuel := g.nports + 1;
    var on := true;
    while on
      invariant ValidPort(g, next)
      invariant on ==> fuel > 0 && WalkFrom(g, transit, eff, g.nports + 1) == WalkFrom(g, next, eff, fuel)
      invariant !on ==> WalkFrom(g, transit, eff, g.nports + 1) == Taker(next)
      decreases fuel, on
    {
      if next == eff { return NoTaker; }
      if g.next[next] != NO_PORT { next := g.next[next]; } else { next := eff; }
      if !HasPort(g, next) { return NoTaker; }
      on := PassesOver(g.ports[next]);
      fuel := fuel - 1;
    }
    w := Taker(next);
  }

  /** The retry loop of xseg_respond. */
  method PopDeaf(g: Segment, path: seq<PortNo>) returns (rest: seq<PortNo>)
    ensures rest == DropDeaf(g, path)
  {
    rest := path;
    while rest != [] && HasPort(g, Last(rest)) && !CanReceive(g.ports[Last(rest)])
      invariant DropDeaf(g, rest) == DropDeaf(g, path)
      decreases |rest|
    {
      rest := Front(rest);
    }
  }
}
