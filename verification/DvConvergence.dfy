/** Convergence of the network to the shortest distances. */
module DvConvergence {
  import opened Common
  import opened DistanceVectors
  import opened DvNetwork
  import opened DvRuns
  import opened DvSafety

  // ---- Convergence ----

  ghost predicate Bounds(s: State, a: NodeId, c: Cidr, m: int) {
    Has(s, a, c) && s[a][c].metric <= m
  }

  /** Every walk of at most k links that costs less than INFINITY is already accounted for. */
  ghost predicate Covered(net: Net, s: State, k: nat) {
    forall p, c :: Walk(net, p, c) && |p| <= k + 1 && WalkCost(net, p, c) < INFINITY ==>
                     Bounds(s, p[0], c, WalkCost(net, p, c))
  }

  /** An update that accounts for the rest of a walk makes its receiver account for the walk. */
  lemma ReceiveCovers(net: Net, s: State, snap: Table, p: seq<NodeId>, c: Cidr)
    requires Inv(net, s) && Walk(net, p, c) && |p| > 1 && WalkCost(net, p, c) < INFINITY
    requires SnapOk(net, s, (p[0], p[1]), snap) && c in snap && snap[c].metric <= WalkCost(net, p[1..], c)
    ensures Bounds(Receive(net, s, (p[0], p[1]), snap), p[0], c, WalkCost(net, p, c))
  {
    var e := (p[0], p[1]);
    ReceiveAt(net, s, e, snap, c);
    if snap[c].nextHop == p[0] {
      // Poison reverse hides this route, but then the receiver already has a better one.
      assert SnapAt(net, s, e, snap, c);
      ReceiveNeverRises(net, s, e, snap, p[0], c);
    }
  }

  lemma EventKeepsBounds(y: Sys, ev: Event, a: NodeId, c: Cidr, m: int)
    requires SysInv(y) && Enabled(y, ev) && ev.Traffic() && Bounds(y.tables, a, c, m)
    ensures SysInv(Next(y, ev)) && Next(y, ev).net == y.net && Bounds(Next(y, ev).tables, a, c, m)
  {
    NextInv(y, ev);
    SafeNextRisesExactly(y, ev, a, c);
  }

  lemma TrafficKeepsBounds(y: Sys, evs: seq<Event>, a: NodeId, c: Cidr, m: int)
    requires SysInv(y) && Legal(y, evs) && AllTraffic(evs) && Bounds(y.tables, a, c, m)
    ensures Bounds(Run(y, evs).tables, a, c, m)
  {
    RunNeverRises(y, evs, a, c);
    TrafficNeverRaises(y, evs, a, c);
  }

  /** The update at position pos of the queue of e is processed, not lost, during the events. */
  ghost predicate Arrives(evs: seq<Event>, e: Edge, pos: nat) {
    evs != [] &&
    if evs[0] == Deliver(e) then pos == 0 || Arrives(evs[1..], e, pos - 1)
    else if evs[0] == Drop(e) then pos > 0 && Arrives(evs[1..], e, pos - 1)
    else Arrives(evs[1..], e, pos)
  }

  lemma DeliverCovers(y: Sys, p: seq<NodeId>, c: Cidr)
    requires SysInv(y) && Walk(y.net, p, c) && |p| > 1 && WalkCost(y.net, p, c) < INFINITY
    requires var e := (p[0], p[1]);
             && e in y.queues && y.queues[e] != []
             && c in y.queues[e][0] && y.queues[e][0][c].metric <= WalkCost(y.net, p[1..], c)
    ensures Bounds(Next(y, Deliver((p[0], p[1]))).tables, p[0], c, WalkCost(y.net, p, c))
  {
    assert QueueOk(y, (p[0], p[1]));
    ReceiveCovers(y.net, y.tables, y.queues[(p[0], p[1])][0], p, c);
  }

  /** The update at position pos of the first link of p accounts for the rest of p. */
  ghost predicate Carries(y: Sys, p: seq<NodeId>, c: Cidr, pos: nat)
    requires Walk(y.net, p, c) && |p| > 1
  {
    var e := (p[0], p[1]);
    && e in y.queues && pos < |y.queues[e]|
    && c in y.queues[e][pos] && y.queues[e][pos][c].metric <= WalkCost(y.net, p[1..], c)
  }

  /** Where the update stands after an event that does not take it from the queue. */
  function Moved(ev: Event, e: Edge, pos: nat): nat {
    if (ev == Deliver(e) || ev == Drop(e)) && pos > 0 then pos - 1 else pos
  }

  lemma StillCarried(y: Sys, ev: Event, p: seq<NodeId>, c: Cidr, pos: nat)
    requires SysInv(y) && Enabled(y, ev) && ev.Traffic() && Walk(y.net, p, c) && |p| > 1 && Carries(y, p, c, pos)
    requires ev == Deliver((p[0], p[1])) || ev == Drop((p[0], p[1])) ==> pos > 0
    ensures SysInv(Next(y, ev)) && Next(y, ev).net == y.net
    ensures Carries(Next(y, ev), p, c, Moved(ev, (p[0], p[1]), pos))
  {
    NextInv(y, ev);
  }

  lemma {:induction false} ArrivalCovers(y: Sys, evs: seq<Event>, p: seq<NodeId>, c: Cidr, pos: nat)
    requires SysInv(y) && Legal(y, evs) && AllTraffic(evs)
    requires Walk(y.net, p, c) && |p| > 1 && WalkCost(y.net, p, c) < INFINITY
    requires Carries(y, p, c, pos) && Arrives(evs, (p[0], p[1]), pos)
    ensures Bounds(Run(y, evs).tables, p[0], c, WalkCost(y.net, p, c))
    decreases |evs|
  {
    var e := (p[0], p[1]);
    if evs[0] == Deliver(e) && pos == 0 {
      NextInv(y, evs[0]);
      DeliverCovers(y, p, c);
      TrafficKeepsBounds(Next(y, evs[0]), evs[1..], p[0], c, WalkCost(y.net, p, c));
    } else {
      StillCarried(y, evs[0], p, c, pos);
      ArrivalCovers(Next(y, evs[0]), evs[1..], p, c, Moved(evs[0], e, pos));
    }
  }

  /** In a phase every link carries an update that is sent and processed within the phase. */
  ghost predicate Phase(y: Sys, evs: seq<Event>) {
    && Legal(y, evs) && AllTraffic(evs)
    && forall e :: e in y.net.cost ==> SendArrives(y, evs, e)
  }

  ghost predicate SendArrives(y: Sys, evs: seq<Event>, e: Edge)
    requires Legal(y, evs)
    decreases |evs|
  {
    evs != [] &&
    var y' := Next(y, evs[0]);
    (evs[0] == Send(e) && e in y'.queues && |y'.queues[e]| > 0 && Arrives(evs[1..], e, |y'.queues[e]| - 1)) ||
    SendArrives(y', evs[1..], e)
  }

  lemma SentCovers(y: Sys, rest: seq<Event>, p: seq<NodeId>, c: Cidr)
    requires SysInv(y) && Walk(y.net, p, c) && |p| > 1 && WalkCost(y.net, p, c) < INFINITY
    requires Bounds(y.tables, p[1], c, WalkCost(y.net, p[1..], c))
    requires var e := (p[0], p[1]);
             && Enabled(y, Send(e)) && Legal(Next(y, Send(e)), rest) && AllTraffic(rest)
             && Arrives(rest, e, |y.queues[e]|)
    ensures Bounds(Run(Next(y, Send((p[0], p[1]))), rest).tables, p[0], c, WalkCost(y.net, p, c))
  {
    var e := (p[0], p[1]);
    NextInv(y, Send(e));
    ArrivalCovers(Next(y, Send(e)), rest, p, c, |y.queues[e]|);
  }

  lemma {:induction false} SendCovers(y: Sys, evs: seq<Event>, p: seq<NodeId>, c: Cidr)
    requires SysInv(y) && Legal(y, evs) && AllTraffic(evs)
    requires Walk(y.net, p, c) && |p| > 1 && WalkCost(y.net, p, c) < INFINITY
    requires Bounds(y.tables, p[1], c, WalkCost(y.net, p[1..], c)) && SendArrives(y, evs, (p[0], p[1]))
    ensures Bounds(Run(y, evs).tables, p[0], c, WalkCost(y.net, p, c))
    decreases |evs|
  {
    var e, y' := (p[0], p[1]), Next(y, evs[0]);
    EventKeepsBounds(y, evs[0], p[1], c, WalkCost(y.net, p[1..], c));
    if evs[0] == Send(e) && |y'.queues[e]| > 0 && Arrives(evs[1..], e, |y'.queues[e]| - 1) {
      SentCovers(y, evs[1..], p, c);
    } else {
      SendCovers(y', evs[1..], p, c);
    }
  }

  lemma PhaseCovers(y: Sys, evs: seq<Event>, k: nat)
    requires SysInv(y) && Phase(y, evs) && Covered(y.net, y.tables, k)
    ensures Covered(y.net, Run(y, evs).tables, k + 1)
  {
    var s' := Run(y, evs).tables;
    forall p, c | Walk(y.net, p, c) && |p| <= k + 2 && WalkCost(y.net, p, c) < INFINITY
      ensures Bounds(s', p[0], c, WalkCost(y.net, p, c))
    {
      if |p| == 1 {
        assert Owned(y.net, y.tables, p[0], c);
        TrafficKeepsBounds(y, evs, p[0], c, WalkCost(y.net, p, c));
      } else {
        assert Walk(y.net, p[1..], c) && |p[1..]| <= k + 1;
        SendCovers(y, evs, p, c);
      }
    }
  }

  ghost predicate Phases(y: Sys, phases: seq<seq<Event>>)
    decreases |phases|
  {
    phases == [] || (Phase(y, phases[0]) && Phases(Run(y, phases[0]), phases[1..]))
  }

  ghost function RunPhases(y: Sys, phases: seq<seq<Event>>): Sys
    requires Phases(y, phases)
    decreases |phases|
  {
    if phases == [] then y else RunPhases(Run(y, phases[0]), phases[1..])
  }

  lemma {:induction false} PhasesCover(y: Sys, phases: seq<seq<Event>>, k: nat)
    requires SysInv(y) && Phases(y, phases) && Covered(y.net, y.tables, k)
    ensures var z := RunPhases(y, phases); SysInv(z) && z.net == y.net && Covered(y.net, z.tables, k + |phases|)
    decreases |phases|
  {
    if phases == [] {
    } else {
      RunInv(y, phases[0]);
      FinitelyManyChanges(y, phases[0]);
      PhaseCovers(y, phases[0], k);
      PhasesCover(Run(y, phases[0]), phases[1..], k + 1);
    }
  }

  lemma OwnNetworksCovered(net: Net, s: State)
    requires Inv(net, s)
    ensures Covered(net, s, 0)
  {
  }

  // Walks that matter are short: each link costs at least 1, and a repeated node can be cut out.

  lemma {:induction false} CheapWalksAreShort(net: Net, p: seq<NodeId>, c: Cidr)
    requires net.Valid() && Walk(net, p, c)
    ensures |p| - 1 <= WalkCost(net, p, c)
    decreases |p|
  {
    if |p| == 1 {
    } else {
      CheapWalksAreShort(net, p[1..], c);
    }
  }

  lemma {:induction false} WalkSuffix(net: Net, p: seq<NodeId>, c: Cidr, i: nat)
    requires Walk(net, p, c) && i < |p|
    ensures Walk(net, p[i..], c) && WalkCost(net, p[i..], c) <= WalkCost(net, p, c)
    decreases i
  {
    if i > 0 {
      WalkSuffix(net, p[1..], c, i - 1);
      assert p[1..][i - 1..] == p[i..];
    } else {
      assert p[0..] == p;
    }
  }

  lemma CutRest(p: seq<NodeId>, i: nat, j: nat)
    requires 0 < i < j < |p| && p[i] == p[j]
    ensures var q := p[..i] + p[j..];
            q[0] == p[0] && q[1] == p[1] && q[1..] == p[1..][..i - 1] + p[1..][j - 1..]
  {
    assert p[..i][1..] == p[1..][..i - 1] && p[1..][j - 1..] == p[j..];
  }

  lemma {:induction false} CutLoop(net: Net, p: seq<NodeId>, c: Cidr, i: nat, j: nat)
    requires Walk(net, p, c) && i < j < |p| && p[i] == p[j]
    ensures var q := p[..i] + p[j..];
            Walk(net, q, c) && q[0] == p[0] && WalkCost(net, q, c) <= WalkCost(net, p, c)
    decreases i
  {
    var q := p[..i] + p[j..];
    if i == 0 {
      WalkSuffix(net, p, c, j);
      assert q == p[j..];
    } else {
      CutLoop(net, p[1..], c, i - 1, j - 1);
      CutRest(p, i, j);
    }
  }

  lemma {:induction false} WalkNodes(net: Net, p: seq<NodeId>, c: Cidr)
    requires net.Valid() && Walk(net, p, c)
    ensures forall x :: x in p ==> x in net.conn.Keys
    decreases |p|
  {
    if |p| == 1 {
    } else {
      WalkNodes(net, p[1..], c);
      assert (p[0], p[1]) in net.cost;
    }
  }

  lemma {:induction false} SimpleWalk(net: Net, p: seq<NodeId>, c: Cidr) returns (q: seq<NodeId>)
    requires net.Valid() && Walk(net, p, c)
    ensures Walk(net, q, c) && q[0] == p[0] && WalkCost(net, q, c) <= WalkCost(net, p, c)
    ensures |q| <= |net.conn|
    decreases |p|
  {
    if Distinct(p) {
      q := p;
      WalkNodes(net, p, c);
      DistinctFits(p, net.conn.Keys);
    } else {
      var i, j :| 0 <= i < j < |p| && p[i] == p[j];
      CutLoop(net, p, c, i, j);
      q := SimpleWalk(net, p[..i] + p[j..], c);
    }
  }

  /** Below INFINITY the table of every node holds the shortest distances, and nothing else. */
  ghost predicate Exact(net: Net, s: State) {
    forall a, c, m | 0 <= m < INFINITY :: (Has(s, a, c) && s[a][c].metric == m) <==> Shortest(net, a, c, m)
  }

  lemma CoveredIsExact(net: Net, s: State, k: nat)
    requires Inv(net, s) && Covered(net, s, k)
    requires k >= 15 || k + 1 >= |net.conn|
    ensures Exact(net, s)
  {
    forall p, c | Walk(net, p, c) && WalkCost(net, p, c) < INFINITY
      ensures Bounds(s, p[0], c, WalkCost(net, p, c))
    {
      if k >= 15 {
        CheapWalksAreShort(net, p, c);
      } else {
        var q := SimpleWalk(net, p, c);
      }
    }
    forall a, c, m | 0 <= m < INFINITY
      ensures (Has(s, a, c) && s[a][c].metric == m) <==> Shortest(net, a, c, m)
    {
      CoveredIsExactAt(net, s, a, c, m);
    }
  }

  lemma CoveredIsExactAt(net: Net, s: State, a: NodeId, c: Cidr, m: int)
    requires Inv(net, s) && 0 <= m < INFINITY
    requires forall p, c :: Walk(net, p, c) && WalkCost(net, p, c) < INFINITY ==>
                              Bounds(s, p[0], c, WalkCost(net, p, c))
    ensures (Has(s, a, c) && s[a][c].metric == m) <==> Shortest(net, a, c, m)
  {
    if Has(s, a, c) && s[a][c].metric == m {
      ForwardArrives(net, s, a, c);
      assert WalkOfCost(net, a, c, Forward(net, s, a, c), m);
    }
    if Shortest(net, a, c, m) {
      var p :| WalkOfCost(net, a, c, p, m);
      assert Bounds(s, a, c, m);
      ForwardArrives(net, s, a, c);
    }
  }

  /**
   * From every reachable state, after |N| - 1 phases without growth, and in any case after 15, the tables hold
   * exactly the shortest distances below INFINITY, however the updates of a phase interleave and whatever else
   * is sent, delayed or lost.
   */
  lemma Convergence(evs: seq<Event>, phases: seq<seq<Event>>)
    requires Legal(NOTHING, evs) && Phases(Run(NOTHING, evs), phases)
    requires |phases| >= 15 || |phases| + 1 >= |Run(NOTHING, evs).net.conn|
    ensures var z := RunPhases(Run(NOTHING, evs), phases);
            z.net == Run(NOTHING, evs).net && Exact(z.net, z.tables)
  {
    var y := Run(NOTHING, evs);
    NothingInv();
    RunInv(NOTHING, evs);
    OwnNetworksCovered(y.net, y.tables);
    PhasesCover(y, phases, 0);
    CoveredIsExact(y.net, RunPhases(y, phases).tables, |phases|);
  }

  // ---- Phases can always be formed ----

  lemma {:induction false} LegalConcat(y: Sys, a: seq<Event>, b: seq<Event>)
    requires Legal(y, a) && Legal(Run(y, a), b)
    ensures Legal(y, a + b) && Run(y, a + b) == Run(Run(y, a), b)
    decreases |a|
  {
    if a == [] {
      assert a + b == b;
    } else {
      LegalConcat(Next(y, a[0]), a[1..], b);
      assert (a + b)[1..] == a[1..] + b;
    }
  }

  lemma {:induction false} ArrivesSooner(a: seq<Event>, b: seq<Event>, e: Edge, pos: nat)
    requires Arrives(a, e, pos)
    ensures Arrives(a + b, e, pos)
    decreases |a|
  {
    assert (a + b)[1..] == a[1..] + b;
    var pos' := if a[0] == Deliver(e) || a[0] == Drop(e) then pos - 1 else pos;
    if a[0] == Deliver(e) && pos == 0 {
    } else {
      ArrivesSooner(a[1..], b, e, pos');
    }
  }

  lemma {:induction false} SendArrivesSooner(y: Sys, a: seq<Event>, b: seq<Event>, e: Edge)
    requires Legal(y, a) && Legal(y, a + b) && SendArrives(y, a, e)
    ensures SendArrives(y, a + b, e)
    decreases |a|
  {
    var y' := Next(y, a[0]);
    assert (a + b)[1..] == a[1..] + b;
    if a[0] == Send(e) && e in y'.queues && |y'.queues[e]| > 0 && Arrives(a[1..], e, |y'.queues[e]| - 1) {
      ArrivesSooner(a[1..], b, e, |y'.queues[e]| - 1);
    } else {
      SendArrivesSooner(y', a[1..], b, e);
    }
  }

  lemma {:induction false} SendArrivesLater(y: Sys, a: seq<Event>, b: seq<Event>, e: Edge)
    requires Legal(y, a) && Legal(y, a + b) && Legal(Run(y, a), b) && SendArrives(Run(y, a), b, e)
    ensures SendArrives(y, a + b, e)
    decreases |a|
  {
    if a == [] {
      assert a + b == b;
    } else {
      assert (a + b)[1..] == a[1..] + b;
      SendArrivesLater(Next(y, a[0]), a[1..], b, e);
    }
  }

  lemma {:induction false} Drain(y: Sys, e: Edge) returns (evs: seq<Event>)
    requires SysInv(y) && e in y.net.cost
    ensures Legal(y, evs) && AllTraffic(evs)
    ensures forall pos: nat :: pos < |y.queues[e]| ==> Arrives(evs, e, pos)
    decreases |y.queues[e]|
  {
    if y.queues[e] == [] {
      evs := [];
    } else {
      NextInv(y, Deliver(e));
      var rest := Drain(Next(y, Deliver(e)), e);
      evs := [Deliver(e)] + rest;
      assert evs[1..] == rest;
    }
  }

  /** An update that is sent over e and everything before it in the queue. */
  lemma BlockFor(y: Sys, e: Edge) returns (block: seq<Event>)
    requires SysInv(y) && e in y.net.cost
    ensures Legal(y, block) && AllTraffic(block) && SendArrives(y, block, e)
    ensures SysInv(Run(y, block)) && Run(y, block).net == y.net
  {
    NextInv(y, Send(e));
    var drain := Drain(Next(y, Send(e)), e);
    block := [Send(e)] + drain;
    assert block[1..] == drain;
    RunInv(y, block);
    FinitelyManyChanges(y, block);
  }

  lemma {:induction false} PhaseFor(y: Sys, edges: set<Edge>) returns (evs: seq<Event>)
    requires SysInv(y) && edges <= y.net.cost.Keys
    ensures Legal(y, evs) && AllTraffic(evs)
    ensures forall e :: e in edges ==> SendArrives(y, evs, e)
    decreases |edges|
  {
    if edges == {} {
      evs := [];
    } else {
      var e :| e in edges;
      var block := BlockFor(y, e);
      var rest := PhaseFor(Run(y, block), edges - {e});
      LegalConcat(y, block, rest);
      evs := block + rest;
      forall f | f in edges
        ensures SendArrives(y, evs, f)
      {
        if f == e {
          SendArrivesSooner(y, block, rest, f);
        } else {
          SendArrivesLater(y, block, rest, f);
        }
      }
    }
  }

  /** From every state that satisfies the invariant any number of phases can follow. */
  lemma {:induction false} PhasesExist(y: Sys, n: nat) returns (phases: seq<seq<Event>>)
    requires SysInv(y)
    ensures |phases| == n && Phases(y, phases)
    decreases n
  {
    if n == 0 {
      phases := [];
    } else {
      var first := PhaseFor(y, y.net.cost.Keys);
      RunInv(y, first);
      var rest := PhasesExist(Run(y, first), n - 1);
      phases := [first] + rest;
      assert phases[1..] == rest;
    }
  }

  /** A state in which no fresh update would change anything is already optimal. */
  lemma QuiescentIsOptimal(net: Net, s: State)
    requires Inv(net, s)
    requires forall e :: e in net.cost ==> Receive(net, s, e, s[e.1]) == s
    ensures Exact(net, s)
  {
    forall p, c | Walk(net, p, c) && WalkCost(net, p, c) < INFINITY
      ensures Bounds(s, p[0], c, WalkCost(net, p, c))
    {
      QuiescentBounds(net, s, p, c);
    }
    forall a, c, m | 0 <= m < INFINITY
      ensures (Has(s, a, c) && s[a][c].metric == m) <==> Shortest(net, a, c, m)
    {
      CoveredIsExactAt(net, s, a, c, m);
    }
  }

  lemma {:induction false} QuiescentBounds(net: Net, s: State, p: seq<NodeId>, c: Cidr)
    requires Inv(net, s)
    requires forall e :: e in net.cost ==> Receive(net, s, e, s[e.1]) == s
    requires Walk(net, p, c) && WalkCost(net, p, c) < INFINITY
    ensures Bounds(s, p[0], c, WalkCost(net, p, c))
    decreases |p|
  {
    if |p| == 1 {
      assert Owned(net, s, p[0], c);
    } else {
      QuiescentBounds(net, s, p[1..], c);
      CurrentTableIsOk(net, s, (p[0], p[1]));
      ReceiveCovers(net, s, s[p[1]], p, c);
    }
  }
}
