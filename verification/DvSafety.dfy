/** Properties of every reachable state and every run: loop freedom, finitely many changes, exact change lists. */
module DvSafety {
  import opened Common
  import opened DistanceVectors
  import opened DvNetwork
  import opened DvRuns

  // ---- Loop freedom ----

  /** The nodes a packet for c visits from a on. */
  ghost function Forward(net: Net, s: State, a: NodeId, c: Cidr): seq<NodeId>
    requires Inv(net, s) && Has(s, a, c)
    decreases s[a][c].metric
  {
    assert EntryOk(net, s, a, c);
    if s[a][c].connected then [a] else [a] + Forward(net, s, s[a][c].nextHop, c)
  }

  ghost predicate LeadsToOwner(net: Net, s: State, a: NodeId, c: Cidr, p: seq<NodeId>)
    requires Has(s, a, c)
  {
    && Walk(net, p, c) && p[0] == a
    && Has(s, p[|p| - 1], c) && s[p[|p| - 1]][c].connected
    && Min(WalkCost(net, p, c), U32_MAX) <= s[a][c].metric
  }

  lemma OneHopMore(net: Net, s: State, a: NodeId, c: Cidr, q: seq<NodeId>)
    requires Inv(net, s) && Has(s, a, c) && !s[a][c].connected
    requires Has(s, s[a][c].nextHop, c) && LeadsToOwner(net, s, s[a][c].nextHop, c, q)
    ensures LeadsToOwner(net, s, a, c, [a] + q)
  {
    assert EntryOk(net, s, a, c);
    PrependWalk(net, a, q, c);
  }

  /** The path exists, ends at an owner, and costs no more than the stored metric. */
  lemma {:induction false} ForwardArrives(net: Net, s: State, a: NodeId, c: Cidr)
    requires Inv(net, s) && Has(s, a, c)
    ensures LeadsToOwner(net, s, a, c, Forward(net, s, a, c))
    decreases s[a][c].metric
  {
    assert EntryOk(net, s, a, c);
    if s[a][c].connected {
      assert Forward(net, s, a, c) == [a];
    } else {
      var b := s[a][c].nextHop;
      ForwardArrives(net, s, b, c);
      OneHopMore(net, s, a, c, Forward(net, s, b, c));
      assert Forward(net, s, a, c) == [a] + Forward(net, s, b, c);
    }
  }

  lemma PrependWalk(net: Net, a: NodeId, q: seq<NodeId>, c: Cidr)
    requires Walk(net, q, c) && (a, q[0]) in net.cost
    ensures var p := [a] + q;
            && Walk(net, p, c) && p[|p| - 1] == q[|q| - 1]
            && WalkCost(net, p, c) == net.cost[(a, q[0])] + WalkCost(net, q, c)
  {
  }

  /** The metric strictly drops from hop to hop, so no node is visited twice. */
  lemma {:induction false} ForwardDescends(net: Net, s: State, a: NodeId, c: Cidr)
    requires Inv(net, s) && Has(s, a, c)
    ensures var p := Forward(net, s, a, c);
            && (forall i :: 0 <= i < |p| ==> Has(s, p[i], c))
            && (forall i, j :: 0 <= i < j < |p| ==> s[p[j]][c].metric < s[p[i]][c].metric)
            && p != [] && p[0] == a
    decreases s[a][c].metric
  {
    assert EntryOk(net, s, a, c);
    if s[a][c].connected {
    } else {
      var b := s[a][c].nextHop;
      ForwardDescends(net, s, b, c);
      var p, q := Forward(net, s, a, c), Forward(net, s, b, c);
      forall i, j | 0 <= i < j < |p|
        ensures s[p[j]][c].metric < s[p[i]][c].metric
      {
        assert p[j] == q[j - 1];
        assert s[q[j - 1]][c].metric <= s[q[0]][c].metric < s[a][c].metric;
      }
    }
  }

  /**
   * The packet path from a for c repeats no node, its metric drops at every hop, it ends at an owner of c and costs at
   * most the stored metric; and the entry is not poisoned.
   */
  ghost predicate LoopFreeAt(y: Sys, a: NodeId, c: Cidr)
    requires Inv(y.net, y.tables) && Has(y.tables, a, c)
  {
    var p := Forward(y.net, y.tables, a, c);
    && Distinct(p) && LeadsToOwner(y.net, y.tables, a, c, p)
    && (forall i :: 0 <= i < |p| ==> Has(y.tables, p[i], c))
    && (forall i, j :: 0 <= i < j < |p| ==> y.tables[p[j]][c].metric < y.tables[p[i]][c].metric)
    && !y.tables[a][c].poisoned
  }

  lemma InvIsLoopFree(y: Sys, a: NodeId, c: Cidr)
    requires Inv(y.net, y.tables) && Has(y.tables, a, c)
    ensures LoopFreeAt(y, a, c)
  {
    assert EntryOk(y.net, y.tables, a, c);
    ForwardArrives(y.net, y.tables, a, c);
    ForwardDescends(y.net, y.tables, a, c);
  }

  lemma EntryIsReal(y: Sys, a: NodeId, c: Cidr)
    requires RealSys(y) && Has(y.tables, a, c)
    ensures RealCost(y.net, a, c, y.tables[a][c].metric)
  {
    assert RealTable(y.net, a, y.tables[a]);
  }

  /**
   * Every state reachable without failures and by safe installations is loop free; and unless an installed network was
   * given another metric, each metric is the cost of a walk.
   */
  lemma LoopFree(evs: seq<Event>, a: NodeId, c: Cidr)
    requires Legal(NOTHING, evs) && Has(Run(NOTHING, evs).tables, a, c)
    ensures var y := Run(NOTHING, evs);
            && Inv(y.net, y.tables) && LoopFreeAt(y, a, c)
            && (NoRepricing(NOTHING, evs) ==> RealCost(y.net, a, c, y.tables[a][c].metric))
  {
    NothingInv();
    RunInv(NOTHING, evs);
    InvIsLoopFree(Run(NOTHING, evs), a, c);
    if NoRepricing(NOTHING, evs) {
      MetricsAreReal(NOTHING, evs);
      EntryIsReal(Run(NOTHING, evs), a, c);
    }
  }

  // ---- Finitely many deliveries change anything ----

  ghost function AllPairs(net: Net): set<(NodeId, Cidr)> {
    var cidrs := set a, c | a in net.conn && c in net.conn[a] :: c;
    set a, c | a in net.conn && c in cidrs :: (a, c)
  }

  /** A missing entry weighs more than any metric. */
  ghost function Weight(s: State, x: (NodeId, Cidr)): nat {
    if Has(s, x.0, x.1) then s[x.0][x.1].metric else U32_MAX + 1
  }

  ghost function Total(s: State, pairs: set<(NodeId, Cidr)>): nat {
    if pairs == {} then 0
    else
      var x :| x in pairs;
      Weight(s, x) + Total(s, pairs - {x})
  }

  lemma {:induction false} TotalWithout(s: State, pairs: set<(NodeId, Cidr)>, x: (NodeId, Cidr))
    requires x in pairs
    ensures Total(s, pairs) == Weight(s, x) + Total(s, pairs - {x})
    decreases |pairs|
  {
    var y :| y in pairs && Total(s, pairs) == Weight(s, y) + Total(s, pairs - {y});
    if x == y {
    } else {
      TotalWithout(s, pairs - {y}, x);
      TotalWithout(s, pairs - {x}, y);
      assert pairs - {y} - {x} == pairs - {x} - {y};
    }
  }

  lemma {:induction false} TotalMonotone(s: State, s': State, pairs: set<(NodeId, Cidr)>)
    requires forall x :: x in pairs ==> Weight(s', x) <= Weight(s, x)
    ensures Total(s', pairs) <= Total(s, pairs)
    decreases |pairs|
  {
    if pairs == {} {
    } else {
      var x :| x in pairs;
      TotalWithout(s, pairs, x);
      TotalWithout(s', pairs, x);
      TotalMonotone(s, s', pairs - {x});
    }
  }

  lemma {:induction false} WalkReachesPair(net: Net, p: seq<NodeId>, c: Cidr)
    requires net.Valid() && Walk(net, p, c)
    ensures (p[0], c) in AllPairs(net)
    decreases |p|
  {
    if |p| == 1 {
    } else {
      WalkReachesPair(net, p[1..], c);
      assert (p[0], p[1]) in net.cost;
    }
  }

  lemma DifferingKey(t: Table, u: Table) returns (c: Cidr)
    requires t != u
    ensures Lookup(t, c) != Lookup(u, c)
  {
    if k :| k in t && (k !in u || t[k] != u[k]) {
      c := k;
    } else {
      assert t.Keys <= u.Keys && forall k :: k in t ==> t[k] == u[k];
      c :| c in u && c !in t;
    }
  }

  /** Every update that changes a table makes the measure smaller. */
  lemma ChangeDescends(net: Net, s: State, e: Edge, snap: Table)
    requires Inv(net, s) && e in net.cost && SnapOk(net, s, e, snap) && Receive(net, s, e, snap) != s
    ensures Total(Receive(net, s, e, snap), AllPairs(net)) < Total(s, AllPairs(net))
  {
    var s' := Receive(net, s, e, snap);
    var a := e.0;
    var c := DifferingKey(s[a], s'[a]);
    ReceiveAt(net, s, e, snap, c);
    ReceiveInv(net, s, e, snap);
    ForwardArrives(net, s', a, c);
    WalkReachesPair(net, Forward(net, s', a, c), c);
    var pairs, x := AllPairs(net), (a, c);
    assert Weight(s', x) < Weight(s, x);
    forall y | y in pairs
      ensures Weight(s', y) <= Weight(s, y)
    {
      if Has(s, y.0, y.1) {
        ReceiveNeverRises(net, s, e, snap, y.0, y.1);
      }
    }
    TotalWithout(s, pairs, x);
    TotalWithout(s', pairs, x);
    TotalMonotone(s, s', pairs - {x});
  }

  /** How many events of a run change a table. */
  ghost function Changing(y: Sys, evs: seq<Event>): nat
    requires Legal(y, evs)
    decreases |evs|
  {
    if evs == [] then 0
    else (if Next(y, evs[0]).tables == y.tables then 0 else 1) + Changing(Next(y, evs[0]), evs[1..])
  }

  lemma TrafficDescends(y: Sys, ev: Event)
    requires SysInv(y) && Enabled(y, ev) && ev.Traffic()
    ensures var y' := Next(y, ev);
            && y'.net == y.net
            && (if y'.tables == y.tables then 0 else 1) + Total(y'.tables, AllPairs(y.net))
               <= Total(y.tables, AllPairs(y.net))
  {
    if Next(y, ev).tables != y.tables {
      assert QueueOk(y, ev.edge);
      ChangeDescends(y.net, y.tables, ev.edge, y.queues[ev.edge][0]);
    }
  }

  /** Between two changes of the network, however long, the changing events are bounded by the measure at the start. */
  lemma {:induction false} FinitelyManyChanges(y: Sys, evs: seq<Event>)
    requires SysInv(y) && Legal(y, evs) && AllTraffic(evs)
    ensures Run(y, evs).net == y.net
    ensures Changing(y, evs) + Total(Run(y, evs).tables, AllPairs(y.net)) <= Total(y.tables, AllPairs(y.net))
    decreases |evs|
  {
    if evs == [] {
    } else {
      var y' := Next(y, evs[0]);
      NextInv(y, evs[0]);
      TrafficDescends(y, evs[0]);
      FinitelyManyChanges(y', evs[1..]);
    }
  }

  /** In a reachable state the change list of a processed update is empty exactly when it changes nothing. */
  lemma ChangeListIsExact(net: Net, s: State, e: Edge, snap: Table)
    requires Inv(net, s) && e in net.cost && SnapOk(net, s, e, snap)
    ensures Receive(net, s, e, snap) == s <==>
            forall c :: c in Advertised(snap, e.0) ==>
                          !Reported(Lookup(s[e.0], c), e.1, Advertised(snap, e.0)[c], net.cost[e])
  {
    var (a, b) := e;
    var t, adv := s[a], Advertised(snap, a);
    var t' := Merge(t, adv, b, net.cost[e]);
    forall c | c in adv && Reported(Lookup(t, c), b, adv[c], net.cost[e])
      ensures Receive(net, s, e, snap) != s
    {
      ReceiveAt(net, s, e, snap, c);
      assert SnapAt(net, s, e, snap, c);
      if Has(s, a, c) {
        assert EntryOk(net, s, a, c);
      }
      assert Lookup(t', c) == MergeAt(t, adv, b, net.cost[e], c) != Lookup(t, c);
      assert Receive(net, s, e, snap)[a] == t';
    }
    if forall c :: c in adv ==> !Reported(Lookup(t, c), b, adv[c], net.cost[e]) {
      assert forall c :: MergeAt(t, adv, b, net.cost[e], c) == Lookup(t, c);
      assert forall c :: c in t' ==> MergeAt(t, adv, b, net.cost[e], c) == Some(t'[c]);
      assert forall c :: c in t ==> MergeAt(t, adv, b, net.cost[e], c) == Some(t[c]);
      assert t' == t;
      assert Receive(net, s, e, snap) == s;
    }
  }

  // ---- The objects ----

  /** The tables of a family of engines, each stored under its own identifier. */
  ghost function View(nodes: map<NodeId, DistanceVector>): State
    reads set a | a in nodes :: nodes[a]
  {
    map a | a in nodes :: nodes[a].routes
  }

  lemma ListedReports(t: Table, update: seq<Advert>, adv: map<Cidr, u32>, from: NodeId, cost: u32)
    requires Lists(update, adv)
    ensures (forall i :: 0 <= i < |update| ==> !Reported(Lookup(t, update[i].0), from, update[i].1, cost)) <==>
            (forall c :: c in adv ==> !Reported(Lookup(t, c), from, adv[c], cost))
  {
  }

  lemma ListedChangeListIsExact(net: Net, s: State, e: Edge, snap: Table, update: seq<Advert>)
    requires Inv(net, s) && e in net.cost && SnapOk(net, s, e, snap) && Lists(update, Advertised(snap, e.0))
    ensures ChangesOf(s[e.0], update, e.1, net.cost[e]) == [] <==> Receive(net, s, e, snap) == s
  {
    EmptyChangeList(s[e.0], update, e.1, net.cost[e]);
    ListedReports(s[e.0], update, Advertised(snap, e.0), e.1, net.cost[e]);
    ChangeListIsExact(net, s, e, snap);
  }

  /** Processing a listed update is the network's step, and its change list is empty exactly when it is idle. */
  method DeliverTo(net: Net, nodes: map<NodeId, DistanceVector>, e: Edge, ghost snap: Table, update: seq<Advert>)
    returns (changes: seq<Change>)
    requires forall a :: a in nodes ==> nodes[a].nodeId == a
    requires Inv(net, View(nodes)) && e in net.cost
    requires SnapOk(net, View(nodes), e, snap) && Lists(update, Advertised(snap, e.0))
    modifies nodes[e.0]
    ensures View(nodes) == Receive(net, old(View(nodes)), e, snap)
    ensures changes == [] <==> View(nodes) == old(View(nodes))
  {
    ghost var s, adv := View(nodes), Advertised(snap, e.0);
    var (a, b) := e;
    assert a in s && b in s;
    changes := nodes[a].ProcessUpdate(b, update, net.cost[e]);
    OrderIsIrrelevant(s[a], update, adv, b, net.cost[e]);
    ListedChangeListIsExact(net, s, e, snap, update);
    assert View(nodes) == Receive(net, s, e, snap);
  }
}
