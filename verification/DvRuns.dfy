/** What every event of the network keeps, and so every run: the invariant, falling metrics, metrics of real walks. */
module DvRuns {
  import opened Common
  import opened DistanceVectors
  import opened DvNetwork

  // ---- Traffic ----

  lemma SendInv(y: Sys, e: Edge)
    requires SysInv(y) && Enabled(y, Send(e))
    ensures SysInv(Next(y, Send(e)))
  {
    var y' := Next(y, Send(e));
    CurrentTableIsOk(y.net, y.tables, e);
    forall f | f in y'.net.cost
      ensures QueueOk(y', f)
    {
      assert QueueOk(y, f);
      if f == e {
        var q := y.queues[e];
        forall i | 0 <= i < |q|
          ensures Newer(q[i], y.tables[e.1])
        {
          forall c | c in q[i]
            ensures c in y.tables[e.1] && y.tables[e.1][c].metric <= q[i][c].metric
          {
            assert SnapAt(y.net, y.tables, e, q[i], c);
          }
        }
      }
    }
  }

  lemma DeliverInv(y: Sys, e: Edge)
    requires SysInv(y) && Enabled(y, Deliver(e))
    ensures SysInv(Next(y, Deliver(e)))
  {
    var y' := Next(y, Deliver(e));
    assert QueueOk(y, e);
    var snap := y.queues[e][0];
    ReceiveInv(y.net, y.tables, e, snap);
    forall f | f in y'.net.cost
      ensures QueueOk(y', f)
    {
      assert QueueOk(y, f);
      forall i | 0 <= i < |y'.queues[f]|
        ensures SnapOk(y'.net, y'.tables, f, y'.queues[f][i])
      {
        var other := y'.queues[f][i];
        assert f == e ==> other == y.queues[e][i + 1];
        ReceiveSnap(y.net, y.tables, e, snap, f, other);
      }
    }
  }

  lemma DropInv(y: Sys, e: Edge)
    requires SysInv(y) && Enabled(y, Drop(e))
    ensures SysInv(Next(y, Drop(e)))
  {
    forall f | f in y.net.cost
      ensures QueueOk(Next(y, Drop(e)), f)
    {
      assert QueueOk(y, f);
    }
  }

  // ---- Installing a network ----

  lemma InstallKeepsTables(y: Sys, a: NodeId, c: Cidr, m: u32)
    requires Inv(y.net, y.tables) && a in y.net.conn && Upstream(y.net, y.tables, a, c, m)
    ensures Inv(Installed(y, a, c, m).net, Installed(y, a, c, m).tables)
  {
    var y' := Installed(y, a, c, m);
    forall x, d | Has(y'.tables, x, d)
      ensures EntryOk(y'.net, y'.tables, x, d)
    {
      assert (x == a && d == c) || EntryOk(y.net, y.tables, x, d);
    }
    forall x, d | x in y'.net.conn && d in y'.net.conn[x]
      ensures Owned(y'.net, y'.tables, x, d)
    {
      assert (x == a && d == c) || Owned(y.net, y.tables, x, d);
    }
  }

  lemma InstallKeepsSnap(y: Sys, a: NodeId, c: Cidr, m: u32, e: Edge, snap: Table)
    requires Inv(y.net, y.tables) && a in y.net.conn && e in y.net.cost && SnapOk(y.net, y.tables, e, snap)
    ensures var y' := Installed(y, a, c, m);
            SnapOk(y'.net, y'.tables, e, snap) <==> SnapAllows(y.net, e, snap, a, c, m)
  {
    var y' := Installed(y, a, c, m);
    assert SnapAt(y.net, y.tables, e, snap, c);
    assert SnapAt(y'.net, y'.tables, e, snap, c) <==> SnapAllows(y.net, e, snap, a, c, m);
    forall d | d != c
      ensures SnapAt(y'.net, y'.tables, e, snap, d)
    {
      assert SnapAt(y.net, y.tables, e, snap, d);
    }
  }

  lemma InstallLetsNoneDown(y: Sys, a: NodeId, c: Cidr, m: u32)
    requires SysInv(y) && a in y.net.conn && SysInv(Installed(y, a, c, m))
    ensures InstallSafe(y, a, c, m)
  {
    var y' := Installed(y, a, c, m);
    forall x | Has(y.tables, x, c) && x != a && y.tables[x][c].nextHop == a
      ensures Within(y.net, x, a, m, y.tables[x][c].metric)
    {
      assert EntryOk(y.net, y.tables, x, c);
      assert EntryOk(y'.net, y'.tables, x, c);
    }
    forall e, i | e in y.net.cost && e in y.queues && 0 <= i < |y.queues[e]|
      ensures SnapAllows(y.net, e, y.queues[e][i], a, c, m)
    {
      assert QueueOk(y, e) && QueueOk(y', e);
      InstallKeepsSnap(y, a, c, m, e, y.queues[e][i]);
    }
  }

  /**
   * Installing a network at any metric, over whatever the installer holds, keeps the invariant of the system exactly
   * when no node upstream and no update on its way to or from the installer counts on something better.
   */
  lemma InstallKeepsInvExactly(y: Sys, a: NodeId, c: Cidr, m: u32)
    requires SysInv(y) && a in y.net.conn
    ensures SysInv(Installed(y, a, c, m)) <==> InstallSafe(y, a, c, m)
  {
    var y' := Installed(y, a, c, m);
    if SysInv(y') {
      InstallLetsNoneDown(y, a, c, m);
    }
    if InstallSafe(y, a, c, m) {
      InstallKeepsTables(y, a, c, m);
      forall e | e in y'.net.cost
        ensures QueueOk(y', e)
      {
        assert QueueOk(y, e);
        forall i | 0 <= i < |y.queues[e]|
          ensures SnapOk(y'.net, y'.tables, e, y.queues[e][i])
        {
          InstallKeepsSnap(y, a, c, m, e, y.queues[e][i]);
        }
      }
    }
  }

  // ---- Growth ----

  /** Links and nodes are only added, and every known network keeps its metric. */
  ghost predicate Extends(net: Net, net': Net) {
    && (forall e :: e in net.cost ==> e in net'.cost && net'.cost[e] == net.cost[e])
    && (forall a :: a in net.conn ==> a in net'.conn)
    && (forall a, c :: a in net.conn && c in net.conn[a] ==> c in net'.conn[a] && net'.conn[a][c] == net.conn[a][c])
  }

  ghost predicate SameNetworks(net: Net, net': Net) {
    forall a, c :: a in net'.conn && c in net'.conn[a] ==> a in net.conn && c in net.conn[a]
  }

  ghost predicate SameEntries(s: State, s': State) {
    forall a, c {:trigger Has(s, a, c)} {:trigger Has(s', a, c)} ::
      (Has(s, a, c) <==> Has(s', a, c)) && (Has(s, a, c) ==> s'[a][c] == s[a][c])
  }

  lemma GrowthKeepsTables(net: Net, net': Net, s: State, s': State)
    requires Inv(net, s) && net'.Valid() && s'.Keys == net'.conn.Keys
    requires Extends(net, net') && SameNetworks(net, net') && SameEntries(s, s')
    ensures Inv(net', s')
  {
    forall a, c | Has(s', a, c)
      ensures EntryOk(net', s', a, c)
    {
      assert Has(s, a, c) && EntryOk(net, s, a, c);
    }
    forall a, c | a in net'.conn && c in net'.conn[a]
      ensures Owned(net', s', a, c)
    {
      assert Owned(net, s, a, c);
    }
  }

  lemma GrowthKeepsSnap(net: Net, net': Net, s: State, s': State, e: Edge, snap: Table)
    requires Extends(net, net') && SameEntries(s, s') && e in net.cost && SnapOk(net, s, e, snap)
    ensures SnapOk(net', s', e, snap)
  {
    forall c
      ensures SnapAt(net', s', e, snap, c)
    {
      assert SnapAt(net, s, e, snap, c);
    }
  }

  lemma GrowthInv(y: Sys, y': Sys)
    requires SysInv(y) && y'.net.Valid() && y'.tables.Keys == y'.net.conn.Keys && y'.queues.Keys == y'.net.cost.Keys
    requires Extends(y.net, y'.net) && SameNetworks(y.net, y'.net) && SameEntries(y.tables, y'.tables)
    requires forall e :: e in y'.net.cost ==> y'.queues[e] == if e in y.queues then y.queues[e] else []
    ensures SysInv(y')
  {
    GrowthKeepsTables(y.net, y'.net, y.tables, y'.tables);
    forall e | e in y'.net.cost
      ensures QueueOk(y', e)
    {
      if e in y.net.cost {
        assert QueueOk(y, e);
        forall i | 0 <= i < |y.queues[e]|
          ensures SnapOk(y'.net, y'.tables, e, y.queues[e][i])
        {
          GrowthKeepsSnap(y.net, y'.net, y.tables, y'.tables, e, y.queues[e][i]);
        }
      }
    }
  }

  lemma ConnectInv(y: Sys, e: Edge, k: u32)
    requires SysInv(y) && Enabled(y, Connect(e, k))
    ensures SysInv(Next(y, Connect(e, k)))
  {
    GrowthInv(y, Next(y, Connect(e, k)));
  }

  lemma JoinInv(y: Sys, a: NodeId)
    requires SysInv(y) && Enabled(y, Join(a))
    ensures SysInv(Next(y, Join(a)))
  {
    GrowthInv(y, Next(y, Join(a)));
  }

  // ---- Every run ----

  lemma NextInv(y: Sys, ev: Event)
    requires SysInv(y) && Enabled(y, ev)
    ensures SysInv(Next(y, ev))
  {
    match ev {
      case Send(e) => SendInv(y, e);
      case Deliver(e) => DeliverInv(y, e);
      case Drop(e) => DropInv(y, e);
      case Install(a, c, m) => InstallKeepsInvExactly(y, a, c, m);
      case Connect(e, k) => ConnectInv(y, e, k);
      case Join(a) => JoinInv(y, a);
    }
  }

  /** Whatever happens in a failure-free network that starts from nothing, the invariant holds. */
  lemma {:induction false} RunInv(y: Sys, evs: seq<Event>)
    requires SysInv(y) && Legal(y, evs)
    ensures SysInv(Run(y, evs))
    decreases |evs|
  {
    if evs == [] {
    } else {
      NextInv(y, evs[0]);
      RunInv(Next(y, evs[0]), evs[1..]);
    }
  }

  lemma NothingInv()
    ensures SysInv(NOTHING)
  {
  }

  /** The event installs c at a over an entry of a smaller metric. */
  ghost predicate InstallsAbove(y: Sys, ev: Event, a: NodeId, c: Cidr) {
    ev.Install? && ev.node == a && ev.cidr == c && Has(y.tables, a, c) && ev.metric > y.tables[a][c].metric
  }

  /** The event brings a an update in which its next hop for c takes back what it promised. */
  ghost predicate NextHopRaises(y: Sys, ev: Event, a: NodeId, c: Cidr) {
    ev.Deliver? && Possible(y, ev) && ev.edge.0 == a && Has(y.tables, a, c) &&
    var adv := Advertised(y.queues[ev.edge][0], a);
    c in adv && RaisedBy(y.tables[a][c], ev.edge.1, adv[c], y.net.cost[ev.edge])
  }

  /**
   * In any state whatever, no event loses an entry, and a metric rises exactly when its own node installs the network
   * above it or its next hop takes back what it promised.
   */
  lemma NextRisesExactly(y: Sys, ev: Event, a: NodeId, c: Cidr)
    requires Possible(y, ev) && Has(y.tables, a, c)
    ensures Has(Next(y, ev).tables, a, c)
    ensures Next(y, ev).tables[a][c].metric > y.tables[a][c].metric <==>
            InstallsAbove(y, ev, a, c) || NextHopRaises(y, ev, a, c)
  {
    if ev.Deliver? && ev.edge.0 == a {
      MergeRaisesExactly(y.tables[a], Advertised(y.queues[ev.edge][0], a), ev.edge.1, y.net.cost[ev.edge], c);
    }
  }

  /** While the invariant holds no next hop takes anything back. */
  lemma SafeNextRisesExactly(y: Sys, ev: Event, a: NodeId, c: Cidr)
    requires SysInv(y) && Possible(y, ev) && Has(y.tables, a, c)
    ensures Has(Next(y, ev).tables, a, c)
    ensures Next(y, ev).tables[a][c].metric > y.tables[a][c].metric <==> InstallsAbove(y, ev, a, c)
  {
    if ev.Deliver? {
      assert QueueOk(y, ev.edge);
      ReceiveNeverRises(y.net, y.tables, ev.edge, y.queues[ev.edge][0], a, c);
    }
  }

  ghost predicate NeverRaised(y: Sys, evs: seq<Event>, a: NodeId, c: Cidr)
    requires Legal(y, evs)
    decreases |evs|
  {
    evs == [] || (!InstallsAbove(y, evs[0], a, c) && NeverRaised(Next(y, evs[0]), evs[1..], a, c))
  }

  /** Over any events, lost updates and growth included, entries stay, and unless its node raises it no metric rises. */
  lemma {:induction false} RunNeverRises(y: Sys, evs: seq<Event>, a: NodeId, c: Cidr)
    requires SysInv(y) && Legal(y, evs) && Has(y.tables, a, c)
    ensures Has(Run(y, evs).tables, a, c)
    ensures NeverRaised(y, evs, a, c) ==> Run(y, evs).tables[a][c].metric <= y.tables[a][c].metric
    decreases |evs|
  {
    if evs == [] {
    } else {
      NextInv(y, evs[0]);
      SafeNextRisesExactly(y, evs[0], a, c);
      RunNeverRises(Next(y, evs[0]), evs[1..], a, c);
    }
  }

  ghost predicate AllTraffic(evs: seq<Event>) {
    forall i :: 0 <= i < |evs| ==> evs[i].Traffic()
  }

  lemma {:induction false} TrafficNeverRaises(y: Sys, evs: seq<Event>, a: NodeId, c: Cidr)
    requires Legal(y, evs) && AllTraffic(evs)
    ensures NeverRaised(y, evs, a, c)
    decreases |evs|
  {
    if evs == [] {
    } else {
      TrafficNeverRaises(Next(y, evs[0]), evs[1..], a, c);
    }
  }

  // ---- Metrics are costs of real walks ----

  /** The metric is the cost of a real walk, cut off at the largest u32. */
  ghost predicate RealCost(net: Net, a: NodeId, c: Cidr, m: u32) {
    exists p :: Walk(net, p, c) && p[0] == a && Min(WalkCost(net, p, c), U32_MAX) == m
  }

  lemma ExtendWalk(net: Net, a: NodeId, b: NodeId, c: Cidr, m: u32)
    requires net.Valid() && (a, b) in net.cost && RealCost(net, b, c, m) && m < INFINITY
    ensures RealCost(net, a, c, SaturatingAdd(m, net.cost[(a, b)]))
  {
    var p :| Walk(net, p, c) && p[0] == b && Min(WalkCost(net, p, c), U32_MAX) == m;
    var q := [a] + p;
    assert q[1..] == p;
    assert Walk(net, q, c) && WalkCost(net, q, c) == net.cost[(a, b)] + WalkCost(net, p, c);
  }

  ghost predicate RealTable(net: Net, a: NodeId, t: Table) {
    forall c :: c in t ==> RealCost(net, a, c, t[c].metric)
  }

  ghost predicate RealTables(net: Net, s: State) {
    forall a :: a in s ==> RealTable(net, a, s[a])
  }

  ghost predicate RealQueues(net: Net, queues: map<Edge, seq<Table>>) {
    forall e, i :: e in queues && 0 <= i < |queues[e]| ==> RealTable(net, e.1, queues[e][i])
  }

  /** Every metric that is held or on its way is the cost of a walk. */
  ghost predicate RealSys(y: Sys) {
    RealTables(y.net, y.tables) && RealQueues(y.net, y.queues)
  }

  /** The event gives a network that is already installed another metric. */
  ghost predicate Reprices(y: Sys, ev: Event) {
    ev.Install? && ev.node in y.net.conn && ev.cidr in y.net.conn[ev.node] &&
    y.net.conn[ev.node][ev.cidr] != ev.metric
  }

  lemma {:induction false} WalkSurvives(net: Net, net': Net, p: seq<NodeId>, c: Cidr)
    requires Extends(net, net') && Walk(net, p, c)
    ensures Walk(net', p, c) && WalkCost(net', p, c) == WalkCost(net, p, c)
    decreases |p|
  {
    if |p| == 1 {
    } else {
      WalkSurvives(net, net', p[1..], c);
    }
  }

  lemma RealTableSurvives(net: Net, net': Net, a: NodeId, t: Table)
    requires Extends(net, net') && RealTable(net, a, t)
    ensures RealTable(net', a, t)
  {
    forall c | c in t
      ensures RealCost(net', a, c, t[c].metric)
    {
      var p :| Walk(net, p, c) && p[0] == a && Min(WalkCost(net, p, c), U32_MAX) == t[c].metric;
      WalkSurvives(net, net', p, c);
    }
  }

  lemma ReceiveReal(net: Net, s: State, e: Edge, snap: Table)
    requires Inv(net, s) && e in net.cost && SnapOk(net, s, e, snap)
    requires RealTable(net, e.0, s[e.0]) && RealTable(net, e.1, snap)
    ensures RealTable(net, e.0, Receive(net, s, e, snap)[e.0])
  {
    var s': State := Receive(net, s, e, snap);
    forall c | c in s'[e.0]
      ensures RealCost(net, e.0, c, s'[e.0][c].metric)
    {
      ReceiveAt(net, s, e, snap, c);
      if !(c in s[e.0] && s'[e.0][c] == s[e.0][c]) {
        ExtendWalk(net, e.0, e.1, c, snap[c].metric);
      }
    }
  }

  lemma RealSurvives(net: Net, net': Net, s: State, queues: map<Edge, seq<Table>>)
    requires Extends(net, net') && RealTables(net, s) && RealQueues(net, queues)
    ensures RealTables(net', s) && RealQueues(net', queues)
  {
    forall a | a in s
      ensures RealTable(net', a, s[a])
    {
      RealTableSurvives(net, net', a, s[a]);
    }
    forall e, i | e in queues && 0 <= i < |queues[e]|
      ensures RealTable(net', e.1, queues[e][i])
    {
      RealTableSurvives(net, net', e.1, queues[e][i]);
    }
  }

  lemma InstallReal(y: Sys, a: NodeId, c: Cidr, m: u32)
    requires SysInv(y) && RealSys(y) && Enabled(y, Install(a, c, m)) && !Reprices(y, Install(a, c, m))
    ensures RealSys(Installed(y, a, c, m))
  {
    var y' := Installed(y, a, c, m);
    RealSurvives(y.net, y'.net, y.tables, y.queues);
    assert Walk(y'.net, [a], c) && WalkCost(y'.net, [a], c) == m;
    assert RealCost(y'.net, a, c, m);
    assert RealTable(y'.net, a, y.tables[a]);
    assert RealTable(y'.net, a, y'.tables[a]);
  }

  lemma DeliverReal(y: Sys, e: Edge)
    requires SysInv(y) && RealSys(y) && Enabled(y, Deliver(e))
    ensures RealSys(Next(y, Deliver(e)))
  {
    assert QueueOk(y, e);
    var snap := y.queues[e][0];
    assert RealTable(y.net, e.1, snap);
    ReceiveReal(y.net, y.tables, e, snap);
  }

  lemma NextReal(y: Sys, ev: Event)
    requires SysInv(y) && RealSys(y) && Enabled(y, ev) && !Reprices(y, ev)
    ensures RealSys(Next(y, ev))
  {
    match ev {
      case Send(e) =>
      case Deliver(e) => DeliverReal(y, e);
      case Drop(e) =>
      case Install(a, c, m) => InstallReal(y, a, c, m);
      case Connect(_, _) => RealSurvives(y.net, Next(y, ev).net, y.tables, y.queues);
      case Join(_) => RealSurvives(y.net, Next(y, ev).net, y.tables, y.queues);
    }
  }

  ghost predicate NoRepricing(y: Sys, evs: seq<Event>)
    requires Legal(y, evs)
    decreases |evs|
  {
    evs == [] || (!Reprices(y, evs[0]) && NoRepricing(Next(y, evs[0]), evs[1..]))
  }

  /** As long as no installed network changes its metric, every metric is the cost of a real walk. */
  lemma {:induction false} MetricsAreReal(y: Sys, evs: seq<Event>)
    requires SysInv(y) && RealSys(y) && Legal(y, evs) && NoRepricing(y, evs)
    ensures RealSys(Run(y, evs))
    decreases |evs|
  {
    if evs == [] {
    } else {
      NextInv(y, evs[0]);
      NextReal(y, evs[0]);
      MetricsAreReal(Next(y, evs[0]), evs[1..]);
    }
  }
}
