/** Installations at any moment: what they do at once, one that is outgrown, and one that ends in a forwarding loop. */
module DvInstall {
  import opened Common
  import opened DistanceVectors
  import opened DvNetwork
  import opened DvRuns
  import opened DvSafety

  // ---- At the instant of installation ----

  /** p is the path of a packet for c: from next hop to next hop, up to the first owner. */
  ghost predicate Forwards(s: State, p: seq<NodeId>, c: Cidr) {
    && p != [] && Has(s, p[0], c)
    && if |p| == 1 then s[p[0]][c].connected
       else !s[p[0]][c].connected && s[p[0]][c].nextHop == p[1] && Forwards(s, p[1..], c)
  }

  /** The packet path exists, over real links, and costs no more than the stored metric; nothing else is assumed. */
  ghost predicate ArrivesWithin(net: Net, s: State, x: NodeId, c: Cidr) {
    Has(s, x, c) && exists p :: Forwards(s, p, c) && ArrivesBy(net, s, x, c, p)
  }

  ghost predicate ArrivesBy(net: Net, s: State, x: NodeId, c: Cidr, p: seq<NodeId>)
    requires Has(s, x, c)
  {
    Walk(net, p, c) && p[0] == x && Min(WalkCost(net, p, c), U32_MAX) <= s[x][c].metric
  }

  /** What another node holds for its route through a is enough to pay for the way over a. */
  ghost predicate Affordable(y: Sys, a: NodeId, c: Cidr, m: u32) {
    forall x :: Has(y.tables, x, c) && x != a && y.tables[x][c].nextHop == a ==>
                  (x, a) in y.net.cost && SaturatingAdd(m, y.net.cost[(x, a)]) <= y.tables[x][c].metric
  }

  lemma ViaNextHop(net: Net, s: State, x: NodeId, c: Cidr)
    requires Has(s, x, c) && !s[x][c].connected && (x, s[x][c].nextHop) in net.cost
    requires ArrivesWithin(net, s, s[x][c].nextHop, c)
    requires SaturatingAdd(s[s[x][c].nextHop][c].metric, net.cost[(x, s[x][c].nextHop)]) <= s[x][c].metric
    ensures ArrivesWithin(net, s, x, c)
  {
    var b := s[x][c].nextHop;
    var q :| Forwards(s, q, c) && ArrivesBy(net, s, b, c, q);
    PrependWalk(net, x, q, c);
    var p := [x] + q;
    assert p[1..] == q;
    assert Forwards(s, p, c) && ArrivesBy(net, s, x, c, p);
  }

  lemma AtOwner(net: Net, s: State, x: NodeId, c: Cidr)
    requires Has(s, x, c) && s[x][c].connected && x in net.conn && c in net.conn[x] && net.conn[x][c] == s[x][c].metric
    ensures ArrivesWithin(net, s, x, c)
  {
    assert Forwards(s, [x], c) && ArrivesBy(net, s, x, c, [x]);
  }

  lemma {:induction false} StillArrives(y: Sys, a: NodeId, c: Cidr, m: u32, x: NodeId, d: Cidr)
    requires Inv(y.net, y.tables) && a in y.net.conn && Affordable(y, a, c, m)
    requires Has(Installed(y, a, c, m).tables, x, d)
    ensures ArrivesWithin(Installed(y, a, c, m).net, Installed(y, a, c, m).tables, x, d)
    decreases if x == a && d == c then -1 else y.tables[x][d].metric
  {
    var y' := Installed(y, a, c, m);
    if x == a && d == c {
      AtOwner(y'.net, y'.tables, x, d);
    } else {
      assert EntryOk(y.net, y.tables, x, d);
      if y.tables[x][d].connected {
        AtOwner(y'.net, y'.tables, x, d);
      } else {
        StillArrives(y, a, c, m, y.tables[x][d].nextHop, d);
        ViaNextHop(y'.net, y'.tables, x, d);
      }
    }
  }

  /** A node that routes through the installer pays the link and the new metric. */
  lemma PaysTheNewMetric(y: Sys, a: NodeId, c: Cidr, m: u32, x: NodeId)
    requires Inv(y.net, y.tables) && a in y.net.conn
    requires Has(y.tables, x, c) && x != a && y.tables[x][c].nextHop == a
    requires ArrivesWithin(Installed(y, a, c, m).net, Installed(y, a, c, m).tables, x, c)
    ensures (x, a) in y.net.cost && SaturatingAdd(m, y.net.cost[(x, a)]) <= y.tables[x][c].metric
  {
    var y' := Installed(y, a, c, m);
    assert EntryOk(y.net, y.tables, x, c);
    var p :| Forwards(y'.tables, p, c) && ArrivesBy(y'.net, y'.tables, x, c, p);
    assert p[1] == a && Forwards(y'.tables, p[1..], c);
    assert |p[1..]| == 1;
    assert WalkCost(y'.net, p, c) == y.net.cost[(x, a)] + WalkCost(y'.net, p[1..], c);
  }

  /**
   * At the instant of an installation, at any metric, every packet still arrives within the stored metric exactly when
   * each other node that routes through the installer can pay the new metric; what is on its way plays no part yet.
   */
  lemma InstallArrivesExactly(y: Sys, a: NodeId, c: Cidr, m: u32)
    requires Inv(y.net, y.tables) && a in y.net.conn
    ensures var y' := Installed(y, a, c, m);
            (forall x, d :: Has(y'.tables, x, d) ==> ArrivesWithin(y'.net, y'.tables, x, d)) <==> Affordable(y, a, c, m)
  {
    var y' := Installed(y, a, c, m);
    if Affordable(y, a, c, m) {
      forall x, d | Has(y'.tables, x, d)
        ensures ArrivesWithin(y'.net, y'.tables, x, d)
      {
        StillArrives(y, a, c, m, x, d);
      }
    }
    if forall x, d :: Has(y'.tables, x, d) ==> ArrivesWithin(y'.net, y'.tables, x, d) {
      forall x | Has(y.tables, x, c) && x != a && y.tables[x][c].nextHop == a
        ensures (x, a) in y.net.cost && SaturatingAdd(m, y.net.cost[(x, a)]) <= y.tables[x][c].metric
      {
        assert Has(y'.tables, x, c);
        PaysTheNewMetric(y, a, c, m, x);
      }
    }
  }

  // ---- Events one by one ----

  lemma {:induction false} OneMore(y: Sys, evs: seq<Event>, ev: Event) returns (more: seq<Event>)
    requires Legal(y, evs) && Enabled(Run(y, evs), ev)
    ensures more == evs + [ev] && Legal(y, more) && Run(y, more) == Next(Run(y, evs), ev)
    decreases |evs|
  {
    more := evs + [ev];
    if evs == [] {
      assert more[1..] == [];
    } else {
      var rest := OneMore(Next(y, evs[0]), evs[1..], ev);
      assert more[1..] == rest;
    }
  }

  /** The table of a node that holds c alone. */
  function Only(c: Cidr, r: Route): Table {
    map[c := r]
  }

  lemma MergeOne(t: Table, r: Route, to: NodeId, from: NodeId, cost: u32, c: Cidr)
    requires r.metric < INFINITY && r.nextHop != to && Improves(Lookup(t, c), from, SaturatingAdd(r.metric, cost))
    ensures Merge(t, Advertised(Only(c, r), to), from, cost)
            == t[c := LearnedRoute(from, SaturatingAdd(r.metric, cost))]
  {
    var adv := Advertised(Only(c, r), to);
    assert adv == map[c := r.metric];
    forall d
      ensures MergeAt(t, adv, from, cost, d) == Lookup(t[c := LearnedRoute(from, SaturatingAdd(r.metric, cost))], d)
    {
    }
  }

  /** The receiver of an update that lists c alone is about to take it. */
  ghost predicate Awaits(z: Sys, e: Edge, r: Route, c: Cidr) {
    && e in z.net.cost && e in z.queues && e.0 in z.tables && r.metric < INFINITY && r.nextHop != e.0
    && Improves(Lookup(z.tables[e.0], c), e.1, SaturatingAdd(r.metric, z.net.cost[e]))
  }

  /** The receiver has taken it. */
  ghost function Taken(z: Sys, e: Edge, r: Route, c: Cidr): Sys
    requires Awaits(z, e, r, c)
  {
    z.(tables := z.tables[e.0 := z.tables[e.0][c := LearnedRoute(e.1, SaturatingAdd(r.metric, z.net.cost[e]))]])
  }

  /** A queued update that lists c alone is processed. */
  lemma Arrival(y: Sys, evs: seq<Event>, e: Edge, r: Route, c: Cidr) returns (more: seq<Event>)
    requires Legal(y, evs) && Awaits(Run(y, evs), e, r, c) && Run(y, evs).queues[e] == [Only(c, r)]
    ensures more == evs + [Deliver(e)] && Legal(y, more)
    ensures Run(y, more) == Taken(Run(y, evs), e, r, c).(queues := Run(y, evs).queues[e := []])
  {
    var z := Run(y, evs);
    more := OneMore(y, evs, Deliver(e));
    MergeOne(z.tables[e.0], r, e.0, e.1, z.net.cost[e], c);
    assert z.queues[e][1..] == [];
  }

  /** A fresh update that lists c alone, sent and processed over a link whose queue was empty. */
  lemma CarryOver(y: Sys, evs: seq<Event>, e: Edge, r: Route, c: Cidr) returns (more: seq<Event>)
    requires Legal(y, evs) && Awaits(Run(y, evs), e, r, c) && Run(y, evs).queues[e] == []
    requires e.1 in Run(y, evs).tables && Run(y, evs).tables[e.1] == Only(c, r)
    ensures more == evs + [Send(e), Deliver(e)] && Legal(y, more)
    ensures Run(y, more) == Taken(Run(y, evs), e, r, c)
  {
    var z := Run(y, evs);
    var sent := OneMore(y, evs, Send(e));
    assert Run(y, sent).queues[e] == [Only(c, r)];
    more := Arrival(y, sent, e, r, c);
    assert Run(y, more).queues == z.queues;
  }

  // ---- One network, five links ----

  /** a hears b and z, x hears a and b, z hears x; b owns the network c. */
  datatype Cast = Cast(a: NodeId, b: NodeId, x: NodeId, z: NodeId, c: Cidr) {
    ghost predicate AllDiffer() {
      a != b && a != x && a != z && b != x && b != z && x != z
    }

    ghost function Links(): map<Edge, u32> {
      map[(a, b) := 1, (x, a) := 1, (z, x) := 1, (a, z) := 1, (x, b) := 1]
    }

    /** The networks of a, the tables of a, x and z, and what is on its way from a to x. */
    ghost function At(own: map<Cidr, u32>, ta: Table, tx: Table, tz: Table, toX: seq<Table>): Sys {
      var none: map<Cidr, u32> := map[];
      Sys(Net(map[a := own, b := map[c := 0], x := none, z := none], Links()),
          map[a := ta, b := Only(c, ConnectedRoute(b, 0)), x := tx, z := tz],
          map[(a, b) := [], (x, a) := toX, (z, x) := [], (a, z) := [], (x, b) := []])
    }

    /** The nodes before any link exists. */
    ghost function Apart(): Sys {
      var none: map<Cidr, u32>, empty: Table := map[], map[];
      Sys(Net(map[a := none, b := none, x := none, z := none], map[]),
          map[a := empty, b := empty, x := empty, z := empty], map[])
    }

    ghost function Learned(from: NodeId, metric: u32): Table {
      Only(c, LearnedRoute(from, metric))
    }

    ghost function Ten(): Table {
      Only(c, ConnectedRoute(a, 10))
    }
  }

  lemma NodesJoin(k: Cast) returns (evs: seq<Event>)
    requires k.AllDiffer()
    ensures Legal(NOTHING, evs) && Run(NOTHING, evs) == k.Apart()
  {
    evs := OneMore(NOTHING, [], Join(k.a));
    evs := OneMore(NOTHING, evs, Join(k.b));
    evs := OneMore(NOTHING, evs, Join(k.x));
    evs := OneMore(NOTHING, evs, Join(k.z));
    assert Run(NOTHING, evs) == k.Apart();
  }

  lemma LinksAppear(k: Cast) returns (evs: seq<Event>)
    requires k.AllDiffer()
    ensures Legal(NOTHING, evs)
    ensures Run(NOTHING, evs).net == Net(k.Apart().net.conn, k.Links()) && Run(NOTHING, evs).tables == k.Apart().tables
    ensures Run(NOTHING, evs).queues == k.At(map[], map[], map[], map[], []).queues
  {
    evs := NodesJoin(k);
    evs := OneMore(NOTHING, evs, Connect((k.a, k.b), 1));
    evs := OneMore(NOTHING, evs, Connect((k.x, k.a), 1));
    evs := OneMore(NOTHING, evs, Connect((k.z, k.x), 1));
    evs := OneMore(NOTHING, evs, Connect((k.a, k.z), 1));
    evs := OneMore(NOTHING, evs, Connect((k.x, k.b), 1));
    assert Run(NOTHING, evs).net.cost == k.Links();
  }

  lemma NetworkIsReachable(k: Cast) returns (evs: seq<Event>)
    requires k.AllDiffer()
    ensures Legal(NOTHING, evs) && Run(NOTHING, evs) == k.At(map[], map[], map[], map[], [])
  {
    evs := LinksAppear(k);
    var y := Run(NOTHING, evs);
    BInstalls(k, y);
    evs := OneMore(NOTHING, evs, Install(k.b, k.c, 0));
  }

  lemma BInstalls(k: Cast, y: Sys)
    requires k.AllDiffer() && y.net == Net(k.Apart().net.conn, k.Links()) && y.tables == k.Apart().tables
    requires y.queues == k.At(map[], map[], map[], map[], []).queues
    ensures k.b in y.net.conn && k.b in y.tables && InstallSafe(y, k.b, k.c, 0)
    ensures Installed(y, k.b, k.c, 0) == k.At(map[], map[], map[], map[], [])
  {
    var z := k.At(map[], map[], map[], map[], []);
    var own, held := z.net.conn[k.b], z.tables[k.b];
    assert y.net.conn[k.b][k.c := 0] == own && y.tables[k.b][k.c := ConnectedRoute(k.b, 0)] == held;
    assert y.net.conn[k.b := own] == z.net.conn;
    assert y.tables[k.b := held] == z.tables;
  }

  lemma PutFirst(k: Cast, ta: Table, tb: Table, tx: Table, tz: Table, t: Table)
    requires k.AllDiffer()
    ensures (map[k.a := ta, k.b := tb, k.x := tx, k.z := tz])[k.a := t]
            == map[k.a := t, k.b := tb, k.x := tx, k.z := tz]
  {
  }

  lemma PutThird(k: Cast, ta: Table, tb: Table, tx: Table, tz: Table, t: Table)
    requires k.AllDiffer()
    ensures (map[k.a := ta, k.b := tb, k.x := tx, k.z := tz])[k.x := t]
            == map[k.a := ta, k.b := tb, k.x := t, k.z := tz]
  {
  }

  lemma PutA(k: Cast, own: map<Cidr, u32>, ta: Table, tx: Table, tz: Table, toX: seq<Table>, t: Table)
    requires k.AllDiffer()
    ensures k.At(own, ta, tx, tz, toX).tables[k.a := t] == k.At(own, t, tx, tz, toX).tables
  {
    PutFirst(k, ta, Only(k.c, ConnectedRoute(k.b, 0)), tx, tz, t);
  }

  lemma PutX(k: Cast, own: map<Cidr, u32>, ta: Table, tx: Table, tz: Table, toX: seq<Table>, t: Table)
    requires k.AllDiffer()
    ensures k.At(own, ta, tx, tz, toX).tables[k.x := t] == k.At(own, ta, t, tz, toX).tables
  {
    PutThird(k, ta, Only(k.c, ConnectedRoute(k.b, 0)), tx, tz, t);
  }

  lemma PutQueue(k: Cast, own: map<Cidr, u32>, ta: Table, tx: Table, tz: Table, toX: seq<Table>, q: seq<Table>)
    requires k.AllDiffer()
    ensures k.At(own, ta, tx, tz, toX).queues[(k.x, k.a) := q] == k.At(own, ta, tx, tz, q).queues
  {
    var u, v := k.At(own, ta, tx, tz, toX).queues[(k.x, k.a) := q],
                k.At(own, ta, tx, tz, q).queues;
    assert u.Keys == v.Keys;
    assert forall n :: n in v ==> u[n] == v[n];
  }

  lemma LearnsOnly(k: Cast, t: Table, from: NodeId, metric: u32)
    requires t.Keys <= {k.c}
    ensures t[k.c := LearnedRoute(from, metric)] == k.Learned(from, metric)
  {
  }

  lemma AHears(k: Cast, own: map<Cidr, u32>, ta: Table, tx: Table, tz: Table, toX: seq<Table>, e: Edge, r: Route)
    requires k.AllDiffer() && (e == (k.a, k.b) || e == (k.a, k.z)) && ta.Keys <= {k.c}
    requires r.metric < INFINITY && r.nextHop != k.a && Improves(Lookup(ta, k.c), e.1, SaturatingAdd(r.metric, 1))
    ensures Awaits(k.At(own, ta, tx, tz, toX), e, r, k.c)
    ensures Taken(k.At(own, ta, tx, tz, toX), e, r, k.c)
            == k.At(own, k.Learned(e.1, SaturatingAdd(r.metric, 1)), tx, tz, toX)
  {
    LearnsOnly(k, ta, e.1, SaturatingAdd(r.metric, 1));
    PutA(k, own, ta, tx, tz, toX, k.Learned(e.1, SaturatingAdd(r.metric, 1)));
  }

  lemma XHears(k: Cast, own: map<Cidr, u32>, ta: Table, tx: Table, tz: Table, toX: seq<Table>, e: Edge, r: Route)
    requires k.AllDiffer() && (e == (k.x, k.a) || e == (k.x, k.b)) && tx.Keys <= {k.c}
    requires r.metric < INFINITY && r.nextHop != k.x && Improves(Lookup(tx, k.c), e.1, SaturatingAdd(r.metric, 1))
    ensures Awaits(k.At(own, ta, tx, tz, toX), e, r, k.c)
    ensures Taken(k.At(own, ta, tx, tz, toX), e, r, k.c)
            == k.At(own, ta, k.Learned(e.1, SaturatingAdd(r.metric, 1)), tz, toX)
  {
    LearnsOnly(k, tx, e.1, SaturatingAdd(r.metric, 1));
    PutX(k, own, ta, tx, tz, toX, k.Learned(e.1, SaturatingAdd(r.metric, 1)));
  }

  lemma ZHears(k: Cast, own: map<Cidr, u32>, ta: Table, tx: Table, tz: Table, toX: seq<Table>, r: Route)
    requires k.AllDiffer() && tz.Keys <= {k.c}
    requires r.metric < INFINITY && r.nextHop != k.z && Improves(Lookup(tz, k.c), k.x, SaturatingAdd(r.metric, 1))
    ensures Awaits(k.At(own, ta, tx, tz, toX), (k.z, k.x), r, k.c)
    ensures Taken(k.At(own, ta, tx, tz, toX), (k.z, k.x), r, k.c)
            == k.At(own, ta, tx, k.Learned(k.x, SaturatingAdd(r.metric, 1)), toX)
  {
    LearnsOnly(k, tz, k.x, SaturatingAdd(r.metric, 1));
  }

  lemma ALearns(k: Cast, y: Sys, evs: seq<Event>, own: map<Cidr, u32>, ta: Table, tx: Table, tz: Table, from: NodeId,
                r: Route) returns (more: seq<Event>)
    requires k.AllDiffer() && Legal(y, evs) && Run(y, evs) == k.At(own, ta, tx, tz, []) && ta.Keys <= {k.c}
    requires (from == k.b && r == ConnectedRoute(k.b, 0)) || (from == k.z && tz == Only(k.c, r))
    requires r.metric < INFINITY && r.nextHop != k.a && Improves(Lookup(ta, k.c), from, SaturatingAdd(r.metric, 1))
    ensures more == evs + [Send((k.a, from)), Deliver((k.a, from))] && Legal(y, more)
    ensures Run(y, more) == k.At(own, k.Learned(from, SaturatingAdd(r.metric, 1)), tx, tz, [])
  {
    AHears(k, own, ta, tx, tz, [], (k.a, from), r);
    more := CarryOver(y, evs, (k.a, from), r, k.c);
  }

  lemma XLearns(k: Cast, y: Sys, evs: seq<Event>, own: map<Cidr, u32>, ta: Table, tx: Table, tz: Table, from: NodeId,
                r: Route) returns (more: seq<Event>)
    requires k.AllDiffer() && Legal(y, evs) && Run(y, evs) == k.At(own, ta, tx, tz, []) && tx.Keys <= {k.c}
    requires (from == k.b && r == ConnectedRoute(k.b, 0)) || (from == k.a && ta == Only(k.c, r))
    requires r.metric < INFINITY && r.nextHop != k.x && Improves(Lookup(tx, k.c), from, SaturatingAdd(r.metric, 1))
    ensures more == evs + [Send((k.x, from)), Deliver((k.x, from))] && Legal(y, more)
    ensures Run(y, more) == k.At(own, ta, k.Learned(from, SaturatingAdd(r.metric, 1)), tz, [])
  {
    XHears(k, own, ta, tx, tz, [], (k.x, from), r);
    more := CarryOver(y, evs, (k.x, from), r, k.c);
  }

  lemma ZLearns(k: Cast, y: Sys, evs: seq<Event>, own: map<Cidr, u32>, ta: Table, tx: Table, tz: Table, r: Route)
    returns (more: seq<Event>)
    requires k.AllDiffer() && Legal(y, evs) && Run(y, evs) == k.At(own, ta, tx, tz, []) && tz.Keys <= {k.c}
    requires tx == Only(k.c, r)
    requires r.metric < INFINITY && r.nextHop != k.z && Improves(Lookup(tz, k.c), k.x, SaturatingAdd(r.metric, 1))
    ensures more == evs + [Send((k.z, k.x)), Deliver((k.z, k.x))] && Legal(y, more)
    ensures Run(y, more) == k.At(own, ta, tx, k.Learned(k.x, SaturatingAdd(r.metric, 1)), [])
  {
    ZHears(k, own, ta, tx, tz, [], r);
    more := CarryOver(y, evs, (k.z, k.x), r, k.c);
  }

  /** a tells x what it holds; the update stays on its way. */
  lemma ATellsX(k: Cast, y: Sys, evs: seq<Event>, own: map<Cidr, u32>, ta: Table, tx: Table, tz: Table)
    returns (more: seq<Event>)
    requires k.AllDiffer() && Legal(y, evs) && Run(y, evs) == k.At(own, ta, tx, tz, [])
    ensures more == evs + [Send((k.x, k.a))] && Legal(y, more) && Run(y, more) == k.At(own, ta, tx, tz, [ta])
  {
    more := OneMore(y, evs, Send((k.x, k.a)));
    assert [] + [ta] == [ta];
    PutQueue(k, own, ta, tx, tz, [], [ta]);
  }

  /** The installation of c at a, at metric 10. */
  lemma InstallsTen(k: Cast, tx: Table, tz: Table, toX: seq<Table>)
    requires k.AllDiffer()
    ensures Installed(k.At(map[], k.Learned(k.b, 1), tx, tz, toX), k.a, k.c, 10)
            == k.At(map[k.c := 10], k.Ten(), tx, tz, toX)
  {
    var y := k.At(map[], k.Learned(k.b, 1), tx, tz, toX);
    assert y.tables[k.a][k.c := ConnectedRoute(k.a, 10)] == k.Ten();
    var ten: map<Cidr, u32> := map[k.c := 10];
    assert y.net.conn[k.a][k.c := 10] == ten;
    assert y.net.conn[k.a := ten] == k.At(ten, k.Ten(), tx, tz, toX).net.conn;
    PutA(k, ten, k.Learned(k.b, 1), tx, tz, toX, k.Ten());
  }

  /** With a's offer of metric 1 on its way to x the installation is unsafe, although no table counts on a. */
  lemma InstallIsUnsafe(k: Cast, tx: Table)
    requires k.AllDiffer() && (tx == map[] || tx == k.Learned(k.b, 1))
    ensures var y := k.At(map[], k.Learned(k.b, 1), tx, map[], [k.Learned(k.b, 1)]);
            Upstream(y.net, y.tables, k.a, k.c, 10) && !InstallSafe(y, k.a, k.c, 10)
  {
    var y := k.At(map[], k.Learned(k.b, 1), tx, map[], [k.Learned(k.b, 1)]);
    assert !SnapAllows(y.net, (k.x, k.a), y.queues[(k.x, k.a)][0], k.a, k.c, 10);
  }

  /** So the tables keep the invariant, and the system does not. */
  lemma TablesAloneAreOk(k: Cast, before: seq<Event>, tx: Table)
    requires k.AllDiffer() && (tx == map[] || tx == k.Learned(k.b, 1)) && Legal(NOTHING, before)
    requires Run(NOTHING, before) == k.At(map[], k.Learned(k.b, 1), tx, map[], [k.Learned(k.b, 1)])
    ensures var y := Run(NOTHING, before);
            var y' := Installed(y, k.a, k.c, 10);
            !InstallSafe(y, k.a, k.c, 10) && Inv(y'.net, y'.tables) && !SysInv(y')
  {
    NothingInv();
    RunInv(NOTHING, before);
    InstallIsUnsafe(k, tx);
    InstallKeepsTables(Run(NOTHING, before), k.a, k.c, 10);
    InstallKeepsInvExactly(Run(NOTHING, before), k.a, k.c, 10);
  }

  // ---- A late installation that ends in a loop ----

  lemma XKnowsNothing(k: Cast) returns (before: seq<Event>)
    requires k.AllDiffer()
    ensures Legal(NOTHING, before)
    ensures Run(NOTHING, before) == k.At(map[], k.Learned(k.b, 1), map[], map[], [k.Learned(k.b, 1)])
  {
    before := NetworkIsReachable(k);
    before := ALearns(k, NOTHING, before, map[], map[], map[], map[], k.b, ConnectedRoute(k.b, 0));
    before := ATellsX(k, NOTHING, before, map[], k.Learned(k.b, 1), map[], map[]);
  }

  lemma OldUpdateArrives(k: Cast) returns (evs: seq<Event>)
    requires k.AllDiffer()
    ensures var y := k.At(map[k.c := 10], k.Ten(), map[], map[], [k.Learned(k.b, 1)]);
            && evs == [Deliver((k.x, k.a))] && Legal(y, evs)
            && Run(y, evs) == k.At(map[k.c := 10], k.Ten(), k.Learned(k.a, 2), map[], [])
  {
    var own: map<Cidr, u32> := map[k.c := 10];
    var y := k.At(own, k.Ten(), map[], map[], [k.Learned(k.b, 1)]);
    XHears(k, own, k.Ten(), map[], map[], [k.Learned(k.b, 1)], (k.x, k.a), LearnedRoute(k.b, 1));
    evs := Arrival(y, [], (k.x, k.a), LearnedRoute(k.b, 1), k.c);
    PutQueue(k, own, k.Ten(), k.Learned(k.a, 2), map[], [k.Learned(k.b, 1)], []);
  }

  /** The old update reaches x, x tells z, z tells a. */
  lemma LoopForms(k: Cast) returns (evs: seq<Event>)
    requires k.AllDiffer()
    ensures var y := k.At(map[k.c := 10], k.Ten(), map[], map[], [k.Learned(k.b, 1)]);
            && Legal(y, evs) && AllTraffic(evs)
            && Run(y, evs) == k.At(map[k.c := 10], k.Learned(k.z, 4), k.Learned(k.a, 2), k.Learned(k.x, 3), [])
  {
    var own: map<Cidr, u32> := map[k.c := 10];
    var y := k.At(own, k.Ten(), map[], map[], [k.Learned(k.b, 1)]);
    evs := OldUpdateArrives(k);
    evs := ZLearns(k, y, evs, own, k.Ten(), k.Learned(k.a, 2), map[], LearnedRoute(k.a, 2));
    evs := ALearns(k, y, evs, own, k.Ten(), k.Learned(k.a, 2), k.Learned(k.x, 3), k.z, LearnedRoute(k.x, 3));
  }

  ghost predicate Routes(s: State, x: NodeId, c: Cidr, nextHop: NodeId, metric: int) {
    Has(s, x, c) && !s[x][c].connected && s[x][c].nextHop == nextHop && s[x][c].metric == metric
  }

  lemma LoopRoutes(k: Cast, metric: u32)
    requires k.AllDiffer()
    ensures var s := k.At(map[k.c := 10], k.Learned(k.z, 4), k.Learned(k.a, metric), k.Learned(k.x, 3), []).tables;
            Routes(s, k.a, k.c, k.z, 4) && Routes(s, k.z, k.c, k.x, 3) && Routes(s, k.x, k.c, k.a, metric)
  {
  }

  /** x hears a once more. */
  lemma MetricRises(k: Cast, evs: seq<Event>) returns (more: seq<Event>)
    requires k.AllDiffer()
    requires var y := k.At(map[k.c := 10], k.Ten(), map[], map[], [k.Learned(k.b, 1)]);
             && Legal(y, evs)
             && Run(y, evs) == k.At(map[k.c := 10], k.Learned(k.z, 4), k.Learned(k.a, 2), k.Learned(k.x, 3), [])
    ensures var y := k.At(map[k.c := 10], k.Ten(), map[], map[], [k.Learned(k.b, 1)]);
            && more == evs + [Send((k.x, k.a)), Deliver((k.x, k.a))] && Legal(y, more)
            && Run(y, more) == k.At(map[k.c := 10], k.Learned(k.z, 4), k.Learned(k.a, 5), k.Learned(k.x, 3), [])
  {
    var own: map<Cidr, u32> := map[k.c := 10];
    var y := k.At(own, k.Ten(), map[], map[], [k.Learned(k.b, 1)]);
    more := XLearns(k, y, evs, own, k.Learned(k.z, 4), k.Learned(k.a, 2), k.Learned(k.x, 3), k.a, LearnedRoute(k.z, 4));
  }

  /**
   * Tables in order are not enough: a network installed while an older update is on its way leaves every packet path
   * intact at first, and then that update and two exchanges close a forwarding loop. One more exchange raises a metric
   * of a node that installed nothing.
   */
  lemma LateInstallLoops(k: Cast) returns (before: seq<Event>, after: seq<Event>, more: seq<Event>)
    requires k.AllDiffer()
    ensures Legal(NOTHING, before)
    ensures var y := Run(NOTHING, before);
            && k.a in y.net.conn && k.a in y.tables && !InstallSafe(y, k.a, k.c, 10)
            && var y' := Installed(y, k.a, k.c, 10);
               && Inv(y'.net, y'.tables) && !SysInv(y')
               && Legal(y', after) && AllTraffic(after)
               && var s := Run(y', after).tables;
                  && Routes(s, k.a, k.c, k.z, 4) && Routes(s, k.z, k.c, k.x, 3) && Routes(s, k.x, k.c, k.a, 2)
                  && more == after + [Send((k.x, k.a)), Deliver((k.x, k.a))] && Legal(y', more)
                  && Routes(Run(y', more).tables, k.x, k.c, k.a, 5)
  {
    before := XKnowsNothing(k);
    TablesAloneAreOk(k, before, map[]);
    InstallsTen(k, map[], map[], [k.Learned(k.b, 1)]);
    after := LoopForms(k);
    LoopRoutes(k, 2);
    more := MetricRises(k, after);
    LoopRoutes(k, 5);
  }

  // ---- A late installation that is outgrown ----

  lemma XKnowsBetter(k: Cast) returns (before: seq<Event>)
    requires k.AllDiffer()
    ensures Legal(NOTHING, before)
    ensures Run(NOTHING, before) == k.At(map[], k.Learned(k.b, 1), k.Learned(k.b, 1), map[], [k.Learned(k.b, 1)])
  {
    before := NetworkIsReachable(k);
    before := ALearns(k, NOTHING, before, map[], map[], map[], map[], k.b, ConnectedRoute(k.b, 0));
    before := XLearns(k, NOTHING, before, map[], k.Learned(k.b, 1), map[], map[], k.b, ConnectedRoute(k.b, 0));
    before := ATellsX(k, NOTHING, before, map[], k.Learned(k.b, 1), k.Learned(k.b, 1), map[]);
  }

  lemma SameTwice(k: Cast)
    requires k.AllDiffer()
    ensures Merge(k.Learned(k.b, 1), Advertised(k.Learned(k.b, 1), k.x), k.a, 1) == k.Learned(k.b, 1)
  {
    var held := k.Learned(k.b, 1);
    var adv := Advertised(held, k.x);
    assert adv == map[k.c := 1];
    assert forall d :: MergeAt(held, adv, k.a, 1, d) == Lookup(held, d);
  }

  /** The offer of metric 1 by a is worth 2 to x, which holds 1. */
  lemma OldOfferIsUseless(k: Cast, own: map<Cidr, u32>, ta: Table)
    requires k.AllDiffer()
    ensures var y := k.At(own, ta, k.Learned(k.b, 1), map[], [k.Learned(k.b, 1)]);
            && Possible(y, Deliver((k.x, k.a))) && Possible(y, Drop((k.x, k.a)))
            && Next(y, Deliver((k.x, k.a))) == Next(y, Drop((k.x, k.a)))
            && Next(y, Drop((k.x, k.a))) == k.At(own, ta, k.Learned(k.b, 1), map[], [])
  {
    var held := k.Learned(k.b, 1);
    var y := k.At(own, ta, held, map[], [held]);
    SameTwice(k);
    PutX(k, own, ta, held, map[], [held], held);
    assert Receive(y.net, y.tables, (k.x, k.a), held) == y.tables;
    assert [held][1..] == [];
    PutQueue(k, own, ta, held, map[], [held], []);
  }

  /**
   * The condition is not necessary for loop freedom: after this unsafe installation every table is in order, and
   * whether the update that counts on something better is processed or lost, no table changes and the invariant
   * is back.
   */
  lemma UnsafeInstallHeals(k: Cast) returns (before: seq<Event>)
    requires k.AllDiffer()
    ensures Legal(NOTHING, before)
    ensures var y := Run(NOTHING, before);
            && k.a in y.net.conn && k.a in y.tables && !InstallSafe(y, k.a, k.c, 10)
            && var y', deliver, drop := Installed(y, k.a, k.c, 10), Deliver((k.x, k.a)), Drop((k.x, k.a));
               && Inv(y'.net, y'.tables) && !SysInv(y')
               && Possible(y', deliver) && Next(y', deliver).tables == y'.tables && SysInv(Next(y', deliver))
               && Possible(y', drop) && SysInv(Next(y', drop))
  {
    before := XKnowsBetter(k);
    TablesAloneAreOk(k, before, k.Learned(k.b, 1));
    InstallsTen(k, k.Learned(k.b, 1), map[], [k.Learned(k.b, 1)]);
    OldOfferIsUseless(k, map[k.c := 10], k.Ten());
    NothingInv();
    RunInv(NOTHING, before);
    InvReturns(k, Run(NOTHING, before));
  }

  /** x routes through b, and nothing is on its way. */
  lemma CalmInstallIsSafe(k: Cast)
    requires k.AllDiffer()
    ensures InstallSafe(k.At(map[], k.Learned(k.b, 1), k.Learned(k.b, 1), map[], []), k.a, k.c, 10)
  {
  }

  lemma InvReturns(k: Cast, y: Sys)
    requires k.AllDiffer() && SysInv(y)
    requires y == k.At(map[], k.Learned(k.b, 1), k.Learned(k.b, 1), map[], [k.Learned(k.b, 1)])
    ensures SysInv(k.At(map[k.c := 10], k.Ten(), k.Learned(k.b, 1), map[], []))
  {
    OldOfferIsUseless(k, map[], k.Learned(k.b, 1));
    NextInv(y, Drop((k.x, k.a)));
    var calm := k.At(map[], k.Learned(k.b, 1), k.Learned(k.b, 1), map[], []);
    InstallsTen(k, k.Learned(k.b, 1), map[], []);
    CalmInstallIsSafe(k);
    InstallKeepsInvExactly(calm, k.a, k.c, 10);
  }
}
