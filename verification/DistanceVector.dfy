/**
 * One node of the distance-vector protocol: the table, and the two operations of an exchange.
 * Time stamps and the write-only peer snapshots are left out (see README.md).
 */
module DistanceVectors {
  import opened Common

  type NodeId = string
  type Cidr = string

  /** Sixteen is "unreachable", as in RIP. */
  const INFINITY: u32 := 16

  datatype Route = Route(metric: u32, nextHop: NodeId, holdDown: bool,
                         connected: bool, learned: bool, poisoned: bool)

  type Table = map<Cidr, Route>

  type Advert = (Cidr, u32)

  datatype Change = Change(cidr: Cidr, metric: u32, peer: NodeId)

  function SaturatingAdd(a: u32, b: u32): u32 {
    if a + b > U32_MAX then U32_MAX else a + b
  }

  function ConnectedRoute(owner: NodeId, metric: u32): Route {
    Route(metric, owner, false, true, false, false)
  }

  function LearnedRoute(from: NodeId, metric: u32): Route {
    Route(metric, from, false, false, true, false)
  }

  // ---- What one advertised metric does to the entry held for its destination ----

  predicate Withdraws(mine: Option<Route>, from: NodeId) {
    mine.Some? && mine.value.nextHop == from && !mine.value.connected
  }

  predicate Improves(mine: Option<Route>, from: NodeId, metric: u32) {
    match mine
    case None => true
    case Some(r) => if r.nextHop == from then metric != r.metric else metric < r.metric
  }

  /** True when the advert is reported in the change list. */
  predicate Reported(mine: Option<Route>, from: NodeId, metric: u32, cost: u32) {
    if metric >= INFINITY then Withdraws(mine, from) else Improves(mine, from, SaturatingAdd(metric, cost))
  }

  function Relax(mine: Option<Route>, from: NodeId, metric: u32, cost: u32): Option<Route> {
    if !Reported(mine, from, metric, cost) then mine
    else if metric >= INFINITY then Some(mine.value.(metric := INFINITY, poisoned := true))
    else Some(LearnedRoute(from, SaturatingAdd(metric, cost)))
  }

  // ---- A whole update, in the order it arrives ----

  function ApplyOne(t: Table, ad: Advert, from: NodeId, cost: u32): Table {
    var r := Relax(Lookup(t, ad.0), from, ad.1, cost);
    if r.Some? then t[ad.0 := r.value] else t
  }

  function ApplyAll(t: Table, ads: seq<Advert>, from: NodeId, cost: u32): Table {
    if ads == [] then t
    else ApplyOne(ApplyAll(t, ads[..|ads| - 1], from, cost), ads[|ads| - 1], from, cost)
  }

  function ChangesOf(t: Table, ads: seq<Advert>, from: NodeId, cost: u32): seq<Change> {
    if ads == [] then []
    else
      var earlier := ads[..|ads| - 1];
      var (c, m) := ads[|ads| - 1];
      ChangesOf(t, earlier, from, cost) +
      (if Reported(Lookup(ApplyAll(t, earlier, from, cost), c), from, m, cost)
       then [Change(c, if m >= INFINITY then INFINITY else SaturatingAdd(m, cost), from)] else [])
  }

  // ---- The same update as a map, with no order ----

  /** Split horizon with poison reverse: routes through the receiver are sent as INFINITY, dead ones not at all. */
  function Advertised(t: Table, to: NodeId): map<Cidr, u32> {
    map c | c in t && t[c].metric < INFINITY :: if t[c].nextHop == to then INFINITY else t[c].metric
  }

  function MergeAt(t: Table, adv: map<Cidr, u32>, from: NodeId, cost: u32, c: Cidr): Option<Route> {
    if c in adv then Relax(Lookup(t, c), from, adv[c], cost) else Lookup(t, c)
  }

  function Merge(t: Table, adv: map<Cidr, u32>, from: NodeId, cost: u32): Table {
    map c | c in t.Keys + adv.Keys && MergeAt(t, adv, from, cost, c).Some? :: MergeAt(t, adv, from, cost, c).value
  }

  /** ads is a listing of the map adv in some order. */
  ghost predicate Lists(ads: seq<Advert>, adv: map<Cidr, u32>) {
    && (forall i :: 0 <= i < |ads| ==> ads[i].0 in adv && adv[ads[i].0] == ads[i].1)
    && (forall i, j :: 0 <= i < j < |ads| ==> ads[i].0 != ads[j].0)
    && (forall c :: c in adv ==> exists i :: 0 <= i < |ads| && ads[i].0 == c)
  }

  lemma ListedPairs(ads: seq<Advert>, adv: map<Cidr, u32>)
    requires Lists(ads, adv)
    ensures forall c, m :: (c, m) in ads <==> c in adv && adv[c] == m
  {
    forall c, m
      ensures (c, m) in ads <==> c in adv && adv[c] == m
    {
      if c in adv && adv[c] == m {
        var i :| 0 <= i < |ads| && ads[i].0 == c;
        assert ads[i] == (c, m);
      }
    }
  }

  lemma {:induction false} ApplyAllAt(t: Table, ads: seq<Advert>, from: NodeId, cost: u32, c: Cidr)
    requires forall i, j :: 0 <= i < j < |ads| ==> ads[i].0 != ads[j].0
    ensures forall i :: 0 <= i < |ads| && ads[i].0 == c ==>
                          Lookup(ApplyAll(t, ads, from, cost), c) == Relax(Lookup(t, c), from, ads[i].1, cost)
    ensures (forall i :: 0 <= i < |ads| ==> ads[i].0 != c) ==> Lookup(ApplyAll(t, ads, from, cost), c) == Lookup(t, c)
    decreases |ads|
  {
    if ads == [] {
    } else {
      var earlier := ads[..|ads| - 1];
      ApplyAllAt(t, earlier, from, cost, c);
      if ads[|ads| - 1].0 == c {
        assert forall i :: 0 <= i < |earlier| ==> earlier[i].0 != c;
      } else {
        forall i | 0 <= i < |ads| && ads[i].0 == c
          ensures Lookup(ApplyAll(t, ads, from, cost), c) == Relax(Lookup(t, c), from, ads[i].1, cost)
        {
          assert earlier[i] == ads[i];
        }
      }
    }
  }

  /** The order in which a hash map lists its entries has no influence on the receiver's table. */
  lemma OrderIsIrrelevant(t: Table, ads: seq<Advert>, adv: map<Cidr, u32>, from: NodeId, cost: u32)
    requires Lists(ads, adv)
    ensures ApplyAll(t, ads, from, cost) == Merge(t, adv, from, cost)
  {
    var u, v := ApplyAll(t, ads, from, cost), Merge(t, adv, from, cost);
    forall c
      ensures Lookup(u, c) == Lookup(v, c)
    {
      ApplyAllAt(t, ads, from, cost, c);
      assert Lookup(v, c) == MergeAt(t, adv, from, cost, c);
      if c in adv {
        var i :| 0 <= i < |ads| && ads[i].0 == c;
      }
    }
    forall c
      ensures c in u <==> c in v
      ensures c in u ==> u[c] == v[c]
    {
      assert Lookup(u, c) == Lookup(v, c);
    }
  }

  /** The change list is empty exactly when no advertised destination is reported. */
  lemma {:induction false} EmptyChangeList(t: Table, ads: seq<Advert>, from: NodeId, cost: u32)
    requires forall i, j :: 0 <= i < j < |ads| ==> ads[i].0 != ads[j].0
    ensures ChangesOf(t, ads, from, cost) == [] <==>
            forall i :: 0 <= i < |ads| ==> !Reported(Lookup(t, ads[i].0), from, ads[i].1, cost)
    decreases |ads|
  {
    if ads == [] {
    } else {
      var n := |ads| - 1;
      var earlier := ads[..n];
      EmptyChangeList(t, earlier, from, cost);
      ApplyAllAt(t, earlier, from, cost, ads[n].0);
      assert Lookup(ApplyAll(t, earlier, from, cost), ads[n].0) == Lookup(t, ads[n].0);
      assert forall i :: 0 <= i < n ==> earlier[i] == ads[i];
      assert ChangesOf(t, ads, from, cost) == [] <==>
             ChangesOf(t, earlier, from, cost) == [] && !Reported(Lookup(t, ads[n].0), from, ads[n].1, cost);
    }
  }

  /** Whatever arrives, in whatever order and however often, an empty change list means an untouched table. */
  lemma {:induction false} NoChangeNoEffect(t: Table, ads: seq<Advert>, from: NodeId, cost: u32)
    requires ChangesOf(t, ads, from, cost) == []
    ensures ApplyAll(t, ads, from, cost) == t
    decreases |ads|
  {
    if ads == [] {
    } else {
      NoChangeNoEffect(t, ads[..|ads| - 1], from, cost);
    }
  }

  // ---- What an update does to one metric ----

  /** The advert comes from the current next hop, which is believed: it is worse than before, or a withdrawal. */
  predicate RaisedBy(r: Route, from: NodeId, metric: u32, cost: u32) {
    r.nextHop == from &&
    if metric < INFINITY then SaturatingAdd(metric, cost) > r.metric else !r.connected && r.metric < INFINITY
  }

  /** For all tables and updates no entry is lost, and a metric rises exactly when the next hop raises it. */
  lemma MergeRaisesExactly(t: Table, adv: map<Cidr, u32>, from: NodeId, cost: u32, c: Cidr)
    requires c in t
    ensures c in Merge(t, adv, from, cost)
    ensures Merge(t, adv, from, cost)[c].metric > t[c].metric <==> c in adv && RaisedBy(t[c], from, adv[c], cost)
  {
    assert Lookup(Merge(t, adv, from, cost), c) == MergeAt(t, adv, from, cost, c);
  }

  // ---- What one update does to one entry ----

  /** An update built from the table of a neighbour, as it reaches the receiver over a link of this cost. */
  datatype Delivery = Delivery(from: NodeId, table: Table, cost: u32)

  /** The sender has a live route for c, and not through the receiver. */
  predicate Offers(d: Delivery, to: NodeId, c: Cidr) {
    c in d.table && d.table[c].metric < 16 && d.table[c].nextHop != to
  }

  /** The sender has a live route for c through the receiver, and so sends it as unreachable. */
  predicate Poisons(d: Delivery, to: NodeId, c: Cidr) {
    c in d.table && d.table[c].metric < 16 && d.table[c].nextHop == to
  }

  function Sum(d: Delivery, c: Cidr): u32
    requires c in d.table
  {
    Min(d.table[c].metric + d.cost, 0xFFFF_FFFF)
  }

  /** The decision over the entry held. */
  predicate Takes(held: Option<Route>, d: Delivery, c: Cidr)
    requires c in d.table
  {
    match held
    case None => true
    case Some(r) => if r.nextHop == d.from then Sum(d, c) != r.metric else Sum(d, c) < r.metric
  }

  function Decided(held: Option<Route>, d: Delivery, to: NodeId, c: Cidr): Option<Route> {
    if Offers(d, to, c) && Takes(held, d, c) then Some(Route(Sum(d, c), d.from, false, false, true, false))
    else if Poisons(d, to, c) && held.Some? && held.value.nextHop == d.from && !held.value.connected
    then Some(held.value.(metric := 16, poisoned := true))
    else held
  }

  /** One exchange decides over every entry, whatever its flags, from the two tables alone. */
  lemma ExchangeDecides(t: Table, to: NodeId, d: Delivery, c: Cidr)
    ensures Lookup(Merge(t, Advertised(d.table, to), d.from, d.cost), c) == Decided(Lookup(t, c), d, to, c)
  {
    var adv := Advertised(d.table, to);
    assert Lookup(Merge(t, adv, d.from, d.cost), c) == MergeAt(t, adv, d.from, d.cost, c);
  }

  /** Two neighbours that route c through each other: one exchange in either direction kills the loop. */
  lemma TwoNodeLoopIsCut(t: Table, to: NodeId, d: Delivery, c: Cidr)
    requires c in t && t[c].nextHop == d.from && !t[c].connected
    requires c in d.table && d.table[c].nextHop == to && d.table[c].metric < 16
    ensures var t' := Merge(t, Advertised(d.table, to), d.from, d.cost);
            c in t' && t'[c].metric == 16 && t'[c].poisoned
  {
    ExchangeDecides(t, to, d, c);
  }

  // ---- Any number of updates ----

  function Deliveries(t: Table, to: NodeId, ds: seq<Delivery>): Table {
    if ds == [] then t
    else
      var d := ds[|ds| - 1];
      Merge(Deliveries(t, to, ds[..|ds| - 1]), Advertised(d.table, to), d.from, d.cost)
  }

  /** The next hop says nothing of c, or repeats itself; anyone else offers nothing better. */
  predicate NoNews(d: Delivery, to: NodeId, r: Route, c: Cidr) {
    && (Offers(d, to, c) ==> if d.from == r.nextHop then Sum(d, c) == r.metric else Sum(d, c) >= r.metric)
    && (Poisons(d, to, c) && d.from == r.nextHop ==> r.connected || (r.metric == 16 && r.poisoned))
  }

  /** The entry for c is r from the start and after each of the updates. */
  predicate Keeps(t: Table, to: NodeId, ds: seq<Delivery>, r: Route, c: Cidr) {
    Lookup(Deliveries(t, to, ds), c) == Some(r) && (ds == [] || Keeps(t, to, ds[..|ds| - 1], r, c))
  }

  /** Any entry, learned, connected or poisoned, stands through any number of updates exactly when none is news. */
  lemma {:induction false} KeptExactly(t: Table, to: NodeId, ds: seq<Delivery>, r: Route, c: Cidr)
    requires Lookup(t, c) == Some(r)
    ensures Keeps(t, to, ds, r, c) <==> forall i :: 0 <= i < |ds| ==> NoNews(ds[i], to, r, c)
    decreases |ds|
  {
    if ds == [] {
    } else {
      var earlier, d := ds[..|ds| - 1], ds[|ds| - 1];
      KeptExactly(t, to, earlier, r, c);
      KeptOnceMore(t, to, ds, r, c);
      assert ds == earlier + [d];
      NoNewsSoFar(earlier, d, to, r, c);
    }
  }

  lemma KeptOnceMore(t: Table, to: NodeId, ds: seq<Delivery>, r: Route, c: Cidr)
    requires ds != []
    ensures var earlier, d := ds[..|ds| - 1], ds[|ds| - 1];
            Keeps(t, to, ds, r, c) <==> Keeps(t, to, earlier, r, c) && NoNews(d, to, r, c)
  {
    var earlier, d := ds[..|ds| - 1], ds[|ds| - 1];
    if Keeps(t, to, earlier, r, c) {
      ExchangeDecides(Deliveries(t, to, earlier), to, d, c);
    }
  }

  lemma NoNewsSoFar(earlier: seq<Delivery>, d: Delivery, to: NodeId, r: Route, c: Cidr)
    ensures (forall i :: 0 <= i < |earlier + [d]| ==> NoNews((earlier + [d])[i], to, r, c)) <==>
            (forall i :: 0 <= i < |earlier| ==> NoNews(earlier[i], to, r, c)) && NoNews(d, to, r, c)
  {
    var all := earlier + [d];
    assert all[|earlier|] == d && forall i :: 0 <= i < |earlier| ==> all[i] == earlier[i];
  }

  lemma {:induction false} KeptTillNow(t: Table, to: NodeId, ds: seq<Delivery>, r: Route, c: Cidr, i: nat)
    requires Lookup(t, c) == Some(r) && i <= |ds| && forall j :: 0 <= j < i ==> NoNews(ds[j], to, r, c)
    ensures Lookup(Deliveries(t, to, ds[..i]), c) == Some(r)
    decreases i
  {
    if i == 0 {
    } else {
      KeptTillNow(t, to, ds, r, c, i - 1);
      assert ds[..i][..i - 1] == ds[..i - 1];
      ExchangeDecides(Deliveries(t, to, ds[..i - 1]), to, ds[i - 1], c);
    }
  }

  /**
   * The first news replaces the entry: by the offer, or by the same route poisoned.
   */
  lemma FirstNewsReplaces(t: Table, to: NodeId, ds: seq<Delivery>, r: Route, c: Cidr, i: nat)
    requires Lookup(t, c) == Some(r) && i < |ds| && !NoNews(ds[i], to, r, c)
    requires forall j :: 0 <= j < i ==> NoNews(ds[j], to, r, c)
    ensures Lookup(Deliveries(t, to, ds[..i + 1]), c) ==
            Some(if Offers(ds[i], to, c) then Route(Sum(ds[i], c), ds[i].from, false, false, true, false)
                 else r.(metric := 16, poisoned := true))
  {
    KeptTillNow(t, to, ds, r, c, i);
    assert ds[..i + 1][..i] == ds[..i];
    ExchangeDecides(Deliveries(t, to, ds[..i]), to, ds[i], c);
  }

  /**
   * A dead route is never advertised. However many updates the next hop of r sends after its own entry has died, the
   * receiver goes on routing through it, until somebody else offers a better route: the protocol as written does not
   * withdraw.
   */
  lemma WithdrawalIsNotPropagated(t: Table, to: NodeId, ds: seq<Delivery>, r: Route, c: Cidr)
    requires Lookup(t, c) == Some(r)
    requires forall i :: 0 <= i < |ds| && ds[i].from == r.nextHop ==>
                           c in ds[i].table && ds[i].table[c].metric >= 16
    ensures Keeps(t, to, ds, r, c) <==>
            forall i :: 0 <= i < |ds| && ds[i].from != r.nextHop ==> NoNews(ds[i], to, r, c)
  {
    KeptExactly(t, to, ds, r, c);
  }

  /** An offer below 16, or any offer but 16 of the next hop itself. */
  predicate Revives(d: Delivery, to: NodeId, r: Route, c: Cidr) {
    Offers(d, to, c) && (Sum(d, c) < 16 || (d.from == r.nextHop && Sum(d, c) != 16))
  }

  /**
   * A poisoned entry stays dead through any number of updates exactly as long as none of them revives it, and the first
   * one that does is taken, from whomever it comes.
   */
  lemma PoisonedComesBack(t: Table, to: NodeId, ds: seq<Delivery>, r: Route, c: Cidr)
    requires Lookup(t, c) == Some(r) && r.metric == 16 && r.poisoned && !r.connected
    ensures Keeps(t, to, ds, r, c) <==> forall i :: 0 <= i < |ds| ==> !Revives(ds[i], to, r, c)
    ensures forall i {:trigger Revives(ds[i], to, r, c)} ::
              0 <= i < |ds| && Revives(ds[i], to, r, c) && (forall j :: 0 <= j < i ==> !Revives(ds[j], to, r, c)) ==>
                Lookup(Deliveries(t, to, ds[..i + 1]), c) ==
                Some(Route(Sum(ds[i], c), ds[i].from, false, false, true, false))
  {
    KeptExactly(t, to, ds, r, c);
    assert forall i :: 0 <= i < |ds| ==> (NoNews(ds[i], to, r, c) <==> !Revives(ds[i], to, r, c));
    forall i | 0 <= i < |ds| && Revives(ds[i], to, r, c) && forall j :: 0 <= j < i ==> !Revives(ds[j], to, r, c)
      ensures Lookup(Deliveries(t, to, ds[..i + 1]), c) ==
              Some(Route(Sum(ds[i], c), ds[i].from, false, false, true, false))
    {
      FirstNewsReplaces(t, to, ds, r, c, i);
    }
  }

  // ---- The change list ----

  /** The last change that names c. */
  function LastChange(changes: seq<Change>, c: Cidr): Option<Change> {
    if changes == [] then None
    else if changes[|changes| - 1].cidr == c then Some(changes[|changes| - 1])
    else LastChange(changes[..|changes| - 1], c)
  }

  lemma LastOfMore(changes: seq<Change>, ch: Change, c: Cidr)
    ensures LastChange(changes + [ch], c) == if ch.cidr == c then Some(ch) else LastChange(changes, c)
  {
  }

  /**
   * Whatever arrives, repetitions included: a destination that no change names is untouched, and the last change that
   * names it tells the metric and the next hop of its new entry, the peer that sent the update.
   */
  lemma {:induction false} ChangesTellTheTable(t: Table, ads: seq<Advert>, from: NodeId, cost: u32, c: Cidr)
    ensures var last, entry := LastChange(ChangesOf(t, ads, from, cost), c), Lookup(ApplyAll(t, ads, from, cost), c);
            && (last.None? ==> entry == Lookup(t, c))
            && (last.Some? ==> last.value.peer == from && entry.Some? &&
                               entry.value.metric == last.value.metric && entry.value.nextHop == from)
    decreases |ads|
  {
    if ads == [] {
    } else {
      var earlier, ad := ads[..|ads| - 1], ads[|ads| - 1];
      var before, changes := ApplyAll(t, earlier, from, cost), ChangesOf(t, earlier, from, cost);
      ChangesTellTheTable(t, earlier, from, cost, c);
      if Reported(Lookup(before, ad.0), from, ad.1, cost) {
        var m := if ad.1 >= INFINITY then INFINITY else SaturatingAdd(ad.1, cost);
        assert ChangesOf(t, ads, from, cost) == changes + [Change(ad.0, m, from)];
        LastOfMore(changes, Change(ad.0, m, from), c);
      } else {
        assert ChangesOf(t, ads, from, cost) == changes + [] == changes;
      }
    }
  }

  // ---- The bound promised for unpoisoned metrics ----

  ghost predicate Bounded(t: Table) {
    forall c :: c in t ==> t[c].poisoned || t[c].metric < INFINITY
  }

  /** A live advert whose metric only reaches 16 when the link cost is added is stored unpoisoned. */
  ghost predicate Overshoots(t: Table, adv: map<Cidr, u32>, from: NodeId, cost: u32) {
    exists c :: c in adv && adv[c] < INFINITY <= SaturatingAdd(adv[c], cost) &&
                Improves(Lookup(t, c), from, SaturatingAdd(adv[c], cost))
  }

  /** "No unpoisoned metric of 16 or more" survives an update exactly when no advert overshoots. */
  lemma BoundedExactly(t: Table, adv: map<Cidr, u32>, from: NodeId, cost: u32)
    requires Bounded(t)
    ensures Bounded(Merge(t, adv, from, cost)) <==> !Overshoots(t, adv, from, cost)
  {
    var t' := Merge(t, adv, from, cost);
    forall c
      ensures Lookup(t', c) == MergeAt(t, adv, from, cost, c)
    {
    }
    if Overshoots(t, adv, from, cost) {
      var c :| c in adv && adv[c] < INFINITY <= SaturatingAdd(adv[c], cost) &&
               Improves(Lookup(t, c), from, SaturatingAdd(adv[c], cost));
      assert Lookup(t', c) == Some(LearnedRoute(from, SaturatingAdd(adv[c], cost)));
      assert c in t';
    } else {
      forall c | c in t'
        ensures t'[c].poisoned || t'[c].metric < INFINITY
      {
        assert Lookup(t', c) == MergeAt(t, adv, from, cost, c);
      }
    }
  }

  /** 15 + 1: the smallest overshoot. */
  lemma BoundedCanFail()
    ensures !Bounded(Merge(map[], map["10.0.0.0/8" := 15], "b", 1))
  {
    var adv: map<Cidr, u32> := map["10.0.0.0/8" := 15];
    assert "10.0.0.0/8" in adv;
    assert Overshoots(map[], adv, "b", 1);
    BoundedExactly(map[], adv, "b", 1);
  }

  // ---- The engine of one node ----

  class DistanceVector {
    const nodeId: NodeId
    var routes: Table

    constructor (nodeId: NodeId)
      ensures this.nodeId == nodeId && routes == map[]
    {
      this.nodeId := nodeId;
      routes := map[];
    }

    method AddConnectedRoute(cidr: Cidr, metric: u32)
      modifies this
      ensures routes == old(routes)[cidr := ConnectedRoute(nodeId, metric)]
      ensures routes[cidr] == Route(metric, nodeId, false, true, false, false)
    {
      routes := routes[cidr := Route(metric, nodeId, false, true, false, false)];
    }

    method ProcessUpdate(fromPeer: NodeId, peerRoutes: seq<Advert>, hopCost: u32) returns (changes: seq<Change>)
      modifies this
      ensures routes == ApplyAll(old(routes), peerRoutes, fromPeer, hopCost)
      ensures changes == ChangesOf(old(routes), peerRoutes, fromPeer, hopCost)
    {
      changes := [];
      for i := 0 to |peerRoutes|
        invariant routes == ApplyAll(old(routes), peerRoutes[..i], fromPeer, hopCost)
        invariant changes == ChangesOf(old(routes), peerRoutes[..i], fromPeer, hopCost)
      {
        assert peerRoutes[..i + 1][..i] == peerRoutes[..i];
        var (cidr, peerMetric) := peerRoutes[i];
        var newMetric := SaturatingAdd(peerMetric, hopCost);
        if peerMetric >= INFINITY {
          if cidr in routes {
            var mine := routes[cidr];
            if mine.nextHop == fromPeer && !mine.connected {
              routes := routes[cidr := mine.(metric := INFINITY, poisoned := true)];
              changes := changes + [Change(cidr, INFINITY, fromPeer)];
            }
          }
        } else {
          var shouldUpdate := true;
          if cidr in routes {
            var existing := routes[cidr];
            if existing.nextHop == fromPeer {
              shouldUpdate := newMetric != existing.metric;
            } else {
              shouldUpdate := newMetric < existing.metric;
            }
          }
          if shouldUpdate {
            routes := routes[cidr := Route(newMetric, fromPeer, false, false, true, false)];
            changes := changes + [Change(cidr, newMetric, fromPeer)];
          }
        }
      }
      assert peerRoutes[..|peerRoutes|] == peerRoutes;
    }

    method BuildUpdate(toPeer: NodeId) returns (update: seq<Advert>)
      ensures Lists(update, Advertised(routes, toPeer))
      ensures forall c, m :: (c, m) in update <==>
                c in routes && routes[c].metric < 16 &&
                m == if routes[c].nextHop == toPeer then 16 else routes[c].metric
    {
      update := [];
      var todo := routes.Keys;
      while todo != {}
        invariant todo <= routes.Keys
        invariant forall i :: 0 <= i < |update| ==>
                    && update[i].0 !in todo
                    && update[i].0 in Advertised(routes, toPeer)
                    && Advertised(routes, toPeer)[update[i].0] == update[i].1
        invariant forall i, j :: 0 <= i < j < |update| ==> update[i].0 != update[j].0
        invariant forall c :: c in Advertised(routes, toPeer) && c !in todo ==>
                    exists i :: 0 <= i < |update| && update[i].0 == c
      {
        var cidr :| cidr in todo;
        todo := todo - {cidr};
        var route := routes[cidr];
        ghost var before := update;
        if route.metric < INFINITY {
          update := update + [(cidr, if route.nextHop == toPeer then INFINITY else route.metric)];
          assert update[|before|].0 == cidr;
        }
        forall c | c in Advertised(routes, toPeer) && c !in todo
          ensures exists i :: 0 <= i < |update| && update[i].0 == c
        {
          if c != cidr {
            var i :| 0 <= i < |before| && before[i].0 == c;
            assert update[i].0 == c;
          }
        }
      }
      ListedPairs(update, Advertised(routes, toPeer));
    }
  }

  /** One exchange: the receiver processes the update the sender builds for it. */
  method Exchange(receiver: DistanceVector, sender: DistanceVector, hopCost: u32) returns (changes: seq<Change>)
    requires receiver != sender
    modifies receiver
    ensures receiver.routes ==
            Merge(old(receiver.routes), Advertised(sender.routes, receiver.nodeId), sender.nodeId, hopCost)
    ensures changes == [] ==> receiver.routes == old(receiver.routes)
    ensures changes == [] <==> forall c :: c in Advertised(sender.routes, receiver.nodeId) ==>
                                 !Reported(Lookup(old(receiver.routes), c), sender.nodeId,
                                           Advertised(sender.routes, receiver.nodeId)[c], hopCost)
  {
    var update := sender.BuildUpdate(receiver.nodeId);
    ghost var adv := Advertised(sender.routes, receiver.nodeId);
    ghost var before := receiver.routes;
    changes := receiver.ProcessUpdate(sender.nodeId, update, hopCost);
    OrderIsIrrelevant(before, update, adv, sender.nodeId, hopCost);
    EmptyChangeList(before, update, sender.nodeId, hopCost);
    if changes == [] {
      NoChangeNoEffect(before, update, sender.nodeId, hopCost);
    }
    assert forall i :: 0 <= i < |update| ==> update[i].0 in adv && adv[update[i].0] == update[i].1;
  }
}
