/**
 * The overlay route table: per-CIDR route lists kept in place, longest-prefix lookup, and ECMP groups.
 * The map is visited in an arbitrary order.
 */
module Router {
  import opened Common
  import opened Sorting

  type PeerId = string

  type Ip = x: int | 0 <= x < 0x1_0000_0000

  type PrefixLen = x: int | 0 <= x <= 32

  /** addr may carry host bits; a canonical network has none. */
  datatype Cidr = Cidr(addr: Ip, len: PrefixLen)

  datatype RouteType = Direct | Static | Mesh | Default

  datatype Route = Route(cidr: Cidr, peer: PeerId, metric: u32, adminDistance: byte, routeType: RouteType, active: bool)

  datatype Group = Group(cidr: Cidr, routes: seq<Route>, nextIdx: nat)

  datatype State = State(routes: map<Cidr, seq<Route>>, ecmp: map<Cidr, Group>, default: Option<Route>)

  // ---- Networks ----

  predicate Contains(c: Cidr, ip: Ip) {
    ip / Pow2(32 - c.len) == c.addr / Pow2(32 - c.len)
  }

  predicate Canonical(c: Cidr) {
    c.addr % Pow2(32 - c.len) == 0
  }

  /** Two canonical networks of one length that share an address are the same network. */
  lemma CanonicalIsUnique(c: Cidr, d: Cidr, ip: Ip)
    requires Canonical(c) && Canonical(d) && c.len == d.len && Contains(c, ip) && Contains(d, ip)
    ensures c == d
  {
  }

  /** Bit j of an address, counted from the lowest. */
  function Bit(x: Ip, j: nat): int {
    (x / Pow2(j)) % 2
  }

  lemma {:induction false} SameHighBits(a: Ip, b: Ip, k: nat)
    requires k <= 32
    ensures a / Pow2(k) == b / Pow2(k) <==> forall j :: k <= j < 32 ==> Bit(a, j) == Bit(b, j)
    decreases 32 - k
  {
    if k == 32 {
      PowTop();
    } else {
      SameHighBits(a, b, k + 1);
      DivideTwice(a, Pow2(k), 2);
      DivideTwice(b, Pow2(k), 2);
      assert Bit(a, k) == (a / Pow2(k)) % 2 && Bit(b, k) == (b / Pow2(k)) % 2;
    }
  }

  lemma PowTop()
    ensures Pow2(32) == 0x1_0000_0000
  {
    assert Pow2(8) == 256;
    assert Pow2(16) == 256 * Pow2(8);
    assert Pow2(24) == 256 * Pow2(16);
    assert Pow2(32) == 256 * Pow2(24);
  }

  /** The first len bits agree. */
  ghost predicate Covers(c: Cidr, ip: Ip) {
    forall j :: 32 - c.len <= j < 32 ==> Bit(ip, j) == Bit(c.addr, j)
  }

  /** A network contains the addresses that share its first bits; a canonical one, those from its own address on. */
  lemma ContainsExactly(c: Cidr, ip: Ip)
    ensures Contains(c, ip) <==> Covers(c, ip)
    ensures Canonical(c) ==> (Contains(c, ip) <==> c.addr <= ip < c.addr + Pow2(32 - c.len))
  {
    SameHighBits(ip, c.addr, 32 - c.len);
    if Canonical(c) {
      InBlock(ip, c.addr, Pow2(32 - c.len));
    }
  }

  lemma InBlock(x: nat, start: nat, p: nat)
    requires p > 0 && start % p == 0
    ensures x / p == start / p <==> start <= x < start + p
  {
    var q := start / p;
    assert start == p * q && x == p * (x / p) + x % p;
    if start <= x < start + p {
      QuotientIs(x, p, q, x - start);
    }
  }

  // ---- Route lists ----

  function Metric(): Route -> int {
    (r: Route) => r.metric
  }

  function PeerOf(): Route -> PeerId {
    (r: Route) => r.peer
  }

  function NotPeer(p: PeerId): Route -> bool {
    (r: Route) => r.peer != p
  }

  function ActiveAt(metric: u32): Route -> bool {
    (r: Route) => r.metric == metric && r.active
  }

  function Without(l: seq<Route>, p: PeerId): seq<Route> {
    Keep(l, NotPeer(p))
  }

  function WithActive(l: seq<Route>, p: PeerId, active: bool): (r: seq<Route>) {
    seq(|l|, i requires 0 <= i < |l| => if l[i].peer == p then l[i].(active := active) else l[i])
  }

  function WithMetric(l: seq<Route>, p: PeerId, metric: u32): (r: seq<Route>) {
    seq(|l|, i requires 0 <= i < |l| => if l[i].peer == p then l[i].(metric := metric) else l[i])
  }

  /** What every stored list satisfies: non-empty, all for this CIDR, sorted by metric, one route per peer. */
  ghost predicate ListOk(c: Cidr, l: seq<Route>) {
    && l != []
    && (forall i :: 0 <= i < |l| ==> l[i].cidr == c)
    && SortedBy(l, Metric())
    && DistinctOn(l, PeerOf())
  }

  /** The first active entry is at place i. */
  predicate FirstActiveAt(l: seq<Route>, i: nat) {
    i < |l| && l[i].active && forall j :: 0 <= j < i ==> !l[j].active
  }

  function FirstActive(l: seq<Route>): (r: Option<Route>)
    ensures r.None? <==> forall i :: 0 <= i < |l| ==> !l[i].active
    ensures r.Some? ==> exists i: nat :: FirstActiveAt(l, i) && l[i] == r.value
  {
    if l == [] then None
    else if l[0].active then
      assert FirstActiveAt(l, 0);
      Some(l[0])
    else
      var r := FirstActive(l[1..]);
      assert r.Some? ==> exists i: nat :: FirstActiveAt(l, i) && l[i] == r.value by {
        if r.Some? {
          var i: nat :| FirstActiveAt(l[1..], i) && l[1..][i] == r.value;
          assert FirstActiveAt(l, i + 1);
        }
      }
      r
  }

  // ---- Operations and runs ----

  datatype Op =
    | AddRoute(route: Route)
    | RemoveRoute(cidr: Cidr, peer: PeerId)
    | SetActive(peer: PeerId, active: bool)
    | UpdateMetric(cidr: Cidr, peer: PeerId, metric: u32)
    | SetDefaultRoute(route: Route)
    | Flush

  function ListOf(s: State, c: Cidr): seq<Route> {
    if c in s.routes then s.routes[c] else []
  }

  function Added(l: seq<Route>, r: Route): seq<Route> {
    StableSort(Without(l, r.peer) + [r], Metric())
  }

  /** The active routes whose metric equals that of the first entry. */
  function BestActive(l: seq<Route>): seq<Route> {
    if l == [] then [] else Keep(l, ActiveAt(l[0].metric))
  }

  function Apply(s: State, op: Op): State {
    match op
    case AddRoute(r) =>
      var l := Added(ListOf(s, r.cidr), r);
      var best := BestActive(l);
      s.(routes := s.routes[r.cidr := l],
         ecmp := if |best| > 1 then s.ecmp[r.cidr := Group(r.cidr, best, 0)] else s.ecmp)
    case RemoveRoute(c, p) =>
      if c !in s.routes then s
      else
        var l := Without(s.routes[c], p);
        s.(routes := if l == [] then s.routes - {c} else s.routes[c := l])
    case SetActive(p, active) => s.(routes := map c | c in s.routes :: WithActive(s.routes[c], p, active))
    case UpdateMetric(c, p, m) =>
      if c !in s.routes then s
      else s.(routes := s.routes[c := StableSort(WithMetric(s.routes[c], p, m), Metric())])
    case SetDefaultRoute(r) => s.(default := Some(r))
    case Flush => s.(routes := map[], ecmp := map[])
  }

  function Run(ops: seq<Op>): State {
    if ops == [] then State(map[], map[], None) else Apply(Run(ops[..|ops| - 1]), ops[|ops| - 1])
  }

  lemma WithoutOk(c: Cidr, l: seq<Route>, p: PeerId)
    requires l == [] || ListOk(c, l)
    ensures var r := Without(l, p);
            && (r == [] || ListOk(c, r))
            && forall i :: 0 <= i < |r| ==> r[i].peer != p
  {
    var r := Without(l, p);
    KeepPairs(l, NotPeer(p), (x: Route, y: Route) => x.metric <= y.metric);
    KeepPairs(l, NotPeer(p), (x: Route, y: Route) => x.peer != y.peer);
    forall i | 0 <= i < |r|
      ensures r[i].peer != p && r[i].cidr == c
    {
      KeepMembers(l, NotPeer(p), r[i]);
    }
  }

  /** Sorting keeps the members of a list, and each of them once. */
  lemma SortOk(c: Cidr, l: seq<Route>)
    requires l != [] && DistinctOn(l, PeerOf()) && forall i :: 0 <= i < |l| ==> l[i].cidr == c
    ensures ListOk(c, StableSort(l, Metric()))
  {
    var r := StableSort(l, Metric());
    SortSorts(l, Metric());
    forall i | 0 <= i < |r|
      ensures r[i].cidr == c
    {
      SortMembers(l, Metric(), r[i]);
    }
    DistinctPermutes(l, r, PeerOf());
  }

  lemma AddedOk(c: Cidr, l: seq<Route>, r: Route)
    requires (l == [] || ListOk(c, l)) && r.cidr == c
    ensures ListOk(c, Added(l, r))
  {
    WithoutOk(c, l, r.peer);
    SortOk(c, Without(l, r.peer) + [r]);
  }

  ghost predicate TableOk(s: State) {
    forall c :: c in s.routes ==> ListOk(c, s.routes[c])
  }

  lemma {:induction false} RunsAreOk(ops: seq<Op>)
    ensures TableOk(Run(ops))
    decreases |ops|
  {
    if ops == [] {
    } else {
      var s, op, s' := Run(ops[..|ops| - 1]), ops[|ops| - 1], Run(ops);
      RunsAreOk(ops[..|ops| - 1]);
      forall c | c in s'.routes
        ensures ListOk(c, s'.routes[c])
      {
        StepOk(s, op, c);
      }
    }
  }

  lemma StepOk(s: State, op: Op, c: Cidr)
    requires TableOk(s) && c in Apply(s, op).routes
    ensures ListOk(c, Apply(s, op).routes[c])
  {
    var l := ListOf(s, c);
    assert l == [] || ListOk(c, l);
    match op {
      case AddRoute(r) => if c == r.cidr { AddedOk(c, l, r); }
      case RemoveRoute(d, p) => if c == d { WithoutOk(c, l, p); }
      case SetActive(p, active) => WithActiveOk(c, l, p, active);
      case UpdateMetric(d, p, m) => if c == d { WithMetricOk(c, l, p, m); }
      case _ =>
    }
  }

  lemma WithActiveOk(c: Cidr, l: seq<Route>, p: PeerId, active: bool)
    requires ListOk(c, l)
    ensures ListOk(c, WithActive(l, p, active))
  {
    var r := WithActive(l, p, active);
    forall i | 0 <= i < |r|
      ensures Metric()(r[i]) == Metric()(l[i]) && PeerOf()(r[i]) == PeerOf()(l[i]) && r[i].cidr == l[i].cidr
    {
    }
  }

  lemma WithMetricOk(c: Cidr, l: seq<Route>, p: PeerId, metric: u32)
    requires ListOk(c, l)
    ensures ListOk(c, StableSort(WithMetric(l, p, metric), Metric()))
  {
    var r := WithMetric(l, p, metric);
    forall i | 0 <= i < |r|
      ensures PeerOf()(r[i]) == PeerOf()(l[i]) && r[i].cidr == l[i].cidr
    {
    }
    SortOk(c, r);
  }

  // ---- Lookup ----

  /** A stored CIDR of at least minLen bits that holds the address and has an active route. */
  ghost predicate Usable(s: State, ip: Ip, minLen: nat, c: Cidr) {
    c in s.routes && c.len >= minLen && Contains(c, ip) && FirstActive(s.routes[c]).Some?
  }

  /** res is the first active route of a longest usable CIDR, or the default when there is none. */
  ghost predicate LongestMatch(s: State, ip: Ip, minLen: nat, res: Option<Route>) {
    if AnyUsable(s, ip, minLen) then
      exists c :: Usable(s, ip, minLen, c) && res == FirstActive(s.routes[c]) &&
                  forall d :: Usable(s, ip, minLen, d) ==> d.len <= c.len
    else res == s.default
  }

  ghost predicate AllCanonical(s: State) {
    forall c :: c in s.routes ==> Canonical(c)
  }

  lemma {:induction false} CanonicalRuns(ops: seq<Op>)
    requires forall i :: 0 <= i < |ops| && ops[i].AddRoute? ==> Canonical(ops[i].route.cidr)
    ensures AllCanonical(Run(ops))
    decreases |ops|
  {
    if ops == [] {
    } else {
      CanonicalRuns(ops[..|ops| - 1]);
    }
  }

  /** With canonical networks the result does not depend on the order in which the map is visited. */
  lemma LookupIsDetermined(s: State, ip: Ip, minLen: nat, a: Option<Route>, b: Option<Route>)
    requires AllCanonical(s) && LongestMatch(s, ip, minLen, a) && LongestMatch(s, ip, minLen, b)
    ensures a == b
  {
    if AnyUsable(s, ip, minLen) {
      var c :| Usable(s, ip, minLen, c) && a == FirstActive(s.routes[c]) &&
               forall d :: Usable(s, ip, minLen, d) ==> d.len <= c.len;
      var e :| Usable(s, ip, minLen, e) && b == FirstActive(s.routes[e]) &&
               forall d :: Usable(s, ip, minLen, d) ==> d.len <= e.len;
      CanonicalIsUnique(c, e, ip);
    }
  }

  ghost predicate AnyUsable(s: State, ip: Ip, minLen: nat) {
    exists c :: Usable(s, ip, minLen, c)
  }

  /** r is an active route of a longest usable network, and no active route of that network has a lower metric. */
  ghost predicate Best(s: State, ip: Ip, minLen: nat, r: Route) {
    && r.active && Usable(s, ip, minLen, r.cidr) && r in s.routes[r.cidr]
    && (forall d :: Usable(s, ip, minLen, d) ==> d.len <= r.cidr.len)
    && (forall q :: q in s.routes[r.cidr] && q.active ==> r.metric <= q.metric)
  }

  /** In every run lookup finds a best route when any network is usable, and the default otherwise. */
  lemma LookupIsBest(ops: seq<Op>, ip: Ip, minLen: nat, res: Option<Route>)
    ensures LongestMatch(Run(ops), ip, minLen, res) ==>
              if AnyUsable(Run(ops), ip, minLen) then res.Some? && Best(Run(ops), ip, minLen, res.value)
              else res == Run(ops).default
  {
    var s := Run(ops);
    RunsAreOk(ops);
    if LongestMatch(s, ip, minLen, res) && AnyUsable(s, ip, minLen) {
      var c :| Usable(s, ip, minLen, c) && res == FirstActive(s.routes[c]) &&
               forall d :: Usable(s, ip, minLen, d) ==> d.len <= c.len;
      FirstActiveIsBest(c, s.routes[c]);
    }
  }

  lemma FirstActiveIsBest(c: Cidr, l: seq<Route>)
    requires ListOk(c, l) && FirstActive(l).Some?
    ensures var r := FirstActive(l).value;
            r in l && r.active && r.cidr == c && forall q :: q in l && q.active ==> r.metric <= q.metric
  {
    var i: nat :| FirstActiveAt(l, i) && l[i] == FirstActive(l).value;
    forall q | q in l && q.active
      ensures l[i].metric <= q.metric
    {
      var k :| 0 <= k < |l| && l[k] == q;
      assert i <= k;
      assert i < k ==> Metric()(l[i]) <= Metric()(l[k]);
    }
  }

  /**
   * A stored /0 entry never matches: the lookup as written (minLen 1) agrees with longest-prefix match over all
   * stored entries exactly when a longer one is usable, or no /0 entry is, or the default route is that entry's.
   */
  lemma ZeroPrefixIsIgnored(s: State, ip: Ip, res: Option<Route>)
    requires TableOk(s) && AllCanonical(s) && LongestMatch(s, ip, 1, res)
    ensures var zero := Cidr(0, 0);
            LongestMatch(s, ip, 0, res) <==>
            (AnyUsable(s, ip, 1) || !Usable(s, ip, 0, zero) || s.default == FirstActive(s.routes[zero]))
  {
    var zero := Cidr(0, 0);
    forall c | Usable(s, ip, 0, c)
      ensures c == zero || Usable(s, ip, 1, c)
    {
      if c.len == 0 {
        OnlyZero(c);
      }
    }
    if AnyUsable(s, ip, 1) {
      LongerIsEnough(s, ip, res);
    } else {
      NothingUsable(s, ip, 1, res);
      if Usable(s, ip, 0, zero) {
        LongestOfAll(s, ip, zero);
      } else {
        NothingUsable(s, ip, 0, res);
      }
    }
  }

  lemma OnlyZero(c: Cidr)
    requires Canonical(c) && c.len == 0
    ensures c == Cidr(0, 0)
  {
    PowTop();
  }

  lemma NothingUsable(s: State, ip: Ip, minLen: nat, res: Option<Route>)
    requires forall c :: !Usable(s, ip, minLen, c)
    ensures LongestMatch(s, ip, minLen, res) <==> res == s.default
  {
  }

  lemma LongerIsEnough(s: State, ip: Ip, res: Option<Route>)
    ensures LongestMatch(s, ip, 1, res) && AnyUsable(s, ip, 1) ==> LongestMatch(s, ip, 0, res)
  {
    if LongestMatch(s, ip, 1, res) && AnyUsable(s, ip, 1) {
      var c :| Usable(s, ip, 1, c) && res == FirstActive(s.routes[c]) &&
               forall d :: Usable(s, ip, 1, d) ==> d.len <= c.len;
      assert Usable(s, ip, 0, c);
      forall d | Usable(s, ip, 0, d)
        ensures d.len <= c.len
      {
        assert d.len == 0 || Usable(s, ip, 1, d);
      }
    }
  }

  lemma LongestOfAll(s: State, ip: Ip, c: Cidr)
    requires Usable(s, ip, 0, c) && forall d :: Usable(s, ip, 0, d) ==> d.len <= c.len
    requires forall d :: Usable(s, ip, 0, d) && d.len == c.len ==> d == c
    ensures forall res :: LongestMatch(s, ip, 0, res) <==> res == FirstActive(s.routes[c])
  {
  }

  // ---- What a run leaves behind ----

  /** The route of one peer for one network: the last one added, as switched and repriced since, unless removed. */
  function HeldBy(ops: seq<Op>, c: Cidr, p: PeerId): Option<Route> {
    if ops == [] then None
    else
      var before := HeldBy(ops[..|ops| - 1], c, p);
      match ops[|ops| - 1]
      case AddRoute(r) => if r.cidr == c && r.peer == p then Some(r) else before
      case RemoveRoute(d, q) => if d == c && q == p then None else before
      case SetActive(q, active) =>
        if q == p && before.Some? then Some(before.value.(active := active)) else before
      case UpdateMetric(d, q, metric) =>
        if d == c && q == p && before.Some? then Some(before.value.(metric := metric)) else before
      case SetDefaultRoute(_) => before
      case Flush => None
  }

  ghost predicate SwitchedFrom(l: seq<Route>, p: PeerId, active: bool, r: Route) {
    exists x :: x in l && r == if x.peer == p then x.(active := active) else x
  }

  ghost predicate RepricedFrom(l: seq<Route>, p: PeerId, metric: u32, r: Route) {
    exists x :: x in l && r == if x.peer == p then x.(metric := metric) else x
  }

  lemma WithActiveMembers(l: seq<Route>, p: PeerId, active: bool, r: Route)
    ensures r in WithActive(l, p, active) <==> SwitchedFrom(l, p, active, r)
  {
    var k := WithActive(l, p, active);
    if r in k {
      var i :| 0 <= i < |k| && k[i] == r;
      assert l[i] in l;
    }
    if x :| x in l && r == if x.peer == p then x.(active := active) else x {
      var i :| 0 <= i < |l| && l[i] == x;
      assert k[i] == r;
    }
  }

  lemma WithMetricMembers(l: seq<Route>, p: PeerId, metric: u32, r: Route)
    ensures r in StableSort(WithMetric(l, p, metric), Metric()) <==> RepricedFrom(l, p, metric, r)
  {
    var k := WithMetric(l, p, metric);
    SortMembers(k, Metric(), r);
    if r in k {
      var i :| 0 <= i < |k| && k[i] == r;
      assert l[i] in l;
    }
    if x :| x in l && r == if x.peer == p then x.(metric := metric) else x {
      var i :| 0 <= i < |l| && l[i] == x;
      assert k[i] == r;
    }
  }

  lemma AddedMembers(l: seq<Route>, new': Route, r: Route)
    ensures r in Added(l, new') <==> r == new' || (r in l && r.peer != new'.peer)
  {
    SortMembers(Without(l, new'.peer) + [new'], Metric(), r);
    KeepMembers(l, NotPeer(new'.peer), r);
  }

  /** The routes that an operation leaves in the list l of one network, route by route. */
  ghost predicate Leaves(l: seq<Route>, op: Op, c: Cidr, r: Route) {
    match op
    case AddRoute(x) => (x.cidr == c && r == x) || (r in l && (x.cidr == c ==> r.peer != x.peer))
    case RemoveRoute(d, p) => r in l && (d == c ==> r.peer != p)
    case SetActive(p, active) => SwitchedFrom(l, p, active, r)
    case UpdateMetric(d, p, metric) => if d == c then RepricedFrom(l, p, metric, r) else r in l
    case SetDefaultRoute(_) => r in l
    case Flush => false
  }

  lemma StepMembers(s: State, op: Op, c: Cidr, r: Route)
    ensures r in ListOf(Apply(s, op), c) <==> Leaves(ListOf(s, c), op, c, r)
  {
    match op {
      case AddRoute(x) => AddedMembers(ListOf(s, x.cidr), x, r);
      case RemoveRoute(d, p) => KeepMembers(ListOf(s, d), NotPeer(p), r);
      case SetActive(p, active) => WithActiveMembers(ListOf(s, c), p, active, r);
      case UpdateMetric(d, p, metric) => WithMetricMembers(ListOf(s, d), p, metric, r);
      case _ =>
    }
  }

  /** In every run the lists hold, for each network and peer, exactly the route of that peer's own history. */
  lemma {:induction false} RunHoldsExactly(ops: seq<Op>, r: Route)
    ensures r in ListOf(Run(ops), r.cidr) <==> HeldBy(ops, r.cidr, r.peer) == Some(r)
    decreases |ops|
  {
    if ops == [] {
    } else {
      var front, last := ops[..|ops| - 1], ops[|ops| - 1];
      StepMembers(Run(front), last, r.cidr, r);
      RunHoldsExactly(front, r);
      HeldIsKeyed(front, r.cidr, r.peer);
      forall x: Route | x.cidr == r.cidr && x.peer == r.peer
        ensures x in ListOf(Run(front), r.cidr) <==> HeldBy(front, r.cidr, r.peer) == Some(x)
      {
        RunHoldsExactly(front, x);
      }
      forall x | x in ListOf(Run(front), r.cidr)
        ensures x.cidr == r.cidr
      {
        RunsAreOk(front);
        assert ListOk(r.cidr, Run(front).routes[r.cidr]);
      }
    }
  }

  lemma {:induction false} HeldIsKeyed(ops: seq<Op>, c: Cidr, p: PeerId)
    ensures HeldBy(ops, c, p).Some? ==> HeldBy(ops, c, p).value.cidr == c && HeldBy(ops, c, p).value.peer == p
    decreases |ops|
  {
    if ops == [] {
    } else {
      HeldIsKeyed(ops[..|ops| - 1], c, p);
    }
  }

  function SetsDefault(r: Route): Op -> bool {
    op => op == SetDefaultRoute(r)
  }

  function SetsAnyDefault(): Op -> bool {
    (op: Op) => op.SetDefaultRoute?
  }

  /** The default route is the last one that was set. */
  lemma {:induction false} DefaultExactly(ops: seq<Op>, r: Route)
    ensures Run(ops).default == Some(r) <==> LastsSomewhere(ops, SetsDefault(r), SetsAnyDefault())
    decreases |ops|
  {
    if ops == [] {
    } else {
      var front, last := ops[..|ops| - 1], ops[|ops| - 1];
      DefaultExactly(front, r);
      LastsOneMore(front, last, SetsDefault(r), SetsAnyDefault());
      assert ops == front + [last];
    }
  }

  /** After the run r is some peer's route, active, for a network of at least one bit that covers the address. */
  ghost predicate Serves(ops: seq<Op>, ip: Ip, r: Route) {
    HeldBy(ops, r.cidr, r.peer) == Some(r) && r.active && r.cidr.len >= 1 && Covers(r.cidr, ip)
  }

  lemma {:induction false} ActiveIsFound(l: seq<Route>, r: Route)
    requires r in l && r.active
    ensures FirstActive(l).Some?
  {
    var i :| 0 <= i < |l| && l[i] == r;
    if i > 0 && !l[0].active {
      ActiveIsFound(l[1..], r);
    }
  }

  lemma ServingIsUsable(ops: seq<Op>, ip: Ip, r: Route)
    requires Serves(ops, ip, r)
    ensures Usable(Run(ops), ip, 1, r.cidr) && r in Run(ops).routes[r.cidr]
  {
    RunHoldsExactly(ops, r);
    ContainsExactly(r.cidr, ip);
    ActiveIsFound(ListOf(Run(ops), r.cidr), r);
  }

  /**
   * Lookup in terms of the run alone: of the routes that serve the address it returns one of a longest network, of
   * lowest metric there; with none it returns the default.
   */
  lemma LookupServes(ops: seq<Op>, ip: Ip, res: Option<Route>)
    requires LongestMatch(Run(ops), ip, 1, res)
    ensures (exists r :: Serves(ops, ip, r)) ==>
              && res.Some? && Serves(ops, ip, res.value)
              && forall q :: Serves(ops, ip, q) ==>
                   q.cidr.len <= res.value.cidr.len && (q.cidr == res.value.cidr ==> res.value.metric <= q.metric)
    ensures (forall r :: !Serves(ops, ip, r)) ==> res == Run(ops).default
  {
    var s := Run(ops);
    LookupIsBest(ops, ip, 1, res);
    if AnyUsable(s, ip, 1) {
      BestServes(ops, ip, res.value);
      forall q | Serves(ops, ip, q)
        ensures q.cidr.len <= res.value.cidr.len && (q.cidr == res.value.cidr ==> res.value.metric <= q.metric)
      {
        ServingIsUsable(ops, ip, q);
      }
    } else if r :| Serves(ops, ip, r) {
      ServingIsUsable(ops, ip, r);
      assert false;
    }
  }

  lemma BestServes(ops: seq<Op>, ip: Ip, r: Route)
    requires Best(Run(ops), ip, 1, r)
    ensures Serves(ops, ip, r)
  {
    RunHoldsExactly(ops, r);
    ContainsExactly(r.cidr, ip);
  }

  // ---- Equal-cost groups ----

  /** The group stored for c, if any, is the list of active routes of lowest metric; it may be missing. */
  ghost predicate GroupCurrent(s: State, c: Cidr) {
    c in s.ecmp ==> s.ecmp[c].routes == BestActive(ListOf(s, c)) && |s.ecmp[c].routes| > 1
  }

  /** Several active routes share the lowest metric only with their group stored. */
  ghost predicate GroupComplete(s: State, c: Cidr) {
    |BestActive(ListOf(s, c))| > 1 ==> c in s.ecmp && s.ecmp[c].routes == BestActive(ListOf(s, c))
  }

  /** What a current group is good for: whichever of its routes a lookup is given, no lookup could give a better one. */
  lemma CurrentGroupIsBest(s: State, ip: Ip, found: Route, r: Route)
    requires TableOk(s) && LongestMatch(s, ip, 1, Some(found)) && AnyUsable(s, ip, 1)
    requires found.cidr in s.ecmp && GroupCurrent(s, found.cidr) && r in s.ecmp[found.cidr].routes
    ensures Best(s, ip, 1, r)
  {
    var c :| Usable(s, ip, 1, c) && Some(found) == FirstActive(s.routes[c]) &&
             forall d :: Usable(s, ip, 1, d) ==> d.len <= c.len;
    FirstActiveIsBest(c, s.routes[c]);
    BestActiveAreBest(c, s.routes[c], r);
  }

  lemma BestActiveAreBest(c: Cidr, l: seq<Route>, r: Route)
    requires ListOk(c, l) && r in BestActive(l)
    ensures r in l && r.active && r.cidr == c && forall q :: q in l && q.active ==> r.metric <= q.metric
  {
    KeepMembers(l, ActiveAt(l[0].metric), r);
    forall q | q in l
      ensures r.metric <= q.metric
    {
      LowestIsFirst(c, l, q);
    }
  }

  /** A current group lists exactly the active routes that no other route of the network undercuts. */
  lemma GroupHoldsExactly(s: State, c: Cidr, r: Route)
    requires TableOk(s) && GroupCurrent(s, c) && c in s.ecmp
    ensures r in s.ecmp[c].routes <==>
            r in ListOf(s, c) && r.active && forall q :: q in ListOf(s, c) ==> r.metric <= q.metric
  {
    var l := ListOf(s, c);
    KeepMembers(l, ActiveAt(l[0].metric), r);
    assert l[0] in l;
    forall q | q in l
      ensures l[0].metric <= q.metric
    {
      LowestIsFirst(c, l, q);
    }
  }

  /** One call of lookup_ecmp on a current group returns a best route, at any point of the round. */
  lemma PickIsBest(s: State, ip: Ip, found: Route)
    requires TableOk(s) && LongestMatch(s, ip, 1, Some(found)) && AnyUsable(s, ip, 1)
    requires found.cidr in s.ecmp && GroupCurrent(s, found.cidr)
    ensures Best(s, ip, 1, Pick(s.ecmp[found.cidr]).0)
  {
    CurrentGroupIsBest(s, ip, found, Pick(s.ecmp[found.cidr]).0);
  }

  lemma AddCompletesGroup(s: State, r: Route)
    ensures GroupComplete(Apply(s, AddRoute(r)), r.cidr)
  {
  }

  /** Adding a route leaves the group of its CIDR current exactly when a new group is formed or none existed. */
  lemma AddKeepsGroupExactly(s: State, r: Route)
    ensures GroupCurrent(Apply(s, AddRoute(r)), r.cidr) <==>
            |BestActive(Added(ListOf(s, r.cidr), r))| > 1 || r.cidr !in s.ecmp
  {
  }

  /** What an operation that ended in the state s does to the group of c. */
  datatype GroupEvent = Formed(group: Group) | Dropped | Untouched

  function GroupEventOf(op: Op, s: State, c: Cidr): GroupEvent {
    match op
    case Flush => Dropped
    case AddRoute(r) =>
      var best := BestActive(ListOf(s, c));
      if r.cidr == c && |best| > 1 then Formed(Group(c, best, 0)) else Untouched
    case _ => Untouched
  }

  function GroupEvents(ops: seq<Op>, c: Cidr): seq<GroupEvent> {
    if ops == [] then []
    else GroupEvents(ops[..|ops| - 1], c) + [GroupEventOf(ops[|ops| - 1], Run(ops), c)]
  }

  function Forming(g: Group): GroupEvent -> bool {
    (e: GroupEvent) => e == Formed(g)
  }

  function Replacing(): GroupEvent -> bool {
    (e: GroupEvent) => e != Untouched
  }

  lemma GroupStep(s: State, op: Op, c: Cidr, g: Group)
    ensures var t := Apply(s, op);
            var e := GroupEventOf(op, t, c);
            Lookup(t.ecmp, c) == Some(g) <==> Forming(g)(e) || (Lookup(s.ecmp, c) == Some(g) && !Replacing()(e))
  {
  }

  /** The stored group is the one formed by the last addition that found several best routes, unless flushed since. */
  lemma {:induction false} GroupIsLastFormed(ops: seq<Op>, c: Cidr, g: Group)
    ensures Lookup(Run(ops).ecmp, c) == Some(g) <==> LastsSomewhere(GroupEvents(ops, c), Forming(g), Replacing())
    decreases |ops|
  {
    if ops == [] {
    } else {
      var front, last := ops[..|ops| - 1], ops[|ops| - 1];
      GroupIsLastFormed(front, c, g);
      GroupStep(Run(front), last, c, g);
      LastsOneMore(GroupEvents(front, c), GroupEventOf(last, Run(ops), c), Forming(g), Replacing());
    }
  }

  lemma {:induction false} KeepKeep(l: seq<Route>, f: Route -> bool, h: Route -> bool)
    requires forall x :: x in l && h(x) ==> f(x)
    ensures Keep(Keep(l, f), h) == Keep(l, h)
    decreases |l|
  {
    if l == [] {
    } else {
      var front, last := l[..|l| - 1], l[|l| - 1];
      assert forall x :: x in front ==> x in l;
      KeepKeep(front, f, h);
      if f(last) {
        KeepAppend(Keep(front, f), [last], h);
        KeepOne(last, h);
      } else {
        assert last in l;
        assert Keep(l, f) == Keep(front, f) + [] == Keep(front, f);
      }
    }
  }

  /** Whoever else leaves, the lowest metric stays while one of its active routes does. */
  lemma LowestStays(c: Cidr, l: seq<Route>, p: PeerId, g: Route)
    requires ListOk(c, l) && g in l && g.metric == l[0].metric && g.peer != p
    ensures Without(l, p) != [] && Without(l, p)[0].metric == l[0].metric
  {
    var l' := Without(l, p);
    WithoutOk(c, l, p);
    KeepMembers(l, NotPeer(p), g);
    var k :| 0 <= k < |l'| && l'[k] == g;
    KeepMembers(l, NotPeer(p), l'[0]);
    var j :| 0 <= j < |l| && l[j] == l'[0];
    assert j > 0 ==> Metric()(l[0]) <= Metric()(l[j]);
    assert k > 0 ==> Metric()(l'[0]) <= Metric()(l'[k]);
  }

  lemma BestWithoutOther(c: Cidr, l: seq<Route>, p: PeerId)
    requires ListOk(c, l) && BestActive(l) != []
    requires forall r :: r in BestActive(l) ==> r.peer != p
    ensures BestActive(Without(l, p)) == BestActive(l)
  {
    var m, g := l[0].metric, BestActive(l)[0];
    KeepMembers(l, ActiveAt(m), g);
    LowestStays(c, l, p, g);
    forall x | x in l && ActiveAt(m)(x)
      ensures NotPeer(p)(x)
    {
      KeepMembers(l, ActiveAt(m), x);
    }
    KeepKeep(l, NotPeer(p), ActiveAt(m));
  }

  /** Removing a peer leaves a current group current exactly when the peer is not in it. */
  lemma RemoveKeepsGroupExactly(s: State, c: Cidr, p: PeerId)
    requires TableOk(s) && GroupCurrent(s, c) && c in s.ecmp
    ensures GroupCurrent(Apply(s, RemoveRoute(c, p)), c) <==> forall r :: r in s.ecmp[c].routes ==> r.peer != p
  {
    var l, g := ListOf(s, c), s.ecmp[c].routes;
    assert c in s.routes;
    if r :| r in g && r.peer == p {
      var l' := Without(l, p);
      WithoutOk(c, l, p);
      if l' != [] {
        KeepMembers(l', ActiveAt(l'[0].metric), r);
      }
    } else {
      BestWithoutOther(c, l, p);
      assert l != [] && BestActive(Without(l, p)) != [];
    }
  }

  /** A list that differs only in elements that f rejects, before and after, is filtered to the same. */
  lemma {:induction false} KeepSame(a: seq<Route>, b: seq<Route>, f: Route -> bool)
    requires |a| == |b| && forall i :: 0 <= i < |a| ==> a[i] == b[i] || (!f(a[i]) && !f(b[i]))
    ensures Keep(a, f) == Keep(b, f)
    decreases |a|
  {
    if a == [] {
    } else {
      KeepSame(a[..|a| - 1], b[..|b| - 1], f);
    }
  }

  /** A list whose peers stand in the same places as in l holds one entry of each peer. */
  ghost predicate SamePeers(l: seq<Route>, k: seq<Route>) {
    |l| == |k| && forall i :: 0 <= i < |l| ==> l[i].peer == k[i].peer
  }

  /** An entry that was replaced in place is no longer listed. */
  lemma ReplacedIsGone(l: seq<Route>, k: seq<Route>, i: nat)
    requires DistinctOn(l, PeerOf()) && SamePeers(l, k) && i < |l| && l[i] != k[i]
    ensures l[i] !in k && k[i] !in l
  {
    forall j | 0 <= j < |l|
      ensures k[j] != l[i] && l[j] != k[i]
    {
      assert j != i ==> PeerOf()(l[j]) != PeerOf()(l[i]);
    }
  }

  /** A group of several routes has one of another peer, and all its routes have the lowest metric. */
  lemma OneOfAnother(c: Cidr, l: seq<Route>, p: PeerId) returns (g: Route)
    requires ListOk(c, l) && |BestActive(l)| > 1
    ensures g in BestActive(l) && g in l && g.peer != p && g.active && g.metric == l[0].metric
  {
    var m := l[0].metric;
    KeepPairs(l, ActiveAt(m), (x: Route, y: Route) => x.peer != y.peer);
    g := if BestActive(l)[0].peer != p then BestActive(l)[0] else BestActive(l)[1];
    KeepMembers(l, ActiveAt(m), g);
  }

  lemma LowestIsFirst(c: Cidr, l: seq<Route>, r: Route)
    requires ListOk(c, l) && r in l
    ensures l[0].metric <= r.metric
  {
    var i :| 0 <= i < |l| && l[i] == r;
    assert i > 0 ==> Metric()(l[0]) <= Metric()(l[i]);
  }

  // What a change of one entry does to the group

  lemma SwitchedAway(c: Cidr, l: seq<Route>, p: PeerId, active: bool, i: nat)
    requires ListOk(c, l) && i < |l| && l[i].peer == p && l[i].metric == l[0].metric && l[i].active != active
    ensures BestActive(WithActive(l, p, active)) != BestActive(l)
  {
    var k, m := WithActive(l, p, active), l[0].metric;
    ReplacedIsGone(l, k, i);
    var r := if active then k[i] else l[i];
    KeepMembers(l, ActiveAt(m), r);
    KeepMembers(k, ActiveAt(m), r);
  }

  /** Switching a peer on or off keeps a current group current exactly when its route of lowest metric was so before. */
  lemma SetActiveKeepsGroupExactly(s: State, c: Cidr, p: PeerId, active: bool)
    requires TableOk(s) && GroupCurrent(s, c) && c in s.ecmp
    ensures GroupCurrent(Apply(s, SetActive(p, active)), c) <==>
            forall r :: r in ListOf(s, c) && r.peer == p && r.metric == ListOf(s, c)[0].metric ==> r.active == active
  {
    var l := ListOf(s, c);
    var k := WithActive(l, p, active);
    assert ListOf(Apply(s, SetActive(p, active)), c) == k;
    if r :| r in l && r.peer == p && r.metric == l[0].metric && r.active != active {
      var i :| 0 <= i < |l| && l[i] == r;
      SwitchedAway(c, l, p, active, i);
    } else {
      KeepSame(l, k, ActiveAt(l[0].metric));
    }
  }

  lemma {:induction false} KeepFewer(a: seq<Route>, b: seq<Route>, f: Route -> bool)
    requires |a| == |b| && forall i :: 0 <= i < |a| && f(b[i]) ==> f(a[i])
    ensures |Keep(b, f)| <= |Keep(a, f)|
    decreases |a|
  {
    if a == [] {
    } else {
      KeepFewer(a[..|a| - 1], b[..|b| - 1], f);
    }
  }

  lemma {:induction false} KeepOneMore(a: seq<Route>, b: seq<Route>, f: Route -> bool, i: nat)
    requires |a| == |b| && i < |a| && !f(a[i]) && f(b[i]) && forall j :: 0 <= j < |a| && j != i ==> a[j] == b[j]
    ensures |Keep(b, f)| == |Keep(a, f)| + 1
    decreases |a|
  {
    var n := |a| - 1;
    if i == n {
      assert a[..n] == b[..n];
    } else {
      KeepOneMore(a[..n], b[..n], f, i);
    }
  }

  /** The peer has a route of lowest metric that is switched off. */
  ghost predicate Dormant(l: seq<Route>, p: PeerId) {
    exists i :: 0 <= i < |l| && DormantAt(l, p, i)
  }

  predicate DormantAt(l: seq<Route>, p: PeerId, i: nat)
    requires i < |l|
  {
    l[i].peer == p && l[i].metric == l[0].metric && !l[i].active
  }

  lemma WakesOne(c: Cidr, l: seq<Route>, p: PeerId, i: nat)
    requires ListOk(c, l) && i < |l| && DormantAt(l, p, i)
    ensures |BestActive(WithActive(l, p, true))| == |BestActive(l)| + 1
  {
    forall j | 0 <= j < |l| && j != i
      ensures WithActive(l, p, true)[j] == l[j]
    {
      assert PeerOf()(l[j]) != PeerOf()(l[i]);
    }
    KeepOneMore(l, WithActive(l, p, true), ActiveAt(l[0].metric), i);
  }

  lemma NoneWakes(c: Cidr, l: seq<Route>, p: PeerId)
    requires ListOk(c, l) && !Dormant(l, p)
    ensures BestActive(WithActive(l, p, true)) == BestActive(l)
  {
    var k := WithActive(l, p, true);
    forall i | 0 <= i < |l|
      ensures l[i] == k[i] || (l[i].metric != l[0].metric && k[i].metric != l[0].metric)
    {
      assert !DormantAt(l, p, i);
    }
    KeepSame(l, k, ActiveAt(l[0].metric));
  }

  /** Without a stored group, switching a peer leaves one missing exactly when a second lowest route comes to life. */
  lemma SetActiveMissesGroupExactly(s: State, c: Cidr, p: PeerId, active: bool)
    requires TableOk(s) && GroupComplete(s, c) && c in s.routes && c !in s.ecmp
    ensures !GroupComplete(Apply(s, SetActive(p, active)), c) <==>
            active && Dormant(s.routes[c], p) && BestActive(s.routes[c]) != []
  {
    var l := s.routes[c];
    var k := WithActive(l, p, active);
    assert ListOf(Apply(s, SetActive(p, active)), c) == k;
    if !active {
      KeepFewer(l, k, ActiveAt(l[0].metric));
    } else if Dormant(l, p) {
      var i :| 0 <= i < |l| && DormantAt(l, p, i);
      WakesOne(c, l, p, i);
    } else {
      NoneWakes(c, l, p);
    }
  }

  /** The new metric neither moves a member of the group nor brings its route to the group or below it. */
  predicate MetricFits(r: Route, lowest: u32, metric: u32) {
    if r.active && r.metric == lowest then metric == lowest
    else if r.active then metric > lowest
    else metric >= lowest
  }

  /** The list after the update holds the changed entries, and its first one has the lowest metric of them. */
  lemma UpdatedList(c: Cidr, l: seq<Route>, p: PeerId, metric: u32)
    requires ListOk(c, l)
    ensures var k := StableSort(WithMetric(l, p, metric), Metric());
            && k != [] && (forall r :: r in k <==> r in WithMetric(l, p, metric))
            && (forall r :: r in k ==> k[0].metric <= r.metric)
            && BestActive(k) == Keep(WithMetric(l, p, metric), ActiveAt(k[0].metric))
  {
    var w := WithMetric(l, p, metric);
    var k := StableSort(w, Metric());
    WithMetricOk(c, l, p, metric);
    forall r
      ensures r in k <==> r in w
      ensures r in k ==> k[0].metric <= r.metric
    {
      SortMembers(w, Metric(), r);
      if r in k {
        LowestIsFirst(c, k, r);
      }
    }
    SortIsStable(w, Metric(), ActiveAt(k[0].metric), k[0].metric);
  }

  lemma LowestRemains(c: Cidr, l: seq<Route>, p: PeerId, metric: u32)
    requires ListOk(c, l) && |BestActive(l)| > 1
    requires forall r :: r in l && r.peer == p ==> MetricFits(r, l[0].metric, metric)
    ensures StableSort(WithMetric(l, p, metric), Metric())[0].metric == l[0].metric
  {
    var w := WithMetric(l, p, metric);
    var k := StableSort(w, Metric());
    UpdatedList(c, l, p, metric);
    var g := OneOfAnother(c, l, p);
    UntouchedStays(l, p, metric, g);
    assert k[0] in k;
    var j :| 0 <= j < |w| && w[j] == k[0];
    LowestIsFirst(c, l, l[j]);
  }

  lemma FittingMetricKeeps(c: Cidr, l: seq<Route>, p: PeerId, metric: u32)
    requires ListOk(c, l) && |BestActive(l)| > 1
    requires forall r :: r in l && r.peer == p ==> MetricFits(r, l[0].metric, metric)
    ensures BestActive(StableSort(WithMetric(l, p, metric), Metric())) == BestActive(l)
  {
    LowestRemains(c, l, p, metric);
    UpdatedList(c, l, p, metric);
    forall i | 0 <= i < |l|
      ensures l[i] == WithMetric(l, p, metric)[i] ||
              (!ActiveAt(l[0].metric)(l[i]) && !ActiveAt(l[0].metric)(WithMetric(l, p, metric)[i]))
    {
      assert l[i] in l;
    }
    KeepSame(l, WithMetric(l, p, metric), ActiveAt(l[0].metric));
  }

  lemma UntouchedStays(l: seq<Route>, p: PeerId, metric: u32, g: Route)
    requires g in l && g.peer != p
    ensures g in WithMetric(l, p, metric)
  {
    var i :| 0 <= i < |l| && l[i] == g;
    assert WithMetric(l, p, metric)[i] == g;
  }

  lemma UnfitMetricBreaks(c: Cidr, l: seq<Route>, p: PeerId, metric: u32, i: nat)
    requires ListOk(c, l) && |BestActive(l)| > 1
    requires i < |l| && l[i].peer == p && !MetricFits(l[i], l[0].metric, metric)
    ensures BestActive(StableSort(WithMetric(l, p, metric), Metric())) != BestActive(l)
  {
    var w, lowest := WithMetric(l, p, metric), l[0].metric;
    var k := StableSort(w, Metric());
    UpdatedList(c, l, p, metric);
    var g := OneOfAnother(c, l, p);
    UntouchedStays(l, p, metric, g);
    ReplacedIsGone(l, w, i);
    LowestIsFirst(c, l, l[i]);
    assert w[i] in k;
    KeepMembers(w, ActiveAt(k[0].metric), g);
    KeepMembers(l, ActiveAt(lowest), l[i]);
    KeepMembers(w, ActiveAt(k[0].metric), l[i]);
    KeepMembers(l, ActiveAt(lowest), w[i]);
    KeepMembers(w, ActiveAt(k[0].metric), w[i]);
  }

  /** A new metric for a peer leaves a current group current exactly when it fits each of the peer's routes. */
  lemma UpdateMetricKeepsGroupExactly(s: State, c: Cidr, p: PeerId, metric: u32)
    requires TableOk(s) && GroupCurrent(s, c) && c in s.ecmp
    ensures GroupCurrent(Apply(s, UpdateMetric(c, p, metric)), c) <==>
            forall r :: r in ListOf(s, c) && r.peer == p ==> MetricFits(r, ListOf(s, c)[0].metric, metric)
  {
    var l, t := ListOf(s, c), Apply(s, UpdateMetric(c, p, metric));
    assert c in s.routes;
    assert ListOf(t, c) == StableSort(WithMetric(l, p, metric), Metric()) && t.ecmp == s.ecmp;
    if r :| r in l && r.peer == p && !MetricFits(r, l[0].metric, metric) {
      var i :| 0 <= i < |l| && l[i] == r;
      UnfitMetricBreaks(c, l, p, metric, i);
    } else {
      FittingMetricKeeps(c, l, p, metric);
    }
  }

  /** Two equal routes are installed and one is removed: the group still lists the removed one. */
  lemma GroupCanGoStale(c: Cidr, p: PeerId, q: PeerId, metric: u32)
    requires p != q
    ensures var a := Route(c, p, metric, 1, Static, true);
            var b := Route(c, q, metric, 1, Static, true);
            var s := Run([AddRoute(a), AddRoute(b), RemoveRoute(c, q)]);
            !GroupCurrent(s, c) && c in s.ecmp && b in s.ecmp[c].routes && b !in ListOf(s, c)
  {
    var a, b := Route(c, p, metric, 1, Static, true), Route(c, q, metric, 1, Static, true);
    TwoEqualRoutes(a, b);
    RunsAreOk([AddRoute(a), AddRoute(b)]);
    StaleAfterRemoval(Run([AddRoute(a), AddRoute(b)]), c, b);
    RunThree(AddRoute(a), AddRoute(b), RemoveRoute(c, q));
  }

  /** The same when the second route is switched off, or given any other metric. */
  lemma GroupCanGoStaleInPlace(c: Cidr, p: PeerId, q: PeerId, metric: u32, other: u32)
    requires p != q && metric != other
    ensures var a := Route(c, p, metric, 1, Static, true);
            var b := Route(c, q, metric, 1, Static, true);
            && !GroupCurrent(Run([AddRoute(a), AddRoute(b), SetActive(q, false)]), c)
            && !GroupCurrent(Run([AddRoute(a), AddRoute(b), UpdateMetric(c, q, other)]), c)
  {
    var a, b := Route(c, p, metric, 1, Static, true), Route(c, q, metric, 1, Static, true);
    var s := Run([AddRoute(a), AddRoute(b)]);
    TwoEqualRoutes(a, b);
    RunsAreOk([AddRoute(a), AddRoute(b)]);
    KeepMembers(ListOf(s, c), ActiveAt(ListOf(s, c)[0].metric), b);
    SetActiveKeepsGroupExactly(s, c, q, false);
    UpdateMetricKeepsGroupExactly(s, c, q, other);
    RunThree(AddRoute(a), AddRoute(b), SetActive(q, false));
    RunThree(AddRoute(a), AddRoute(b), UpdateMetric(c, q, other));
  }

  /** Two equal routes, the second switched off when it is added and on later: no group is ever formed. */
  lemma GroupCanBeMissing(c: Cidr, p: PeerId, q: PeerId, metric: u32)
    requires p != q
    ensures var a := Route(c, p, metric, 1, Static, true);
            var b := Route(c, q, metric, 1, Static, false);
            !GroupComplete(Run([AddRoute(a), AddRoute(b), SetActive(q, true)]), c)
  {
    var a, b := Route(c, p, metric, 1, Static, true), Route(c, q, metric, 1, Static, false);
    var s := Run([AddRoute(a), AddRoute(b)]);
    OneOfTwoIsActive(a, b);
    RunsAreOk([AddRoute(a), AddRoute(b)]);
    assert DormantAt([a, b], q, 1);
    SetActiveMissesGroupExactly(s, c, q, true);
    RunThree(AddRoute(a), AddRoute(b), SetActive(q, true));
  }

  lemma OneOfTwoIsActive(a: Route, b: Route)
    requires a.cidr == b.cidr && a.metric == b.metric && a.active && !b.active && a.peer != b.peer
    ensures var s := Run([AddRoute(a), AddRoute(b)]);
            a.cidr in s.routes && s.routes[a.cidr] == [a, b] && a.cidr !in s.ecmp && BestActive([a, b]) == [a]
  {
    RunOne(AddRoute(a));
    FirstAdd(State(map[], map[], None), a);
    KeepOne(a, ActiveAt(a.metric));
    RunTwo(AddRoute(a), AddRoute(b));
    AddedSecond(a, b);
    assert [a] + [b] == [a, b];
    KeepAppend([a], [b], ActiveAt(a.metric));
    KeepOne(b, ActiveAt(a.metric));
  }

  lemma TwoEqualRoutes(a: Route, b: Route)
    requires a.cidr == b.cidr && a.metric == b.metric && a.active && b.active && a.peer != b.peer
    ensures var s := Run([AddRoute(a), AddRoute(b)]);
            GroupCurrent(s, a.cidr) && a.cidr in s.ecmp && b in s.ecmp[a.cidr].routes
  {
    RunOne(AddRoute(a));
    FirstAdd(State(map[], map[], None), a);
    RunTwo(AddRoute(a), AddRoute(b));
    SecondAdd(Run([AddRoute(a)]), a, b);
    assert [a, b][1] == b;
  }

  lemma StaleAfterRemoval(s: State, c: Cidr, b: Route)
    requires TableOk(s) && GroupCurrent(s, c) && c in s.ecmp && b in s.ecmp[c].routes
    ensures var t := Apply(s, RemoveRoute(c, b.peer));
            !GroupCurrent(t, c) && c in t.ecmp && b in t.ecmp[c].routes && b !in ListOf(t, c)
  {
    RemoveKeepsGroupExactly(s, c, b.peer);
    RemovedIsGone(ListOf(s, c), b);
  }

  lemma RemovedIsGone(l: seq<Route>, r: Route)
    ensures r !in Without(l, r.peer)
  {
    KeepMembers(l, NotPeer(r.peer), r);
  }

  lemma AddedFirst(a: Route)
    ensures Added([], a) == [a]
  {
  }

  lemma AddedSecond(a: Route, b: Route)
    requires a.metric == b.metric && a.peer != b.peer
    ensures Added([a], b) == [a, b]
  {
    KeepOne(a, NotPeer(b.peer));
    AddedFirst(a);
    assert [a] + [b] == [a, b] && [a, b][..1] == [a] && [] + [a] == [a];
    assert StableSort([a], Metric()) == [a];
    assert InsertBehind([a], b, Metric()) == [a] + [b];
  }

  lemma BestOfTwo(a: Route, b: Route)
    requires a.metric == b.metric && a.active && b.active
    ensures BestActive([a, b]) == [a, b]
  {
    assert [a] + [b] == [a, b];
    KeepAppend([a], [b], ActiveAt(a.metric));
    KeepOne(a, ActiveAt(a.metric));
    KeepOne(b, ActiveAt(a.metric));
  }

  lemma FirstAdd(s: State, a: Route)
    requires a.cidr !in s.routes
    ensures var t := Apply(s, AddRoute(a)); ListOf(t, a.cidr) == [a]
  {
  }

  lemma SecondAdd(s: State, a: Route, b: Route)
    requires a.cidr == b.cidr && a.metric == b.metric && a.active && b.active && a.peer != b.peer
    requires ListOf(s, a.cidr) == [a]
    ensures var t := Apply(s, AddRoute(b));
            ListOf(t, a.cidr) == [a, b] && a.cidr in t.ecmp && t.ecmp[a.cidr] == Group(a.cidr, [a, b], 0) &&
            GroupCurrent(t, a.cidr)
  {
    AddedSecond(a, b);
    BestOfTwo(a, b);
  }

  lemma RunOne(x: Op)
    ensures Run([x]) == Apply(State(map[], map[], None), x)
  {
  }

  lemma RunTwo(x: Op, y: Op)
    ensures Run([x, y]) == Apply(Run([x]), y)
  {
  }

  lemma RunThree(x: Op, y: Op, z: Op)
    ensures Run([x, y, z]) == Apply(Run([x, y]), z)
  {
    assert [x, y, z][..2] == [x, y];
  }

  /** One call of lookup_ecmp on a group of more than one route. */
  function Pick(g: Group): (Route, Group)
    requires g.routes != []
  {
    (g.routes[g.nextIdx % |g.routes|], g.(nextIdx := (g.nextIdx + 1) % |g.routes|))
  }

  function Picks(g: Group, calls: nat): seq<Route>
    requires g.routes != []
    decreases calls
  {
    if calls == 0 then [] else [Pick(g).0] + Picks(Pick(g).1, calls - 1)
  }

  lemma {:induction false} PicksAt(g: Group, calls: nat, k: nat)
    requires g.routes != [] && k < calls
    ensures |Picks(g, calls)| == calls && Picks(g, calls)[k] == g.routes[(g.nextIdx + k) % |g.routes|]
    decreases calls
  {
    var n, g' := |g.routes|, Pick(g).1;
    if calls == 1 {
    } else {
      PicksAt(g', calls - 1, if k == 0 then 0 else k - 1);
    }
    if k > 0 {
      assert (g'.nextIdx + (k - 1)) % n == (g.nextIdx + k) % n by {
        ModShift(g.nextIdx + 1, k - 1, n);
      }
    }
  }

  lemma ModShift(a: nat, b: nat, n: nat)
    requires n > 0
    ensures (a % n + b) % n == (a + b) % n
  {
    var x, q := a % n + b, a / n;
    assert x == n * (x / n) + x % n;
    assert a + b == n * q + x;
    assert n * q + n * (x / n) == n * (q + x / n);
    Remainder(a + b, q + x / n, x % n, n);
  }

  lemma Remainder(x: nat, q: nat, r: nat, n: nat)
    requires n > 0 && r < n && x == n * q + r
    ensures x % n == r
  {
    var d := x / n - q;
    assert x == n * (x / n) + x % n;
    assert n * d == r - x % n;
  }

  /** Load balancing: as many calls in a row as the group has routes use each of its routes once. */
  lemma RoundRobin(g: Group)
    requires g.routes != []
    ensures multiset(Picks(g, |g.routes|)) == multiset(g.routes)
  {
    var i, ps := g.nextIdx % |g.routes|, Picks(g, |g.routes|);
    PickedIsTurned(g, 0);
    forall k | 0 <= k < |g.routes|
      ensures ps[k] == Turned(g.routes, i)[k]
    {
      PickedIsTurned(g, k);
    }
    assert ps == Turned(g.routes, i);
    TurnedPermutes(g.routes, i);
  }

  function Turned(s: seq<Route>, i: nat): (r: seq<Route>)
    requires i <= |s|
    ensures |r| == |s|
  {
    s[i..] + s[..i]
  }

  lemma PickedIsTurned(g: Group, k: nat)
    requires k < |g.routes|
    ensures var ps := Picks(g, |g.routes|);
            |ps| == |g.routes| && ps[k] == Turned(g.routes, g.nextIdx % |g.routes|)[k]
  {
    PicksAt(g, |g.routes|, k);
    TurnedAt(g.routes, g.nextIdx, k);
    assert g.routes != [];
  }

  lemma TurnedPermutes(s: seq<Route>, i: nat)
    requires i <= |s|
    ensures multiset(Turned(s, i)) == multiset(s)
  {
    assert s == s[..i] + s[i..];
  }

  lemma TurnedAt(s: seq<Route>, a: nat, k: nat)
    requires k < |s|
    ensures Turned(s, a % |s|)[k] == s[(a + k) % |s|]
  {
    var n, i := |s|, a % |s|;
    ModShift(a, k, n);
    if i + k < n {
      Remainder(i + k, 0, i + k, n);
    } else {
      Remainder(i + k, 1, i + k - n, n);
    }
  }

  // ---- The table ----

  class RouteTable {
    var routes: map<Cidr, seq<Route>>
    var ecmp: map<Cidr, Group>
    var default: Option<Route>

    ghost function View(): State
      reads this
    {
      State(routes, ecmp, default)
    }

    constructor ()
      ensures View() == Run([])
    {
      routes, ecmp, default := map[], map[], None;
    }

    method AddRoute(route: Route)
      modifies this
      ensures View() == Apply(old(View()), Op.AddRoute(route))
    {
      var entry := if route.cidr in routes then routes[route.cidr] else [];
      entry := Keep(entry, NotPeer(route.peer));
      entry := entry + [route];
      entry := StableSort(entry, Metric());
      assert entry == Added(ListOf(View(), route.cidr), route);
      routes := routes[route.cidr := entry];
      FormGroup(route.cidr, entry);
    }

    /** Same CIDR, same metric, different peers: the routes become a new group. */
    method FormGroup(cidr: Cidr, entry: seq<Route>)
      modifies this`ecmp
      ensures ecmp == if |BestActive(entry)| > 1 then old(ecmp)[cidr := Group(cidr, BestActive(entry), 0)]
                      else old(ecmp)
    {
      if |entry| > 1 {
        var minMetric := entry[0].metric;
        var ecmpRoutes := Keep(entry, ActiveAt(minMetric));
        if |ecmpRoutes| > 1 {
          ecmp := ecmp[cidr := Group(cidr, ecmpRoutes, 0)];
        }
      }
    }

    method RemoveRoute(cidr: Cidr, peer: PeerId)
      modifies this
      ensures View() == Apply(old(View()), Op.RemoveRoute(cidr, peer))
    {
      if cidr in routes {
        var entry := Keep(routes[cidr], NotPeer(peer));
        routes := routes[cidr := entry];
        if entry == [] {
          routes := routes - {cidr};
        }
      }
    }

    /** deactivate_route and activate_route: visits every entry of every list. */
    method SetActive(peer: PeerId, active: bool)
      modifies this
      ensures View() == Apply(old(View()), Op.SetActive(peer, active))
    {
      var todo := routes.Keys;
      while todo != {}
        invariant todo <= routes.Keys == old(routes).Keys
        invariant ecmp == old(ecmp) && default == old(default)
        invariant forall c :: c in todo ==> routes[c] == old(routes)[c]
        invariant forall c :: c in routes && c !in todo ==> routes[c] == WithActive(old(routes)[c], peer, active)
      {
        var c :| c in todo;
        todo := todo - {c};
        var entry := routes[c];
        for i := 0 to |entry|
          invariant |entry| == |old(routes)[c]|
          invariant forall j :: 0 <= j < |entry| ==>
                      entry[j] == if j < i then WithActive(old(routes)[c], peer, active)[j] else old(routes)[c][j]
        {
          if entry[i].peer == peer {
            entry := entry[i := entry[i].(active := active)];
          }
        }
        assert entry == WithActive(old(routes)[c], peer, active);
        routes := routes[c := entry];
      }
    }

    method UpdateMetric(cidr: Cidr, peer: PeerId, newMetric: u32)
      modifies this
      ensures View() == Apply(old(View()), Op.UpdateMetric(cidr, peer, newMetric))
    {
      if cidr in routes {
        var entry := routes[cidr];
        for i := 0 to |entry|
          invariant |entry| == |routes[cidr]|
          invariant forall j :: 0 <= j < |entry| ==>
                      entry[j] == if j < i then WithMetric(routes[cidr], peer, newMetric)[j] else routes[cidr][j]
        {
          if entry[i].peer == peer {
            entry := entry[i := entry[i].(metric := newMetric)];
          }
        }
        assert entry == WithMetric(routes[cidr], peer, newMetric);
        routes := routes[cidr := StableSort(entry, Metric())];
      }
    }

    method SetDefaultRoute(route: Route)
      modifies this
      ensures View() == Apply(old(View()), Op.SetDefaultRoute(route))
    {
      default := Some(route);
    }

    method Flush()
      modifies this
      ensures View() == Apply(old(View()), Op.Flush)
    {
      routes := map[];
      ecmp := map[];
    }

    method Lookup(ip: Ip) returns (res: Option<Route>)
      ensures LongestMatch(View(), ip, 1, res)
    {
      var best: Option<Route> := None;
      var bestLen := 0;
      ghost var winner: Option<Cidr> := None;
      var todo := routes.Keys;
      while todo != {}
        invariant todo <= routes.Keys && 0 <= bestLen <= 32
        invariant winner.None? ==> best.None? && bestLen == 0
        invariant winner.Some? ==> Usable(View(), ip, 1, winner.value) && best == FirstActive(routes[winner.value])
                                   && bestLen == winner.value.len
        invariant forall d :: Usable(View(), ip, 1, d) && d !in todo ==> d.len <= bestLen
      {
        var cidr :| cidr in todo;
        todo := todo - {cidr};
        var first := FirstActive(routes[cidr]);
        if Contains(cidr, ip) && first.Some? && cidr.len > bestLen {
          bestLen := cidr.len;
          best := first;
          winner := Some(cidr);
        }
      }
      if best.None? {
        if default.Some? {
          return default;
        }
      }
      return best;
    }

    /** lookup_ecmp: round robin over the group of the looked-up CIDR, if it has one. */
    method LookupEcmp(ip: Ip) returns (res: Option<Route>, ghost found: Option<Route>)
      modifies this`ecmp
      ensures LongestMatch(old(View()), ip, 1, found)
      ensures found.None? ==> res.None? && ecmp == old(ecmp)
      ensures found.Some? && (found.value.cidr !in old(ecmp) || |old(ecmp)[found.value.cidr].routes| <= 1) ==>
                res == found && ecmp == old(ecmp)
      ensures found.Some? && found.value.cidr in old(ecmp) && |old(ecmp)[found.value.cidr].routes| > 1 ==>
                var (r, g) := Pick(old(ecmp)[found.value.cidr]);
                res == Some(r) && ecmp == old(ecmp)[found.value.cidr := g]
    {
      var best := Lookup(ip);
      found := best;
      if best.None? {
        return None, found;
      }
      var cidr := best.value.cidr;
      if cidr in ecmp {
        var group := ecmp[cidr];
        if |group.routes| > 1 {
          var idx := group.nextIdx % |group.routes|;
          ecmp := ecmp[cidr := group.(nextIdx := (group.nextIdx + 1) % |group.routes|)];
          return Some(group.routes[idx]), found;
        }
      }
      return best, found;
    }
  }
}
