/**
 * The topology manager: node, link and adjacency maps changed in place, and hop-count Dijkstra over the
 * adjacency. The search is proved to return a shortest path for every way of breaking ties.
 */
module Topology {
  import opened Common

  type Id = string
  type Edge = (Id, Id)
  type Adjacency = map<Id, set<Id>>

  // ---- Paths ----

  predicate Linked(adj: Adjacency, u: Id, v: Id) {
    u in adj && v in adj[u]
  }

  ghost predicate Path(adj: Adjacency, p: seq<Id>, src: Id, dst: Id) {
    && |p| > 0 && p[0] == src && p[|p| - 1] == dst
    && forall i :: 0 <= i < |p| - 1 ==> Linked(adj, p[i], p[i + 1])
  }

  ghost predicate Reachable(adj: Adjacency, src: Id, dst: Id) {
    exists p :: Path(adj, p, src, dst)
  }

  /** p is a path with the fewest hops. */
  ghost predicate FewestHops(adj: Adjacency, p: seq<Id>, src: Id, dst: Id) {
    Path(adj, p, src, dst) && forall q :: Path(adj, q, src, dst) ==> |p| <= |q|
  }

  function Reversed(p: seq<Id>): (r: seq<Id>)
    ensures |r| == |p|
    ensures forall i :: 0 <= i < |p| ==> r[i] == p[|p| - 1 - i]
  {
    if p == [] then [] else Reversed(p[1..]) + [p[0]]
  }

  // ---- State and runs ----

  datatype State = State(links: set<Edge>, adjacency: Adjacency)

  datatype Op =
    | UpsertNode(id: Id)
    | RemoveNode(id: Id)
    | AddLink(source: Id, target: Id)
    | RemoveLink(source: Id, target: Id)

  function NeighborsOf(adj: Adjacency, u: Id): set<Id> {
    if u in adj then adj[u] else {}
  }

  function Join(adj: Adjacency, u: Id, v: Id): Adjacency {
    adj[u := NeighborsOf(adj, u) + {v}]
  }

  function Part(adj: Adjacency, u: Id, v: Id): Adjacency {
    if u in adj then adj[u := adj[u] - {v}] else adj
  }

  function Apply(s: State, op: Op): State {
    match op
    case UpsertNode(u) => s.(adjacency := s.adjacency[u := NeighborsOf(s.adjacency, u)])
    case RemoveNode(u) => s.(adjacency := s.adjacency - {u})
    case AddLink(u, v) => State(s.links + {(u, v)}, Join(Join(s.adjacency, u, v), v, u))
    case RemoveLink(u, v) => State(s.links - {(u, v)}, Part(Part(s.adjacency, u, v), v, u))
  }

  function Run(ops: seq<Op>): State {
    if ops == [] then State({}, map[]) else Apply(Run(ops[..|ops| - 1]), ops[|ops| - 1])
  }

  ghost predicate Symmetric(adj: Adjacency) {
    forall u, v :: Linked(adj, u, v) ==> Linked(adj, v, u)
  }

  /** Every adjacency edge is backed by a stored link in one direction. */
  ghost predicate Backed(s: State) {
    forall u, v :: Linked(s.adjacency, u, v) ==> (u, v) in s.links || (v, u) in s.links
  }

  lemma {:induction false} RunsAreBacked(ops: seq<Op>)
    ensures Backed(Run(ops))
    decreases |ops|
  {
    if ops == [] {
    } else {
      var s, s' := Run(ops[..|ops| - 1]), Run(ops);
      RunsAreBacked(ops[..|ops| - 1]);
      forall u, v | Linked(s'.adjacency, u, v)
        ensures (u, v) in s'.links || (v, u) in s'.links
      {
        assert Linked(s.adjacency, u, v) || (ops[|ops| - 1].AddLink? && (u, v) in s'.links) || (v, u) in s'.links;
      }
    }
  }

  lemma {:induction false} RunsAreSymmetric(ops: seq<Op>)
    requires forall i :: 0 <= i < |ops| ==> !ops[i].RemoveNode?
    ensures Symmetric(Run(ops).adjacency)
    decreases |ops|
  {
    if ops == [] {
    } else {
      var s, s' := Run(ops[..|ops| - 1]).adjacency, Run(ops).adjacency;
      RunsAreSymmetric(ops[..|ops| - 1]);
      forall u, v | Linked(s', u, v)
        ensures Linked(s', v, u)
      {
        assert Linked(s, u, v) ==> Linked(s, v, u);
      }
    }
  }

  // ---- What a run leaves behind ----

  function Connecting(u: Id, v: Id): Op -> bool {
    op => op == AddLink(u, v) || op == AddLink(v, u)
  }

  function Disconnecting(u: Id, v: Id): Op -> bool {
    op => op == RemoveLink(u, v) || op == RemoveLink(v, u) || op == RemoveNode(u)
  }

  function Mentioning(u: Id): Op -> bool {
    op => op == UpsertNode(u) || (op.AddLink? && (op.source == u || op.target == u))
  }

  function Is(that: Op): Op -> bool {
    op => op == that
  }

  /** u has v as a neighbour exactly when a link between them was added and neither it nor u was removed since. */
  lemma {:induction false} LinkedExactly(ops: seq<Op>, u: Id, v: Id)
    ensures Linked(Run(ops).adjacency, u, v) <==>
            LastsSomewhere(ops, Connecting(u, v), Disconnecting(u, v))
    decreases |ops|
  {
    if ops == [] {
    } else {
      var front, last := ops[..|ops| - 1], ops[|ops| - 1];
      LinkedExactly(front, u, v);
      LastsOneMore(front, last, Connecting(u, v), Disconnecting(u, v));
      assert ops == front + [last];
    }
  }

  /** u is known exactly when it was upserted, or a link at it added, and it was not removed since. */
  lemma {:induction false} KnownExactly(ops: seq<Op>, u: Id)
    ensures u in Run(ops).adjacency <==> LastsSomewhere(ops, Mentioning(u), Is(RemoveNode(u)))
    decreases |ops|
  {
    if ops == [] {
    } else {
      var front, last := ops[..|ops| - 1], ops[|ops| - 1];
      KnownExactly(front, u);
      LastsOneMore(front, last, Mentioning(u), Is(RemoveNode(u)));
      assert ops == front + [last];
    }
  }

  /** A directed link is stored exactly when it was added and not removed since. */
  lemma {:induction false} StoredExactly(ops: seq<Op>, u: Id, v: Id)
    ensures (u, v) in Run(ops).links <==>
            LastsSomewhere(ops, Is(AddLink(u, v)), Is(RemoveLink(u, v)))
    decreases |ops|
  {
    if ops == [] {
    } else {
      var front, last := ops[..|ops| - 1], ops[|ops| - 1];
      StoredExactly(front, u, v);
      LastsOneMore(front, last, Is(AddLink(u, v)), Is(RemoveLink(u, v)));
      assert ops == front + [last];
    }
  }

  /** remove_node keeps a symmetric adjacency symmetric exactly when the node had no neighbour but itself. */
  lemma RemoveNodeSymmetry(s: State, x: Id)
    requires Symmetric(s.adjacency)
    ensures Symmetric(Apply(s, RemoveNode(x)).adjacency) <==> NeighborsOf(s.adjacency, x) <= {x}
  {
    var adj, adj' := s.adjacency, Apply(s, RemoveNode(x)).adjacency;
    if !(NeighborsOf(adj, x) <= {x}) {
      var y :| y in NeighborsOf(adj, x) && y != x;
      assert Linked(adj, x, y);
      assert Linked(adj, y, x);
      assert Linked(adj', y, x) && !Linked(adj', x, y);
    } else {
      forall u, v | Linked(adj', u, v)
        ensures Linked(adj', v, u)
      {
        assert Linked(adj, u, v);
        assert Linked(adj, v, u);
      }
    }
  }

  /** The smallest run after which the adjacency is not symmetric. */
  lemma RemoveNodeBreaksSymmetry()
    ensures !Symmetric(Run([AddLink("a", "b"), RemoveNode("b")]).adjacency)
  {
    var ops := [AddLink("a", "b"), RemoveNode("b")];
    var s := Run(ops[..1]);
    assert ops[..1][..0] == [] && ops[..1][0] == AddLink("a", "b");
    assert Run(ops[..1][..0]) == State({}, map[]);
    assert s == Apply(State({}, map[]), AddLink("a", "b"));
    RunsAreSymmetric(ops[..1]);
    assert "a" in NeighborsOf(s.adjacency, "b") && "a"[0] != "b"[0];
    RemoveNodeSymmetry(s, "b");
  }

  lemma PathReverses(adj: Adjacency, p: seq<Id>, src: Id, dst: Id)
    requires Symmetric(adj) && Path(adj, p, src, dst)
    ensures Path(adj, Reversed(p), dst, src)
  {
    var r := Reversed(p);
    forall i | 0 <= i < |r| - 1
      ensures Linked(adj, r[i], r[i + 1])
    {
      var k := |p| - 2 - i;
      assert Linked(adj, p[k], p[k + 1]);
      assert r[i] == p[k + 1] && r[i + 1] == p[k];
    }
  }

  /** Without node removal, searches in the two directions succeed together and agree on the number of hops. */
  lemma BothDirectionsAgree(ops: seq<Op>, a: Id, b: Id)
    requires forall i :: 0 <= i < |ops| ==> !ops[i].RemoveNode?
    ensures var adj := Run(ops).adjacency;
            && (Reachable(adj, a, b) <==> Reachable(adj, b, a))
            && forall p, q :: FewestHops(adj, p, a, b) && FewestHops(adj, q, b, a) ==> |p| == |q|
  {
    var adj := Run(ops).adjacency;
    RunsAreSymmetric(ops);
    if p :| Path(adj, p, a, b) {
      PathReverses(adj, p, a, b);
    }
    if q :| Path(adj, q, b, a) {
      PathReverses(adj, q, b, a);
    }
    forall p, q | FewestHops(adj, p, a, b) && FewestHops(adj, q, b, a)
      ensures |p| == |q|
    {
      PathReverses(adj, p, a, b);
      PathReverses(adj, q, b, a);
    }
  }

  // ---- The search ----

  datatype Search = Search(dist: map<Id, nat>, prev: map<Id, Id>, visited: set<Id>)

  ghost predicate Open(f: Search, n: Id) {
    n in f.dist && n !in f.visited
  }

  /** One visited node's edge has been followed. */
  ghost predicate Relaxed(f: Search, u: Id, v: Id) {
    u in f.dist && v in f.dist && f.dist[v] <= f.dist[u] + 1
  }

  ghost predicate TreeEdge(adj: Adjacency, f: Search, n: Id)
    requires n in f.prev
  {
    var m := f.prev[n];
    m in f.visited && m in f.dist && n in f.dist && f.dist[n] == f.dist[m] + 1 && Linked(adj, m, n)
  }

  /** Everything but the completeness of the visited nodes' edges. */
  ghost predicate Sound(adj: Adjacency, src: Id, f: Search) {
    && src in f.dist && f.dist[src] == 0
    && f.visited <= f.dist.Keys
    && f.prev.Keys == f.dist.Keys - {src}
    && (forall n {:trigger TreeEdge(adj, f, n)} :: n in f.prev ==> TreeEdge(adj, f, n))
    && (forall n, m :: n in f.visited && Open(f, m) ==> f.dist[n] <= f.dist[m])
  }

  ghost predicate Complete(adj: Adjacency, f: Search) {
    forall u, v :: u in f.visited && Linked(adj, u, v) ==> Relaxed(f, u, v)
  }

  ghost function Universe(adj: Adjacency, src: Id): set<Id> {
    {src} + set u, v | u in adj && v in adj[u] :: v
  }

  lemma NodesKnown(adj: Adjacency, src: Id, f: Search)
    requires Sound(adj, src, f)
    ensures f.dist.Keys <= Universe(adj, src)
  {
    forall n | n in f.dist && n != src
      ensures n in Universe(adj, src)
    {
      assert TreeEdge(adj, f, n);
    }
  }

  lemma {:induction false} ExistsNearest(dist: map<Id, nat>, pool: set<Id>)
    requires pool != {} && pool <= dist.Keys
    ensures exists n :: n in pool && forall m :: m in pool ==> dist[n] <= dist[m]
    decreases |pool|
  {
    var x :| x in pool;
    if pool == {x} {
      assert forall m :: m in pool ==> dist[x] <= dist[m];
    } else {
      assert pool == pool - {x} + {x};
      ExistsNearest(dist, pool - {x});
      var y :| y in pool - {x} && forall m :: m in pool - {x} ==> dist[y] <= dist[m];
      var best := if dist[x] <= dist[y] then x else y;
      assert best in pool && forall m :: m in pool ==> dist[best] <= dist[m] by {
        forall m | m in pool ensures dist[best] <= dist[m] {
          assert m == x || m in pool - {x};
        }
      }
    }
  }

  /** Along any path from the source, the search has either settled the end or holds an open node on the way. */
  lemma {:induction false} Frontier(adj: Adjacency, src: Id, f: Search, p: seq<Id>, k: nat)
    requires Sound(adj, src, f) && Complete(adj, f)
    requires |p| > k && p[0] == src && forall i :: 0 <= i < k ==> Linked(adj, p[i], p[i + 1])
    ensures (p[k] in f.visited && f.dist[p[k]] <= k) || exists i :: 0 <= i <= k && Open(f, p[i]) && f.dist[p[i]] <= i
    decreases k
  {
    if k == 0 {
      assert Open(f, p[0]) || p[0] in f.visited;
    } else {
      Frontier(adj, src, f, p, k - 1);
      if p[k - 1] in f.visited && f.dist[p[k - 1]] <= k - 1 {
        assert Linked(adj, p[k - 1], p[k - 1 + 1]);
        assert Relaxed(f, p[k - 1], p[k]);
        assert Open(f, p[k]) || p[k] in f.visited;
      }
    }
  }

  /** The nearest open node cannot be reached in fewer hops than recorded. */
  lemma NearestIsShortest(adj: Adjacency, src: Id, f: Search, n: Id, q: seq<Id>)
    requires Sound(adj, src, f) && Complete(adj, f)
    requires Open(f, n) && forall m :: Open(f, m) ==> f.dist[n] <= f.dist[m]
    requires Path(adj, q, src, n)
    ensures f.dist[n] <= |q| - 1
  {
    Frontier(adj, src, f, q, |q| - 1);
  }

  lemma NothingOpenNothingReachable(adj: Adjacency, src: Id, f: Search, dst: Id)
    requires Sound(adj, src, f) && Complete(adj, f)
    requires forall m :: !Open(f, m)
    requires dst !in f.visited
    ensures !Reachable(adj, src, dst)
  {
    if p :| Path(adj, p, src, dst) {
      Frontier(adj, src, f, p, |p| - 1);
    }
  }

  // ---- The manager ----

  /** What a stored node or link carries besides its name does not influence the operations below. */
  class TopologyManager<NodeInfo, LinkInfo> {
    var nodes: map<Id, NodeInfo>
    var links: map<Edge, LinkInfo>
    var adjacency: Adjacency
    var version: nat

    constructor ()
      ensures View() == Run([])
    {
      nodes, links, adjacency, version := map[], map[], map[], 0;
    }

    ghost function View(): State
      reads this
    {
      State(links.Keys, adjacency)
    }

    method UpsertNode(id: Id, node: NodeInfo)
      modifies this
      ensures View() == Apply(old(View()), Op.UpsertNode(id))
      ensures nodes == old(nodes)[id := node] && links == old(links) && version == old(version) + 1
    {
      nodes := nodes[id := node];
      if id !in adjacency {
        adjacency := adjacency[id := {}];
      }
      version := version + 1;
      assert adjacency == old(adjacency)[id := NeighborsOf(old(adjacency), id)];
    }

    method RemoveNode(id: Id)
      modifies this
      ensures View() == Apply(old(View()), Op.RemoveNode(id))
      ensures nodes == old(nodes) - {id} && links == old(links) && version == old(version) + 1
    {
      nodes := nodes - {id};
      adjacency := adjacency - {id};
      version := version + 1;
    }

    method InsertNeighbor(u: Id, v: Id)
      modifies this`adjacency
      ensures adjacency == Join(old(adjacency), u, v)
    {
      if u !in adjacency {
        adjacency := adjacency[u := {}];
      }
      adjacency := adjacency[u := adjacency[u] + {v}];
    }

    method AddLink(source: Id, target: Id, link: LinkInfo)
      modifies this
      ensures View() == Apply(old(View()), Op.AddLink(source, target))
      ensures nodes == old(nodes) && links == old(links)[(source, target) := link] && version == old(version) + 1
    {
      links := links[(source, target) := link];
      InsertNeighbor(source, target);
      InsertNeighbor(target, source);
      version := version + 1;
    }

    method RemoveLink(source: Id, target: Id)
      modifies this
      ensures View() == Apply(old(View()), Op.RemoveLink(source, target))
      ensures nodes == old(nodes) && links == old(links) - {(source, target)} && version == old(version)
    {
      links := links - {(source, target)};
      if source in adjacency {
        adjacency := adjacency[source := adjacency[source] - {target}];
      }
      if target in adjacency {
        adjacency := adjacency[target := adjacency[target] - {source}];
      }
    }

    /** A fewest-hops path and its number of hops, or None exactly when an endpoint is unknown or unreachable. */
    method ShortestPath(src: Id, dst: Id) returns (r: Option<(seq<Id>, nat)>)
      ensures r.Some? <==> src in adjacency && dst in adjacency && Reachable(adjacency, src, dst)
      ensures r.Some? ==> FewestHops(adjacency, r.value.0, src, dst) && |r.value.0| == r.value.1 + 1
    {
      if src !in adjacency || dst !in adjacency {
        return None;
      }
      var f := Search(map[src := 0], map[], {});
      while f.dist.Keys - f.visited != {}
        invariant Sound(adjacency, src, f) && Complete(adjacency, f)
        invariant dst !in f.visited
        decreases Universe(adjacency, src) - f.visited
      {
        NodesKnown(adjacency, src, f);
        var open := f.dist.Keys - f.visited;
        ExistsNearest(f.dist, open);
        var current :| current in open && forall m :: m in open ==> f.dist[current] <= f.dist[m];
        assert Open(f, current) && forall m :: Open(f, m) ==> m in open;
        VisitNearest(adjacency, src, f, current);
        if current == dst {
          var path := Reconstruct(adjacency, src, f, dst);
          forall q | Path(adjacency, q, src, dst)
            ensures |path| <= |q|
          {
            NearestIsShortest(adjacency, src, f, dst, q);
          }
          return Some((path, f.dist[current]));
        }
        ghost var before := f.visited;
        f := f.(visited := f.visited + {current});
        if current in adjacency {
          f := RelaxNeighbors(adjacency, src, f, current);
        }
        assert current in f.visited && current !in before;
      }
      assert forall m :: Open(f, m) ==> m in f.dist.Keys - f.visited;
      NothingOpenNothingReachable(adjacency, src, f, dst);
      return None;
    }
  }

  /** All edges out of visited nodes are relaxed, except those from current to the nodes in rest. */
  ghost predicate CompleteBut(adj: Adjacency, f: Search, current: Id, rest: set<Id>) {
    forall u, v :: u in f.visited && Linked(adj, u, v) && !(u == current && v in rest) ==> Relaxed(f, u, v)
  }

  function RelaxEdge(f: Search, u: Id, v: Id): Search
    requires u in f.dist
  {
    var alt := f.dist[u] + 1;
    if v in f.visited || (v in f.dist && f.dist[v] <= alt) then f
    else f.(dist := f.dist[v := alt], prev := f.prev[v := u])
  }

  lemma RelaxEdgeTree(adj: Adjacency, src: Id, f: Search, u: Id, v: Id, n: Id)
    requires Sound(adj, src, f) && u in f.visited && Linked(adj, u, v)
    requires n in RelaxEdge(f, u, v).prev
    ensures TreeEdge(adj, RelaxEdge(f, u, v), n)
  {
    if n in f.prev {
      assert TreeEdge(adj, f, n);
    }
  }

  lemma RelaxEdgeSound(adj: Adjacency, src: Id, f: Search, u: Id, v: Id)
    requires Sound(adj, src, f) && u in f.visited && Linked(adj, u, v)
    requires forall n :: n in f.visited ==> f.dist[n] <= f.dist[u]
    ensures var f' := RelaxEdge(f, u, v);
            && Sound(adj, src, f') && f'.visited == f.visited && Relaxed(f', u, v)
            && (forall n :: n in f.visited ==> f'.dist[n] == f.dist[n])
            && (forall n :: n in f.dist ==> n in f'.dist && f'.dist[n] <= f.dist[n])
  {
    var f' := RelaxEdge(f, u, v);
    if f' == f {
      return;
    }
    assert v != src && u in f.dist;
    assert f' == f.(dist := f.dist[v := f.dist[u] + 1], prev := f.prev[v := u]);
    forall n | n in f'.prev
      ensures TreeEdge(adj, f', n)
    {
      RelaxEdgeTree(adj, src, f, u, v, n);
    }
    assert f'.prev.Keys == f'.dist.Keys - {src};
    forall n, m | n in f'.visited && Open(f', m)
      ensures f'.dist[n] <= f'.dist[m]
    {
      assert m == v || Open(f, m);
    }
  }

  lemma RelaxEdgeComplete(adj: Adjacency, src: Id, f: Search, current: Id, v: Id, rest: set<Id>)
    requires Sound(adj, src, f) && current in f.visited && Linked(adj, current, v)
    requires forall n :: n in f.visited ==> f.dist[n] <= f.dist[current]
    requires CompleteBut(adj, f, current, rest + {v})
    ensures CompleteBut(adj, RelaxEdge(f, current, v), current, rest)
  {
  }

  /** Relaxes every edge out of the node just visited. */
  method RelaxNeighbors(adj: Adjacency, ghost src: Id, f0: Search, current: Id) returns (f: Search)
    requires Sound(adj, src, f0) && current in adj && current in f0.visited
    requires forall n :: n in f0.visited ==> f0.dist[n] <= f0.dist[current]
    requires CompleteBut(adj, f0, current, adj[current])
    ensures Sound(adj, src, f) && Complete(adj, f) && f.visited == f0.visited
  {
    f := f0;
    var rest := adj[current];
    while rest != {}
      invariant rest <= adj[current]
      invariant f.visited == f0.visited
      invariant Sound(adj, src, f)
      invariant forall n :: n in f.visited ==> f.dist[n] <= f.dist[current]
      invariant CompleteBut(adj, f, current, rest)
    {
      var neighbor :| neighbor in rest;
      ghost var before := rest;
      rest := rest - {neighbor};
      assert before == rest + {neighbor};
      assert Linked(adj, current, neighbor);
      RelaxEdgeSound(adj, src, f, current, neighbor);
      RelaxEdgeComplete(adj, src, f, current, neighbor, rest);
      if neighbor !in f.visited {
        var alt := f.dist[current] + 1;
        if neighbor !in f.dist || alt < f.dist[neighbor] {
          f := f.(dist := f.dist[neighbor := alt], prev := f.prev[neighbor := current]);
        }
      }
    }
  }

  /** Visiting the nearest open node. */
  lemma VisitNearest(adj: Adjacency, src: Id, f: Search, n: Id)
    requires Sound(adj, src, f) && Complete(adj, f) && Open(f, n)
    requires forall m :: Open(f, m) ==> f.dist[n] <= f.dist[m]
    ensures var f' := f.(visited := f.visited + {n});
            && Sound(adj, src, f')
            && (forall m :: m in f'.visited ==> f'.dist[m] <= f'.dist[n])
            && CompleteBut(adj, f', n, NeighborsOf(adj, n))
  {
    var f' := f.(visited := f.visited + {n});
    forall m | m in f'.prev
      ensures TreeEdge(adj, f', m)
    {
      assert TreeEdge(adj, f, m);
    }
    forall x, y | x in f'.visited && Open(f', y)
      ensures f'.dist[x] <= f'.dist[y]
    {
      assert Open(f, y);
    }
    forall x, y | x in f'.visited && Linked(adj, x, y) && !(x == n && y in NeighborsOf(adj, n))
      ensures Relaxed(f', x, y)
    {
      assert Relaxed(f, x, y);
    }
  }

  /** Follows the prev entries back to the source; it stops because the distance falls by one each time. */
  method Reconstruct(adj: Adjacency, ghost src: Id, f: Search, dst: Id) returns (path: seq<Id>)
    requires Sound(adj, src, f) && dst in f.dist
    ensures Path(adj, path, src, dst) && |path| == f.dist[dst] + 1
  {
    var back, node := [dst], dst;
    while node in f.prev
      invariant node in f.dist && |back| > 0 && back[0] == dst && back[|back| - 1] == node
      invariant |back| + f.dist[node] == f.dist[dst] + 1
      invariant forall i :: 0 <= i < |back| - 1 ==> Linked(adj, back[i + 1], back[i])
      decreases f.dist[node]
    {
      assert TreeEdge(adj, f, node);
      node := f.prev[node];
      back := back + [node];
    }
    path := Reversed(back);
    forall i | 0 <= i < |path| - 1
      ensures Linked(adj, path[i], path[i + 1])
    {
      var k := |back| - 2 - i;
      assert Linked(adj, back[k + 1], back[k]);
    }
  }
}
