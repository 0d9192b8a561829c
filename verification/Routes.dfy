/** The plain route calculation: one shortest-path route per node and origin. */
module Routes {
  import opened Networks
  import opened ShortestPaths
  import opened Routers

  /** A route installed at `node` towards the router `origin`. */
  datatype Route = Route(node: nat, origin: nat, face: Face, cost: nat)

  /** Vertices below `nodes` are nodes, whose links have faces; the others are shared channels. */
  ghost predicate RouterGraph(g: Graph, nodes: nat) {
    && ValidGraph(g) && nodes <= |g.links|
    && forall s, i :: 0 <= s < nodes && 0 <= i < |g.links[s]| ==> g.links[s][i].face.Some?
  }

  /** `face` is the first link of a path of this cost, which does not come back to `s`. */
  ghost predicate StartsBestPath(g: Graph, s: nat, t: nat, face: Face, cost: nat) {
    exists p: seq<Edge> ::
      && IsPath(g, s, p, t) && LeavesOnce(p, s) && p != []
      && Cost(g, p) == cost && p[0].link.face == Some(face)
  }

  /** The route of a node towards an origin: the exact distance, over the first link of a
      path that attains it. */
  ghost predicate GoodRoute(g: Graph, nodes: nat, r: Route) {
    && r.node < nodes && r.origin < |g.links| && r.node != r.origin
    && r.cost == Dist(g, r.node, r.origin) < INF
    && StartsBestPath(g, r.node, r.origin, r.face, r.cost)
  }

  /** One good route for every node and every origin it can reach, and no others. */
  ghost predicate RoutesOf(g: Graph, nodes: nat, routes: set<Route>) {
    && (forall r :: r in routes ==> GoodRoute(g, nodes, r))
    && (forall r, q :: r in routes && q in routes && r.node == q.node && r.origin == q.origin ==> r == q)
    && (forall s: nat, t: nat {:trigger Dist(g, s, t)} ::
          s < nodes && t < |g.links| && s != t && Dist(g, s, t) < INF ==> HasRoute(routes, s, t))
  }

  predicate HasRoute(routes: set<Route>, s: nat, t: nat) {
    exists r :: r in routes && r.node == s && r.origin == t
  }

  /** The routes for the sources below `s`, and for `s` the origins below `t`. */
  ghost predicate RoutesUpTo(g: Graph, nodes: nat, routes: set<Route>, s: nat, t: nat) {
    && (forall r :: r in routes ==> GoodRoute(g, nodes, r) && Earlier(r.node, r.origin, s, t))
    && (forall r, q :: r in routes && q in routes && r.node == q.node && r.origin == q.origin ==> r == q)
    && (forall a: nat, b: nat {:trigger Dist(g, a, b)} ::
          Earlier(a, b, s, t) && a < nodes && b < |g.links| && a != b && Dist(g, a, b) < INF ==> HasRoute(routes, a, b))
  }

  predicate Earlier(a: nat, b: nat, s: nat, t: nat) {
    a < s || (a == s && b < t)
  }

  /** A computed weight with a face stands for a good route, one without for no route. */
  lemma WeightIsRoute(g: Graph, nodes: nat, s: nat, d: seq<Weight>, t: nat)
    requires RouterGraph(g, nodes) && s < nodes && t < |g.links| && s != t && Shortest(g, s, d)
    ensures t < |d| && (d[t].face.Some? <==> Dist(g, s, t) < INF)
    ensures d[t].face.Some? ==> GoodRoute(g, nodes, Route(s, t, d[t].face.value, d[t].cost))
  {
    if d[t].cost < INF {
      var p: seq<Edge> :| IsPath(g, s, p, t) && LeavesOnce(p, s) && PathWeight(g, p) == d[t];
      var i :| 0 <= i < |g.links[s]| && g.links[s][i] == p[0].link;
      FirstFace(g, p);
      assert Cost(g, p) == d[t].cost;
      assert StartsBestPath(g, s, t, d[t].face.value, d[t].cost);
    }
  }

  lemma RoutesNext(g: Graph, nodes: nat, routes: set<Route>, s: nat, t: nat, more: set<Route>)
    requires RoutesUpTo(g, nodes, routes, s, t)
    requires forall r :: r in more ==> r.node == s && r.origin == t && GoodRoute(g, nodes, r) && more == {r}
    requires s < nodes && t < |g.links| && s != t && Dist(g, s, t) < INF ==> more != {}
    ensures RoutesUpTo(g, nodes, routes + more, s, t + 1)
  {
    hide GoodRoute, Dist;
    forall a: nat, b: nat {:trigger Dist(g, a, b)} |
      Earlier(a, b, s, t + 1) && a < nodes && b < |g.links| && a != b && Dist(g, a, b) < INF
      ensures HasRoute(routes + more, a, b)
    {
      if a == s && b == t {
        var r :| r in more;
        assert r in routes + more;
      } else {
        assert HasRoute(routes, a, b);
        var r :| r in routes && r.node == a && r.origin == b;
        assert r in routes + more;
      }
    }
  }

  lemma RoutesNextSource(g: Graph, nodes: nat, routes: set<Route>, s: nat)
    requires RoutesUpTo(g, nodes, routes, s, |g.links|)
    ensures RoutesUpTo(g, nodes, routes, s + 1, 0)
  {
    hide GoodRoute, Dist;
  }

  lemma RoutesStart(g: Graph, nodes: nat)
    ensures RoutesUpTo(g, nodes, {}, 0, 0)
  {
  }

  lemma RoutesEnd(g: Graph, nodes: nat, routes: set<Route>)
    requires RoutesUpTo(g, nodes, routes, nodes, 0)
    ensures RoutesOf(g, nodes, routes)
  {
    hide GoodRoute, Dist;
  }

  lemma RouterGraphFacts(g: Graph, nodes: nat)
    requires RouterGraph(g, nodes)
    ensures ValidGraph(g) && nodes <= |g.links|
  {
  }

  lemma ShortestLength(g: Graph, s: nat, d: seq<Weight>)
    requires Shortest(g, s, d)
    ensures |d| == |g.links|
  {
  }

  /** Route calculation: Dijkstra from every node, one route per reachable origin. */
  method CalculateRoutes(net: Network, nodes: nat, ghost g: Graph) returns (routes: set<Route>)
    requires g == net.State() && RouterGraph(g, nodes)
    ensures RoutesOf(g, nodes, routes)
  {
    hide *;
    routes := {};
    RouterGraphFacts(g, nodes);
    RoutesStart(g, nodes);
    for s: nat := 0 to nodes
      invariant RoutesUpTo(g, nodes, routes, s, 0)
    {
      var distances := Dijkstra(net.State(), s);
      ShortestLength(g, s, distances);
      for t: nat := 0 to |distances|
        invariant RoutesUpTo(g, nodes, routes, s, t)
      {
        var more: set<Route> := {};
        if t != s {
          WeightIsRoute(g, nodes, s, distances, t);
          if distances[t].face.Some? {
            more := {Route(s, t, distances[t].face.value, distances[t].cost)};
          }
        }
        RoutesNext(g, nodes, routes, s, t, more);
        routes := routes + more;
      }
      RoutesNextSource(g, nodes, routes, s);
    }
    RoutesEnd(g, nodes, routes);
  }

  /** Following the route at `s` towards `t` over one of its face's links leads to `u`: to the
      far end, or over a shared channel to a node on it that is nearest to `t`. */
  ghost predicate Hop(g: Graph, nodes: nat, routes: set<Route>, t: nat, s: nat, u: nat) {
    exists r, l :: HopOver(g, nodes, routes, t, s, u, r, l)
  }

  ghost predicate HopOver(g: Graph, nodes: nat, routes: set<Route>, t: nat, s: nat, u: nat, r: Route, l: Incidency) {
    r in routes && r.node == s && r.origin == t && RouteLink(g, r, l) && Receives(g, nodes, l.target, t, u)
  }

  ghost predicate Receives(g: Graph, nodes: nat, target: nat, t: nat, u: nat) {
    if target < nodes then u == target
    else exists b {:trigger Edge(target, b)} ::
           IsEdge(g, Edge(target, b)) && b.target == u && Dist(g, u, t) == Dist(g, target, t)
  }

  predicate RouteLink(g: Graph, r: Route, l: Incidency) {
    IsEdge(g, Edge(r.node, l)) && l.face == Some(r.face)
  }

  /** The far end of a route's face is nearer by exactly the metric of the face. */
  lemma RouteIsConsistent(g: Graph, nodes: nat, r: Route, l: Incidency)
    requires FacesUnique(g) && GoodRoute(g, nodes, r) && RouteLink(g, r, l)
    ensures r.cost == EdgeWeight(g, l) + Dist(g, l.target, r.origin)
  {
    var p: seq<Edge> :| IsPath(g, r.node, p, r.origin) && LeavesOnce(p, r.node) && p != [] && Cost(g, p) == r.cost
             && p[0].link.face == Some(r.face);
    assert IsEdge(g, p[0]) && IsEdge(g, Edge(r.node, l));
    assert p[0] == Edge(r.node, l);
    FirstEdgeOnShortest(g, r.node, p, r.origin);
  }

  lemma RouteHasLink(g: Graph, nodes: nat, r: Route) returns (l: Incidency)
    requires GoodRoute(g, nodes, r)
    ensures RouteLink(g, r, l)
  {
    var p: seq<Edge> :| IsPath(g, r.node, p, r.origin) && LeavesOnce(p, r.node) && p != [] && Cost(g, p) == r.cost
             && p[0].link.face == Some(r.face);
    assert IsEdge(g, p[0]) && p[0] == Edge(r.node, p[0].link);
    l := p[0].link;
  }

  /** Nodes and shared channels: channels lead to nodes, without faces. */
  ghost predicate SharedNetwork(g: Graph, nodes: nat) {
    && RouterGraph(g, nodes) && FacesUnique(g)
    && forall e {:trigger IsEdge(g, e)} :: IsEdge(g, e) && e.source >= nodes ==>
       e.link.face.None? && e.link.target < nodes
  }

  /** The face of the route at `s` towards `t` has a positive 16-bit metric. */
  ghost predicate IsPositive(g: Graph, routes: set<Route>, t: nat, s: nat) {
    forall r, l :: r in routes && r.node == s && r.origin == t && RouteLink(g, r, l) ==> EdgeWeight(g, l) > 0
  }

  /** A packet on its way to `t` along installed routes. */
  ghost predicate Routed(g: Graph, nodes: nat, routes: set<Route>, t: nat, w: seq<nat>) {
    && w != [] && w[0] < nodes
    && forall i :: 0 <= i < |w| - 1 ==> Hop(g, nodes, routes, t, w[i], w[i + 1])
  }

  /** How many of its hops went over faces with positive metrics. */
  ghost function PositiveHops(g: Graph, routes: set<Route>, t: nat, w: seq<nat>): (n: nat)
    ensures (forall i :: 0 <= i < |w| - 1 ==> IsPositive(g, routes, t, w[i])) && w != [] ==> n == |w| - 1
  {
    if |w| <= 1 then 0
    else
      var init := w[..|w| - 1];
      assert forall i :: 0 <= i < |init| ==> init[i] == w[i];
      PositiveHops(g, routes, t, init) + if IsPositive(g, routes, t, w[|w| - 2]) then 1 else 0
  }

  /** Every hop along installed routes leads to a node that is nearer, by the metric of the
      route's face. */
  lemma HopDescends(g: Graph, nodes: nat, routes: set<Route>, t: nat, s: nat, u: nat)
    requires SharedNetwork(g, nodes) && RoutesOf(g, nodes, routes) && Hop(g, nodes, routes, t, s, u)
    ensures u < nodes && Dist(g, u, t) <= Dist(g, s, t)
    ensures IsPositive(g, routes, t, s) ==> Dist(g, u, t) < Dist(g, s, t)
  {
    var r, l :| HopOver(g, nodes, routes, t, s, u, r, l);
    assert IsEdge(g, Edge(s, l));
    RouteIsConsistent(g, nodes, r, l);
    if l.target >= nodes {
      var b :| IsEdge(g, Edge(l.target, b)) && b.target == u && Dist(g, u, t) == Dist(g, l.target, t);
    }
  }

  /** Some node on a channel is as near as the channel itself. */
  lemma ChannelDelivers(g: Graph, nodes: nat, target: nat, t: nat) returns (u: nat)
    requires SharedNetwork(g, nodes) && t < nodes && Dist(g, target, t) < INF
    ensures Receives(g, nodes, target, t, u)
  {
    if target < nodes {
      u := target;
    } else {
      var e := DistFirstEdge(g, target, t);
      assert IsEdge(g, Edge(target, e.link));
      u := e.link.target;
    }
  }

  lemma RouteFor(g: Graph, nodes: nat, routes: set<Route>, s: nat, t: nat) returns (r: Route)
    requires RoutesOf(g, nodes, routes)
    requires s < nodes && t < |g.links| && s != t && Dist(g, s, t) < INF
    ensures r in routes && r.node == s && r.origin == t && GoodRoute(g, nodes, r)
  {
    hide GoodRoute, Dist;
    assert HasRoute(routes, s, t);
    r :| r in routes && r.node == s && r.origin == t;
  }

  lemma GoodRouteCost(g: Graph, nodes: nat, r: Route)
    requires GoodRoute(g, nodes, r)
    ensures r.cost == Dist(g, r.node, r.origin) < INF
  {
  }

  /** A packet short of the origin, at a node that can reach it, has a next hop. */
  lemma RoutedContinues(g: Graph, nodes: nat, routes: set<Route>, t: nat, s: nat)
    requires SharedNetwork(g, nodes) && RoutesOf(g, nodes, routes)
    requires s < nodes && t < nodes && s != t && Dist(g, s, t) < INF
    ensures exists u :: Hop(g, nodes, routes, t, s, u)
  {
    hide RoutesOf, GoodRoute, Dist, Receives, RouteLink, RouterGraph, FacesUnique, EdgeWeight;
    NodesInside(g, nodes);
    var r := RouteFor(g, nodes, routes, s, t);
    var l := RouteHasLink(g, nodes, r);
    RouteIsConsistent(g, nodes, r, l);
    GoodRouteCost(g, nodes, r);
    var u := ChannelDelivers(g, nodes, l.target, t);
    assert HopOver(g, nodes, routes, t, s, u, r, l);
    assert Hop(g, nodes, routes, t, s, u);
  }

  lemma NodesInside(g: Graph, nodes: nat)
    requires SharedNetwork(g, nodes)
    ensures nodes <= |g.links| && FacesUnique(g)
  {
  }

  /** Routed packets never get farther, travel at most as many hops over positive faces as the
      distance of their source, and only ever stop at the origin. */
  lemma {:induction false} RoutesReachOrigin(g: Graph, nodes: nat, routes: set<Route>, t: nat, w: seq<nat>)
    requires SharedNetwork(g, nodes) && RoutesOf(g, nodes, routes) && t < nodes
    requires Routed(g, nodes, routes, t, w) && Dist(g, w[0], t) < INF
    ensures w[|w| - 1] < nodes && Dist(g, w[|w| - 1], t) + PositiveHops(g, routes, t, w) <= Dist(g, w[0], t)
    ensures w[|w| - 1] != t ==> exists u :: Routed(g, nodes, routes, t, w + [u])
  {
    hide RoutesOf, SharedNetwork, Hop, Dist, IsPositive;
    var n := |w| - 1;
    if n > 0 {
      var init := w[..n];
      assert Routed(g, nodes, routes, t, init);
      RoutesReachOrigin(g, nodes, routes, t, init);
      assert Hop(g, nodes, routes, t, w[n - 1], w[n]);
      HopDescends(g, nodes, routes, t, w[n - 1], w[n]);
    }
    if w[n] != t {
      RoutedContinues(g, nodes, routes, t, w[n]);
      var u :| Hop(g, nodes, routes, t, w[n], u);
      assert Routed(g, nodes, routes, t, w + [u]);
    }
  }

  /** The routes with the one of the same node and origin replaced. */
  function Replaced(routes: set<Route>, r: Route): set<Route> {
    (set q | q in routes && !(q.node == r.node && q.origin == r.origin)) + {r}
  }

  /** Any good route may stand for another: which of several best faces is taken is open. */
  lemma ReplacedIsGood(g: Graph, nodes: nat, routes: set<Route>, r: Route)
    requires RoutesOf(g, nodes, routes) && GoodRoute(g, nodes, r)
    ensures RoutesOf(g, nodes, Replaced(routes, r))
  {
    hide GoodRoute, Dist;
    forall s: nat, t: nat {:trigger Dist(g, s, t)} | s < nodes && t < |g.links| && s != t && Dist(g, s, t) < INF
      ensures HasRoute(Replaced(routes, r), s, t)
    {
      assert HasRoute(routes, s, t);
      var q :| q in routes && q.node == s && q.origin == t;
      assert (if s == r.node && t == r.origin then r else q) in Replaced(routes, r);
    }
  }
}
