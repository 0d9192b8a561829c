/** A network on which packets that follow exact routes go back and forth for ever, over a link
    of metric 0. */
module RouteExample {
  import opened Networks
  import opened ShortestPaths
  import opened Routes

  function Link(face: Face, target: nat): Incidency {
    Incidency(Some(face), target)
  }

  /** Nodes 0 and 1 are linked at metric 0; two paths of metric 2 lead on to node 4, from node 0
      over node 2 and from node 1 over node 3. */
  const NET: Graph := Graph([
    [Link(0, 1), Link(1, 2)],
    [Link(2, 0), Link(3, 3)],
    [Link(4, 0), Link(5, 4)],
    [Link(6, 1), Link(7, 4)],
    [Link(8, 2), Link(9, 3)]],
    map[0 := 0, 1 := 1, 2 := 0, 3 := 1, 4 := 1, 5 := 1, 6 := 1, 7 := 1, 8 := 1, 9 := 1])

  const POTENTIAL: seq<nat> := [2, 2, 1, 1, 0]

  const OVER_1: Route := Route(0, 4, 0, 2)
  const OVER_0: Route := Route(1, 4, 2, 2)

  lemma NetIsShared()
    ensures ValidGraph(NET) && RouterGraph(NET, 5)
    ensures forall e {:trigger IsEdge(NET, e)} :: IsEdge(NET, e) ==> e.source < 5
  {
  }

  lemma FacesAreOwn()
    ensures FacesUnique(NET)
  {
    var links: seq<seq<Incidency>> := NET.links;
    assert forall s: nat, i: nat, t: nat, j: nat ::
      0 <= s < 5 && 0 <= t < 5 && 0 <= i < |links[s]| && 0 <= j < |links[t]| && links[s][i].face == links[t][j].face ==>
        s == t && i == j;
  }

  lemma IsPotentialFor4()
    ensures IsPotential(NET, 4, POTENTIAL)
  {
  }

  /** A path of two further links from each of the two nodes. */
  lemma Edges()
    ensures IsEdge(NET, Edge(0, Link(0, 1))) && EdgeWeight(NET, Link(0, 1)) == 0
    ensures IsEdge(NET, Edge(1, Link(2, 0))) && EdgeWeight(NET, Link(2, 0)) == 0
    ensures IsEdge(NET, Edge(0, Link(1, 2))) && EdgeWeight(NET, Link(1, 2)) == 1
    ensures IsEdge(NET, Edge(1, Link(3, 3))) && EdgeWeight(NET, Link(3, 3)) == 1
    ensures IsEdge(NET, Edge(2, Link(5, 4))) && EdgeWeight(NET, Link(5, 4)) == 1
    ensures IsEdge(NET, Edge(3, Link(7, 4))) && EdgeWeight(NET, Link(7, 4)) == 1
  {
    assert NET.links[0][0] == Link(0, 1) && NET.links[0][1] == Link(1, 2);
    assert NET.links[1][0] == Link(2, 0) && NET.links[1][1] == Link(3, 3);
    assert NET.links[2][1] == Link(5, 4) && NET.links[3][1] == Link(7, 4);
  }

  /** Three edges in a row cost the sum of their weights. */
  lemma ThreeEdges(g: Graph, a: Edge, b: Edge, c: Edge)
    requires IsEdge(g, a) && IsEdge(g, b) && IsEdge(g, c)
    requires a.link.target == b.source && b.link.target == c.source && a.source != b.source && a.source != c.source
    ensures IsPath(g, a.source, [a, b, c], c.link.target) && LeavesOnce([a, b, c], a.source)
    ensures Cost(g, [a, b, c]) == EdgeWeight(g, a.link) + EdgeWeight(g, b.link) + EdgeWeight(g, c.link)
  {
    hide IsEdge;
    CostOfOne(g, a);
    CostOfOne(g, b);
    CostOfOne(g, c);
    CostConcat(g, [a], [b]);
    CostConcat(g, [a] + [b], [c]);
    assert [a] + [b] + [c] == [a, b, c];
  }

  lemma StartsOver(g: Graph, p: seq<Edge>, s: nat, t: nat, face: Face, cost: nat)
    requires IsPath(g, s, p, t) && LeavesOnce(p, s) && p != [] && Cost(g, p) == cost && p[0].link.face == Some(face)
    ensures StartsBestPath(g, s, t, face, cost)
  {
  }

  /** Best routes of the two nodes lead over each other. */
  lemma BothAreGood()
    ensures GoodRoute(NET, 5, OVER_1) && GoodRoute(NET, 5, OVER_0)
  {
    hide IsEdge, IsPath, LeavesOnce, Cost, Dist, EdgeWeight, StartsBestPath, IsPotential;
    Edges();
    IsPotentialFor4();
    assert |NET.links| == 5;
    var e, f := Edge(0, Link(0, 1)), Edge(1, Link(2, 0));
    ThreeEdges(NET, e, Edge(1, Link(3, 3)), Edge(3, Link(7, 4)));
    ThreeEdges(NET, f, Edge(0, Link(1, 2)), Edge(2, Link(5, 4)));
    StartsOver(NET, [e, Edge(1, Link(3, 3)), Edge(3, Link(7, 4))], 0, 4, 0, 2);
    StartsOver(NET, [f, Edge(0, Link(1, 2)), Edge(2, Link(5, 4))], 1, 4, 2, 2);
    DistIsLower(NET, 0, 4, [e, Edge(1, Link(3, 3)), Edge(3, Link(7, 4))]);
    DistIsLower(NET, 1, 4, [f, Edge(0, Link(1, 2)), Edge(2, Link(5, 4))]);
    DistAtLeast(NET, 4, POTENTIAL, 0);
    DistAtLeast(NET, 4, POTENTIAL, 1);
  }

  function BackAndForth(n: nat): seq<nat> {
    seq(n, i => i % 2)
  }

  lemma BackAndForthHops(routes: set<Route>)
    requires OVER_1 in routes && OVER_0 in routes
    ensures Hop(NET, 5, routes, 4, 0, 1) && Hop(NET, 5, routes, 4, 1, 0)
  {
    hide IsEdge;
    Edges();
    assert HopOver(NET, 5, routes, 4, 0, 1, OVER_1, Link(0, 1));
    assert HopOver(NET, 5, routes, 4, 1, 0, OVER_0, Link(2, 0));
  }

  /** Whatever exact routes the network has, the two routes of nodes 0 and 1 towards node 4 may
      as well lead over each other; packets then never arrive. */
  lemma PacketsMayNeverArrive(routes: set<Route>, n: nat)
    requires RoutesOf(NET, 5, routes) && n > 0
    ensures
      var others := Replaced(Replaced(routes, OVER_1), OVER_0);
      && SharedNetwork(NET, 5) && RoutesOf(NET, 5, others)
      && Routed(NET, 5, others, 4, BackAndForth(n)) && 4 !in BackAndForth(n)
  {
    hide RoutesOf, GoodRoute, Hop, FacesUnique, RouterGraph;
    NetIsShared();
    FacesAreOwn();
    BothAreGood();
    ReplacedIsGood(NET, 5, routes, OVER_1);
    ReplacedIsGood(NET, 5, Replaced(routes, OVER_1), OVER_0);
    BackAndForthHops(Replaced(Replaced(routes, OVER_1), OVER_0));
  }
}
