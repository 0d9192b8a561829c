/** A map on which the ranks depart from the reader's header, in whatever order nodes are
    visited: two adjacent clients, 0 and 1, each beside one node of a fully linked rest. */
module GatewayExample {
  import opened Digraph
  import opened Components
  import opened NodeRanks
  import opened RankRounds
  import opened DocumentedRanks
  import opened RocketfuelMaps
  import opened ClientLinks

  const NODES: set<nat> := {0, 1, 2, 3, 4, 5}

  const LINKS: set<Arc> := {
    (0, 1), (0, 2), (1, 0), (1, 3),
    (2, 0), (2, 4), (2, 5), (3, 1), (3, 4), (3, 5),
    (4, 2), (4, 3), (4, 5), (5, 2), (5, 3), (5, 4)}

  lemma ClientNeighbours()
    ensures Neighbours(LINKS, 0) == {1, 2} && Neighbours(LINKS, 1) == {0, 3}
  {
  }

  lemma MiddleNeighbours()
    ensures Neighbours(LINKS, 2) == {0, 4, 5} && Neighbours(LINKS, 3) == {1, 4, 5}
  {
  }

  lemma FarNeighbours()
    ensures Neighbours(LINKS, 4) == {2, 3, 5} && Neighbours(LINKS, 5) == {2, 3, 4}
  {
  }

  lemma Degrees()
    ensures Neighbours(LINKS, 0) == {1, 2} && Neighbours(LINKS, 1) == {0, 3}
    ensures Neighbours(LINKS, 2) == {0, 4, 5} && Neighbours(LINKS, 3) == {1, 4, 5}
    ensures Neighbours(LINKS, 4) == {2, 3, 5} && Neighbours(LINKS, 5) == {2, 3, 4}
    ensures forall v :: v in NODES ==> Degree(LINKS, v) == if v == 0 || v == 1 then 2 else 3
  {
    hide Neighbours;
    ClientNeighbours();
    MiddleNeighbours();
    FarNeighbours();
  }

  lemma LinksAreUndirected()
    ensures Undirected(NODES, LINKS) && ArcsInside(LINKS, NODES)
  {
  }

  function Other(v: nat): nat {
    if v == 0 then 1 else 0
  }

  /** The node beyond the other client. */
  function Far(v: nat): nat {
    if v == 0 then 3 else 2
  }

  predicate OnlyClients(r: Ranks) {
    r.Keys == NODES && forall x :: x in NODES ==> r[x] == UNKNOWN
  }

  lemma {:induction false} NoLeaves(order: seq<nat>, r: Ranks, todo: seq<nat>)
    requires r.Keys == NODES
    ensures RoundOf(LINKS, order, r, 1, GatewayLimit(1), todo) == r
    decreases |todo|
  {
    Degrees();
    hide Degree, Neighbours, Visited, Adjacent;
    if todo != [] {
      NoLeaves(order, r, todo[1..]);
    }
  }

  /** Visiting a client first makes the node beyond the other one backbone. */
  lemma FirstVisit(order: seq<nat>, r: Ranks, v: nat)
    requires Lists(order, NODES) && OnlyClients(r) && (v == 0 || v == 1)
    ensures Visited(LINKS, order, r[v := CLIENT], GatewayLimit(2), GATEWAY, Adjacent(LINKS, v, order))[Far(v)] ==
            BACKBONE
  {
    Degrees();
    LinksAreUndirected();
    hide Lists, Degree, Neighbours, Visited, Adjacent, Spreads, ArcsInside;
    var mid := r[v := CLIENT];
    assert mid.Keys == NODES;
    SurroundingsSpread(LINKS, order, mid, v, GatewayLimit(2), GATEWAY);
    BackboneBesideClient(LINKS, mid, Visited(LINKS, order, mid, GatewayLimit(2), GATEWAY, Adjacent(LINKS, v, order)),
                         v, GatewayLimit(2), Other(v), Far(v));
  }

  lemma {:induction false} RoundMisranks(order: seq<nat>, r: Ranks, todo: seq<nat>) returns (v: nat)
    requires Lists(order, NODES) && OnlyClients(r) && 0 in todo
    ensures v == 0 || v == 1
    ensures RoundOf(LINKS, order, r, 2, GatewayLimit(2), todo)[Far(v)] == BACKBONE
    decreases |todo|
  {
    Degrees();
    hide Lists, Degree, Neighbours, Visited, Adjacent;
    v := todo[0];
    if v == 0 || v == 1 {
      FirstVisit(order, r, v);
      var next := Visited(LINKS, order, r[v := CLIENT], GatewayLimit(2), GATEWAY, Adjacent(LINKS, v, order));
      assert Far(v) in NODES;
      RoundKeeps(LINKS, order, next, 2, GatewayLimit(2), todo[1..], Far(v));
    } else {
      v := RoundMisranks(order, r, todo[1..]);
    }
  }

  /** In every order of the nodes one of the two clients borders a backbone node. */
  lemma BackboneBordersClient(order: seq<nat>) returns (v: nat)
    requires Lists(order, NODES)
    ensures v == 0 || v == 1
    ensures RanksOf(LINKS, order, NODES, 2)[Far(v)] == BACKBONE && RanksOf(LINKS, order, NODES, 2)[Other(v)] == CLIENT
    ensures HasArc(LINKS, Far(v), Other(v))
  {
    Degrees();
    LinksAreUndirected();
    hide Degree, Neighbours, RoundOf, Undirected, ArcsInside, IsRanked;
    var r := Rounds(LINKS, order, NODES, 0);
    NoLeaves(order, r, order);
    assert Rounds(LINKS, order, NODES, 1) == r;
    assert 0 in NODES;
    v := RoundMisranks(order, r, order);
    assert Rounds(LINKS, order, NODES, 2)[Far(v)] == BACKBONE;
    OthersAreRanked(order);
  }

  /** The two nodes behind border no client. */
  lemma ClientFree(x: nat)
    requires x == 4 || x == 5
    ensures !BordersClient(LINKS, x, 2)
  {
    Degrees();
    hide Degree;
    assert forall y :: HasArc(LINKS, x, y) ==> y in NODES && y != 0 && y != 1;
  }

  lemma RankIs(r: Ranks, x: nat)
    requires IsRanked(LINKS, LINKS, r, 2) && x in r
    ensures r[x] == CLIENT <==> 1 <= Degree(LINKS, x) <= 2
    ensures !BordersClient(LINKS, x, 2) && r[x] != CLIENT ==> r[x] == BACKBONE
  {
    hide Degree, Serves, BordersClient, Beyond;
  }

  /** Both clients are ranked as such, and the two nodes behind as backbone. */
  lemma OthersAreRanked(order: seq<nat>)
    requires Lists(order, NODES)
    ensures RanksOf(LINKS, order, NODES, 2)[0] == RanksOf(LINKS, order, NODES, 2)[1] == CLIENT
    ensures RanksOf(LINKS, order, NODES, 2)[4] == RanksOf(LINKS, order, NODES, 2)[5] == BACKBONE
  {
    hide Degree, RanksOf, Undirected, ArcsInside, Lists, IsRanked, BordersClient, Neighbours;
    Degrees();
    LinksAreUndirected();
    RanksAreRanked(NODES, LINKS, order, 2);
    var r := RanksOf(LINKS, order, NODES, 2);
    assert 0 in r && 1 in r && 4 in r && 5 in r;
    RankIs(r, 0);
    RankIs(r, 1);
    RankIs(r, 4);
    RankIs(r, 5);
    ClientFree(4);
    ClientFree(5);
  }

  lemma Follow(core: set<nat>, u: nat, v: nat)
    requires Closed(LINKS, core) && u in core && (u, v) in LINKS
    ensures v in core
  {
    assert (u, v).1 in core;
  }

  /** From every node the links lead to node 2. */
  lemma CoreHasTwo(core: set<nat>, u: nat)
    requires Closed(LINKS, core) && u in core && u in NODES
    ensures 2 in core
  {
    hide Closed;
    if u == 1 {
      Follow(core, 1, 0);
      Follow(core, 0, 2);
    } else if u == 3 {
      Follow(core, 3, 4);
      Follow(core, 4, 2);
    } else if u != 2 {
      Follow(core, u, 2);
    }
  }

  lemma CoreHasAll(core: set<nat>)
    requires Closed(LINKS, core) && 2 in core
    ensures NODES <= core
  {
    hide Closed;
    Follow(core, 2, 0);
    Follow(core, 0, 1);
    Follow(core, 1, 3);
    Follow(core, 2, 4);
    Follow(core, 2, 5);
  }

  lemma LinksStay()
    ensures Within(LINKS, NODES) == LINKS
  {
  }

  lemma CoreIsAll(core: set<nat>)
    requires IsBiggestComponent(NODES, LINKS, core)
    ensures core == NODES && Within(LINKS, core) == LINKS
  {
    hide IsBiggestComponent, Closed, Within;
    BiggestIsClosed(NODES, LINKS, core);
    BiggestIsInhabited(NODES, LINKS, core);
    var u :| u in core;
    CoreHasTwo(core, u);
    CoreHasAll(core);
    LinksStay();
  }

  lemma BiggestIsInhabited(nodes: set<nat>, g: set<Arc>, kept: set<nat>)
    requires IsBiggestComponent(nodes, g, kept) && nodes != {}
    ensures kept != {}
  {
  }

  /** The reader's result misses a client of the map, although the map is connected. */
  lemma ClientIsDropped(order: seq<nat>, s: Stages, kept: set<nat>, g: set<Arc>, r: Ranks)
    requires Lists(order, NODES) && IsReading(true, true, order, NODES, LINKS, 2, s, kept, g, r)
    ensures !(0 in kept && 1 in kept)
  {
    hide Lists, IsBiggestComponent, JoinsBackbone, RanksOf, Filtered, Within, BordersGateway, HasArc;
    CoreIsAll(s.core);
    var v := BackboneBordersClient(order);
    OthersAreRanked(order);
    StrandedClient(s.ranks, v);
    OthersStayLinked(s.ranks, s.joined);
    TrimmingDropsClient(true, order, NODES, LINKS, 2, s, kept, g, r, Other(v));
  }

  /** The client beside the backbone node borders no gateway. */
  lemma StrandedClient(r: Ranks, v: nat)
    requires (v == 0 || v == 1) && r.Keys == NODES && r[Far(v)] == BACKBONE && r[0] == r[1] == CLIENT
    ensures !BordersGateway(LINKS, r, Other(v))
  {
    OnlyTwoLinks(v);
  }

  lemma OnlyTwoLinks(v: nat)
    requires v == 0 || v == 1
    ensures forall w :: HasArc(LINKS, Other(v), w) ==> w == v || w == Far(v)
  {
  }

  lemma OthersStayLinked(r: Ranks, joined: set<Arc>)
    requires r.Keys == NODES && r[4] == r[5] == BACKBONE && JoinsBackbone(LINKS, joined, r)
    ensures HasArc(Filtered(joined, r), 4, 5)
  {
    hide ComponentCount;
    assert (4, 5) in LINKS;
  }
}
