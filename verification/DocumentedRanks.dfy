/** When the ranks are as the reader's header says: gateways are the nodes beside clients, and
    the backbone is the rest. */
module DocumentedRanks {
  import opened Digraph
  import opened Components
  import opened NodeRanks
  import opened RankRounds

  predicate ClientDegree(g: set<Arc>, x: nat, k: int) {
    1 <= Degree(g, x) <= k
  }

  /** The header's definition of the three ranks, for one node. */
  ghost predicate AsDocumented(g: set<Arc>, r: Ranks, k: int, x: nat) {
    && x in r
    && (r[x] == CLIENT <==> ClientDegree(g, x, k))
    && (r[x] == GATEWAY <==> !ClientDegree(g, x, k) && BordersClient(g, x, k))
    && (r[x] == BACKBONE <==> !ClientDegree(g, x, k) && !BordersClient(g, x, k))
  }

  /** A ranked node departs from the header exactly when it is backbone beside a client, and
      then it lies beyond two clients. */
  lemma RankedAsDocumented(g: set<Arc>, more: set<Arc>, r: Ranks, k: int, x: nat)
    requires IsRanked(g, more, r, k) && x in r
    ensures AsDocumented(g, r, k, x) <==> !(r[x] == BACKBONE && BordersClient(g, x, k))
    ensures !AsDocumented(g, r, k, x) ==> Beyond(g, x, k) && !ClientDegree(g, x, k)
  {
    hide Degree, Serves, BordersClient, Beyond;
  }

  lemma {:induction false} Enumeration(s: set<nat>) returns (order: seq<nat>)
    ensures Distinct(order) && forall x :: x in order <==> x in s
  {
    if s == {} {
      order := [];
    } else {
      var x :| x in s;
      var rest := Enumeration(s - {x});
      order := [x] + rest;
    }
  }

  /** The nodes in an order that starts with two given ones. */
  lemma OrderFrom(nodes: set<nat>, z: nat, y: nat) returns (order: seq<nat>)
    requires z in nodes && y in nodes && z != y
    ensures Lists(order, nodes) && |order| >= 2 && order[0] == z && order[1] == y
  {
    var rest := Enumeration(nodes - {z, y});
    order := [z, y] + rest;
    assert forall x :: x in order <==> x == z || x == y || x in rest;
  }

  /** A node without neighbours of a degree below `d` is unranked before the round of `d`. */
  lemma UnrankedBefore(nodes: set<nat>, g: set<Arc>, order: seq<nat>, d: nat, x: nat)
    requires Undirected(nodes, g) && Lists(order, nodes) && d >= 1
    requires x in nodes && NoSmaller(g, x, d) && !ClientDegree(g, x, d - 1)
    ensures Unranked(Rounds(g, order, nodes, d - 1), x)
  {
    hide Undirected, Lists, Classified, Degree, NoSmaller, ClientDegree, RoundOf;
    if d > 1 {
      RoundsClassify(nodes, g, order, d - 1);
      UnrankedIf(g, Rounds(g, order, nodes, d - 1), d - 1, nodes, x);
    }
  }

  lemma UnrankedIf(g: set<Arc>, r: Ranks, k: nat, nodes: set<nat>, x: nat)
    requires k >= 1 && r.Keys == nodes && Classified(g, r, k, nodes)
    requires x in nodes && NoSmaller(g, x, k + 1) && !ClientDegree(g, x, k)
    ensures Unranked(r, x)
  {
    hide Degree;
    assert forall y :: HasArc(g, x, y) && y in r ==> r[y] != CLIENT;
    assert forall y, z :: !IsBeyond(g, x, y, z, k);
  }

  /** Visiting `y` first makes the unranked nodes around it backbone. */
  lemma FirstVisited(g: set<Arc>, order: seq<nat>, r: Ranks, limit: nat, todo: seq<nat>, y: nat, x: nat)
    requires Lists(order, r.Keys) && ArcsInside(g, r.Keys) && todo != [] && todo[0] == y
    requires Unranked(r, y) && Degree(g, y) < limit && HasArc(g, y, x) && Unranked(r, x) && x != y
    ensures Visited(g, order, r, limit, GATEWAY, todo)[x] == BACKBONE
  {
    hide Lists, ArcsInside, Degree, Reaches, SpreadArcs, PassedOn, Adjacent;
    var mid := r[y := GATEWAY];
    FewerUnknowns(r, y, GATEWAY);
    assert mid.Keys == r.Keys;
    SurroundingsSpread(g, order, mid, y, limit, BACKBONE);
    var deeper := Visited(g, order, mid, limit, BACKBONE, Adjacent(g, y, order));
    assert x in Neighbours(g, y);
    assert NewlyRanked(mid, deeper, x);
  }

  lemma StartsWith(g: set<Arc>, z: nat, y: nat, order: seq<nat>)
    requires |order| >= 2 && order[0] == z && order[1] == y && HasArc(g, z, y)
    ensures Adjacent(g, z, order) == (if HasArc(g, z, z) then [z] else []) + [y] + Adjacent(g, z, order[2..])
  {
    assert order[1..][1..] == order[2..] && order[1..][0] == y;
  }

  /** A visit of `z` that takes `y` first makes the nodes beyond `y` backbone. */
  lemma VisitGoesBeyond(g: set<Arc>, order: seq<nat>, r: Ranks, limit: nat, z: nat, y: nat, x: nat)
    requires |order| >= 2 && order[0] == z && order[1] == y && y != z
    requires Lists(order, r.Keys) && ArcsInside(g, r.Keys) && z in r && r[z] != UNKNOWN
    requires HasArc(g, z, y) && HasArc(g, y, x) && Unranked(r, y) && Unranked(r, x) && x != y
    requires Degree(g, y) < limit
    ensures Visited(g, order, r, limit, GATEWAY, Adjacent(g, z, order))[x] == BACKBONE
  {
    hide Lists, ArcsInside, Degree, Adjacent;
    StartsWith(g, z, y, order);
    var rest := [y] + Adjacent(g, z, order[2..]);
    FirstVisited(g, order, r, limit, rest, y, x);
    if HasArc(g, z, z) {
      var todo := Adjacent(g, z, order);
      assert todo == [z] + rest;
      assert todo[1..] == rest;
    } else {
      assert Adjacent(g, z, order) == rest;
    }
  }

  lemma {:induction false} RoundKeeps(g: set<Arc>, order: seq<nat>, r: Ranks, k: nat, limit: nat, todo: seq<nat>,
                                      x: nat)
    requires x in r && r[x] != UNKNOWN && Degree(g, x) != k
    ensures RoundOf(g, order, r, k, limit, todo)[x] == r[x]
    decreases |todo|
  {
    hide Degree, Adjacent, Visited;
    if todo != [] {
      var v := todo[0];
      var next := if v in r && Degree(g, v) == k
                  then Visited(g, order, r[v := CLIENT], limit, GATEWAY, Adjacent(g, v, order)) else r;
      RoundKeeps(g, order, next, k, limit, todo[1..], x);
    }
  }

  lemma {:induction false} RoundsKeep(g: set<Arc>, order: seq<nat>, nodes: set<nat>, d: nat, k: nat, x: nat)
    requires d <= k && x in nodes && Rounds(g, order, nodes, d)[x] == BACKBONE && !ClientDegree(g, x, k)
    requires Degree(g, x) >= 1
    ensures Rounds(g, order, nodes, k)[x] == BACKBONE
  {
    hide Degree, RoundOf;
    if d < k {
      RoundsKeep(g, order, nodes, d, k - 1, x);
      RoundKeeps(g, order, Rounds(g, order, nodes, k - 1), k, GatewayLimit(k), order, x);
    }
  }

  /** In the round of their degree, a visit that starts at `z` and takes `y` first makes a node
      beyond them backbone. */
  lemma RoundGoesBeyond(nodes: set<nat>, g: set<Arc>, order: seq<nat>, r: Ranks, d: nat, z: nat, y: nat, x: nat)
    requires Undirected(nodes, g) && Lists(order, nodes) && r.Keys == nodes
    requires |order| >= 2 && order[0] == z && order[1] == y && y != z && z in nodes
    requires HasArc(g, y, x) && HasArc(g, z, y) && Unranked(r, x) && Unranked(r, y)
    requires Degree(g, y) == Degree(g, z) == d <= 3 && Degree(g, x) != d
    ensures RoundOf(g, order, r, d, GatewayLimit(d), order)[x] == BACKBONE
  {
    hide Undirected, Lists, Degree, Visited, Adjacent;
    UndirectedArcs(nodes, g);
    var mid := r[z := CLIENT];
    assert mid.Keys == nodes;
    VisitGoesBeyond(g, order, mid, GatewayLimit(d), z, y, x);
    var next := Visited(g, order, mid, GatewayLimit(d), GATEWAY, Adjacent(g, z, order));
    RoundKeeps(g, order, next, d, GatewayLimit(d), order[1..], x);
  }

  /** Beyond two clients some order of the nodes makes a node backbone. */
  lemma BeyondIsMisranked(nodes: set<nat>, g: set<Arc>, k: int, x: nat) returns (order: seq<nat>)
    requires Undirected(nodes, g) && x in nodes && Beyond(g, x, k) && !ClientDegree(g, x, k)
    ensures Lists(order, nodes) && RanksOf(g, order, nodes, k)[x] == BACKBONE && BordersClient(g, x, k)
  {
    hide Degree, Rounds, NoSmaller;
    var y, z :| IsBeyond(g, x, y, z, k);
    var d := Degree(g, y);
    assert HasArc(g, z, y) && y in nodes && z in nodes;
    order := OrderFrom(nodes, z, y);
    ArcHasDegree(g, x, y);
    UnrankedBefore(nodes, g, order, d, x);
    UnrankedBefore(nodes, g, order, d, y);
    assert HasArc(g, y, x);
    RoundGoesBeyond(nodes, g, order, Rounds(g, order, nodes, d - 1), d, z, y, x);
    RoundsAt(g, order, nodes, d);
    RoundsKeep(g, order, nodes, d, k, x);
  }

  lemma RoundsAt(g: set<Arc>, order: seq<nat>, nodes: set<nat>, d: nat)
    requires d >= 1
    ensures Rounds(g, order, nodes, d) == RoundOf(g, order, Rounds(g, order, nodes, d - 1), d, GatewayLimit(d), order)
  {
  }

  /** Exactly which nodes some order of the nodes leaves as backbone beside a client. */
  lemma MisrankedIff(nodes: set<nat>, g: set<Arc>, k: int, x: nat)
    requires Undirected(nodes, g) && x in nodes
    ensures (exists order ::
               Lists(order, nodes) && RanksOf(g, order, nodes, k)[x] == BACKBONE && BordersClient(g, x, k)) <==>
            Beyond(g, x, k) && !ClientDegree(g, x, k)
  {
    hide Undirected, Lists, Beyond, Degree, BordersClient, IsRanked, RanksOf;
    if Beyond(g, x, k) && !ClientDegree(g, x, k) {
      var order := BeyondIsMisranked(nodes, g, k, x);
    }
    if order :| Lists(order, nodes) && RanksOf(g, order, nodes, k)[x] == BACKBONE && BordersClient(g, x, k) {
      RanksAreRanked(nodes, g, order, k);
      RankedAsDocumented(g, g, RanksOf(g, order, nodes, k), k, x);
    }
  }

  /** Exactly when the header holds of every node in every order of the nodes: no node that is
      no client lies beyond two clients. */
  lemma HeaderHoldsIff(nodes: set<nat>, g: set<Arc>, k: int)
    requires Undirected(nodes, g)
    ensures (forall order, x :: Lists(order, nodes) && x in nodes ==>
               AsDocumented(g, RanksOf(g, order, nodes, k), k, x)) <==>
            (forall x :: x in nodes && !ClientDegree(g, x, k) ==> !Beyond(g, x, k))
  {
    hide Undirected, Lists, Beyond, Degree, BordersClient, IsRanked, RanksOf, AsDocumented;
    forall order, x | Lists(order, nodes) && x in nodes
      ensures x in RanksOf(g, order, nodes, k)
      ensures AsDocumented(g, RanksOf(g, order, nodes, k), k, x) <==>
              !(RanksOf(g, order, nodes, k)[x] == BACKBONE && BordersClient(g, x, k))
      ensures !AsDocumented(g, RanksOf(g, order, nodes, k), k, x) ==> Beyond(g, x, k) && !ClientDegree(g, x, k)
    {
      RanksAreRanked(nodes, g, order, k);
      RankedAsDocumented(g, g, RanksOf(g, order, nodes, k), k, x);
    }
    forall x | x in nodes && !ClientDegree(g, x, k) && Beyond(g, x, k)
      ensures exists order :: Lists(order, nodes) && !AsDocumented(g, RanksOf(g, order, nodes, k), k, x)
    {
      var order := BeyondIsMisranked(nodes, g, k, x);
    }
  }
}
