/** Ranking as the reader runs it. Its containers are ordered sets, so that one order of the
    nodes governs every loop over nodes and over neighbours. */
module RankRounds {
  import opened Digraph
  import opened Components
  import opened NodeRanks

  /** An order of the nodes, each once; it may also list nodes that have been removed. */
  ghost predicate Lists(order: seq<nat>, nodes: set<nat>) {
    Distinct(order) && forall x :: x in nodes ==> x in order
  }

  function Elements(s: seq<nat>): set<nat> {
    set x | x in s
  }

  /** The neighbours of `v` in order. */
  function Adjacent(g: set<Arc>, v: nat, order: seq<nat>): (r: seq<nat>)
    ensures forall u :: u in r <==> u in order && HasArc(g, v, u)
  {
    if order == [] then []
    else (if HasArc(g, v, order[0]) then [order[0]] else []) + Adjacent(g, v, order[1..])
  }

  lemma FewerUnknowns(r: Ranks, u: nat, kind: NodeType)
    requires Unranked(r, u) && kind != UNKNOWN
    ensures Unknowns(r[u := kind]) == Unknowns(r) - {u}
    ensures |Unknowns(r[u := kind])| < |Unknowns(r)|
  {
    assert u in Unknowns(r);
    assert Unknowns(r[u := kind]) == Unknowns(r) - {u};
  }

  /** The ranks after the neighbours in `todo` were visited: each unranked one gets the kind,
      and those of a degree below the limit visit their own neighbours for the backbone. */
  function Visited(g: set<Arc>, order: seq<nat>, r: Ranks, limit: nat, kind: NodeType, todo: seq<nat>): (after: Ranks)
    requires kind != UNKNOWN
    ensures after.Keys == r.Keys && Unknowns(after) <= Unknowns(r)
    ensures forall x :: x in r && r[x] != UNKNOWN ==> after[x] == r[x]
    decreases |Unknowns(r)|, |todo|
  {
    if todo == [] then r
    else if !Unranked(r, todo[0]) then Visited(g, order, r, limit, kind, todo[1..])
    else
      FewerUnknowns(r, todo[0], kind);
      var mid := r[todo[0] := kind];
      var deeper := if Degree(g, todo[0]) < limit
                    then Visited(g, order, mid, limit, BACKBONE, Adjacent(g, todo[0], order)) else mid;
      SubsetCardinality(Unknowns(deeper), Unknowns(mid));
      Visited(g, order, deeper, limit, kind, todo[1..])
  }

  /** The ranks after one round: the nodes of degree `k` in `todo` become clients in turn, and
      rank their surroundings. */
  function RoundOf(g: set<Arc>, order: seq<nat>, r: Ranks, k: nat, limit: nat, todo: seq<nat>): (after: Ranks)
    ensures after.Keys == r.Keys
  {
    if todo == [] then r
    else
      var v := todo[0];
      var next := if v in r && Degree(g, v) == k
                  then Visited(g, order, r[v := CLIENT], limit, GATEWAY, Adjacent(g, v, order)) else r;
      RoundOf(g, order, next, k, limit, todo[1..])
  }

  /** The rounds of the degrees 1 to `k`. */
  function Rounds(g: set<Arc>, order: seq<nat>, nodes: set<nat>, k: nat): (after: Ranks)
    ensures after.Keys == nodes
  {
    if k == 0 then map x | x in nodes :: UNKNOWN
    else RoundOf(g, order, Rounds(g, order, nodes, k - 1), k, GatewayLimit(k), order)
  }

  function Filled(r: Ranks): Ranks {
    map x | x in r :: if r[x] == UNKNOWN then BACKBONE else r[x]
  }

  /** The ranks of all nodes. */
  function RanksOf(g: set<Arc>, order: seq<nat>, nodes: set<nat>, k: int): (after: Ranks)
    ensures after.Keys == nodes
  {
    Filled(Rounds(g, order, nodes, if k < 0 then 0 else k))
  }

  /** Visiting neighbours of `v` spreads ranks from `v`, whatever the order. */
  lemma {:induction false} VisitedSpreads(g: set<Arc>, order: seq<nat>, r: Ranks, before: Ranks, v: nat, limit: nat,
                                          kind: NodeType, done: set<nat>, todo: seq<nat>)
    requires kind != UNKNOWN && Spreads(g, r, before, v, limit, kind, done)
    requires Lists(order, r.Keys) && ArcsInside(g, r.Keys)
    requires forall u :: u in todo ==> HasArc(g, v, u)
    ensures Spreads(g, r, Visited(g, order, before, limit, kind, todo), v, limit, kind, done + Elements(todo))
    decreases |Unknowns(before)|, |todo|
  {
    hide Spreads, Lists, ArcsInside, Degree;
    if todo == [] {
      assert done + Elements(todo) == done;
    } else {
      var u := todo[0];
      var next := done + {u};
      assert done + Elements(todo) == next + Elements(todo[1..]);
      if !Unranked(before, u) {
        SpreadSkip(g, r, before, v, limit, kind, done, u);
        VisitedSpreads(g, order, r, before, v, limit, kind, next, todo[1..]);
      } else {
        FewerUnknowns(before, u, kind);
        var mid := before[u := kind];
        SpreadKeys(g, r, before, v, limit, kind, done);
        assert mid.Keys == r.Keys;
        if Degree(g, u) < limit {
          var deeper := Visited(g, order, mid, limit, BACKBONE, Adjacent(g, u, order));
          SubsetCardinality(Unknowns(deeper), Unknowns(mid));
          SurroundingsSpread(g, order, mid, u, limit, BACKBONE);
          SpreadDeep(g, r, before, deeper, v, limit, kind, done, u);
          VisitedSpreads(g, order, r, deeper, v, limit, kind, next, todo[1..]);
        } else {
          SpreadOne(g, r, before, v, limit, kind, done, u);
          VisitedSpreads(g, order, r, mid, v, limit, kind, next, todo[1..]);
        }
      }
    }
  }

  ghost predicate ArcsInside(g: set<Arc>, nodes: set<nat>) {
    forall u, v :: HasArc(g, u, v) ==> v in nodes
  }

  lemma SpreadKeys(g: set<Arc>, r: Ranks, after: Ranks, v: nat, limit: nat, kind: NodeType, done: set<nat>)
    requires Spreads(g, r, after, v, limit, kind, done)
    ensures after.Keys == r.Keys && forall x :: x in r && r[x] != UNKNOWN ==> after[x] == r[x]
  {
    hide SpreadArcs, Reaches, PassedOn;
  }

  lemma AdjacentIsNeighbours(g: set<Arc>, v: nat, order: seq<nat>, nodes: set<nat>)
    requires Lists(order, nodes) && ArcsInside(g, nodes)
    ensures Elements(Adjacent(g, v, order)) == Neighbours(g, v)
  {
    forall u | u in Neighbours(g, v)
      ensures u in Adjacent(g, v, order)
    {
      assert HasArc(g, v, u);
    }
    forall u | u in Adjacent(g, v, order)
      ensures u in Neighbours(g, v)
    {
      assert (v, u) in g;
    }
  }

  /** Visiting all neighbours of a node spreads ranks from it. */
  lemma SurroundingsSpread(g: set<Arc>, order: seq<nat>, r: Ranks, v: nat, limit: nat, kind: NodeType)
    requires kind != UNKNOWN && Lists(order, r.Keys) && ArcsInside(g, r.Keys)
    ensures Spreads(g, r, Visited(g, order, r, limit, kind, Adjacent(g, v, order)), v, limit, kind, Neighbours(g, v))
    decreases |Unknowns(r)|, |order| + 1
  {
    hide Spreads, Lists, ArcsInside, Degree, Neighbours;
    AdjacentIsNeighbours(g, v, order, r.Keys);
    SpreadStart(g, r, v, limit, kind);
    AdjacentIsShort(g, v, order);
    VisitedSpreads(g, order, r, r, v, limit, kind, {}, Adjacent(g, v, order));
    assert {} + Elements(Adjacent(g, v, order)) == Neighbours(g, v);
  }

  lemma {:induction false} AdjacentIsShort(g: set<Arc>, v: nat, order: seq<nat>)
    ensures |Adjacent(g, v, order)| <= |order|
  {
    if order != [] {
      AdjacentIsShort(g, v, order[1..]);
    }
  }

  /** A round classifies the nodes it visits. */
  lemma {:induction false} RoundClassifies(nodes: set<nat>, g: set<Arc>, order: seq<nat>, r: Ranks, k: nat,
                                           done: set<nat>, todo: seq<nat>)
    requires Undirected(nodes, g) && r.Keys == nodes && k >= 1 && Lists(order, nodes)
    requires Classified(g, r, k, done)
    ensures Classified(g, RoundOf(g, order, r, k, GatewayLimit(k), todo), k, done + Elements(todo) * nodes)
    decreases |todo|
  {
    hide Classified, Lists, Degree, Visited, Undirected, Neighbours;
    if todo == [] {
      assert done + Elements(todo) * nodes == done;
    } else {
      var v := todo[0];
      var rest := Elements(todo[1..]) * nodes;
      if v in nodes && Degree(g, v) == k {
        var mid := r[v := CLIENT];
        UndirectedArcs(nodes, g);
        assert mid.Keys == nodes;
        SurroundingsSpread(g, order, mid, v, GatewayLimit(k), GATEWAY);
        var next := Visited(g, order, mid, GatewayLimit(k), GATEWAY, Adjacent(g, v, order));
        NewClient(nodes, g, r, next, k, done, v);
        RoundClassifies(nodes, g, order, next, k, done + {v}, todo[1..]);
        assert done + Elements(todo) * nodes == done + {v} + rest;
      } else if v in nodes {
        NotThisDegree(g, r, k, done, v);
        RoundClassifies(nodes, g, order, r, k, done + {v}, todo[1..]);
        assert done + Elements(todo) * nodes == done + {v} + rest;
      } else {
        RoundClassifies(nodes, g, order, r, k, done, todo[1..]);
        assert done + Elements(todo) * nodes == done + rest;
      }
    }
  }

  lemma UndirectedArcs(nodes: set<nat>, g: set<Arc>)
    requires Undirected(nodes, g)
    ensures ArcsInside(g, nodes)
  {
  }

  lemma ListsAll(order: seq<nat>, nodes: set<nat>)
    requires Lists(order, nodes)
    ensures Elements(order) * nodes == nodes
  {
  }

  lemma {:induction false} RoundsClassify(nodes: set<nat>, g: set<Arc>, order: seq<nat>, k: nat)
    requires Undirected(nodes, g) && Lists(order, nodes)
    ensures Classified(g, Rounds(g, order, nodes, k), k + 1, {})
    ensures k >= 1 ==> Classified(g, Rounds(g, order, nodes, k), k, nodes)
  {
    hide Undirected, Lists, Classified, RoundOf;
    if k == 0 {
      NoneClassified(g, Rounds(g, order, nodes, 0));
    } else {
      RoundsClassify(nodes, g, order, k - 1);
      RoundClassifies(nodes, g, order, Rounds(g, order, nodes, k - 1), k, {}, order);
      ListsAll(order, nodes);
      assert {} + Elements(order) * nodes == nodes == Rounds(g, order, nodes, k).Keys;
      NextDegree(g, Rounds(g, order, nodes, k), k);
    }
  }

  ghost predicate BordersClient(parsed: set<Arc>, x: nat, k: int) {
    exists y :: HasArc(parsed, x, y) && 1 <= Degree(parsed, y) <= k
  }

  /** Every node is ranked: clients by their degree in the parsed map; gateways beside clients,
      which they still serve; and a node beside a client is backbone only beyond two clients. */
  ghost predicate IsRanked(parsed: set<Arc>, g: set<Arc>, r: Ranks, k: int) {
    && (forall x :: x in r ==> r[x] != UNKNOWN && (r[x] == CLIENT <==> 1 <= Degree(parsed, x) <= k))
    && (forall x :: x in r && r[x] == GATEWAY ==> Serves(g, r, x) && BordersClient(parsed, x, k))
    && (forall x :: x in r && r[x] == BACKBONE && BordersClient(parsed, x, k) ==> Beyond(parsed, x, k))
  }

  lemma BordersIsServed(nodes: set<nat>, g: set<Arc>, r: Ranks, k: nat, limit: int, x: nat)
    requires k >= 1 && Classified(g, r, k, {}) && (k - 1 == limit || (k == 1 && limit < 1))
    requires Undirected(nodes, g) && r.Keys == nodes && x in r
    ensures Serves(g, r, x) <==> BordersClient(g, x, limit)
    ensures BordersClient(g, x, limit) ==> !Unranked(r, x)
    ensures Beyond(g, x, k) && BordersClient(g, x, limit) ==> Beyond(g, x, limit)
  {
    hide Degree, NoSmaller;
    if Serves(g, r, x) {
      var y :| HasArc(g, x, y) && y in r && r[y] == CLIENT;
    }
    if BordersClient(g, x, limit) {
      var y :| HasArc(g, x, y) && 1 <= Degree(g, y) <= limit;
      assert HasArc(g, y, x);
      assert r[y] == CLIENT;
    }
    if Beyond(g, x, k) && BordersClient(g, x, limit) {
      var y :| HasArc(g, x, y) && 1 <= Degree(g, y) <= limit;
      var w, z :| IsBeyond(g, x, w, z, k);
      NoSmallerAt(g, x, Degree(g, w), y);
      BeyondBy(g, x, w, z, limit);
    }
  }

  lemma NoSmallerAt(g: set<Arc>, x: nat, d: nat, w: nat)
    requires NoSmaller(g, x, d) && HasArc(g, x, w)
    ensures Degree(g, w) >= d
  {
  }

  lemma FilledIsRanked(nodes: set<nat>, g: set<Arc>, r: Ranks, after: Ranks, k: nat, limit: int)
    requires k >= 1 && Classified(g, r, k, {}) && (k - 1 == limit || (k == 1 && limit < 1))
    requires Undirected(nodes, g) && r.Keys == nodes && after.Keys == nodes
    requires forall x :: x in after ==> after[x] == if r[x] == UNKNOWN then BACKBONE else r[x]
    ensures IsRanked(g, g, after, limit)
  {
    hide Degree, Serves, BordersClient, Beyond, Undirected;
    forall x | x in after && after[x] == GATEWAY
      ensures Serves(g, after, x) && BordersClient(g, x, limit)
    {
      BordersIsServed(nodes, g, r, k, limit, x);
      ServesStill(g, r, after, x);
    }
    forall x | x in after && after[x] == BACKBONE && BordersClient(g, x, limit)
      ensures Beyond(g, x, limit)
    {
      BordersIsServed(nodes, g, r, k, limit, x);
    }
  }

  /** The ranks of all nodes are as they should be, in whatever order the nodes are visited. */
  lemma RanksAreRanked(nodes: set<nat>, g: set<Arc>, order: seq<nat>, k: int)
    requires Undirected(nodes, g) && Lists(order, nodes)
    ensures RanksOf(g, order, nodes, k).Keys == nodes && IsRanked(g, g, RanksOf(g, order, nodes, k), k)
  {
    hide Undirected, Lists, Classified, Rounds, IsRanked;
    var n: nat := if k < 0 then 0 else k;
    RoundsClassify(nodes, g, order, n);
    FilledIsRanked(nodes, g, Rounds(g, order, nodes, n), RanksOf(g, order, nodes, k), n + 1, k);
  }
}
