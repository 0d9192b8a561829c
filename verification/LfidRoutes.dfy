/** The LFID route calculation: per node, distances with the node's faces disabled are
    turned into rows of the abstract FIB, and the two removal passes follow. */
module LfidRoutes {
  import opened Digraph
  import opened Networks
  import opened ShortestPaths
  import opened Routers
  import opened NextHops
  import opened AbstractFibs
  import opened LfidRows
  import opened LfidMetrics

  /** Node ids above this limit are refused when an entry is made. */
  const NODE_ID_LIMIT := 1000

  /** What the calculation knows about the neighbours of `s`: their faces, and their
      distances to every destination while the faces of `s` are disabled. */
  ghost predicate Neighbours(g: Graph, s: nat, faces: map<nat, Face>, nbSp: map<nat, seq<Weight>>) {
    && nbSp.Keys == faces.Keys
    && (forall u :: u in faces ==> NeighbourKnown(g, s, u, faces[u], nbSp[u]))
    && (forall l {:trigger Edge(s, l)} :: IsEdge(g, Edge(s, l)) ==> l.target in faces)
  }

  ghost predicate NeighbourKnown(g: Graph, s: nat, u: nat, face: Face, d: seq<Weight>) {
    && IsEdge(g, Edge(s, Incidency(Some(face), u)))
    && s < |g.links| && |d| == |g.links|
    && forall t: nat :: t < |d| ==> d[t].cost == Dist(Disable(g, s), u, t)
  }

  /** The row restricted to the neighbours handled so far. */
  ghost predicate RowAmong(g: Graph, s: nat, dst: nat, done: set<nat>, row: set<FibNextHop>) {
    forall nh :: nh in row <==> nh.nhId in done && InRow(g, s, dst, nh)
  }

  lemma NeighbourEntry(g: Graph, s: nat, dst: nat, u: nat, face: Face, d: seq<Weight>)
    requires LfidNetwork(g) && NeighbourKnown(g, s, u, face, d) && dst < |g.links|
    ensures face in g.metric && g.metric[face] > 0 && u < |g.links| && u != s
    ensures d[dst].cost + g.metric[face] >= Dist(g, s, dst)
    ensures forall nh: FibNextHop :: nh.nhId == u ==>
              (InRow(g, s, dst, nh) <==>
               d[dst].cost + g.metric[face] < INF && nh == EntryFor(g, s, Incidency(Some(face), u), dst))
  {
    var l := Incidency(Some(face), u);
    NeverCheaperThanShortest(g, s, l, dst);
    LinkFacts(g, Edge(s, l));
    forall nh: FibNextHop | nh.nhId == u && InRow(g, s, dst, nh)
      ensures nh == EntryFor(g, s, l, dst) && CostOver(g, s, l, dst) < INF
    {
      var k :| IsEdge(g, Edge(s, k)) && k.face.Some? && CostOver(g, s, k, dst) < INF && nh == EntryFor(g, s, k, dst);
      OneLinkPerNeighbour(g, s, k, l);
    }
  }

  lemma RowAmongNext(g: Graph, s: nat, dst: nat, done: set<nat>, row: set<FibNextHop>, u: nat, more: set<FibNextHop>)
    requires RowAmong(g, s, dst, done, row)
    requires forall nh :: nh in more <==> nh.nhId == u && InRow(g, s, dst, nh)
    ensures RowAmong(g, s, dst, done + {u}, row + more)
  {
  }

  lemma FreshNeighbourIsSeparable(g: Graph, s: nat, dst: nat, done: set<nat>, row: set<FibNextHop>, nh: FibNextHop)
    requires RowAmong(g, s, dst, done, row) && nh.nhId !in done
    ensures Separable(row, nh)
  {
  }

  /** The entry over one neighbour, unless the neighbour would loop back. */
  method EntryOver(net: Network, s: nat, dst: nat, spTotalCost: nat, u: nat, face: Face, nbDist: nat,
                   ghost d: seq<Weight>)
    returns (more: set<FibNextHop>)
    requires LfidNetwork(net.State()) && dst < |net.links| <= NODE_ID_LIMIT + 1
    requires NeighbourKnown(net.State(), s, u, face, d) && nbDist == d[dst].cost
    requires spTotalCost == Dist(net.State(), s, dst)
    ensures forall nh :: nh in more <==> nh.nhId == u && InRow(net.State(), s, dst, nh)
    ensures forall nh :: nh in more ==> nh.kind != DISABLED && nh.nhId != s
    ensures |more| <= 1
  {
    NeighbourEntry(net.State(), s, dst, u, face, d);
    var neighborTotalCost := nbDist + net.metric[face];
    assert neighborTotalCost >= spTotalCost;
    if neighborTotalCost >= INF {
      return {};
    }
    var nbType := if nbDist < spTotalCost then DOWNWARD else UPWARD;
    var costDelta := neighborTotalCost - spTotalCost;
    assert 0 < neighborTotalCost <= MAX_COST && u <= NODE_ID_LIMIT;
    more := {FibNextHop(neighborTotalCost, u, costDelta, nbType)};
  }

  /** The row of `dst` holds the entries of the neighbours in `done`; all else is as before. */
  ghost predicate Filling(fib: AbstractFib, dst: nat, before: FibMap, g: Graph, done: set<nat>)
    reads fib
  {
    && fib.Valid()
    && dst in fib.perDstFib
    && fib.perDstFib == before[dst := fib.perDstFib[dst]]
    && RowAmong(g, fib.nodeId, dst, done, fib.perDstFib[dst])
  }

  method InsertEntries(fib: AbstractFib, dst: nat, more: set<FibNextHop>)
    requires fib.Valid() && dst in fib.perDstFib && |more| <= 1
    requires forall nh :: nh in more ==>
               nh.kind != DISABLED && nh.nhId != fib.nodeId && Separable(fib.perDstFib[dst], nh)
    modifies fib
    ensures fib.Valid()
    ensures fib.perDstFib == old(fib.perDstFib)[dst := old(fib.perDstFib[dst]) + more]
  {
    if more != {} {
      var nh :| nh in more;
      OnlyOne(more, nh);
      fib.Insert(dst, nh);
    } else {
      assert fib.perDstFib[dst] + more == fib.perDstFib[dst];
      SameRow(fib.perDstFib, dst, fib.perDstFib[dst]);
    }
  }

  lemma FillingSeparates(fib: AbstractFib, dst: nat, before: FibMap, g: Graph, done: set<nat>)
    requires Filling(fib, dst, before, g, done)
    ensures fib.Valid() && dst in fib.perDstFib
    ensures fib.perDstFib == before[dst := fib.perDstFib[dst]]
    ensures RowAmong(g, fib.nodeId, dst, done, fib.perDstFib[dst])
    ensures forall nh: FibNextHop :: nh.nhId !in done ==> Separable(fib.perDstFib[dst], nh)
  {
    forall nh: FibNextHop | nh.nhId !in done
      ensures Separable(fib.perDstFib[dst], nh)
    {
      FreshNeighbourIsSeparable(g, fib.nodeId, dst, done, fib.perDstFib[dst], nh);
    }
  }

  lemma FillingNext(fib: AbstractFib, dst: nat, before: FibMap, last: FibMap, g: Graph, done: set<nat>, u: nat,
                    more: set<FibNextHop>)
    requires dst in last && last == before[dst := last[dst]] && RowAmong(g, fib.nodeId, dst, done, last[dst])
    requires fib.Valid() && fib.perDstFib == last[dst := last[dst] + more]
    requires forall nh :: nh in more <==> nh.nhId == u && InRow(g, fib.nodeId, dst, nh)
    ensures Filling(fib, dst, before, g, done + {u})
  {
    RowAmongNext(g, fib.nodeId, dst, done, last[dst], u, more);
  }

  lemma NeighbourFacts(g: Graph, s: nat, faces: map<nat, Face>, nbSp: map<nat, seq<Weight>>)
    requires Neighbours(g, s, faces, nbSp)
    ensures nbSp.Keys == faces.Keys
    ensures forall u :: u in nbSp ==> NeighbourKnown(g, s, u, faces[u], nbSp[u]) && |nbSp[u]| == |g.links|
  {
  }

  lemma FillingStarts(fib: AbstractFib, dst: nat, g: Graph)
    requires fib.Valid() && dst in fib.perDstFib && fib.perDstFib[dst] == {}
    ensures Filling(fib, dst, fib.perDstFib, g, {})
  {
  }

  lemma FillingEnds(fib: AbstractFib, dst: nat, before: FibMap, g: Graph, faces: map<nat, Face>,
                    nbSp: map<nat, seq<Weight>>)
    requires Filling(fib, dst, before, g, nbSp.Keys) && Neighbours(g, fib.nodeId, faces, nbSp)
    ensures fib.Valid() && dst in fib.perDstFib
    ensures fib.perDstFib == before[dst := fib.perDstFib[dst]]
    ensures IsRow(g, fib.nodeId, dst, fib.perDstFib[dst])
  {
  }

  /** Inserts the entry over one more neighbour. */
  method FillOver(net: Network, fib: AbstractFib, dst: nat, spTotalCost: nat, u: nat, face: Face, d: seq<Weight>,
                  ghost g: Graph, ghost before: FibMap, ghost done: set<nat>)
    requires g == net.State() && LfidNetwork(g) && dst < |g.links| == |net.links| <= NODE_ID_LIMIT + 1
    requires NeighbourKnown(g, fib.nodeId, u, face, d) && dst < |d| && u !in done
    requires spTotalCost == Dist(g, fib.nodeId, dst)
    requires Filling(fib, dst, before, g, done)
    modifies fib
    ensures Filling(fib, dst, before, g, done + {u})
  {
    hide *;
    var more := EntryOver(net, fib.nodeId, dst, spTotalCost, u, face, d[dst].cost, d);
    FillingSeparates(fib, dst, before, g, done);
    ghost var last := fib.perDstFib;
    InsertEntries(fib, dst, more);
    FillingNext(fib, dst, before, last, g, done, u, more);
  }

  /** Fills the row of one destination, neighbour by neighbour. */
  method FillRow(net: Network, fib: AbstractFib, dst: nat, spTotalCost: nat, faces: map<nat, Face>,
                 nbSp: map<nat, seq<Weight>>, ghost g: Graph)
    requires g == net.State() && LfidNetwork(g) && dst < |g.links| == |net.links| <= NODE_ID_LIMIT + 1
    requires Neighbours(g, fib.nodeId, faces, nbSp)
    requires fib.Valid() && dst in fib.perDstFib && fib.perDstFib[dst] == {}
    requires spTotalCost == Dist(g, fib.nodeId, dst)
    modifies fib
    ensures fib.Valid() && dst in fib.perDstFib
    ensures fib.perDstFib == old(fib.perDstFib)[dst := fib.perDstFib[dst]]
    ensures IsRow(g, fib.nodeId, dst, fib.perDstFib[dst])
  {
    hide *;
    ghost var before := fib.perDstFib;
    NeighbourFacts(g, fib.nodeId, faces, nbSp);
    FillingStarts(fib, dst, g);
    var todo := nbSp.Keys;
    ghost var done := {};
    while todo != {}
      invariant todo !! done && todo + done == nbSp.Keys
      invariant Filling(fib, dst, before, g, done) && net.State() == g
    {
      var u :| u in todo;
      FillOver(net, fib, dst, spTotalCost, u, faces[u], nbSp[u], g, before, done);
      todo, done := todo - {u}, done + {u};
    }
    assert done == nbSp.Keys;
    FillingEnds(fib, dst, before, g, faces, nbSp);
  }

  lemma OnlyOne<T>(s: set<T>, x: T)
    requires x in s && |s| <= 1
    ensures s == {x}
  {
    forall y | y in s
      ensures y == x
    {
      SubsetCardinality({x, y}, s);
    }
  }

  lemma LfidOwnFaces(g: Graph, s: nat)
    requires LfidNetwork(g) && s < |g.links|
    ensures OwnFaces(g, s) && ParallelAgree(g, s)
    ensures ValidGraph(g) && ValidGraph(Disable(g, s))
  {
    forall i | 0 <= i < |g.links[s]|
      ensures IsEdge(g, Edge(s, g.links[s][i]))
    {
      assert ValidLink(g, g.links[s][i]);
    }
    forall i, j | 0 <= i < j < |g.links[s]|
      ensures g.links[s][i].face != g.links[s][j].face
    {
      assert IsEdge(g, Edge(s, g.links[s][i])) && IsEdge(g, Edge(s, g.links[s][j]));
    }
    forall t, i | 0 <= t < |g.links| && 0 <= i < |g.links[t]|
      ensures ValidLink(Disable(g, s), g.links[t][i])
    {
      assert ValidLink(g, g.links[t][i]);
    }
  }

  /** The first `k` neighbours are known. */
  ghost predicate KnownUpTo(g: Graph, s: nat, k: nat, faces: map<nat, Face>, nbSp: map<nat, seq<Weight>>)
    requires s < |g.links| && k <= |g.links[s]|
  {
    && nbSp.Keys == faces.Keys
    && (forall u :: u in faces ==> NeighbourKnown(g, s, u, faces[u], nbSp[u]))
    && (forall i :: 0 <= i < k ==> g.links[s][i].target in faces)
  }

  lemma KnownNext(g: Graph, s: nat, k: nat, faces: map<nat, Face>, nbSp: map<nat, seq<Weight>>, d: seq<Weight>)
    requires s < |g.links| && k < |g.links[s]| && KnownUpTo(g, s, k, faces, nbSp)
    requires OwnFaces(g, s) && ValidGraph(g) && Shortest(Disable(g, s), g.links[s][k].target, d)
    ensures
      var l := g.links[s][k];
      KnownUpTo(g, s, k + 1, faces[l.target := l.face.value], nbSp[l.target := d])
  {
    var l := g.links[s][k];
    assert ValidLink(g, g.links[s][k]);
    assert l == Incidency(Some(l.face.value), l.target);
    assert IsEdge(g, Edge(s, l));
    assert NeighbourKnown(g, s, l.target, l.face.value, d);
  }

  lemma KnownAll(g: Graph, s: nat, faces: map<nat, Face>, nbSp: map<nat, seq<Weight>>)
    requires s < |g.links| && KnownUpTo(g, s, |g.links[s]|, faces, nbSp)
    ensures Neighbours(g, s, faces, nbSp)
  {
    forall l {:trigger Edge(s, l)} | IsEdge(g, Edge(s, l))
      ensures l.target in faces
    {
      var i :| 0 <= i < |g.links[s]| && g.links[s][i] == l;
    }
  }

  lemma KnownStarts(g: Graph, s: nat)
    requires s < |g.links|
    ensures KnownUpTo(g, s, 0, map[], map[])
  {
  }

  lemma LinkInside(g: Graph, s: nat, k: nat)
    requires ValidGraph(g) && OwnFaces(g, s) && k < |g.links[s]|
    ensures g.links[s][k].target < |g.links| && g.links[s][k].face.Some?
  {
    assert ValidLink(g, g.links[s][k]);
  }

  /** Distances from every neighbour while the faces of `s` are disabled. */
  method NeighbourDistances(net: Network, s: nat, ghost g: Graph)
    returns (faces: map<nat, Face>, nbSp: map<nat, seq<Weight>>)
    requires ValidGraph(g) && OwnFaces(g, s) && net.links == g.links && s < |net.links|
    requires net.State() == Disable(g, s) && ValidGraph(net.State())
    ensures Neighbours(g, s, faces, nbSp)
  {
    hide *;
    faces, nbSp := map[], map[];
    KnownStarts(g, s);
    var row := net.links[s];
    for k := 0 to |row|
      invariant KnownUpTo(g, s, k, faces, nbSp) && net.State() == Disable(g, s)
    {
      LinkInside(g, s, k);
      StateLinks(net);
      var d := Dijkstra(net.State(), row[k].target);
      KnownNext(g, s, k, faces, nbSp, d);
      faces, nbSp := faces[row[k].target := row[k].face.value], nbSp[row[k].target := d];
    }
    KnownAll(g, s, faces, nbSp);
  }

  lemma StateLinks(net: Network)
    ensures net.State().links == net.links && net.State().metric == net.metric
  {
  }

  ghost predicate FilledMap(g: Graph, s: nat, n: nat, m: FibMap) {
    && (forall d: nat :: d in m && d < n ==> IsRow(g, s, d, m[d]))
    && (forall d: nat :: d in m && n <= d ==> m[d] == {})
  }

  /** The rows for the destinations below `n` are filled. */
  ghost predicate FilledBelow(fib: AbstractFib, g: Graph, n: nat)
    reads fib
  {
    && fib.Valid() && fib.numberOfNodes == |g.links| && fib.nodeId < |g.links|
    && FilledMap(g, fib.nodeId, n, fib.perDstFib)
  }

  lemma FilledRow(fib: AbstractFib, g: Graph, n: nat)
    requires FilledBelow(fib, g, n) && n < |g.links|
    ensures fib.Valid() && fib.numberOfNodes == |g.links| && fib.nodeId < |g.links|
    ensures FilledMap(g, fib.nodeId, n, fib.perDstFib)
    ensures n != fib.nodeId ==> n in fib.perDstFib && fib.perDstFib[n] == {}
    ensures n == fib.nodeId ==> FilledBelow(fib, g, n + 1)
  {
    hide IsRow;
    assert n in Below(fib.numberOfNodes);
  }

  lemma FilledNext(fib: AbstractFib, g: Graph, n: nat, last: FibMap)
    requires fib.Valid() && fib.numberOfNodes == |g.links| && fib.nodeId < |g.links|
    requires n in fib.perDstFib && IsRow(g, fib.nodeId, n, fib.perDstFib[n]) &&
             fib.perDstFib == last[n := fib.perDstFib[n]]
    requires FilledMap(g, fib.nodeId, n, last)
    ensures FilledBelow(fib, g, n + 1)
  {
    hide AbstractFib.Valid, IsRow;
  }

  lemma FilledStarts(fib: AbstractFib, g: Graph)
    requires fib.Valid() && fib.numberOfNodes == |g.links| && fib.nodeId < |g.links|
    requires forall d :: d in fib.perDstFib ==> fib.perDstFib[d] == {}
    ensures FilledBelow(fib, g, 0)
  {
  }

  lemma ShortestAt(g: Graph, s: nat, d: seq<Weight>, t: nat)
    requires Shortest(g, s, d) && t < |g.links|
    ensures t < |d| && d[t].cost == Dist(g, s, t)
  {
  }

  /** Fills the rows of all destinations. */
  method FillAbstractFib(net: Network, fib: AbstractFib, distMap: seq<Weight>, faces: map<nat, Face>,
                         nbSp: map<nat, seq<Weight>>, ghost g: Graph)
    requires g == net.State() && LfidNetwork(g) && |net.links| == |g.links| <= NODE_ID_LIMIT + 1
    requires Shortest(g, fib.nodeId, distMap) && Neighbours(g, fib.nodeId, faces, nbSp)
    requires FilledBelow(fib, g, 0) && fib.nodeId < |g.links|
    modifies fib
    ensures FilledBelow(fib, g, |g.links|)
  {
    hide *;
    for dst: nat := 0 to |net.links|
      invariant FilledBelow(fib, g, dst) && net.State() == g
    {
      FilledRow(fib, g, dst);
      if dst != fib.nodeId {
        ShortestAt(g, fib.nodeId, distMap, dst);
        ghost var last := fib.perDstFib;
        FillRow(net, fib, dst, distMap[dst].cost, faces, nbSp, g);
        FilledNext(fib, g, dst, last);
      }
    }
  }

  /** The abstract FIB of one node. Its face metrics are overwritten on the way and are all
      back at the end. */
  method NodeFib(net: Network, s: nat, ghost g: Graph) returns (fib: AbstractFib)
    requires g == net.State() && LfidNetwork(g) && s < |net.links| == |g.links| && 1 < |g.links| <= NODE_ID_LIMIT + 1
    modifies net
    ensures net.State() == g
    ensures fresh(fib) && fib.nodeId == s && FilledBelow(fib, g, |g.links|)
  {
    LfidOwnFaces(g, s);
    var distMap := Dijkstra(net.State(), s);
    var original := DisableFaces(net, s);
    var faces, nbSp := NeighbourDistances(net, s, g);
    RestoreFaces(net, s, original, g);
    fib := new AbstractFib(s, |net.links|);
    FilledStarts(fib, g);
    FillAbstractFib(net, fib, distMap, faces, nbSp, g);
  }
}
