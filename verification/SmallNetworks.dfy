/** Networks given by a matrix of metrics, and how to read their distances and the rows that LFID
    computes off tables. */
module SmallNetworks {
  import opened Networks
  import opened NextHops
  import opened FibViews
  import opened LfidRows

  /** The metric from each node to each other, and 0 where there is no link. */
  type Weights = seq<seq<nat>>

  ghost predicate IsMatrix(w: Weights) {
    && |w| <= 100
    && (forall s :: 0 <= s < |w| ==> |w[s]| == |w|)
    && (forall s, u :: 0 <= s < |w| && 0 <= u < |w| ==> w[s][u] < INF)
    && (forall s :: 0 <= s < |w| ==> w[s][s] == 0)
  }

  function FaceOf(s: nat, u: nat): Face {
    100 * s + u
  }

  function LinkTo(s: nat, u: nat): Incidency {
    Incidency(Some(FaceOf(s, u)), u)
  }

  /** The links of node `s` to the nodes from `u` on. */
  function LinksFrom(w: Weights, s: nat, u: nat): seq<Incidency>
    requires s < |w| && u <= |w|
    decreases |w| - u
  {
    if u == |w| then []
    else (if u < |w[s]| && w[s][u] > 0 then [LinkTo(s, u)] else []) + LinksFrom(w, s, u + 1)
  }

  function MetricAt(w: Weights, f: Face): nat {
    if f / 100 < |w| && f % 100 < |w[f / 100]| then w[f / 100][f % 100] else 0
  }

  function NetworkOf(w: Weights): Graph {
    Graph(seq(|w|, s requires 0 <= s < |w| => LinksFrom(w, s, 0)), map f: nat | f < 10000 :: MetricAt(w, f))
  }

  lemma NetworkIs(w: Weights)
    ensures |NetworkOf(w).links| == |w|
    ensures forall s: nat :: s < |w| ==> NetworkOf(w).links[s] == LinksFrom(w, s, 0)
    ensures forall f: nat :: f < 10000 ==> f in NetworkOf(w).metric && NetworkOf(w).metric[f] == MetricAt(w, f)
  {
  }

  predicate Linked(w: Weights, s: nat, u: nat) {
    s < |w| && u < |w| && u < |w[s]| && w[s][u] > 0
  }

  lemma {:induction false} LinksAre(w: Weights, s: nat, u: nat, l: Incidency)
    requires s < |w| && u <= |w|
    ensures l in LinksFrom(w, s, u) <==> u <= l.target && Linked(w, s, l.target) && l == LinkTo(s, l.target)
    decreases |w| - u
  {
    if u < |w| {
      LinksAre(w, s, u + 1, l);
    }
  }

  lemma {:induction false} LinksAscend(w: Weights, s: nat, u: nat)
    requires s < |w| && u <= |w|
    ensures forall i, j :: 0 <= i < j < |LinksFrom(w, s, u)| ==>
              LinksFrom(w, s, u)[i].target < LinksFrom(w, s, u)[j].target
    decreases |w| - u
  {
    if u < |w| {
      LinksAscend(w, s, u + 1);
      forall l | l in LinksFrom(w, s, u + 1)
        ensures u < l.target
      {
        LinksAre(w, s, u + 1, l);
      }
    }
  }

  lemma FacesAre(w: Weights, s: nat, u: nat)
    requires IsMatrix(w) && s < |w| && u < |w|
    ensures FaceOf(s, u) < 10000 && MetricAt(w, FaceOf(s, u)) == w[s][u] < INF
    ensures FaceOf(s, u) in NetworkOf(w).metric && NetworkOf(w).metric[FaceOf(s, u)] == w[s][u]
  {
    hide NetworkOf;
    NetworkIs(w);
    assert FaceOf(s, u) / 100 == s && FaceOf(s, u) % 100 == u;
  }

  /** The edges of the network and their weights. */
  lemma EdgesAre(w: Weights, e: Edge)
    requires IsMatrix(w)
    ensures IsEdge(NetworkOf(w), e) <==> Linked(w, e.source, e.link.target) && e.link == LinkTo(e.source, e.link.target)
    ensures IsEdge(NetworkOf(w), e) ==> EdgeWeight(NetworkOf(w), e.link) == w[e.source][e.link.target]
  {
    hide LinksFrom, NetworkOf, MetricAt, FaceOf;
    NetworkIs(w);
    if e.source < |w| {
      LinksAre(w, e.source, 0, e.link);
      if e.link.target < |w| {
        FacesAre(w, e.source, e.link.target);
      }
    }
  }

  lemma EdgeTo(w: Weights, s: nat, u: nat)
    requires IsMatrix(w) && Linked(w, s, u)
    ensures IsEdge(NetworkOf(w), Edge(s, LinkTo(s, u)))
    ensures EdgeWeight(NetworkOf(w), LinkTo(s, u)) == w[s][u]
  {
    hide NetworkOf, IsEdge, EdgeWeight, Linked;
    EdgesAre(w, Edge(s, LinkTo(s, u)));
  }

  lemma MatrixIsValid(w: Weights)
    requires IsMatrix(w)
    ensures ValidGraph(NetworkOf(w))
  {
    hide LinksFrom, FaceOf, NetworkOf, MetricAt;
    var g := NetworkOf(w);
    NetworkIs(w);
    forall s, i | 0 <= s < |g.links| && 0 <= i < |g.links[s]|
      ensures ValidLink(g, g.links[s][i])
    {
      LinksAre(w, s, 0, g.links[s][i]);
      FacesAre(w, s, g.links[s][i].target);
    }
  }

  lemma EdgesAreProper(w: Weights, e: Edge)
    requires IsMatrix(w) && IsEdge(NetworkOf(w), e)
    ensures e.source < 100 && e.link.target < 100 && e.link == LinkTo(e.source, e.link.target)
    ensures e.link.face.Some? && e.link.face.value in NetworkOf(w).metric
    ensures e.link.target != e.source && 1 <= NetworkOf(w).metric[e.link.face.value] <= INF
  {
    hide NetworkOf, IsEdge;
    EdgesAre(w, e);
    FacesAre(w, e.source, e.link.target);
  }

  lemma MatrixFaces(w: Weights)
    requires IsMatrix(w)
    ensures FacesUnique(NetworkOf(w))
  {
    hide NetworkOf, IsEdge;
    forall e, f {:trigger IsEdge(NetworkOf(w), e), IsEdge(NetworkOf(w), f)} |
      IsEdge(NetworkOf(w), e) && IsEdge(NetworkOf(w), f) && e.link.face.Some? && e.link.face == f.link.face
      ensures e == f
    {
      EdgesAreProper(w, e);
      EdgesAreProper(w, f);
    }
  }

  /** Positive metrics on links between different nodes: all that LFID demands. */
  lemma MatrixIsLfid(w: Weights)
    requires IsMatrix(w)
    ensures LfidNetwork(NetworkOf(w))
  {
    hide NetworkOf, LinksFrom, IsEdge, ValidGraph, FacesUnique;
    var g := NetworkOf(w);
    NetworkIs(w);
    MatrixIsValid(w);
    MatrixFaces(w);
    forall e {:trigger IsEdge(g, e)} | IsEdge(g, e)
      ensures e.link.face.Some? && e.link.face.value in g.metric
      ensures e.link.target != e.source && 1 <= g.metric[e.link.face.value] <= INF
    {
      EdgesAreProper(w, e);
    }
    forall s: nat | s < |w|
      ensures forall i, j :: 0 <= i < j < |g.links[s]| ==> g.links[s][i].target != g.links[s][j].target
    {
      LinksAscend(w, s, 0);
    }
  }

  /** `d` fits the distances to `t` with the links of node `skip` left out: it falls along no link
      by more than its metric, and by exactly that along some link of every other node. */
  ghost predicate IsTable(w: Weights, t: nat, d: seq<nat>, skip: nat) {
    && |d| == |w| && t < |w| && t != skip && d[t] == 0
    && (skip < |w| ==> d[skip] == INF)
    && (forall u :: 0 <= u < |w| ==> d[u] <= INF)
    && (forall u: nat, x: nat :: Linked(w, u, x) && u != skip ==> d[u] <= w[u][x] + d[x])
    && (forall u: nat {:trigger d[u]} :: u < |w| && u != t && u != skip && d[u] < INF ==>
          exists x: nat :: Linked(w, u, x) && d[u] == w[u][x] + d[x])
  }

  /** `d` falls along the links of `u` as a table must, by exactly the metric towards `x`. */
  ghost predicate RowFits(w: Weights, d: seq<nat>, u: nat, x: nat)
    requires |d| == |w|
  {
    && Linked(w, u, x) && d[u] == w[u][x] + d[x]
    && forall y: nat :: Linked(w, u, y) ==> d[u] <= w[u][y] + d[y]
  }

  /** A table, given for every node a link along which it falls by the metric. */
  lemma TableFrom(w: Weights, t: nat, d: seq<nat>, skip: nat, via: seq<nat>)
    requires |d| == |via| == |w| && t < |w| && t != skip && d[t] == 0 && (skip < |w| ==> d[skip] == INF)
    requires forall u :: 0 <= u < |w| ==> d[u] <= INF
    requires forall u: nat {:trigger via[u]} :: u < |w| && u != t && u != skip ==> RowFits(w, d, u, via[u])
    ensures IsTable(w, t, d, skip)
  {
    forall u: nat, x: nat | Linked(w, u, x) && u != skip
      ensures d[u] <= w[u][x] + d[x]
    {
      if u != t {
        assert RowFits(w, d, u, via[u]);
      }
    }
    forall u: nat {:trigger d[u]} | u < |w| && u != t && u != skip
      ensures exists x: nat :: Linked(w, u, x) && d[u] == w[u][x] + d[x]
    {
      assert RowFits(w, d, u, via[u]);
    }
  }

  ghost predicate IsTight(g: Graph, t: nat, d: seq<nat>, u: nat) {
    u == t || exists e :: IsEdge(g, e) && e.source == u && e.link.target < |d| && u < |d|
                          && EdgeWeight(g, e.link) > 0 && d[u] == EdgeWeight(g, e.link) + d[e.link.target]
  }

  /** A potential that is tight at every node of finite value is the distance. */
  lemma {:induction false} TightIsDist(g: Graph, t: nat, d: seq<nat>, u: nat)
    requires IsPotential(g, t, d) && u < |d| && d[u] <= INF
    requires forall x: nat {:trigger IsTight(g, t, d, x)} :: x < |d| && d[x] < INF ==> IsTight(g, t, d, x)
    ensures Dist(g, u, t) == d[u]
    decreases d[u]
  {
    DistAtLeast(g, t, d, u);
    if u == t {
      DistToSelf(g, t);
    } else if d[u] < INF {
      assert IsTight(g, t, d, u);
      var e :| IsEdge(g, e) && e.source == u && e.link.target < |d|
               && EdgeWeight(g, e.link) > 0 && d[u] == EdgeWeight(g, e.link) + d[e.link.target];
      TightIsDist(g, t, d, e.link.target);
      DistOverEdge(g, e, t);
    }
  }

  lemma TableFacts(w: Weights, t: nat, d: seq<nat>, skip: nat, u: nat)
    requires IsTable(w, t, d, skip) && u < |w|
    ensures t < |w| && t != skip && |d| == |w| && d[t] == 0 && d[u] <= INF && (u == skip ==> d[u] == INF)
  {
  }

  lemma TableFalls(w: Weights, t: nat, d: seq<nat>, skip: nat, u: nat, x: nat)
    requires IsTable(w, t, d, skip) && Linked(w, u, x) && u != skip
    ensures u < |d| && x < |d| && d[u] <= w[u][x] + d[x]
  {
  }

  lemma TableIsTight(w: Weights, t: nat, d: seq<nat>, skip: nat, u: nat) returns (x: nat)
    requires IsTable(w, t, d, skip) && u < |w| && u != t && u != skip && d[u] < INF
    ensures Linked(w, u, x) && x < |d| && d[u] == w[u][x] + d[x]
  {
    x :| Linked(w, u, x) && d[u] == w[u][x] + d[x];
  }

  lemma TightOver(g: Graph, t: nat, d: seq<nat>, u: nat, l: Incidency)
    requires IsEdge(g, Edge(u, l)) && l.target < |d| && u < |d|
    requires EdgeWeight(g, l) > 0 && d[u] == EdgeWeight(g, l) + d[l.target]
    ensures IsTight(g, t, d, u)
  {
    assert IsEdge(g, Edge(u, l)) && Edge(u, l).source == u;
  }

  lemma TableIsDist(w: Weights, t: nat, d: seq<nat>, u: nat)
    requires IsMatrix(w) && IsTable(w, t, d, |w|) && u < |w|
    ensures Dist(NetworkOf(w), u, t) == d[u]
  {
    hide NetworkOf, ValidLink, EdgeWeight, IsTable, IsTight, Linked, IsMatrix;
    var g := NetworkOf(w);
    NetworkIs(w);
    TableFacts(w, t, d, |w|, u);
    forall e {:trigger IsEdge(g, e)} | IsEdge(g, e)
      ensures e.source < |d| && e.link.target < |d| && d[e.source] <= EdgeWeight(g, e.link) + d[e.link.target]
    {
      EdgesAre(w, e);
      LinkedNodes(w, e.source, e.link.target);
      TableFalls(w, t, d, |w|, e.source, e.link.target);
    }
    forall x: nat {:trigger IsTight(g, t, d, x)} | x < |d| && d[x] < INF
      ensures IsTight(g, t, d, x)
    {
      if x == t {
        AtTarget(g, t, d);
      } else {
        var y := TableIsTight(w, t, d, |w|, x);
        LinkedNodes(w, x, y);
        EdgeTo(w, x, y);
        TightOver(g, t, d, x, LinkTo(x, y));
      }
    }
    TightIsDist(g, t, d, u);
  }

  lemma AtTarget(g: Graph, t: nat, d: seq<nat>)
    ensures IsTight(g, t, d, t)
  {
  }

  lemma LinkedNodes(w: Weights, s: nat, u: nat)
    requires Linked(w, s, u)
    ensures s < |w| && u < |w| && u < |w[s]| && w[s][u] > 0
  {
  }

  lemma DisabledSize(w: Weights, s: nat)
    requires s < |w|
    ensures |NetworkOf(w).links| == |w| && |Disable(NetworkOf(w), s).links| == |w|
  {
    hide LinksFrom, MetricAt;
  }

  lemma DisabledEdge(w: Weights, s: nat, e: Edge)
    requires IsMatrix(w) && s < |w| && IsEdge(NetworkOf(w), e)
    ensures |NetworkOf(w).links| == |w| && IsEdge(Disable(NetworkOf(w), s), e)
    ensures e.source < |w| && e.link.target < |w| && e.link.target < |w[e.source]|
    ensures EdgeWeight(Disable(NetworkOf(w), s), e.link) == if e.source == s then INF else w[e.source][e.link.target]
  {
    hide NetworkOf, IsEdge, EdgeWeight, Disable;
    DisabledSize(w, s);
    MatrixIsValid(w);
    MatrixFaces(w);
    EdgesAre(w, e);
    hide ValidGraph, FacesUnique;
    DisableKeepsOthers(NetworkOf(w), s, e);
  }

  lemma EdgeOfDisabled(w: Weights, s: nat, e: Edge)
    requires s < |w| && |NetworkOf(w).links| == |w| && IsEdge(Disable(NetworkOf(w), s), e)
    ensures IsEdge(NetworkOf(w), e)
  {
    hide NetworkOf;
  }

  /** The same with one node disabled. */
  lemma TableIsDisabled(w: Weights, t: nat, d: seq<nat>, s: nat, u: nat)
    requires IsMatrix(w) && s < |w| && IsTable(w, t, d, s) && u < |w|
    ensures |NetworkOf(w).links| == |w| && Dist(Disable(NetworkOf(w), s), u, t) == d[u]
  {
    hide NetworkOf, ValidLink, EdgeWeight, Disable, IsTable, IsTight, Linked, IsMatrix;
    DisabledSize(w, s);
    TableFacts(w, t, d, s, u);
    TableFacts(w, t, d, s, s);
    var h := Disable(NetworkOf(w), s);
    forall e {:trigger IsEdge(h, e)} | IsEdge(h, e)
      ensures e.source < |d| && e.link.target < |d| && d[e.source] <= EdgeWeight(h, e.link) + d[e.link.target]
    {
      EdgeOfDisabled(w, s, e);
      EdgesAre(w, e);
      LinkedNodes(w, e.source, e.link.target);
      DisabledEdge(w, s, e);
      if e.source != s {
        TableFalls(w, t, d, s, e.source, e.link.target);
      }
    }
    forall x: nat {:trigger IsTight(h, t, d, x)} | x < |d| && d[x] < INF
      ensures IsTight(h, t, d, x)
    {
      if x == t {
        AtTarget(h, t, d);
      } else {
        var y := TableIsTight(w, t, d, s, x);
        LinkedNodes(w, x, y);
        EdgeTo(w, x, y);
        DisabledEdge(w, s, Edge(x, LinkTo(x, y)));
        TightOver(h, t, d, x, LinkTo(x, y));
      }
    }
    TightIsDist(h, t, d, u);
  }

  /** The entry of node `s` over its neighbour `u`, from the tables of distances with all links
      and without those of `s`. */
  function EntryFrom(w: Weights, d: seq<nat>, away: seq<nat>, s: nat, u: nat): FibNextHop
    requires s < |d| && u < |away| && s < |w| && u < |w[s]|
  {
    var c: nat := away[u] + w[s][u];
    FibNextHop(c, u, c - d[s], if away[u] < d[s] then DOWNWARD else UPWARD)
  }

  predicate HasEntry(w: Weights, away: seq<nat>, s: nat, u: nat) {
    Linked(w, s, u) && u < |away| && away[u] + w[s][u] < INF
  }

  lemma EntryIs(w: Weights, t: nat, d: seq<nat>, away: seq<nat>, s: nat, u: nat)
    requires IsMatrix(w) && IsTable(w, t, d, |w|) && IsTable(w, t, away, s) && Linked(w, s, u)
    ensures |d| == |away| == |w| == |NetworkOf(w).links| && s < |w| && u < |w| && u < |w[s]|
    ensures IsEdge(NetworkOf(w), Edge(s, LinkTo(s, u)))
    ensures CostOver(NetworkOf(w), s, LinkTo(s, u), t) == away[u] + w[s][u]
    ensures EntryFor(NetworkOf(w), s, LinkTo(s, u), t) == EntryFrom(w, d, away, s, u)
  {
    hide NetworkOf, IsEdge, FaceOf, Dist, Disable, IsTable, IsMatrix, Linked;
    LinkedNodes(w, s, u);
    DisabledSize(w, s);
    EdgeTo(w, s, u);
    FacesAre(w, s, u);
    TableFacts(w, t, d, |w|, s);
    TableFacts(w, t, away, s, u);
    TableIsDist(w, t, d, s);
    TableIsDisabled(w, t, away, s, u);
  }

  /** A row holds exactly the entries of finite cost. */
  lemma RowIs(w: Weights, t: nat, d: seq<nat>, away: seq<nat>, s: nat, row: set<FibNextHop>)
    requires IsMatrix(w) && IsTable(w, t, d, |w|) && s < |w| && IsTable(w, t, away, s)
    requires |d| == |away| == |w| && forall x :: 0 <= x < |w| ==> |w[x]| == |w|
    requires forall u: nat :: HasEntry(w, away, s, u) ==> EntryFrom(w, d, away, s, u) in row
    requires forall nh :: nh in row ==> HasEntry(w, away, s, nh.nhId) && nh == EntryFrom(w, d, away, s, nh.nhId)
    ensures IsRow(NetworkOf(w), s, t, row)
  {
    hide NetworkOf, IsEdge, IsTable, IsMatrix, Linked, CostOver, EntryFor, EntryFrom, FaceOf;
    var g := NetworkOf(w);
    DisabledSize(w, s);
    forall nh
      ensures nh in row <==> InRow(g, s, t, nh)
    {
      if InRow(g, s, t, nh) {
        var l :| IsEdge(g, Edge(s, l)) && l.face.Some? && CostOver(g, s, l, t) < INF && nh == EntryFor(g, s, l, t);
        EdgesAre(w, Edge(s, l));
        EntryIs(w, t, d, away, s, l.target);
        assert HasEntry(w, away, s, l.target);
      }
      if nh in row {
        EntryIs(w, t, d, away, s, nh.nhId);
        assert IsEdge(g, Edge(s, LinkTo(s, nh.nhId)));
      }
    }
  }
}
