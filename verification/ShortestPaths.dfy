/** Dijkstra's algorithm over the adaptor's weights, which carry the first face. */
module ShortestPaths {
  import opened Networks
  import Digraph

  /** The path leaves its source once and never returns to it. */
  ghost predicate LeavesOnce(p: seq<Edge>, s: nat) {
    forall i :: 0 < i < |p| ==> p[i].source != s
  }

  ghost predicate Attained(g: Graph, s: nat, v: nat, w: Weight) {
    exists p :: IsPath(g, s, p, v) && LeavesOnce(p, s) && PathWeight(g, p) == w
  }

  /** Exact distances, each with the first face of a path that attains it. */
  ghost predicate Shortest(g: Graph, s: nat, d: seq<Weight>) {
    && |d| == |g.links|
    && forall v: nat :: v < |d| ==>
         && d[v].cost == Dist(g, s, v)
         && (d[v].cost < INF ==> Attained(g, s, v, d[v]))
         && (d[v].cost == INF ==> d[v] == WEIGHT_INF)
  }

  /** Every finite entry belongs to some path. */
  ghost predicate Grounded(g: Graph, s: nat, d: seq<Weight>) {
    && |d| == |g.links| && s < |d|
    && d[s] == WEIGHT_ZERO
    && forall v: nat :: v < |d| ==> Reached(g, s, v, d[v])
  }

  ghost predicate Reached(g: Graph, s: nat, v: nat, w: Weight) {
    w == WEIGHT_INF || (w.cost < INF && Attained(g, s, v, w))
  }

  /** The edge cannot improve its target. */
  predicate Relaxed(g: Graph, d: seq<Weight>, u: nat, l: Incidency)
    requires u < |d| && |d| == |g.links| && ValidLink(g, l)
  {
    !WeightCompare(WeightCombine(d[u], WeightOf(g, l)), d[l.target])
  }

  /** Vertices outside the queue are settled: their edges are relaxed and nothing in the
      queue is nearer. */
  ghost predicate Settled(g: Graph, d: seq<Weight>, queue: set<nat>, u: nat)
    requires ValidGraph(g) && |d| == |g.links| && u < |d|
  {
    && (forall i :: 0 <= i < |g.links[u]| ==> Relaxed(g, d, u, g.links[u][i]))
    && NothingNearer(d, queue, u)
  }

  predicate NothingNearer(d: seq<Weight>, queue: set<nat>, u: nat)
    requires u < |d|
  {
    forall v :: v in queue && v < |d| ==> d[u].cost <= d[v].cost
  }

  lemma AttainedStep(g: Graph, s: nat, u: nat, w: Weight, l: Incidency)
    requires Attained(g, s, u, w) && IsEdge(g, Edge(u, l)) && (u == s ==> w == WEIGHT_ZERO)
    ensures Attained(g, s, l.target, WeightCombine(w, WeightOf(g, l)))
  {
    if u == s {
      StepFrom(g, s, u, [], w, l);
    } else {
      var p :| IsPath(g, s, p, u) && LeavesOnce(p, s) && PathWeight(g, p) == w;
      StepFrom(g, s, u, p, w, l);
    }
  }

  lemma StepFrom(g: Graph, s: nat, u: nat, p: seq<Edge>, w: Weight, l: Incidency)
    requires IsPath(g, s, p, u) && LeavesOnce(p, s) && PathWeight(g, p) == w
    requires IsEdge(g, Edge(u, l)) && (u == s ==> p == [])
    ensures Attained(g, s, l.target, WeightCombine(w, WeightOf(g, l)))
  {
    hide PathWeight, IsEdge;
    PathAppend(g, s, p, u, l);
    var q := p + [Edge(u, l)];
    assert IsPath(g, s, q, l.target) && LeavesOnce(q, s);
  }

  method Nearest(d: seq<Weight>, queue: set<nat>) returns (u: nat)
    requires queue != {} && forall v :: v in queue ==> v < |d|
    ensures u in queue && NothingNearer(d, queue, u)
  {
    u :| u in queue;
    var rest := queue - {u};
    while rest != {}
      invariant u in queue && rest <= queue
      invariant forall v :: v in queue - rest ==> d[u].cost <= d[v].cost
    {
      var v :| v in rest;
      if WeightCompare(d[v], d[u]) {
        u := v;
      }
      rest := rest - {v};
    }
  }

  function RelaxEdge(g: Graph, d: seq<Weight>, u: nat, l: Incidency): (r: seq<Weight>)
    requires u < |d| && |d| == |g.links| && ValidLink(g, l)
    ensures |r| == |d|
  {
    var w := WeightCombine(d[u], WeightOf(g, l));
    if WeightCompare(w, d[l.target]) then d[l.target := w] else d
  }

  lemma RelaxEdgeKeepsGrounded(g: Graph, s: nat, d: seq<Weight>, u: nat, l: Incidency)
    requires Grounded(g, s, d) && u < |d| && IsEdge(g, Edge(u, l))
    ensures Grounded(g, s, RelaxEdge(g, d, u, l))
  {
    var r := RelaxEdge(g, d, u, l);
    assert Reached(g, s, u, d[u]) && Reached(g, s, l.target, d[l.target]);
    if r != d {
      AttainedStep(g, s, u, d[u], l);
      forall v: nat | v < |r|
        ensures Reached(g, s, v, r[v])
      {
        assert Reached(g, s, v, d[v]);
      }
    }
  }

  /** Distances only went down, and not below that of `u`, and not for settled vertices. */
  ghost predicate LoweredFrom(d: seq<Weight>, r: seq<Weight>, queue: set<nat>, u: nat) {
    && |r| == |d| && u < |d|
    && (forall x: nat :: x < |d| && x !in queue ==> r[x] == d[x])
    && (forall x: nat :: x < |d| ==> r[x].cost <= d[x].cost)
    && NothingNearer(r, queue, u)
  }

  lemma LoweringKeepsSettled(g: Graph, d: seq<Weight>, r: seq<Weight>, queue: set<nat>, u: nat, x: nat)
    requires ValidGraph(g) && |d| == |g.links| && LoweredFrom(d, r, queue, u)
    requires x < |d| && x !in queue && Settled(g, d, queue, x) && d[x].cost <= d[u].cost && u !in queue
    ensures Settled(g, r, queue, x)
  {
    forall i | 0 <= i < |g.links[x]|
      ensures Relaxed(g, r, x, g.links[x][i])
    {
      assert Relaxed(g, d, x, g.links[x][i]);
    }
  }

  /** The first `k` edges of `u` are relaxed. */
  ghost predicate RelaxedUpTo(g: Graph, s: nat, d: seq<Weight>, r: seq<Weight>, queue: set<nat>, u: nat, k: nat)
    requires ValidGraph(g) && |d| == |g.links| && u < |d| && k <= |g.links[u]|
  {
    && Grounded(g, s, r)
    && LoweredFrom(d, r, queue, u)
    && forall i :: 0 <= i < k ==> Relaxed(g, r, u, g.links[u][i])
  }

  /** An improved vertex was still in the queue, and gets no nearer than `u`. */
  lemma LoweredNext(g: Graph, d: seq<Weight>, r: seq<Weight>, queue: set<nat>, u: nat, l: Incidency)
    requires |d| == |g.links| && LoweredFrom(d, r, queue, u) && u !in queue && ValidLink(g, l)
    requires forall x: nat {:trigger d[x]} :: x < |d| && x !in queue ==> d[x].cost <= d[u].cost
    ensures LoweredFrom(d, RelaxEdge(g, r, u, l), queue, u)
  {
    assert d[l.target].cost <= d[u].cost || l.target in queue;
  }

  /** Relaxing one more edge keeps the relaxed edges of `u` relaxed. */
  lemma RelaxedStays(g: Graph, r: seq<Weight>, u: nat, l: Incidency, m: Incidency)
    requires u < |r| == |g.links| && ValidLink(g, l) && ValidLink(g, m)
    requires Relaxed(g, r, u, m)
    ensures Relaxed(g, RelaxEdge(g, r, u, l), u, m) && Relaxed(g, RelaxEdge(g, r, u, l), u, l)
  {
  }

  lemma RelaxNext(g: Graph, s: nat, d: seq<Weight>, r: seq<Weight>, queue: set<nat>, u: nat, k: nat)
    requires ValidGraph(g) && |d| == |g.links| && u < |d| && k < |g.links[u]| && u !in queue
    requires forall x: nat {:trigger d[x]} :: x < |d| && x !in queue ==> d[x].cost <= d[u].cost
    requires RelaxedUpTo(g, s, d, r, queue, u, k)
    ensures ValidLink(g, g.links[u][k])
    ensures RelaxedUpTo(g, s, d, RelaxEdge(g, r, u, g.links[u][k]), queue, u, k + 1)
  {
    hide Grounded, LoweredFrom, Relaxed, RelaxEdge;
    var l := g.links[u][k];
    assert ValidLink(g, g.links[u][k]) && IsEdge(g, Edge(u, l));
    GroundedLength(g, s, r);
    RelaxEdgeKeepsGrounded(g, s, r, u, l);
    LoweredNext(g, d, r, queue, u, l);
    var next := RelaxEdge(g, r, u, l);
    forall i | 0 <= i < k
      ensures Relaxed(g, next, u, g.links[u][i])
    {
      assert ValidLink(g, g.links[u][i]) && Relaxed(g, r, u, g.links[u][i]);
      RelaxedStays(g, r, u, l, g.links[u][i]);
    }
    JustRelaxed(g, r, u, l);
  }

  lemma JustRelaxed(g: Graph, r: seq<Weight>, u: nat, l: Incidency)
    requires u < |r| == |g.links| && ValidLink(g, l)
    ensures Relaxed(g, RelaxEdge(g, r, u, l), u, l)
  {
  }

  lemma GroundedLength(g: Graph, s: nat, d: seq<Weight>)
    requires Grounded(g, s, d)
    ensures |d| == |g.links|
  {
  }

  /** Relaxes every edge out of `u`, the vertex just taken from the queue. */
  method RelaxEdges(g: Graph, s: nat, d: seq<Weight>, queue: set<nat>, u: nat) returns (r: seq<Weight>)
    requires ValidGraph(g) && Grounded(g, s, d)
    requires u < |d| && u !in queue && NothingNearer(d, queue, u)
    requires forall x: nat {:trigger d[x]} :: x < |d| && x !in queue ==> d[x].cost <= d[u].cost
    ensures RelaxedUpTo(g, s, d, r, queue, u, |g.links[u]|)
  {
    r := d;
    for k := 0 to |g.links[u]|
      invariant RelaxedUpTo(g, s, d, r, queue, u, k)
    {
      RelaxNext(g, s, d, r, queue, u, k);
      r := RelaxEdge(g, r, u, g.links[u][k]);
    }
  }

  /** Once every edge is relaxed, no path is cheaper than the computed distance. */
  lemma {:induction false} RelaxedIsLower(g: Graph, s: nat, d: seq<Weight>, p: seq<Edge>, v: nat)
    requires ValidGraph(g) && Grounded(g, s, d)
    requires forall u: nat :: u < |d| ==> Settled(g, d, {}, u)
    requires IsPath(g, s, p, v) && v < |d|
    ensures d[v].cost <= Cost(g, p)
  {
    if p != [] {
      var init, e := p[..|p| - 1], p[|p| - 1];
      assert IsEdge(g, e);
      assert IsPath(g, s, init, e.source);
      RelaxedIsLower(g, s, d, init, e.source);
      assert Settled(g, d, {}, e.source);
      var i :| 0 <= i < |g.links[e.source]| && g.links[e.source][i] == e.link;
      assert Relaxed(g, d, e.source, g.links[e.source][i]);
    }
  }

  lemma AllSettledIsShortest(g: Graph, s: nat, d: seq<Weight>)
    requires ValidGraph(g) && Grounded(g, s, d)
    requires forall u: nat :: u < |d| ==> Settled(g, d, {}, u)
    ensures Shortest(g, s, d)
  {
    forall v: nat | v < |d|
      ensures d[v].cost == Dist(g, s, v)
    {
      assert Reached(g, s, v, d[v]);
      forall p | IsPath(g, s, p, v)
        ensures d[v].cost <= Cost(g, p)
      {
        RelaxedIsLower(g, s, d, p, v);
      }
      if d[v].cost < INF {
        var p :| IsPath(g, s, p, v) && LeavesOnce(p, s) && PathWeight(g, p) == d[v];
        assert Cost(g, p) == d[v].cost;
      }
      DistCharacterised(g, s, v, d[v].cost);
    }
    assert forall v: nat :: v < |d| ==> Reached(g, s, v, d[v]);
  }

  /** The state between two rounds: grounded distances, and settled vertices outside the queue. */
  ghost predicate Underway(g: Graph, s: nat, d: seq<Weight>, queue: set<nat>)
    requires ValidGraph(g)
  {
    && Grounded(g, s, d)
    && (forall v :: v in queue ==> v < |d|)
    && (forall u: nat :: u < |d| && u !in queue ==> Settled(g, d, queue, u))
  }

  function Initial(g: Graph, s: nat): seq<Weight>
    requires s < |g.links|
  {
    seq(|g.links|, _ => WEIGHT_INF)[s := WEIGHT_ZERO]
  }

  lemma InitialIsUnderway(g: Graph, s: nat)
    requires ValidGraph(g) && s < |g.links|
    ensures Underway(g, s, Initial(g, s), Digraph.Below(|g.links|))
  {
    assert IsPath(g, s, [], s) && LeavesOnce([], s);
    assert Reached(g, s, s, WEIGHT_ZERO);
  }

  lemma NearestIsNext(g: Graph, s: nat, d: seq<Weight>, queue: set<nat>, u: nat)
    requires ValidGraph(g) && Underway(g, s, d, queue)
    requires u in queue && NothingNearer(d, queue, u)
    ensures NothingNearer(d, queue - {u}, u)
    ensures forall x: nat {:trigger d[x]} :: x < |d| && x !in queue - {u} ==> d[x].cost <= d[u].cost
  {
    forall x: nat | x < |d| && x !in queue
      ensures d[x].cost <= d[u].cost
    {
      assert Settled(g, d, queue, x);
    }
  }

  lemma RoundKeepsUnderway(g: Graph, s: nat, d: seq<Weight>, queue: set<nat>, u: nat, r: seq<Weight>)
    requires ValidGraph(g) && Underway(g, s, d, queue)
    requires u in queue && NothingNearer(d, queue, u)
    requires RelaxedUpTo(g, s, d, r, queue - {u}, u, |g.links[u]|)
    ensures Underway(g, s, r, queue - {u})
  {
    var rest := queue - {u};
    NearestIsNext(g, s, d, queue, u);
    forall x: nat | x < |d| && x !in rest
      ensures Settled(g, r, rest, x)
    {
      if x != u {
        assert Settled(g, d, queue, x);
        LoweringKeepsSettled(g, d, r, rest, u, x);
      }
    }
  }

  /** Computes, for every vertex, the exact distance from `s` and the first face towards it. */
  method Dijkstra(g: Graph, s: nat) returns (d: seq<Weight>)
    requires ValidGraph(g) && s < |g.links|
    ensures Shortest(g, s, d)
  {
    d := Initial(g, s);
    var queue: set<nat> := Digraph.Below(|g.links|);
    InitialIsUnderway(g, s);
    while queue != {}
      invariant Underway(g, s, d, queue)
      decreases |queue|
    {
      var u := Nearest(d, queue);
      NearestIsNext(g, s, d, queue, u);
      var r := RelaxEdges(g, s, d, queue - {u}, u);
      RoundKeepsUnderway(g, s, d, queue, u, r);
      d, queue := r, queue - {u};
    }
    AllSettledIsShortest(g, s, d);
  }
}
