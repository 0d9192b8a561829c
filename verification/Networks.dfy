/** The router graph with its face metrics, the path weights of the routing adaptor, and
    shortest-path distances capped at the adaptor's infinity. */
module Networks {

  datatype Option<+T> = None | Some(value: T)

  /** Faces are identified across the whole network. */
  type Face = nat

  /** A link of a vertex. Links that leave a shared channel have no face. */
  datatype Incidency = Incidency(face: Option<Face>, target: nat)

  datatype Edge = Edge(source: nat, link: Incidency)

  /** Incidency lists per vertex, and the current metric of every face. */
  datatype Graph = Graph(links: seq<seq<Incidency>>, metric: map<Face, nat>)

  ghost predicate ValidGraph(g: Graph) {
    forall s, i :: 0 <= s < |g.links| && 0 <= i < |g.links[s]| ==> ValidLink(g, g.links[s][i])
  }

  /** A face belongs to one link of one vertex. */
  ghost predicate FacesUnique(g: Graph) {
    forall e, f {:trigger IsEdge(g, e), IsEdge(g, f)} ::
      IsEdge(g, e) && IsEdge(g, f) && e.link.face.Some? && e.link.face == f.link.face ==> e == f
  }

  predicate ValidLink(g: Graph, l: Incidency) {
    l.target < |g.links| && (l.face.Some? ==> l.face.value in g.metric)
  }

  predicate IsEdge(g: Graph, e: Edge) {
    e.source < |g.links| && e.link in g.links[e.source] && ValidLink(g, e.link)
  }

  /** Infinity of the adaptor: the largest 16-bit metric. */
  const INF: nat := 65535

  /** The adaptor narrows a face metric to 16 bits; a link without a face is free. */
  function EdgeWeight(g: Graph, l: Incidency): nat
    requires ValidLink(g, l)
  {
    if l.face.None? then 0 else g.metric[l.face.value] % 65536
  }

  /** A path weight: the first face on the path and the accumulated cost. */
  datatype Weight = Weight(face: Option<Face>, cost: nat)

  const WEIGHT_ZERO := Weight(None, 0)
  const WEIGHT_INF := Weight(None, INF)

  predicate WeightCompare(a: Weight, b: Weight) {
    a.cost < b.cost
  }

  function WeightCombine(a: Weight, b: Weight): Weight {
    Weight(if a.face.None? then b.face else a.face, a.cost + b.cost)
  }

  function WeightOf(g: Graph, l: Incidency): Weight
    requires ValidLink(g, l)
  {
    Weight(l.face, EdgeWeight(g, l))
  }

  /** `p` is a sequence of consecutive edges from `s` to `t`. */
  ghost predicate IsPath(g: Graph, s: nat, p: seq<Edge>, t: nat) {
    && (forall i :: 0 <= i < |p| ==> IsEdge(g, p[i]))
    && (forall i :: 0 <= i < |p| - 1 ==> p[i].link.target == p[i + 1].source)
    && (if p == [] then s == t else p[0].source == s && p[|p| - 1].link.target == t)
  }

  function PathWeight(g: Graph, p: seq<Edge>): Weight
    requires forall i :: 0 <= i < |p| ==> IsEdge(g, p[i])
  {
    if p == [] then WEIGHT_ZERO
    else
      assert IsEdge(g, p[|p| - 1]);
      WeightCombine(PathWeight(g, p[..|p| - 1]), WeightOf(g, p[|p| - 1].link))
  }

  function Cost(g: Graph, p: seq<Edge>): nat
    requires forall i :: 0 <= i < |p| ==> IsEdge(g, p[i])
  {
    PathWeight(g, p).cost
  }

  lemma {:induction false} CostConcat(g: Graph, p: seq<Edge>, q: seq<Edge>)
    requires forall i :: 0 <= i < |p| ==> IsEdge(g, p[i])
    requires forall i :: 0 <= i < |q| ==> IsEdge(g, q[i])
    ensures forall i :: 0 <= i < |p + q| ==> IsEdge(g, (p + q)[i])
    ensures Cost(g, p + q) == Cost(g, p) + Cost(g, q)
  {
    if q == [] {
      assert p + q == p;
    } else {
      var init := q[..|q| - 1];
      CostConcat(g, p, init);
      assert (p + q)[..|p + q| - 1] == p + init;
    }
  }

  lemma CostOfOne(g: Graph, e: Edge)
    requires IsEdge(g, e)
    ensures Cost(g, [e]) == EdgeWeight(g, e.link)
  {
    var p := [e];
    assert p[..|p| - 1] == [] && p[|p| - 1] == e;
    assert PathWeight(g, p) == WeightCombine(PathWeight(g, p[..|p| - 1]), WeightOf(g, e.link));
  }

  /** The face of a path's weight is the face of its first edge, if that edge has one. */
  lemma {:induction false} FirstFace(g: Graph, p: seq<Edge>)
    requires forall i :: 0 <= i < |p| ==> IsEdge(g, p[i])
    requires p != [] && p[0].link.face.Some?
    ensures PathWeight(g, p).face == p[0].link.face
  {
    var init := p[..|p| - 1];
    if |p| == 1 {
      assert init == [];
    } else {
      FirstFace(g, init);
    }
  }

  ghost predicate HasPathOfCost(g: Graph, s: nat, t: nat, c: nat) {
    exists p :: IsPath(g, s, p, t) && Cost(g, p) == c
  }

  ghost function LeastFrom(g: Graph, s: nat, t: nat, c: nat): (d: nat)
    requires c <= INF
    ensures c <= d <= INF
    ensures d < INF ==> HasPathOfCost(g, s, t, d)
    ensures forall k :: c <= k < d ==> !HasPathOfCost(g, s, t, k)
    decreases INF - c
  {
    if c == INF || HasPathOfCost(g, s, t, c) then c else LeastFrom(g, s, t, c + 1)
  }

  /** The smallest cost of a path from `s` to `t`, or infinity. */
  ghost function Dist(g: Graph, s: nat, t: nat): (d: nat)
    ensures d <= INF
  {
    LeastFrom(g, s, t, 0)
  }

  lemma DistIsLower(g: Graph, s: nat, t: nat, p: seq<Edge>)
    requires IsPath(g, s, p, t)
    ensures Dist(g, s, t) <= Cost(g, p)
  {
    assert HasPathOfCost(g, s, t, Cost(g, p));
  }

  lemma DistIsAttained(g: Graph, s: nat, t: nat) returns (p: seq<Edge>)
    requires Dist(g, s, t) < INF
    ensures IsPath(g, s, p, t) && Cost(g, p) == Dist(g, s, t)
  {
    assert HasPathOfCost(g, s, t, Dist(g, s, t));
    p :| IsPath(g, s, p, t) && Cost(g, p) == Dist(g, s, t);
  }

  lemma DistToSelf(g: Graph, s: nat)
    ensures Dist(g, s, s) == 0
  {
    assert IsPath(g, s, [], s);
    DistIsLower(g, s, s, []);
  }

  lemma DistCharacterised(g: Graph, s: nat, t: nat, d: nat)
    requires d <= INF
    requires forall p :: IsPath(g, s, p, t) ==> d <= Cost(g, p)
    requires d < INF ==> HasPathOfCost(g, s, t, d)
    ensures d == Dist(g, s, t)
  {
    if d < INF {
      var p :| IsPath(g, s, p, t) && Cost(g, p) == d;
      DistIsLower(g, s, t, p);
    }
    if Dist(g, s, t) < INF {
      var p := DistIsAttained(g, s, t);
    }
  }

  lemma PathAppend(g: Graph, s: nat, p: seq<Edge>, u: nat, l: Incidency)
    requires IsPath(g, s, p, u) && IsEdge(g, Edge(u, l))
    ensures IsPath(g, s, p + [Edge(u, l)], l.target)
    ensures PathWeight(g, p + [Edge(u, l)]) == WeightCombine(PathWeight(g, p), WeightOf(g, l))
  {
    var q := p + [Edge(u, l)];
    assert q[..|q| - 1] == p && q[|q| - 1] == Edge(u, l);
    assert forall i :: 0 <= i < |q| ==> IsEdge(g, q[i]);
    assert PathWeight(g, q) == WeightCombine(PathWeight(g, q[..|q| - 1]), WeightOf(g, q[|q| - 1].link));
  }

  lemma PathConcat(g: Graph, s: nat, p: seq<Edge>, m: nat, q: seq<Edge>, t: nat)
    requires IsPath(g, s, p, m) && IsPath(g, m, q, t)
    ensures IsPath(g, s, p + q, t)
    ensures Cost(g, p + q) == Cost(g, p) + Cost(g, q)
  {
    CostConcat(g, p, q);
  }

  lemma PathSplit(g: Graph, s: nat, p: seq<Edge>, t: nat, i: nat)
    requires IsPath(g, s, p, t) && i < |p|
    ensures IsPath(g, s, p[..i], p[i].source) && IsPath(g, p[i].source, p[i..], t)
    ensures Cost(g, p) == Cost(g, p[..i]) + Cost(g, p[i..])
  {
    assert p == p[..i] + p[i..];
    CostConcat(g, p[..i], p[i..]);
  }

  /** One edge more costs at most its weight more. */
  lemma DistOverEdge(g: Graph, e: Edge, t: nat)
    requires IsEdge(g, e)
    ensures Dist(g, e.source, t) <= EdgeWeight(g, e.link) + Dist(g, e.link.target, t)
  {
    if Dist(g, e.link.target, t) < INF {
      var q := DistIsAttained(g, e.link.target, t);
      CostOfOne(g, e);
      PathConcat(g, e.source, [e], e.link.target, q, t);
      DistIsLower(g, e.source, t, [e] + q);
    }
  }

  /** A finite distance is attained through some first edge. */
  lemma DistFirstEdge(g: Graph, s: nat, t: nat) returns (e: Edge)
    requires s != t && Dist(g, s, t) < INF
    ensures IsEdge(g, e) && e.source == s
    ensures Dist(g, s, t) == EdgeWeight(g, e.link) + Dist(g, e.link.target, t)
  {
    var p := DistIsAttained(g, s, t);
    e := p[0];
    FirstEdgeOnShortest(g, s, p, t);
  }

  /** The rest of a shortest path is a shortest path. */
  lemma FirstEdgeOnShortest(g: Graph, s: nat, p: seq<Edge>, t: nat)
    requires IsPath(g, s, p, t) && p != [] && Cost(g, p) == Dist(g, s, t)
    ensures Dist(g, s, t) == EdgeWeight(g, p[0].link) + Dist(g, p[0].link.target, t)
  {
    CostOfOne(g, p[0]);
    assert p == [p[0]] + p[1..];
    CostConcat(g, [p[0]], p[1..]);
    assert IsPath(g, p[0].link.target, p[1..], t);
    DistIsLower(g, p[0].link.target, t, p[1..]);
    DistOverEdge(g, p[0], t);
  }

  /** `pot` falls along no edge by more than the weight of the edge. */
  ghost predicate IsPotential(g: Graph, t: nat, pot: seq<nat>) {
    && |pot| == |g.links| && t < |pot| && pot[t] == 0
    && forall e {:trigger IsEdge(g, e)} :: IsEdge(g, e) ==> pot[e.source] <= EdgeWeight(g, e.link) + pot[e.link.target]
  }

  lemma {:induction false} PotentialIsLower(g: Graph, t: nat, pot: seq<nat>, s: nat, p: seq<Edge>)
    requires IsPotential(g, t, pot) && s < |pot| && IsPath(g, s, p, t)
    ensures pot[s] <= Cost(g, p)
    decreases |p|
  {
    if p != [] {
      var rest := p[1..];
      assert p == [p[0]] + rest;
      assert IsEdge(g, p[0]);
      assert IsPath(g, p[0].link.target, rest, t);
      PotentialIsLower(g, t, pot, p[0].link.target, rest);
      CostOfOne(g, p[0]);
      CostConcat(g, [p[0]], rest);
    }
  }

  /** A potential bounds distances from below. */
  lemma DistAtLeast(g: Graph, t: nat, pot: seq<nat>, s: nat)
    requires IsPotential(g, t, pot) && s < |pot| && pot[s] <= INF
    ensures pot[s] <= Dist(g, s, t)
  {
    if Dist(g, s, t) < INF {
      var p := DistIsAttained(g, s, t);
      PotentialIsLower(g, t, pot, s, p);
    }
  }
}
