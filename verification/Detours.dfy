/** Paths that do not use the outgoing links of one vertex. */
module Detours {
  import opened Networks

  /** The graph without the outgoing links of `s`. */
  function Without(g: Graph, s: nat): Graph
    requires s < |g.links|
  {
    g.(links := g.links[s := []])
  }

  ghost predicate Avoids(p: seq<Edge>, s: nat) {
    forall i :: 0 <= i < |p| ==> p[i].source != s
  }

  ghost predicate SameEdges(g: Graph, h: Graph, p: seq<Edge>) {
    forall i :: 0 <= i < |p| ==>
      IsEdge(g, p[i]) && IsEdge(h, p[i]) && EdgeWeight(g, p[i].link) == EdgeWeight(h, p[i].link)
  }

  lemma {:induction false} SameCost(g: Graph, h: Graph, p: seq<Edge>)
    requires SameEdges(g, h, p)
    ensures Cost(g, p) == Cost(h, p)
  {
    if p != [] {
      assert IsEdge(g, p[|p| - 1]);
      SameCost(g, h, p[..|p| - 1]);
    }
  }

  lemma TransferPath(g: Graph, h: Graph, s: nat, p: seq<Edge>, t: nat)
    requires IsPath(g, s, p, t) && SameEdges(g, h, p)
    ensures IsPath(h, s, p, t) && Cost(g, p) == Cost(h, p)
  {
    SameCost(g, h, p);
  }

  lemma {:induction false} EdgeWithinCost(g: Graph, p: seq<Edge>, i: nat)
    requires forall k :: 0 <= k < |p| ==> IsEdge(g, p[k])
    requires i < |p|
    ensures IsEdge(g, p[i]) && EdgeWeight(g, p[i].link) <= Cost(g, p)
  {
    assert IsEdge(g, p[i]);
    if i == |p| - 1 {
    } else {
      assert p[..|p| - 1][i] == p[i];
      EdgeWithinCost(g, p[..|p| - 1], i);
    }
  }

  /** Paths of the graph without the links of `s` are the paths that avoid `s`. */
  lemma WithoutPath(g: Graph, s: nat, u: nat, p: seq<Edge>, t: nat)
    requires s < |g.links| && IsPath(Without(g, s), u, p, t)
    ensures Avoids(p, s) && IsPath(g, u, p, t) && Cost(g, p) == Cost(Without(g, s), p)
  {
    forall i | 0 <= i < |p|
      ensures IsEdge(g, p[i]) && p[i].source != s
    {
      assert IsEdge(Without(g, s), p[i]);
    }
    TransferPath(Without(g, s), g, u, p, t);
  }

  lemma AvoidingIsWithout(g: Graph, s: nat, u: nat, p: seq<Edge>, t: nat)
    requires s < |g.links| && IsPath(g, u, p, t) && Avoids(p, s)
    ensures IsPath(Without(g, s), u, p, t) && Cost(Without(g, s), p) == Cost(g, p)
  {
    forall i | 0 <= i < |p|
      ensures IsEdge(Without(g, s), p[i])
    {
      assert IsEdge(g, p[i]);
    }
    TransferPath(g, Without(g, s), u, p, t);
  }
}
