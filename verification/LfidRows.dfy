/** What the LFID rows contain before any removal: the infinite-metric trick, the exact
    meaning of DOWNWARD and UPWARD, and the well-formedness of every view. */
module LfidRows {
  import opened Networks
  import opened Detours
  import opened NextHops
  import opened FibViews

  /** What LFID demands of the topology: point-to-point links, no link from a node to
      itself, at most one link between two nodes, and positive 16-bit metrics. */
  ghost predicate LfidNetwork(g: Graph) {
    && ValidGraph(g)
    && FacesUnique(g)
    && (forall e {:trigger IsEdge(g, e)} :: IsEdge(g, e) ==>
        && e.link.face.Some? && e.link.target != e.source
        && 1 <= g.metric[e.link.face.value] <= INF)
    && (forall s, i, j :: 0 <= s < |g.links| && 0 <= i < j < |g.links[s]| ==>
        g.links[s][i].target != g.links[s][j].target)
  }

  lemma OneLinkPerNeighbour(g: Graph, s: nat, a: Incidency, b: Incidency)
    requires LfidNetwork(g) && IsEdge(g, Edge(s, a)) && IsEdge(g, Edge(s, b)) && a.target == b.target
    ensures a == b
  {
    var i :| 0 <= i < |g.links[s]| && g.links[s][i] == a;
    var j :| 0 <= j < |g.links[s]| && g.links[s][j] == b;
  }

  predicate Owns(g: Graph, s: nat, f: Face)
    requires s < |g.links|
  {
    exists l :: l in g.links[s] && l.face == Some(f)
  }

  /** The graph while every face of `s` has the infinite metric. */
  function Disable(g: Graph, s: nat): Graph
    requires s < |g.links|
  {
    g.(metric := map f | f in g.metric :: if Owns(g, s, f) then INF else g.metric[f])
  }

  /** Links of other nodes keep their metric while `s` is disabled. */
  lemma DisableKeepsOthers(g: Graph, s: nat, e: Edge)
    requires ValidGraph(g) && FacesUnique(g) && s < |g.links|
    requires IsEdge(g, e)
    ensures IsEdge(Disable(g, s), e)
    ensures e.source != s ==> EdgeWeight(Disable(g, s), e.link) == EdgeWeight(g, e.link)
    ensures e.source == s && e.link.face.Some? ==> EdgeWeight(Disable(g, s), e.link) == INF
  {
    if e.link.face.Some? && Owns(g, s, e.link.face.value) {
      var i :| 0 <= i < |g.links[s]| && g.links[s][i].face == e.link.face;
      assert ValidLink(g, g.links[s][i]);
      assert IsEdge(g, Edge(s, g.links[s][i]));
    }
  }

  lemma AvoidingPath(g: Graph, s: nat, u: nat, p: seq<Edge>, t: nat)
    requires ValidGraph(g) && FacesUnique(g) && s < |g.links|
    requires IsPath(g, u, p, t) && Avoids(p, s)
    ensures IsPath(Without(g, s), u, p, t) && Cost(Without(g, s), p) == Cost(g, p)
    ensures IsPath(Disable(g, s), u, p, t) && Cost(Disable(g, s), p) == Cost(g, p)
  {
    forall i | 0 <= i < |p|
      ensures IsEdge(Without(g, s), p[i]) && IsEdge(Disable(g, s), p[i])
      ensures EdgeWeight(Disable(g, s), p[i].link) == EdgeWeight(g, p[i].link)
    {
      assert IsEdge(g, p[i]);
      DisableKeepsOthers(g, s, p[i]);
    }
    TransferPath(g, Without(g, s), u, p, t);
    TransferPath(g, Disable(g, s), u, p, t);
  }

  /** While `s` is disabled, no path of finite cost leaves `s`. */
  lemma FinitePathsAvoid(g: Graph, s: nat, u: nat, p: seq<Edge>, t: nat)
    requires LfidNetwork(g) && s < |g.links|
    requires IsPath(Disable(g, s), u, p, t) && Cost(Disable(g, s), p) < INF
    ensures Avoids(p, s) && IsPath(g, u, p, t)
  {
    forall i | 0 <= i < |p|
      ensures IsEdge(g, p[i]) && p[i].source != s
    {
      assert IsEdge(Disable(g, s), p[i]);
      assert IsEdge(g, p[i]);
      EdgeWithinCost(Disable(g, s), p, i);
      DisableKeepsOthers(g, s, p[i]);
    }
  }

  /** The infinite-metric trick: setting a node's metrics to infinity gives the distances
      of the graph without the node's outgoing links. */
  lemma DisablingIsDeleting(g: Graph, s: nat, u: nat, t: nat)
    requires LfidNetwork(g) && s < |g.links|
    ensures Dist(Disable(g, s), u, t) == Dist(Without(g, s), u, t)
  {
    if Dist(Disable(g, s), u, t) < INF {
      var p := DistIsAttained(Disable(g, s), u, t);
      FinitePathsAvoid(g, s, u, p, t);
      AvoidingPath(g, s, u, p, t);
      DistIsLower(Without(g, s), u, t, p);
    }
    if Dist(Without(g, s), u, t) < INF {
      var p := DistIsAttained(Without(g, s), u, t);
      WithoutPath(g, s, u, p, t);
      AvoidingPath(g, s, u, p, t);
      DistIsLower(Disable(g, s), u, t, p);
    }
  }

  /** Disabling a node cannot shorten any distance. */
  lemma DisablingLengthens(g: Graph, s: nat, u: nat, t: nat)
    requires LfidNetwork(g) && s < |g.links|
    ensures Dist(g, u, t) <= Dist(Disable(g, s), u, t)
  {
    if Dist(Disable(g, s), u, t) < INF {
      var p := DistIsAttained(Disable(g, s), u, t);
      FinitePathsAvoid(g, s, u, p, t);
      AvoidingPath(g, s, u, p, t);
      DistIsLower(g, u, t, p);
    }
  }

  /** A node that is nearer to the destination than `s` never needs `s`. */
  lemma NearerNeedsNot(g: Graph, s: nat, u: nat, t: nat)
    requires LfidNetwork(g) && s < |g.links|
    requires Dist(g, u, t) < Dist(g, s, t)
    ensures Dist(Disable(g, s), u, t) == Dist(g, u, t)
  {
    var p := DistIsAttained(g, u, t);
    forall i | 0 <= i < |p|
      ensures p[i].source != s
    {
      PathSplit(g, u, p, t, i);
      if p[i].source == s {
        DistIsLower(g, s, t, p[i..]);
      }
    }
    AvoidingPath(g, s, u, p, t);
    DistIsLower(Disable(g, s), u, t, p);
    DisablingLengthens(g, s, u, t);
  }

  /** Cost from `s` over its link `l` without coming back to `s`. */
  ghost function CostOver(g: Graph, s: nat, l: Incidency, dst: nat): nat
    requires s < |g.links| && IsEdge(g, Edge(s, l)) && l.face.Some?
  {
    Dist(Disable(g, s), l.target, dst) + g.metric[l.face.value]
  }

  ghost function EntryFor(g: Graph, s: nat, l: Incidency, dst: nat): FibNextHop
    requires s < |g.links| && IsEdge(g, Edge(s, l)) && l.face.Some?
  {
    FibNextHop(
      CostOver(g, s, l, dst),
      l.target,
      CostOver(g, s, l, dst) - Dist(g, s, dst),
      if Dist(Disable(g, s), l.target, dst) < Dist(g, s, dst) then DOWNWARD else UPWARD)
  }

  /** The check `neighborTotalCost >= spTotalCost` never fails. */
  lemma NeverCheaperThanShortest(g: Graph, s: nat, l: Incidency, dst: nat)
    requires LfidNetwork(g) && IsEdge(g, Edge(s, l))
    ensures CostOver(g, s, l, dst) >= Dist(g, s, dst)
  {
    var e := Edge(s, l);
    assert IsEdge(g, e);
    DistOverEdge(g, e, dst);
    DisablingLengthens(g, s, l.target, dst);
  }

  /** A link is DOWNWARD exactly when its far end is truly nearer to the destination,
      although the code compares a distance computed with the node disabled. */
  lemma ExactClassification(g: Graph, s: nat, l: Incidency, dst: nat)
    requires LfidNetwork(g) && IsEdge(g, Edge(s, l))
    ensures EntryFor(g, s, l, dst).kind == DOWNWARD <==> Dist(g, l.target, dst) < Dist(g, s, dst)
  {
    DisablingLengthens(g, s, l.target, dst);
    if Dist(g, l.target, dst) < Dist(g, s, dst) {
      NearerNeedsNot(g, s, l.target, dst);
    }
  }

  /** The entries of node `s` for `dst`: one for each link whose cost is finite. */
  ghost predicate InRow(g: Graph, s: nat, dst: nat, nh: FibNextHop) {
    exists l {:trigger Edge(s, l)} ::
      IsEdge(g, Edge(s, l)) && l.face.Some? && CostOver(g, s, l, dst) < INF && nh == EntryFor(g, s, l, dst)
  }

  /** Row `s` of the view of `dst`, as computed before any removal. */
  ghost predicate IsRow(g: Graph, s: nat, dst: nat, row: set<FibNextHop>) {
    forall nh :: nh in row <==> InRow(g, s, dst, nh)
  }

  ghost predicate IsView(g: Graph, dst: nat, v: View) {
    && |v| == |g.links| && dst < |v|
    && v[dst] == {}
    && forall s: nat :: s < |v| && s != dst ==> IsRow(g, s, dst, v[s])
  }

  ghost function Distances(g: Graph, dst: nat): (d: seq<nat>)
    ensures |d| == |g.links| && forall s: nat :: s < |d| ==> d[s] == Dist(g, s, dst)
  {
    seq(|g.links|, s requires 0 <= s => Dist(g, s, dst))
  }

  ghost predicate LeadsDown(row: set<FibNextHop>, u: nat) {
    exists nh :: nh in row && nh.nhId == u && nh.kind == DOWNWARD
  }

  lemma LinkFacts(g: Graph, e: Edge)
    requires LfidNetwork(g) && IsEdge(g, e)
    ensures e.link.face.Some? && e.source < |g.links| && e.link.target < |g.links|
    ensures 1 <= EdgeWeight(g, e.link) == g.metric[e.link.face.value] <= INF
    ensures e.link.target != e.source
  {
  }

  /** What an entry says: the cost of the cheapest way over its neighbour that does not come back to
      the node, and how much that is over the distance of the node. Every such way of finite cost
      has its entry. */
  lemma EntryMeans(g: Graph, s: nat, l: Incidency, dst: nat, row: set<FibNextHop>)
    requires LfidNetwork(g) && IsEdge(g, Edge(s, l)) && IsRow(g, s, dst, row)
    requires EdgeWeight(g, l) + Dist(Without(g, s), l.target, dst) < INF
    ensures
      var c := EdgeWeight(g, l) + Dist(Without(g, s), l.target, dst);
      exists nh :: nh in row && nh.nhId == l.target && nh.cost == c && nh.costDelta == c - Dist(g, s, dst)
                   && (nh.kind == DOWNWARD <==> Dist(g, l.target, dst) < Dist(g, s, dst))
                   && (nh.kind == UPWARD <==> Dist(g, l.target, dst) >= Dist(g, s, dst))
  {
    hide Dist, Disable, Without, IsRow, ValidLink;
    EdgeFacts(g, Edge(s, l));
    EntryIsListed(g, s, l, dst, row);
    DisablingIsDeleting(g, s, l.target, dst);
    ExactClassification(g, s, l, dst);
  }

  lemma EdgeFacts(g: Graph, e: Edge)
    requires LfidNetwork(g) && IsEdge(g, e)
    ensures e.link.face.Some? && e.source < |g.links| && e.link.target < |g.links| && e.link.target != e.source
    ensures e.link.face.value in g.metric && EdgeWeight(g, e.link) == g.metric[e.link.face.value]
  {
    LinkFacts(g, e);
  }

  lemma EntryIsListed(g: Graph, s: nat, l: Incidency, dst: nat, row: set<FibNextHop>)
    requires s < |g.links| && IsEdge(g, Edge(s, l)) && l.face.Some? && IsRow(g, s, dst, row)
    ensures CostOver(g, s, l, dst) < INF ==> EntryFor(g, s, l, dst) in row
  {
    hide CostOver, EntryFor;
    if CostOver(g, s, l, dst) < INF {
      assert InRow(g, s, dst, EntryFor(g, s, l, dst));
    }
  }

  /** A link of finite cost to a nearer neighbour yields a DOWNWARD entry. */
  lemma NearerLinkLeadsDown(g: Graph, s: nat, l: Incidency, dst: nat, row: set<FibNextHop>)
    requires LfidNetwork(g) && IsEdge(g, Edge(s, l)) && IsRow(g, s, dst, row)
    requires Dist(g, l.target, dst) < Dist(g, s, dst)
    requires EdgeWeight(g, l) + Dist(g, l.target, dst) < INF
    ensures LeadsDown(row, l.target)
  {
    LinkFacts(g, Edge(s, l));
    ExactClassification(g, s, l, dst);
    NearerNeedsNot(g, s, l.target, dst);
    assert InRow(g, s, dst, EntryFor(g, s, l, dst));
    assert EntryFor(g, s, l, dst) in row;
  }

  /** A node that can reach the destination has a DOWNWARD entry. */
  lemma ReachableHasDownward(g: Graph, s: nat, dst: nat, row: set<FibNextHop>)
    requires LfidNetwork(g) && s < |g.links| && s != dst
    requires IsRow(g, s, dst, row) && Dist(g, s, dst) < INF
    ensures HasDownward(row)
  {
    hide LfidNetwork, IsEdge, IsRow, Dist;
    var e := DistFirstEdge(g, s, dst);
    LinkFacts(g, e);
    assert e == Edge(s, e.link);
    NearerLinkLeadsDown(g, s, e.link, dst, row);
  }

  /** An entry's own node, and its head unless it is the destination, reach the destination. */
  lemma EntriesAreUseful(g: Graph, s: nat, dst: nat, nh: FibNextHop)
    requires LfidNetwork(g) && InRow(g, s, dst, nh)
    ensures nh.nhId < |g.links| && nh.nhId != s && nh.kind != DISABLED
    ensures Dist(g, s, dst) < INF && Dist(g, nh.nhId, dst) < INF
    ensures nh.kind == DOWNWARD <==> Dist(g, nh.nhId, dst) < Dist(g, s, dst)
    ensures 0 < nh.cost < MAX_COST && nh.costDelta >= 0
  {
    var l :| IsEdge(g, Edge(s, l)) && l.face.Some? && CostOver(g, s, l, dst) < INF && nh == EntryFor(g, s, l, dst);
    NeverCheaperThanShortest(g, s, l, dst);
    ExactClassification(g, s, l, dst);
    DisablingLengthens(g, s, l.target, dst);
  }

  lemma RowIsSingle(g: Graph, s: nat, dst: nat, row: set<FibNextHop>)
    requires LfidNetwork(g) && IsRow(g, s, dst, row)
    ensures OnePerNexthop(row)
  {
    forall a, b | a in row && b in row && a.nhId == b.nhId
      ensures a == b
    {
      var la :| IsEdge(g, Edge(s, la)) && la.face.Some? && CostOver(g, s, la, dst) < INF &&
          a == EntryFor(g, s, la, dst);
      var lb :| IsEdge(g, Edge(s, lb)) && lb.face.Some? && CostOver(g, s, lb, dst) < INF &&
          b == EntryFor(g, s, lb, dst);
      OneLinkPerNeighbour(g, s, la, lb);
    }
  }

  lemma RowsAreOk(g: Graph, dst: nat, v: View, s: nat)
    requires LfidNetwork(g) && IsView(g, dst, v) && s < |v|
    ensures RowOk(v, Distances(g, dst), dst, s)
  {
    if s != dst {
      assert IsRow(g, s, dst, v[s]);
      RowIsSingle(g, s, dst, v[s]);
      forall nh | nh in v[s]
        ensures nh.nhId < |v| && nh.kind != DISABLED
        ensures nh.kind == DOWNWARD <==> Distances(g, dst)[nh.nhId] < Distances(g, dst)[s]
        ensures nh.nhId != dst ==> v[nh.nhId] != {}
        ensures HasDownward(v[s])
      {
        EntriesAreUseful(g, s, dst, nh);
        ReachableHasDownward(g, s, dst, v[s]);
        if nh.nhId != dst {
          ReachableHasDownward(g, nh.nhId, dst, v[nh.nhId]);
        }
      }
      assert v[s] != {} ==> HasDownward(v[s]);
    }
  }

  /** Every view LFID computes is well-formed: DOWNWARD arcs strictly decrease the distance
      and every node with entries has one. */
  lemma ViewsAreWellFormed(g: Graph, dst: nat, v: View)
    requires LfidNetwork(g) && IsView(g, dst, v)
    ensures WellFormed(v, Distances(g, dst), dst)
  {
    forall s: nat | s < |v|
      ensures RowOk(v, Distances(g, dst), dst, s)
    {
      RowsAreOk(g, dst, v, s);
    }
  }

  /** The link has the same metric in both directions, and its ends are not equally far
      from the destination. */
  ghost predicate SymmetricAt(g: Graph, dst: nat, e: Edge)
    requires IsEdge(g, e)
  {
    && e.link.face.Some?
    && Dist(g, e.source, dst) != Dist(g, e.link.target, dst)
    && exists back {:trigger Edge(e.link.target, back)} ::
         && IsEdge(g, Edge(e.link.target, back)) && back.target == e.source
         && back.face.Some? && g.metric[back.face.value] == g.metric[e.link.face.value]
  }

  ghost predicate SymmetricWithoutTies(g: Graph, dst: nat) {
    forall e {:trigger IsEdge(g, e)} :: IsEdge(g, e) && Dist(g, e.source, dst) < INF ==> SymmetricAt(g, dst, e)
  }

  lemma UpwardLink(g: Graph, dst: nat, v: View, c: Candidate) returns (l: Incidency)
    requires LfidNetwork(g) && IsView(g, dst, v) && c in Upward(v)
    ensures IsEdge(g, Edge(c.0, l)) && l.target == c.1.nhId
    ensures c.0 != dst && c.1.nhId < |v|
    ensures Dist(g, c.0, dst) <= Dist(g, c.1.nhId, dst)
    ensures EdgeWeight(g, l) + Dist(g, c.1.nhId, dst) < INF
  {
    var s, u := c.0, c.1.nhId;
    assert IsRow(g, s, dst, v[s]);
    EntriesAreUseful(g, s, dst, c.1);
    l :| IsEdge(g, Edge(s, l)) && l.face.Some? && CostOver(g, s, l, dst) < INF && c.1 == EntryFor(g, s, l, dst);
    DisablingLengthens(g, s, u, dst);
    LinkFacts(g, Edge(s, l));
  }

  /** On such networks every UPWARD entry has a DOWNWARD entry in the opposite direction. */
  lemma SymmetricIsOpposed(g: Graph, dst: nat, v: View)
    requires LfidNetwork(g) && IsView(g, dst, v)
    requires SymmetricWithoutTies(g, dst)
    ensures Opposed(v)
  {
    forall c: Candidate | c in Upward(v)
      ensures c.1.nhId < |v| && LeadsDown(v[c.1.nhId], c.0)
    {
      UpwardIsOpposed(g, dst, v, c);
    }
  }

  lemma UpwardIsOpposed(g: Graph, dst: nat, v: View, c: Candidate)
    requires LfidNetwork(g) && IsView(g, dst, v) && SymmetricWithoutTies(g, dst) && c in Upward(v)
    ensures c.1.nhId < |v| && LeadsDown(v[c.1.nhId], c.0)
  {
    var s, u := c.0, c.1.nhId;
    var l := UpwardLink(g, dst, v, c);
    assert SymmetricAt(g, dst, Edge(s, l));
    var back :| IsEdge(g, Edge(u, back)) && back.target == s && back.face.Some?
                && g.metric[back.face.value] == g.metric[l.face.value];
    DistToSelf(g, dst);
    LinkFacts(g, Edge(u, back));
    LinkFacts(g, Edge(s, l));
    NearerLinkLeadsDown(g, u, back, dst, v[u]);
  }
}
