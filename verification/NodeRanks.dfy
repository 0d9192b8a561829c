/** Ranks of the routers of a Rocketfuel map: clients by their degree, gateways beside them,
    and the backbone. */
module NodeRanks {
  import opened Digraph
  import opened Components

  datatype NodeType = UNKNOWN | CLIENT | GATEWAY | BACKBONE

  type Ranks = map<nat, NodeType>

  predicate Unranked(r: Ranks, x: nat) {
    x in r && r[x] == UNKNOWN
  }

  function Unknowns(r: Ranks): set<nat> {
    set x | x in r && r[x] == UNKNOWN
  }

  predicate NewlyRanked(r: Ranks, after: Ranks, x: nat) {
    x in after && Unranked(r, x) && !Unranked(after, x)
  }

  /** The arcs along which ranks spread from `v`: to unranked nodes, from `v` itself and on
      from unranked nodes of a degree below the limit. */
  function SpreadArcs(g: set<Arc>, r: Ranks, v: nat, limit: nat): set<Arc> {
    set a | a in g && Unranked(r, a.1) && (a.0 == v || (Unranked(r, a.0) && Degree(g, a.0) < limit))
  }

  /** A node of small degree passes its rank on to `x`. */
  ghost predicate PassedOn(g: set<Arc>, r: Ranks, v: nat, limit: nat, x: nat) {
    exists y :: HasArc(g, y, x) && Unranked(r, y) && Degree(g, y) < limit && Reaches(SpreadArcs(g, r, v, limit), v, y)
  }

  /** Ranks `after` extend `r` by spreading from `v`, whose neighbours in `done` are ranked.
      Neighbours of `v` get the given kind, or the backbone's as all others do. */
  ghost predicate Spreads(g: set<Arc>, r: Ranks, after: Ranks, v: nat, limit: nat, kind: NodeType, done: set<nat>) {
    && after.Keys == r.Keys
    && (forall x :: x in r && r[x] != UNKNOWN ==> after[x] == r[x])
    && (forall x :: NewlyRanked(r, after, x) ==>
          && (after[x] == BACKBONE || (after[x] == kind && HasArc(g, v, x)))
          && Reaches(SpreadArcs(g, r, v, limit), v, x)
          && (after[x] == kind || PassedOn(g, r, v, limit, x)))
    && (forall x, y :: NewlyRanked(r, after, x) && Degree(g, x) < limit && HasArc(g, x, y) ==> !Unranked(after, y))
    && (forall y :: y in done ==> !Unranked(after, y))
  }

  lemma SpreadStart(g: set<Arc>, r: Ranks, v: nat, limit: nat, kind: NodeType)
    ensures Spreads(g, r, r, v, limit, kind, {})
  {
  }

  lemma SpreadSkip(g: set<Arc>, r: Ranks, after: Ranks, v: nat, limit: nat, kind: NodeType, done: set<nat>, u: nat)
    requires Spreads(g, r, after, v, limit, kind, done) && !Unranked(after, u)
    ensures Spreads(g, r, after, v, limit, kind, done + {u})
  {
    hide SpreadArcs, Reaches, PassedOn;
  }

  lemma SpreadReaches(g: set<Arc>, r: Ranks, v: nat, limit: nat, u: nat)
    requires Unranked(r, u) && HasArc(g, v, u)
    ensures Reaches(SpreadArcs(g, r, v, limit), v, u)
  {
    ReachesArc(SpreadArcs(g, r, v, limit), v, u);
  }

  lemma SpreadOne(g: set<Arc>, r: Ranks, after: Ranks, v: nat, limit: nat, kind: NodeType, done: set<nat>, u: nat)
    requires Spreads(g, r, after, v, limit, kind, done) && Unranked(after, u) && HasArc(g, v, u)
    requires kind != UNKNOWN && Degree(g, u) >= limit
    ensures Spreads(g, r, after[u := kind], v, limit, kind, done + {u})
  {
    hide SpreadArcs, Reaches, Degree, PassedOn;
    SpreadReaches(g, r, v, limit, u);
  }

  lemma SpreadFurther(g: set<Arc>, r: Ranks, after: Ranks, v: nat, limit: nat, kind: NodeType, done: set<nat>,
                      u: nat, x: nat)
    requires Spreads(g, r, after, v, limit, kind, done) && Unranked(after, u) && HasArc(g, v, u)
    requires kind != UNKNOWN && Degree(g, u) < limit
    requires Reaches(SpreadArcs(g, after[u := kind], u, limit), u, x)
    ensures Reaches(SpreadArcs(g, r, v, limit), v, x)
  {
    hide Reaches, Degree;
    var s := SpreadArcs(g, r, v, limit);
    assert SpreadArcs(g, after[u := kind], u, limit) <= s;
    ReachesMonotone(SpreadArcs(g, after[u := kind], u, limit), s, u, x);
    SpreadReaches(g, r, v, limit, u);
    ReachesTransitive(s, v, u, x);
  }

  /** The last arc of a walk that arrives at `x` from another node. */
  lemma LastArc(arcs: set<Arc>, v: nat, x: nat) returns (y: nat)
    requires Reaches(arcs, v, x) && x != v
    ensures HasArc(arcs, y, x) && Reaches(arcs, v, y) && y != x
  {
    var w :| Connects(arcs, v, w, x);
    y := LastStep(arcs, v, w, x);
  }

  lemma {:induction false} LastStep(arcs: set<Arc>, v: nat, w: seq<nat>, x: nat) returns (y: nat)
    requires Connects(arcs, v, w, x) && x != v
    ensures HasArc(arcs, y, x) && Reaches(arcs, v, y) && y != x
    decreases |w|
  {
    var init := w[..|w| - 1];
    y := w[|w| - 2];
    assert Connects(arcs, v, init, y);
    if y == x {
      y := LastStep(arcs, v, init, x);
    }
  }

  lemma SpreadPassedOn(g: set<Arc>, r: Ranks, after: Ranks, v: nat, limit: nat, kind: NodeType, done: set<nat>,
                       u: nat, x: nat)
    requires Spreads(g, r, after, v, limit, kind, done) && Unranked(after, u) && HasArc(g, v, u)
    requires kind != UNKNOWN && Degree(g, u) < limit
    requires Reaches(SpreadArcs(g, after[u := kind], u, limit), u, x) && x != u
    ensures PassedOn(g, r, v, limit, x)
  {
    hide Reaches, Degree, PassedOn;
    var y := LastArc(SpreadArcs(g, after[u := kind], u, limit), u, x);
    SpreadFurther(g, r, after, v, limit, kind, done, u, y);
    PassedOnBy(g, r, v, limit, x, y);
  }

  lemma PassedOnBy(g: set<Arc>, r: Ranks, v: nat, limit: nat, x: nat, y: nat)
    requires HasArc(g, y, x) && Unranked(r, y) && Degree(g, y) < limit && Reaches(SpreadArcs(g, r, v, limit), v, y)
    ensures PassedOn(g, r, v, limit, x)
  {
  }

  lemma SpreadDeep(g: set<Arc>, r: Ranks, after: Ranks, deeper: Ranks, v: nat, limit: nat, kind: NodeType,
                   done: set<nat>, u: nat)
    requires Spreads(g, r, after, v, limit, kind, done) && Unranked(after, u) && HasArc(g, v, u)
    requires kind != UNKNOWN && Degree(g, u) < limit
    requires Spreads(g, after[u := kind], deeper, u, limit, BACKBONE, Neighbours(g, u))
    ensures Spreads(g, r, deeper, v, limit, kind, done + {u})
  {
    hide SpreadArcs, Reaches, Degree, PassedOn;
    SpreadReaches(g, r, v, limit, u);
    var mid := after[u := kind];
    forall x | NewlyRanked(r, deeper, x)
      ensures (deeper[x] == BACKBONE || (deeper[x] == kind && HasArc(g, v, x))) &&
              Reaches(SpreadArcs(g, r, v, limit), v, x)
      ensures deeper[x] == kind || PassedOn(g, r, v, limit, x)
    {
      if NewlyRanked(mid, deeper, x) {
        SpreadFurther(g, r, after, v, limit, kind, done, u, x);
        SpreadPassedOn(g, r, after, v, limit, kind, done, u, x);
      } else if x != u {
        assert NewlyRanked(r, after, x);
      }
    }
    forall x, y | NewlyRanked(r, deeper, x) && Degree(g, x) < limit && HasArc(g, x, y)
      ensures !Unranked(deeper, y)
    {
      if x == u {
        assert y in Neighbours(g, u);
      } else if !NewlyRanked(mid, deeper, x) {
        assert NewlyRanked(r, after, x);
      }
    }
  }

  /** Which nodes get ranked does not depend on the order of the visits: exactly those the
      ranks can spread to. */
  lemma SpreadExact(g: set<Arc>, r: Ranks, after: Ranks, v: nat, limit: nat, kind: NodeType, x: nat)
    requires Spreads(g, r, after, v, limit, kind, Neighbours(g, v))
    requires v in r && r[v] != UNKNOWN && Unranked(r, x)
    ensures after[x] != UNKNOWN <==> Reaches(SpreadArcs(g, r, v, limit), v, x)
  {
    var arcs := SpreadArcs(g, r, v, limit);
    if Reaches(arcs, v, x) {
      var w :| Connects(arcs, v, w, x);
      var s := {v} + Unknowns(r) - Unknowns(after);
      forall a | a in arcs && a.0 in s
        ensures a.1 in s
      {
        if a.0 == v {
          assert a.1 in Neighbours(g, v);
        } else {
          assert NewlyRanked(r, after, a.0) && HasArc(g, a.0, a.1);
        }
      }
      ClosedKeepsWalks(arcs, s, w);
    }
  }

  /** Ranks pass through an unranked neighbour `y` of small degree: a node beyond it becomes
      backbone, although `y`, when it has the degree of a client, will be a client itself. */
  lemma BackboneBesideClient(g: set<Arc>, r: Ranks, after: Ranks, v: nat, limit: nat, y: nat, x: nat)
    requires Spreads(g, r, after, v, limit, GATEWAY, Neighbours(g, v))
    requires HasArc(g, v, y) && Unranked(r, y) && Degree(g, y) < limit
    requires HasArc(g, y, x) && Unranked(r, x) && !HasArc(g, v, x)
    requires y in r && x in r
    ensures after[x] == BACKBONE
  {
    hide Degree, Reaches, SpreadArcs, PassedOn;
    assert y in Neighbours(g, v);
    assert NewlyRanked(r, after, y);
    assert NewlyRanked(r, after, x);
  }

  ghost predicate Serves(g: set<Arc>, r: Ranks, x: nat) {
    exists y :: HasArc(g, x, y) && y in r && r[y] == CLIENT
  }

  /** `x` borders `y`, which borders `z`: both have one degree up to 3, and no neighbour of
      `x` or `y` has a smaller one. A visit of `z` that goes on to `y` makes `x` backbone. */
  ghost predicate Beyond(g: set<Arc>, x: nat, k: int) {
    exists y, z :: IsBeyond(g, x, y, z, k)
  }

  ghost predicate IsBeyond(g: set<Arc>, x: nat, y: nat, z: nat, k: int) {
    && HasArc(g, x, y) && HasArc(g, y, z) && y != z && Degree(g, y) == Degree(g, z)
    && 1 <= Degree(g, y) <= k && Degree(g, y) <= 3
    && NoSmaller(g, x, Degree(g, y)) && NoSmaller(g, y, Degree(g, y))
  }

  /** No neighbour of `x` has a degree below `d`. */
  ghost predicate NoSmaller(g: set<Arc>, x: nat, d: nat) {
    forall w :: HasArc(g, x, w) ==> Degree(g, w) >= d
  }

  /** Clients are the nodes of degrees 1 to before `k`, and of degree `k` among `done`; every
      gateway serves a client, and only nodes beyond two clients are backbone already; every
      neighbour of a client is ranked. */
  ghost predicate Classified(g: set<Arc>, r: Ranks, k: nat, done: set<nat>) {
    && (forall x :: x in r ==> (r[x] == CLIENT <==> 1 <= Degree(g, x) < k || (Degree(g, x) == k && x in done)))
    && (forall x :: x in r && r[x] == GATEWAY ==> Serves(g, r, x))
    && (forall x :: x in r && r[x] == BACKBONE ==> Beyond(g, x, k))
    && (forall x, y :: x in r && r[x] == CLIENT && HasArc(g, x, y) ==> !Unranked(r, y))
  }

  lemma NoneClassified(g: set<Arc>, r: Ranks)
    requires forall x :: x in r ==> r[x] == UNKNOWN
    ensures Classified(g, r, 1, {})
  {
  }

  lemma NextDegree(g: set<Arc>, r: Ranks, k: nat)
    requires k >= 1 && Classified(g, r, k, r.Keys)
    ensures Classified(g, r, k + 1, {})
  {
    hide Degree, Serves, IsBeyond, NoSmaller;
    forall x | x in r && r[x] == BACKBONE
      ensures Beyond(g, x, k + 1)
    {
      BeyondMore(g, x, k, k + 1);
    }
  }

  lemma BeyondMore(g: set<Arc>, x: nat, k: int, more: int)
    requires Beyond(g, x, k) && k <= more
    ensures Beyond(g, x, more)
  {
    var y, z :| IsBeyond(g, x, y, z, k);
    assert IsBeyond(g, x, y, z, more);
  }

  lemma NotThisDegree(g: set<Arc>, r: Ranks, k: nat, done: set<nat>, v: nat)
    requires Classified(g, r, k, done) && Degree(g, v) != k
    ensures Classified(g, r, k, done + {v})
  {
    hide Degree, Serves, Beyond;
  }

  lemma ServesStill(g: set<Arc>, r: Ranks, after: Ranks, x: nat)
    requires Serves(g, r, x) && forall y :: y in r && r[y] == CLIENT ==> y in after && after[y] == CLIENT
    ensures Serves(g, after, x)
  {
    var y :| HasArc(g, x, y) && y in r && r[y] == CLIENT;
    assert y in after;
  }

  lemma ArcHasDegree(g: set<Arc>, x: nat, y: nat)
    requires HasArc(g, x, y)
    ensures Degree(g, x) >= 1
  {
    assert y in Neighbours(g, x);
  }

  /** An unranked node of small degree has the very degree of this round. */
  lemma SmallIsThisDegree(nodes: set<nat>, g: set<Arc>, r: Ranks, k: nat, done: set<nat>, y: nat, x: nat)
    requires Undirected(nodes, g) && Classified(g, r, k, done) && Unranked(r, y)
    requires Degree(g, y) <= k && HasArc(g, y, x)
    ensures Degree(g, y) == k
  {
    hide Degree, Serves, Beyond, Undirected;
    ArcHasDegree(g, y, x);
  }

  lemma PassedOnIsBeyond(nodes: set<nat>, g: set<Arc>, r: Ranks, k: nat, done: set<nat>, v: nat, x: nat)
    requires Undirected(nodes, g) && r.Keys == nodes && v in nodes && k >= 1
    requires Classified(g, r, k, done) && Degree(g, v) == k
    requires Unranked(r[v := CLIENT], x)
    requires PassedOn(g, r[v := CLIENT], v, GatewayLimit(k), x)
    ensures Beyond(g, x, k)
  {
    hide Degree, Serves, Reaches, Beyond, NoSmaller;
    var mid, limit := r[v := CLIENT], GatewayLimit(k);
    var y :| HasArc(g, y, x) && Unranked(mid, y) && Degree(g, y) < limit && Reaches(SpreadArcs(g, mid, v, limit), v, y);
    SmallIsThisDegree(nodes, g, r, k, done, y, x);
    var z := LastArc(SpreadArcs(g, mid, v, limit), v, y);
    assert HasArc(g, z, y) && HasArc(g, y, z) && HasArc(g, x, y);
    if z != v {
      SmallIsThisDegree(nodes, g, r, k, done, z, y);
    }
    UnrankedBordersNoSmaller(nodes, g, r, k, done, x);
    UnrankedBordersNoSmaller(nodes, g, r, k, done, y);
    BeyondBy(g, x, y, z, k);
  }

  /** All smaller degrees are done, and the neighbours of their nodes ranked. */
  lemma UnrankedBordersNoSmaller(nodes: set<nat>, g: set<Arc>, r: Ranks, k: nat, done: set<nat>, x: nat)
    requires Undirected(nodes, g) && r.Keys == nodes && Classified(g, r, k, done) && Unranked(r, x)
    ensures NoSmaller(g, x, k)
  {
    hide Degree, Serves, Beyond;
    forall w | HasArc(g, x, w)
      ensures Degree(g, w) >= k
    {
      assert HasArc(g, w, x);
      ArcHasDegree(g, w, x);
    }
  }

  lemma BeyondBy(g: set<Arc>, x: nat, y: nat, z: nat, k: int)
    requires IsBeyond(g, x, y, z, k)
    ensures Beyond(g, x, k)
  {
  }

  /** Ranks spread through nodes of degrees up to that of the clients, but at most 3. */
  function GatewayLimit(k: nat): nat {
    (if k < 3 then k else 3) + 1
  }

  /** A new client keeps the classification, once its surroundings are ranked. */
  lemma NewClient(nodes: set<nat>, g: set<Arc>, r: Ranks, after: Ranks, k: nat, done: set<nat>, v: nat)
    requires Undirected(nodes, g) && r.Keys == nodes && v in nodes && k >= 1
    requires Classified(g, r, k, done) && Degree(g, v) == k
    requires Spreads(g, r[v := CLIENT], after, v, GatewayLimit(k), GATEWAY, Neighbours(g, v))
    ensures Classified(g, after, k, done + {v})
  {
    hide Degree, Serves, Reaches, SpreadArcs, PassedOn, Beyond;
    var mid := r[v := CLIENT];
    forall x | x in after
      ensures after[x] == CLIENT <==> mid[x] == CLIENT
    {
      if !NewlyRanked(mid, after, x) {
        assert after[x] == mid[x];
      }
    }
    forall x | x in after && after[x] == GATEWAY
      ensures Serves(g, after, x)
    {
      if NewlyRanked(mid, after, x) {
        assert HasArc(g, v, x) && HasArc(g, x, v);
        ServesAt(g, after, x, v);
      } else {
        ServesStill(g, r, after, x);
      }
    }
    forall x | x in after && after[x] == BACKBONE
      ensures Beyond(g, x, k)
    {
      if NewlyRanked(mid, after, x) {
        PassedOnIsBeyond(nodes, g, r, k, done, v, x);
      }
    }
    forall x, y | x in after && after[x] == CLIENT && HasArc(g, x, y)
      ensures !Unranked(after, y)
    {
      if x == v {
        assert y in Neighbours(g, v);
      }
    }
  }

  lemma ServesAt(g: set<Arc>, r: Ranks, x: nat, y: nat)
    requires HasArc(g, x, y) && y in r && r[y] == CLIENT
    ensures Serves(g, r, x)
  {
  }

  predicate Allowed(a: NodeType, b: NodeType) {
    || (a == BACKBONE && b == BACKBONE)
    || (a == GATEWAY && b == BACKBONE) || (a == BACKBONE && b == GATEWAY)
    || (a == GATEWAY && b == GATEWAY)
    || (a == GATEWAY && b == CLIENT) || (a == CLIENT && b == GATEWAY)
  }

  function BackboneOf(r: Ranks): set<nat> {
    set x | x in r && r[x] == BACKBONE
  }

  /** The backbone is connected by its own links. */
  ghost predicate BackboneConnected(g: set<Arc>, r: Ranks) {
    Connected(BackboneOf(r), Within(g, BackboneOf(r)))
  }

  function Filtered(g: set<Arc>, r: Ranks): set<Arc> {
    set a | a in g && a.0 in r && a.1 in r && Allowed(r[a.0], r[a.1])
  }

  lemma FilterKeepsBackbone(g: set<Arc>, r: Ranks)
    requires BackboneConnected(g, r)
    ensures BackboneConnected(Filtered(g, r), r)
  {
    var b := BackboneOf(r);
    assert Within(Filtered(g, r), b) == Within(g, b);
  }

  /** A whole component either holds all of a connected backbone or none of it. */
  lemma ComponentKeepsBackbone(g: set<Arc>, r: Ranks, s: set<nat>, after: Ranks)
    requires BackboneConnected(g, r) && Closed(g, s)
    requires after == map x | x in r && x in s :: r[x]
    ensures BackboneConnected(Within(g, s), after)
  {
    hide Reaches;
    var b := BackboneOf(r);
    var c := BackboneOf(after);
    if c != {} {
      var u :| u in c;
      forall v | v in b
        ensures v in s
      {
        ReachesMonotone(Within(g, b), g, u, v);
        ReachesWithin(g, s, u, v);
      }
      assert c == b;
      assert Within(Within(g, s), b) == Within(g, b);
    }
  }

  lemma FilterKeepsServing(g: set<Arc>, r: Ranks, x: nat)
    requires x in r && r[x] == GATEWAY && Serves(g, r, x)
    ensures Serves(Filtered(g, r), r, x)
  {
    var y :| HasArc(g, x, y) && y in r && r[y] == CLIENT;
    assert HasArc(Filtered(g, r), x, y);
  }

  lemma ComponentKeepsServing(g: set<Arc>, r: Ranks, s: set<nat>, after: Ranks, x: nat)
    requires Closed(g, s) && x in s && Serves(g, r, x)
    requires after == map x | x in r && x in s :: r[x]
    ensures Serves(Within(g, s), after, x)
  {
    var y :| HasArc(g, x, y) && y in r && r[y] == CLIENT;
    assert (x, y).1 in s;
    assert HasArc(Within(g, s), x, y);
  }
}
