/** The calculation of all possible routes: one route per outgoing face of a node, found by
    giving every other face of the node a prohibitive metric. */
module AllRoutes {
  import opened Networks
  import opened Detours
  import opened ShortestPaths
  import opened Routers
  import opened Routes

  /** The metric of a disabled face: one below the reserved infinity. */
  const DISABLED: nat := 65534

  function Narrow(m: nat): nat {
    m % 65536
  }

  /** The face table of a node: every face once, among them those of all its links and of
      no other node's links. */
  ghost predicate TableOf(g: Graph, s: nat, table: seq<Face>) {
    && s < |g.links| && FacesUnique(g)
    && (forall i, j :: 0 <= i < j < |table| ==> table[i] != table[j])
    && (forall f :: f in table ==> f in g.metric)
    && (forall e {:trigger IsEdge(g, e)} :: IsEdge(g, e) && e.source == s ==>
        e.link.face.Some? && e.link.face.value in table)
    && (forall e {:trigger IsEdge(g, e)} :: IsEdge(g, e) && e.source != s && e.link.face.Some? ==>
        e.link.face.value !in table)
  }

  /** The graph with every face of the table disabled, except one that keeps its metric. */
  function Enabled(g: Graph, table: seq<Face>, f: Face): Graph {
    g.(metric := map x | x in g.metric ::
      if x == f then Narrow(g.metric[x]) else if x in table then DISABLED else g.metric[x])
  }

  /** The cost over link `l` of `s` along a best path that does not come back to `s`. */
  ghost function Via(g: Graph, s: nat, l: Incidency, t: nat): nat
    requires s < |g.links| && ValidLink(g, l)
  {
    EdgeWeight(g, l) + Dist(Without(g, s), l.target, t)
  }

  /** It is the minimum over all paths whose first link is `l` and that leave `s` once. */
  lemma ViaIsLower(g: Graph, s: nat, p: seq<Edge>, t: nat)
    requires s < |g.links| && IsPath(g, s, p, t) && LeavesOnce(p, s) && p != []
    ensures ValidLink(g, p[0].link) && Via(g, s, p[0].link, t) <= Cost(g, p)
  {
    assert IsEdge(g, p[0]);
    assert p == [p[0]] + p[1..];
    CostOfOne(g, p[0]);
    CostConcat(g, [p[0]], p[1..]);
    assert IsPath(g, p[0].link.target, p[1..], t);
    AvoidingIsWithout(g, s, p[0].link.target, p[1..], t);
    DistIsLower(Without(g, s), p[0].link.target, t, p[1..]);
  }

  lemma OneEdgeIsPath(g: Graph, s: nat, l: Incidency)
    requires IsEdge(g, Edge(s, l))
    ensures IsPath(g, s, [Edge(s, l)], l.target)
  {
  }

  /** The minimum is attained when the rest of the path has a finite cost. */
  lemma ViaIsAttained(g: Graph, s: nat, l: Incidency, t: nat) returns (p: seq<Edge>)
    requires s < |g.links| && IsEdge(g, Edge(s, l))
    requires Dist(Without(g, s), l.target, t) < INF
    ensures IsPath(g, s, p, t) && LeavesOnce(p, s) && p != [] && p[0].link == l && Cost(g, p) == Via(g, s, l, t)
  {
    hide LeavesOnce, Avoids, Cost, Dist, Without;
    OneEdgeIsPath(g, s, l);
    var q := DistIsAttained(Without(g, s), l.target, t);
    WithoutPath(g, s, l.target, q, t);
    CostOfOne(g, Edge(s, l));
    PathConcat(g, s, [Edge(s, l)], l.target, q, t);
    p := [Edge(s, l)] + q;
    ConsLeavesOnce(Edge(s, l), q, s);
  }

  lemma ConsLeavesOnce(e: Edge, q: seq<Edge>, s: nat)
    requires Avoids(q, s)
    ensures LeavesOnce([e] + q, s)
  {
  }

  /** The two graphs have the same edges with the same weights. */
  ghost predicate SameWeights(g: Graph, h: Graph) {
    forall e {:trigger IsEdge(g, e)} {:trigger IsEdge(h, e)} ::
      && (IsEdge(g, e) <==> IsEdge(h, e))
      && (IsEdge(g, e) && IsEdge(h, e) ==> EdgeWeight(g, e.link) == EdgeWeight(h, e.link))
  }

  lemma SameWeightsSamePath(g: Graph, h: Graph, s: nat, p: seq<Edge>, t: nat)
    requires SameWeights(g, h) && IsPath(g, s, p, t)
    ensures IsPath(h, s, p, t) && Cost(g, p) == Cost(h, p)
  {
    forall i | 0 <= i < |p|
      ensures IsEdge(h, p[i]) && EdgeWeight(g, p[i].link) == EdgeWeight(h, p[i].link)
    {
      assert IsEdge(g, p[i]);
    }
    TransferPath(g, h, s, p, t);
  }

  lemma SameWeightsSameDist(g: Graph, h: Graph, s: nat, t: nat)
    requires SameWeights(g, h)
    ensures Dist(g, s, t) == Dist(h, s, t)
  {
    if Dist(g, s, t) < INF {
      var p := DistIsAttained(g, s, t);
      SameWeightsSamePath(g, h, s, p, t);
      DistIsLower(h, s, t, p);
    }
    if Dist(h, s, t) < INF {
      var p := DistIsAttained(h, s, t);
      SameWeightsSamePath(h, g, s, p, t);
      DistIsLower(g, s, t, p);
    }
  }

  /** Graphs that differ only in the metrics of the faces of `s` agree without its links. */
  lemma SameWithout(g: Graph, h: Graph, s: nat, table: seq<Face>)
    requires TableOf(g, s, table) && h.links == g.links && h.metric.Keys == g.metric.Keys
    requires forall f :: f in g.metric && f !in table ==> Narrow(h.metric[f]) == Narrow(g.metric[f])
    ensures SameWeights(Without(g, s), Without(h, s))
  {
    forall e {:trigger IsEdge(Without(g, s), e)} {:trigger IsEdge(Without(h, s), e)}
      ensures IsEdge(Without(g, s), e) <==> IsEdge(Without(h, s), e)
      ensures IsEdge(Without(g, s), e) && IsEdge(Without(h, s), e) ==>
                EdgeWeight(Without(g, s), e.link) == EdgeWeight(Without(h, s), e.link)
    {
      assert IsEdge(Without(g, s), e) ==> IsEdge(g, e) && e.source != s;
    }
  }

  /** The link of `s` whose face is `f`. */
  predicate IsLinkOf(g: Graph, s: nat, l: Incidency, f: Face) {
    IsEdge(g, Edge(s, l)) && l.face == Some(f)
  }

  lemma EnabledWeights(g: Graph, s: nat, table: seq<Face>, f: Face)
    requires TableOf(g, s, table) && f in table
    ensures SameWeights(Without(g, s), Without(Enabled(g, table, f), s))
    ensures forall e {:trigger IsEdge(g, e)} :: IsEdge(g, e) ==> IsEdge(Enabled(g, table, f), e)
    ensures forall l {:trigger Edge(s, l)} :: IsEdge(g, Edge(s, l)) ==>
              EdgeWeight(Enabled(g, table, f), l) == if l.face == Some(f) then EdgeWeight(g, l) else DISABLED
  {
    var h := Enabled(g, table, f);
    assert h.metric.Keys == g.metric.Keys;
    SameWithout(g, h, s, table);
    forall l {:trigger Edge(s, l)} | IsEdge(g, Edge(s, l))
      ensures EdgeWeight(h, l) == if l.face == Some(f) then EdgeWeight(g, l) else DISABLED
    {
      assert l.face.value in table;
    }
  }

  lemma EnabledVia(g: Graph, s: nat, table: seq<Face>, f: Face, l: Incidency, t: nat)
    requires TableOf(g, s, table) && f in table && IsEdge(g, Edge(s, l))
    ensures ValidLink(Enabled(g, table, f), l)
    ensures Via(Enabled(g, table, f), s, l, t) >= if l.face == Some(f) then Via(g, s, l, t) else DISABLED
    ensures l.face == Some(f) ==> Via(Enabled(g, table, f), s, l, t) == Via(g, s, l, t)
    ensures l.face != Some(f) ==> Via(Enabled(g, table, f), s, l, t) == DISABLED + Dist(Without(g, s), l.target, t)
  {
    EnabledWeights(g, s, table, f);
    SameWeightsSameDist(Without(g, s), Without(Enabled(g, table, f), s), l.target, t);
  }

  lemma DistAtMostVia(g: Graph, s: nat, l: Incidency, t: nat)
    requires s < |g.links| && IsEdge(g, Edge(s, l))
    ensures Dist(g, s, t) <= Via(g, s, l, t)
  {
    if Dist(Without(g, s), l.target, t) < INF {
      var p := ViaIsAttained(g, s, l, t);
      DistIsLower(g, s, t, p);
    }
  }

  /** What a finite result of Dijkstra says about the first link. */
  lemma FirstLinkOf(h: Graph, s: nat, d: seq<Weight>, t: nat) returns (l: Incidency)
    requires s < |h.links| && t < |h.links| && s != t && Shortest(h, s, d) && Dist(h, s, t) < INF
    requires forall e {:trigger IsEdge(h, e)} :: IsEdge(h, e) && e.source == s ==> e.link.face.Some?
    ensures IsEdge(h, Edge(s, l)) && d[t].face == l.face && d[t].cost == Via(h, s, l, t) == Dist(h, s, t)
  {
    var p: seq<Edge> :| IsPath(h, s, p, t) && LeavesOnce(p, s) && PathWeight(h, p) == d[t];
    l := p[0].link;
    assert IsEdge(h, p[0]) && p[0] == Edge(s, l);
    FirstFace(h, p);
    ViaIsLower(h, s, p, t);
    DistAtMostVia(h, s, l, t);
  }

  /** The best path over `l` costs less than a disabled face, or as much as one when no other
      link of `s` leads to the origin for free. */
  ghost predicate Wins(g: Graph, s: nat, l: Incidency, f: Face, t: nat) {
    && s < |g.links| && IsLinkOf(g, s, l, f)
    && (Via(g, s, l, t) < DISABLED ||
        (Via(g, s, l, t) == DISABLED && Narrow(g.metric[f]) != DISABLED && NoFreeLink(g, s, l, t)))
  }

  ghost predicate NoFreeLink(g: Graph, s: nat, l: Incidency, t: nat)
    requires s < |g.links|
  {
    forall o {:trigger Edge(s, o)} :: IsEdge(g, Edge(s, o)) && o != l ==> Dist(Without(g, s), o.target, t) > 0
  }

  /** With only `f` enabled, a route over `f` costs exactly the best path over `f`, and there
      is one whenever that path wins. */
  lemma EnabledOutcome(g: Graph, s: nat, table: seq<Face>, f: Face, d: seq<Weight>, t: nat)
    requires TableOf(g, s, table) && f in table && t < |g.links| && s != t
    requires Shortest(Enabled(g, table, f), s, d)
    ensures t < |d|
    ensures d[t].face.Some? && d[t].face.value != f ==> d[t].face.value in table
    ensures d[t].face == Some(f) ==> exists l :: IsLinkOf(g, s, l, f) && d[t].cost == Via(g, s, l, t) <= DISABLED
    ensures forall l :: Wins(g, s, l, f, t) ==> d[t] == Weight(Some(f), Via(g, s, l, t))
  {
    var h := Enabled(g, table, f);
    EdgesOfEnabled(g, s, table, f);
    if Dist(h, s, t) < INF {
      var l := FirstLinkOf(h, s, d, t);
      assert IsEdge(g, Edge(s, l));
      EnabledVia(g, s, table, f, l, t);
      if l.face == Some(f) {
        assert IsLinkOf(g, s, l, f);
      }
    }
    forall l | Wins(g, s, l, f, t)
      ensures d[t] == Weight(Some(f), Via(g, s, l, t))
    {
      OverEnabledLink(g, s, table, f, d, t, l);
    }
  }

  lemma EdgesOfEnabled(g: Graph, s: nat, table: seq<Face>, f: Face)
    requires TableOf(g, s, table)
    ensures forall e {:trigger IsEdge(Enabled(g, table, f), e)} ::
              IsEdge(Enabled(g, table, f), e) ==>
                IsEdge(g, e) && (e.source == s ==> e.link.face.Some? && e.link.face.value in table)
  {
    forall e {:trigger IsEdge(Enabled(g, table, f), e)} | IsEdge(Enabled(g, table, f), e)
      ensures IsEdge(g, e) && (e.source == s ==> e.link.face.Some? && e.link.face.value in table)
    {
      assert IsEdge(g, e);
    }
  }

  lemma OverEnabledLink(g: Graph, s: nat, table: seq<Face>, f: Face, d: seq<Weight>, t: nat, l: Incidency)
    requires TableOf(g, s, table) && f in table && t < |g.links| && s != t
    requires Shortest(Enabled(g, table, f), s, d)
    requires Wins(g, s, l, f, t)
    ensures d[t] == Weight(Some(f), Via(g, s, l, t))
  {
    var h := Enabled(g, table, f);
    EdgesOfEnabled(g, s, table, f);
    EnabledVia(g, s, table, f, l, t);
    EnabledWeights(g, s, table, f);
    DistAtMostVia(h, s, l, t);
    var first := FirstLinkOf(h, s, d, t);
    EnabledVia(g, s, table, f, first, t);
    EnabledVia(g, s, table, f, l, t);
    assert IsEdge(g, Edge(s, first)) && IsEdge(g, Edge(s, l));
    assert first.face == Some(f) ==> first == l;
  }

  /** A route of `s` over one of its usable faces, at the exact cost over that face. */
  ghost predicate GoodVia(g: Graph, s: nat, r: Route) {
    && r.node == s < |g.links| && r.origin < |g.links| && r.origin != s
    && r.face in g.metric && Narrow(g.metric[r.face]) != DISABLED
    && exists l :: IsLinkOf(g, s, l, r.face) && r.cost == Via(g, s, l, r.origin) <= DISABLED
  }

  /** The routes of `s` over face `f` towards the origins below `n`. */
  ghost predicate OverFace(g: Graph, s: nat, f: Face, n: nat, routes: set<Route>) {
    && s < |g.links|
    && (forall r :: r in routes ==> GoodVia(g, s, r) && r.face == f)
    && (forall l, t: nat {:trigger Wins(g, s, l, f, t)} ::
          t < n && t < |g.links| && t != s && Wins(g, s, l, f, t) ==>
          Route(s, t, f, Via(g, s, l, t)) in routes)
  }

  /** What the code installs for one computed weight. */
  function Installed(m: map<Face, nat>, s: nat, t: nat, w: Weight): set<Route> {
    if w.face.Some? && t != s && w.face.value in m && m[w.face.value] != DISABLED
    then {Route(s, t, w.face.value, w.cost)} else {}
  }

  lemma OverFaceNext(g: Graph, s: nat, table: seq<Face>, f: Face, d: seq<Weight>, t: nat, routes: set<Route>)
    requires TableOf(g, s, table) && f in table && t < |g.links|
    requires Shortest(Enabled(g, table, f), s, d)
    requires OverFace(g, s, f, t, routes)
    ensures t < |d| && (d[t].face.Some? && t != s ==> d[t].face.value in g.metric)
    ensures OverFace(g, s, f, t + 1, routes + Installed(Enabled(g, table, f).metric, s, t, d[t]))
  {
    hide Shortest;
    ShortestLength(Enabled(g, table, f), s, d);
    if t != s {
      EnabledOutcome(g, s, table, f, d, t);
      var more := Installed(Enabled(g, table, f).metric, s, t, d[t]);
      forall l | Wins(g, s, l, f, t)
        ensures Route(s, t, f, Via(g, s, l, t)) in more
      {
        CheapFaceIsUsable(g, s, l, f, t);
      }
      forall r | r in more
        ensures GoodVia(g, s, r) && r.face == f
      {
      }
    }
  }

  lemma CheapFaceIsUsable(g: Graph, s: nat, l: Incidency, f: Face, t: nat)
    requires Wins(g, s, l, f, t)
    ensures f in g.metric && Narrow(g.metric[f]) < DISABLED
  {
  }

  lemma OverFaceStarts(g: Graph, s: nat, f: Face)
    requires s < |g.links|
    ensures OverFace(g, s, f, 0, {})
  {
  }

  /** All routes of `s` over one face, while only that face is enabled. */
  method RoutesOverFace(net: Network, ghost g: Graph, s: nat, ghost table: seq<Face>, ghost f: Face)
    returns (routes: set<Route>)
    requires TableOf(g, s, table) && f in table && ValidGraph(net.State())
    requires net.State() == Enabled(g, table, f) && |net.links| == |g.links| && s < |net.links|
    ensures OverFace(g, s, f, |g.links|, routes)
  {
    hide *;
    routes := {};
    OverFaceStarts(g, s, f);
    MetricKeys(g, table, f);
    StateOf(net);
    var distances := Dijkstra(net.State(), s);
    ShortestLength(net.State(), s, distances);
    for t: nat := 0 to |distances|
      invariant OverFace(g, s, f, t, routes)
    {
      OverFaceNext(g, s, table, f, distances, t, routes);
      InstalledIs(net.metric, s, t, distances[t]);
      var more: set<Route> := {};
      if t != s && distances[t].face.Some? {
        var face := distances[t].face.value;
        if net.metric[face] != DISABLED {
          more := {Route(s, t, face, distances[t].cost)};
        }
      }
      routes := routes + more;
    }
  }

  lemma MetricKeys(g: Graph, table: seq<Face>, f: Face)
    ensures Enabled(g, table, f).metric.Keys == g.metric.Keys
  {
  }

  lemma InstalledIs(m: map<Face, nat>, s: nat, t: nat, w: Weight)
    ensures Installed(m, s, t, w) ==
            if w.face.Some? && t != s && w.face.value in m && m[w.face.value] != DISABLED
            then {Route(s, t, w.face.value, w.cost)} else {}
  {
  }

  lemma StateOf(net: Network)
    ensures net.State() == Graph(net.links, net.metric)
    ensures |net.State().links| == |net.links|
  {
  }

  /** The metrics with the first `k` faces of the table disabled. */
  function QuietUpTo(g: Graph, table: seq<Face>, k: nat): map<Face, nat>
    requires k <= |table|
  {
    map x | x in g.metric :: if x in table[..k] then DISABLED else g.metric[x]
  }

  /** The 16-bit metrics remembered for the first `k` faces. */
  function Remembered(g: Graph, table: seq<Face>, k: nat): map<Face, nat>
    requires k <= |table|
  {
    map x | x in g.metric && x in table[..k] :: Narrow(g.metric[x])
  }

  /** The metrics with the first `k` faces restored, narrowed to 16 bits, the others disabled. */
  function RestoredUpTo(g: Graph, table: seq<Face>, k: nat): map<Face, nat>
    requires k <= |table|
  {
    map x | x in g.metric ::
      if x in table[..k] then Narrow(g.metric[x]) else if x in table then DISABLED else g.metric[x]
  }

  /** All metrics of the table's faces narrowed to 16 bits. */
  function Narrowed(g: Graph, table: seq<Face>): map<Face, nat> {
    map x | x in g.metric :: if x in table then Narrow(g.metric[x]) else g.metric[x]
  }

  lemma QuietNext(g: Graph, s: nat, table: seq<Face>, k: nat)
    requires TableOf(g, s, table) && k < |table|
    ensures table[k] in QuietUpTo(g, table, k) && QuietUpTo(g, table, k)[table[k]] == g.metric[table[k]]
    ensures QuietUpTo(g, table, k + 1) == QuietUpTo(g, table, k)[table[k] := DISABLED]
    ensures Remembered(g, table, k + 1) == Remembered(g, table, k)[table[k] := Narrow(g.metric[table[k]])]
  {
    PrefixNext(table, k);
    assert table[k] !in table[..k];
  }

  lemma PrefixNext(table: seq<Face>, k: nat)
    requires k < |table|
    ensures forall x :: x in table[..k + 1] <==> x in table[..k] || x == table[k]
  {
    assert table[..k + 1] == table[..k] + [table[k]];
  }

  lemma QuietEnds(g: Graph, table: seq<Face>)
    ensures QuietUpTo(g, table, 0) == g.metric && Remembered(g, table, 0) == map[]
    ensures RestoredUpTo(g, table, 0) == QuietUpTo(g, table, |table|)
    ensures RestoredUpTo(g, table, |table|) == Narrowed(g, table)
  {
    assert table[..|table|] == table;
  }

  lemma RestoreNext(g: Graph, s: nat, table: seq<Face>, k: nat)
    requires TableOf(g, s, table) && k < |table|
    ensures table[k] in Remembered(g, table, |table|) && table[k] in RestoredUpTo(g, table, k)
    ensures RestoredUpTo(g, table, k + 1) ==
            RestoredUpTo(g, table, k)[table[k] := Remembered(g, table, |table|)[table[k]]]
  {
    PrefixNext(table, k);
    assert table[..|table|] == table;
  }

  lemma EnabledIsQuiet(g: Graph, s: nat, table: seq<Face>, f: Face)
    requires TableOf(g, s, table) && f in table && ValidGraph(g)
    ensures f in QuietUpTo(g, table, |table|) && f in Remembered(g, table, |table|)
    ensures Enabled(g, table, f) == Graph(g.links, QuietUpTo(g, table, |table|)[f := Remembered(g, table, |table|)[f]])
    ensures Enabled(g, table, f).metric[f := DISABLED] == QuietUpTo(g, table, |table|)
    ensures ValidGraph(Enabled(g, table, f))
  {
    assert table[..|table|] == table;
    forall t, i | 0 <= t < |g.links| && 0 <= i < |g.links[t]|
      ensures ValidLink(Enabled(g, table, f), g.links[t][i])
    {
      assert ValidLink(g, g.links[t][i]);
    }
  }

  /** Remembers the metrics of all faces of the table and disables them. */
  method DisableAll(net: Network, ghost g: Graph, ghost s: nat, table: seq<Face>) returns (original: map<Face, nat>)
    requires TableOf(g, s, table) && g == net.State()
    modifies net
    ensures net.metric == QuietUpTo(g, table, |table|) && original == Remembered(g, table, |table|)
  {
    hide *;
    StateOf(net);
    original := map[];
    QuietEnds(g, table);
    for k := 0 to |table|
      invariant net.metric == QuietUpTo(g, table, k) && original == Remembered(g, table, k)
    {
      QuietNext(g, s, table, k);
      original := original[table[k] := Narrow(net.metric[table[k]])];
      net.SetMetric(table[k], DISABLED);
    }
  }

  /** Gives every face of the table its remembered metric. */
  method RestoreAll(net: Network, ghost g: Graph, ghost s: nat, table: seq<Face>, original: map<Face, nat>)
    requires TableOf(g, s, table)
    requires net.metric == QuietUpTo(g, table, |table|) && original == Remembered(g, table, |table|)
    modifies net
    ensures net.metric == Narrowed(g, table)
  {
    hide *;
    QuietEnds(g, table);
    for k := 0 to |table|
      invariant net.metric == RestoredUpTo(g, table, k)
    {
      RestoreNext(g, s, table, k);
      net.SetMetric(table[k], original[table[k]]);
    }
  }

  /** The routes of `s` over the given faces: nothing but good routes, and every route over a
      winning path. */
  ghost predicate RoutesOver(g: Graph, s: nat, faces: set<Face>, routes: set<Route>) {
    && s < |g.links|
    && (forall r :: r in routes ==> GoodVia(g, s, r) && r.face in faces)
    && (forall l, f: Face, t: nat {:trigger Wins(g, s, l, f, t)} ::
          f in faces && t < |g.links| && t != s && Wins(g, s, l, f, t) ==>
          Route(s, t, f, Via(g, s, l, t)) in routes)
  }

  lemma RoutesOverNext(g: Graph, s: nat, faces: set<Face>, routes: set<Route>, f: Face, more: set<Route>)
    requires RoutesOver(g, s, faces, routes) && OverFace(g, s, f, |g.links|, more)
    ensures RoutesOver(g, s, faces + {f}, routes + more)
  {
    hide GoodVia, Wins, Via;
  }

  lemma RoutesOverNone(g: Graph, s: nat)
    requires s < |g.links|
    ensures RoutesOver(g, s, {}, {})
  {
  }

  function DeviceFaces(table: seq<Face>, device: set<Face>, k: nat): set<Face>
    requires k <= |table|
  {
    set f | f in table[..k] && f in device
  }

  lemma DeviceFacesNext(table: seq<Face>, device: set<Face>, k: nat)
    requires k < |table|
    ensures DeviceFaces(table, device, 0) == {}
    ensures DeviceFaces(table, device, k + 1) ==
            DeviceFaces(table, device, k) + (if table[k] in device then {table[k]} else {})
  {
    PrefixNext(table, k);
  }

  lemma DeviceFacesNone(table: seq<Face>, device: set<Face>)
    ensures DeviceFaces(table, device, 0) == {}
  {
  }

  lemma TableFacts(g: Graph, s: nat, table: seq<Face>)
    requires TableOf(g, s, table)
    ensures s < |g.links|
  {
  }

  /** All routes of one node: each net-device face is enabled in turn while all other faces
      of the node are disabled. */
  method RoutesFrom(net: Network, ghost g: Graph, s: nat, table: seq<Face>, device: set<Face>)
    returns (routes: set<Route>)
    requires g == net.State() && ValidGraph(g) && TableOf(g, s, table)
    modifies net
    ensures RoutesOver(g, s, DeviceFaces(table, device, |table|), routes)
    ensures net.metric == Narrowed(g, table)
  {
    hide *;
    StateOf(net);
    TableFacts(g, s, table);
    var original := DisableAll(net, g, s, table);
    routes := {};
    RoutesOverNone(g, s);
    DeviceFacesNone(table, device);
    for k := 0 to |table|
      invariant net.metric == QuietUpTo(g, table, |table|)
      invariant RoutesOver(g, s, DeviceFaces(table, device, k), routes)
    {
      var faceId := table[k];
      DeviceFacesNext(table, device, k);
      if faceId in device {
        EnabledIsQuiet(g, s, table, faceId);
        net.SetMetric(faceId, original[faceId]);
        StateOf(net);
        var more := RoutesOverFace(net, g, s, table, faceId);
        RoutesOverNext(g, s, DeviceFaces(table, device, k), routes, faceId, more);
        routes := routes + more;
        net.SetMetric(faceId, DISABLED);
      } else {
        assert DeviceFaces(table, device, k + 1) == DeviceFaces(table, device, k);
      }
    }
    RestoreAll(net, g, s, table, original);
  }

  /** The metrics after the nodes below `n`: their faces' metrics narrowed to 16 bits. */
  ghost predicate NarrowedBelow(g: Graph, tables: seq<seq<Face>>, n: nat, m: map<Face, nat>)
    requires n <= |tables|
  {
    && m.Keys == g.metric.Keys
    && forall f :: f in m ==> m[f] == if InTables(tables, n, f) then Narrow(g.metric[f]) else g.metric[f]
  }

  predicate InTables(tables: seq<seq<Face>>, n: nat, f: Face)
    requires n <= |tables|
  {
    exists s :: 0 <= s < n && f in tables[s]
  }

  ghost predicate Tables(g: Graph, nodes: nat, tables: seq<seq<Face>>) {
    && ValidGraph(g) && |tables| == nodes <= |g.links|
    && forall s: nat {:trigger tables[s]} :: s < nodes ==> TableOf(g, s, tables[s])
  }

  lemma TableAt(g: Graph, nodes: nat, tables: seq<seq<Face>>, n: nat, h: Graph)
    requires Tables(g, nodes, tables) && n < nodes
    requires h.links == g.links && NarrowedBelow(g, tables, n, h.metric)
    ensures TableOf(h, n, tables[n]) && ValidGraph(h)
    ensures NarrowedBelow(g, tables, n + 1, Narrowed(h, tables[n]))
  {
    var table := tables[n];
    assert forall e :: IsEdge(h, e) <==> IsEdge(g, e);
    forall t, i | 0 <= t < |g.links| && 0 <= i < |g.links[t]|
      ensures ValidLink(h, g.links[t][i])
    {
      assert ValidLink(g, g.links[t][i]);
    }
    forall f | f in g.metric
      ensures Narrowed(h, table)[f] == if InTables(tables, n + 1, f) then Narrow(g.metric[f]) else g.metric[f]
    {
      if f in table {
        assert f in tables[n];
      } else if InTables(tables, n + 1, f) {
        var s :| 0 <= s < n + 1 && f in tables[s];
        assert InTables(tables, n, f);
      }
    }
  }

  ghost predicate SameNarrow(g: Graph, h: Graph) {
    && h.links == g.links && h.metric.Keys == g.metric.Keys
    && forall f :: f in g.metric ==> Narrow(h.metric[f]) == Narrow(g.metric[f])
  }

  lemma SameVia(g: Graph, h: Graph, s: nat, l: Incidency, f: Face, t: nat)
    requires SameNarrow(g, h) && s < |g.links|
    ensures IsLinkOf(g, s, l, f) <==> IsLinkOf(h, s, l, f)
    ensures IsLinkOf(g, s, l, f) ==> Via(g, s, l, t) == Via(h, s, l, t)
  {
    if IsLinkOf(g, s, l, f) {
      SameWeightsSameDist(Without(g, s), Without(h, s), l.target, t);
    }
  }

  lemma SameWins(g: Graph, h: Graph, s: nat, l: Incidency, f: Face, t: nat)
    requires SameNarrow(g, h) && s < |g.links| && Wins(g, s, l, f, t)
    ensures Wins(h, s, l, f, t)
  {
    SameVia(g, h, s, l, f, t);
    if Via(g, s, l, t) == DISABLED {
      forall o {:trigger Edge(s, o)} | IsEdge(h, Edge(s, o)) && o != l
        ensures Dist(Without(h, s), o.target, t) > 0
      {
        SameWeightsSameDist(Without(g, s), Without(h, s), o.target, t);
      }
    }
  }

  /** Narrowing metrics changes neither weights nor costs. */
  lemma NarrowingKeepsRoutes(g: Graph, h: Graph, s: nat, faces: set<Face>, routes: set<Route>)
    requires SameNarrow(g, h) && RoutesOver(h, s, faces, routes)
    ensures RoutesOver(g, s, faces, routes)
  {
    forall r | r in routes
      ensures GoodVia(g, s, r)
    {
      assert GoodVia(h, s, r);
      var l :| IsLinkOf(h, s, l, r.face) && r.cost == Via(h, s, l, r.origin) <= DISABLED;
      SameVia(g, h, s, l, r.face, r.origin);
    }
    forall l, f: Face, t: nat {:trigger Wins(g, s, l, f, t)} |
      f in faces && t < |g.links| && t != s && Wins(g, s, l, f, t)
      ensures Route(s, t, f, Via(g, s, l, t)) in routes
    {
      SameWins(g, h, s, l, f, t);
      SameVia(g, h, s, l, f, t);
    }
  }

  /** The routes installed at the nodes below `n`. */
  ghost predicate RoutesBelow(g: Graph, tables: seq<seq<Face>>, device: set<Face>, n: nat, routes: set<Route>)
    requires n <= |tables|
  {
    && (forall r :: r in routes ==> r.node < n)
    && forall s: nat {:trigger tables[s]} :: s < n ==>
         RoutesOver(g, s, DeviceFaces(tables[s], device, |tables[s]|), RoutesAt(routes, s))
  }

  function RoutesAt(routes: set<Route>, s: nat): set<Route> {
    set r | r in routes && r.node == s
  }

  lemma RoutesBelowNext(g: Graph, tables: seq<seq<Face>>, device: set<Face>, n: nat, routes: set<Route>,
                        more: set<Route>)
    requires n < |tables| && RoutesBelow(g, tables, device, n, routes)
    requires RoutesOver(g, n, DeviceFaces(tables[n], device, |tables[n]|), more)
    ensures RoutesBelow(g, tables, device, n + 1, routes + more)
  {
    assert forall r :: r in more ==> GoodVia(g, n, r);
    hide RoutesOver, GoodVia, DeviceFaces;
    assert RoutesAt(routes + more, n) == more;
    forall s: nat | s < n
      ensures RoutesAt(routes + more, s) == RoutesAt(routes, s)
    {
    }
  }

  lemma RoutesBelowNone(g: Graph, tables: seq<seq<Face>>, device: set<Face>)
    ensures RoutesBelow(g, tables, device, 0, {})
  {
  }

  lemma NarrowedIsSame(g: Graph, tables: seq<seq<Face>>, n: nat, m: map<Face, nat>)
    requires n <= |tables| && NarrowedBelow(g, tables, n, m)
    ensures SameNarrow(g, Graph(g.links, m))
  {
  }

  lemma NarrowedNone(g: Graph, tables: seq<seq<Face>>)
    ensures NarrowedBelow(g, tables, 0, g.metric)
  {
  }

  lemma TablesLength(g: Graph, nodes: nat, tables: seq<seq<Face>>)
    requires Tables(g, nodes, tables)
    ensures |tables| == nodes
  {
  }

  /** Exactly when every face metric is back at the end: the metrics fit 16 bits. */
  lemma RestoredIffNarrow(g: Graph, tables: seq<seq<Face>>, m: map<Face, nat>)
    requires NarrowedBelow(g, tables, |tables|, m)
    ensures m == g.metric <==> forall f :: f in g.metric && InTables(tables, |tables|, f) ==> g.metric[f] < 65536
  {
  }

  /** The calculation of all possible routes for every node. */
  method CalculateAllPossibleRoutes(net: Network, nodes: nat, tables: seq<seq<Face>>, device: set<Face>, ghost g: Graph)
    returns (routes: set<Route>)
    requires g == net.State() && Tables(g, nodes, tables)
    modifies net
    ensures |tables| == nodes && RoutesBelow(g, tables, device, nodes, routes)
    ensures net.metric == g.metric <==> forall f :: f in g.metric && InTables(tables, nodes, f) ==> g.metric[f] < 65536
  {
    hide *;
    TablesLength(g, nodes, tables);
    StateOf(net);
    NarrowedNone(g, tables);
    RoutesBelowNone(g, tables, device);
    routes := {};
    for s: nat := 0 to nodes
      invariant NarrowedBelow(g, tables, s, net.metric)
      invariant RoutesBelow(g, tables, device, s, routes)
    {
      StateOf(net);
      ghost var h := net.State();
      TableAt(g, nodes, tables, s, h);
      NarrowedIsSame(g, tables, s, net.metric);
      var more := RoutesFrom(net, h, s, tables[s], device);
      NarrowingKeepsRoutes(g, h, s, DeviceFaces(tables[s], device, |tables[s]|), more);
      RoutesBelowNext(g, tables, device, s, routes, more);
      routes := routes + more;
    }
    RestoredIffNarrow(g, tables, net.metric);
  }
}
