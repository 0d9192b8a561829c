/** The Rocketfuel map reader: its graph, changed in place from the parsed links to the final
    topology. One order of the nodes governs the loops over nodes and neighbours. */
module RocketfuelMaps {
  import opened Digraph
  import opened Components
  import opened NodeRanks
  import opened RankRounds
  import opened DocumentedRanks

  ghost predicate WellFormed(nodes: set<nat>, g: set<Arc>, r: Ranks) {
    Undirected(nodes, g) && r.Keys == nodes
  }

  /** What a reading went through: the nodes kept at first, their ranks, and the links after
      the backbone was joined. */
  datatype Stages = Stages(core: set<nat>, ranks: Ranks, joined: set<Arc>)

  ghost predicate KeepsIf(keep: bool, nodes: set<nat>, g: set<Arc>, kept: set<nat>) {
    if keep then IsBiggestComponent(nodes, g, kept) else kept == nodes
  }

  /** The new links join each component of the backbone to the one numbered before it. */
  ghost predicate InARow(before: set<Arc>, after: set<Arc>, comp: map<nat, nat>) {
    forall a :: a in after && a !in before ==>
      a.0 in comp && a.1 in comp && (comp[a.0] == comp[a.1] + 1 || comp[a.1] == comp[a.0] + 1)
  }

  /** Links were added between backbone nodes only, from component to component in a row: one
      fewer than the backbone had components. */
  ghost predicate JoinsBackbone(before: set<Arc>, after: set<Arc>, r: Ranks) {
    var b := BackboneOf(r);
    var k := ComponentCount(b, Within(before, b));
    && before <= after && (forall a :: a in after && a !in before ==> a.0 in b && a.1 in b)
    && |after| == |before| + (if k > 0 then 2 * (k - 1) else 0)
    && exists comp, num :: IsLabelling(b, Within(before, b), comp, num) && InARow(before, after, comp)
  }

  /** The steps from the parsed map to the final topology. */
  ghost predicate IsReading(keep: bool, connect: bool, order: seq<nat>, nodes: set<nat>, parsed: set<Arc>, k: int,
                            s: Stages, kept: set<nat>, g: set<Arc>, r: Ranks) {
    && KeepsIf(keep, nodes, parsed, s.core)
    && s.ranks == RanksOf(Within(parsed, s.core), order, s.core, k)
    && (if connect then JoinsBackbone(Within(parsed, s.core), s.joined, s.ranks)
        else s.joined == Within(parsed, s.core))
    && Undirected(s.core, s.joined) && KeepsIf(keep, s.core, Filtered(s.joined, s.ranks), kept)
    && g == Within(Filtered(s.joined, s.ranks), kept) && r == Restricted(s.ranks, kept)
  }

  /** What is kept is one whole component, and no component is larger. */
  ghost predicate IsBiggestComponent(nodes: set<nat>, g: set<Arc>, kept: set<nat>) {
    && kept <= nodes && Closed(g, kept)
    && (nodes != {} ==> kept != {})
    && (forall u, v :: u in kept && v in kept ==> Reaches(g, u, v))
    && (forall u :: u in nodes ==> |ComponentOf(nodes, g, u)| <= |kept|)
  }

  function Restricted(r: Ranks, s: set<nat>): Ranks {
    map x | x in r && x in s :: r[x]
  }

  ghost predicate SizesOf(sizes: seq<nat>, comp: map<nat, nat>, done: set<nat>) {
    forall i :: 0 <= i < |sizes| ==> sizes[i] == |LabelClass(comp, i) * done|
  }

  lemma CountOne(sizes: seq<nat>, comp: map<nat, nat>, done: set<nat>, v: nat)
    requires SizesOf(sizes, comp, done) && v in comp && v !in done && comp[v] < |sizes|
    ensures SizesOf(sizes[comp[v] := sizes[comp[v]] + 1], comp, done + {v})
  {
    var more := sizes[comp[v] := sizes[comp[v]] + 1];
    forall i | 0 <= i < |more|
      ensures more[i] == |LabelClass(comp, i) * (done + {v})|
    {
      if i == comp[v] {
        assert LabelClass(comp, i) * (done + {v}) == LabelClass(comp, i) * done + {v};
      } else {
        assert LabelClass(comp, i) * (done + {v}) == LabelClass(comp, i) * done;
      }
    }
  }

  /** The position of the first largest size, or zero when there is none. */
  method LargestIndex(sizes: seq<nat>) returns (k: nat)
    ensures sizes == [] ==> k == 0
    ensures sizes != [] ==> k < |sizes| && forall i :: 0 <= i < |sizes| ==> sizes[i] <= sizes[k]
  {
    k := 0;
    for i := 0 to |sizes|
      invariant sizes != [] ==> k < |sizes|
      invariant sizes == [] ==> k == 0
      invariant forall j :: 0 <= j < i ==> sizes[j] <= sizes[k]
    {
      if sizes[k] < sizes[i] {
        k := i;
      }
    }
  }

  lemma ClassIsComponent(nodes: set<nat>, g: set<Arc>, comp: map<nat, nat>, num: nat, u: nat)
    requires IsLabelling(nodes, g, comp, num) && u in nodes
    ensures ComponentOf(nodes, g, u) == LabelClass(comp, comp[u])
  {
    hide Reaches;
  }

  lemma LargestIsBiggest(nodes: set<nat>, g: set<Arc>, comp: map<nat, nat>, num: nat, sizes: seq<nat>, k: nat)
    requires Undirected(nodes, g) && IsLabelling(nodes, g, comp, num)
    requires |sizes| == num && SizesOf(sizes, comp, nodes)
    requires num > 0 ==> k < num && forall i :: 0 <= i < num ==> sizes[i] <= sizes[k]
    ensures IsBiggestComponent(nodes, g, LabelClass(comp, k))
  {
    hide Reaches, Undirected;
    var kept := LabelClass(comp, k);
    assert kept * nodes == kept;
    if u: nat :| u in nodes {
      assert comp[u] < num;
      assert k in comp.Values;
      var v :| v in comp && comp[v] == k;
      assert v in kept;
    }
    forall u | u in nodes
      ensures |ComponentOf(nodes, g, u)| <= |kept|
    {
      ClassIsComponent(nodes, g, comp, num, u);
      assert LabelClass(comp, comp[u]) * nodes == LabelClass(comp, comp[u]);
      assert sizes[comp[u]] <= sizes[k];
    }
    forall a | a in g && a.0 in kept
      ensures a.1 in kept
    {
      ArcInside(nodes, g, a);
      ReachesArc(g, a.0, a.1);
    }
  }

  lemma ArcInside(nodes: set<nat>, g: set<Arc>, a: Arc)
    requires Undirected(nodes, g) && a in g
    ensures a.0 in nodes && a.1 in nodes && (a.1, a.0) in g && HasArc(g, a.0, a.1)
  {
    assert HasArc(g, a.0, a.1);
    assert HasArc(g, a.1, a.0);
  }

  lemma BiggestIsConnected(nodes: set<nat>, g: set<Arc>, kept: set<nat>)
    requires IsBiggestComponent(nodes, g, kept)
    ensures Connected(kept, Within(g, kept))
  {
    forall u, v | u in kept && v in kept
      ensures Reaches(Within(g, kept), u, v)
    {
      ReachesWithin(g, kept, u, v);
    }
  }

  lemma WithinIsWellFormed(nodes: set<nat>, g: set<Arc>, r: Ranks, s: set<nat>)
    requires WellFormed(nodes, g, r) && s <= nodes
    ensures WellFormed(s, Within(g, s), Restricted(r, s))
  {
    forall u, v | HasArc(Within(g, s), u, v)
      ensures HasArc(Within(g, s), v, u) && u in s && v in s
    {
      assert HasArc(g, u, v);
    }
  }

  lemma FilterIsWellFormed(nodes: set<nat>, g: set<Arc>, r: Ranks)
    requires WellFormed(nodes, g, r)
    ensures WellFormed(nodes, Filtered(g, r), r)
  {
    forall u, v | HasArc(Filtered(g, r), u, v)
      ensures HasArc(Filtered(g, r), v, u) && u in nodes && v in nodes
    {
      assert HasArc(g, u, v);
    }
  }

  /** Components 0 to `i` of the backbone are joined; `g` only gained the links that join them. */
  ghost predicate Joined(b: set<nat>, before: set<Arc>, g: set<Arc>, comp: map<nat, nat>, i: nat) {
    && comp.Keys == b && before <= g && |g| == |before| + 2 * i
    && (forall a :: a in g && a !in before ==>
          && a.0 in b && a.1 in b && comp[a.0] <= i && comp[a.1] <= i
          && (comp[a.0] == comp[a.1] + 1 || comp[a.1] == comp[a.0] + 1))
    && (forall u, v :: u in b && v in b && comp[u] <= i && comp[v] <= i ==> Reaches(Within(g, b), u, v))
  }

  lemma NothingJoined(b: set<nat>, before: set<Arc>, comp: map<nat, nat>, num: nat)
    requires IsLabelling(b, Within(before, b), comp, num)
    ensures Joined(b, before, before, comp, 0)
  {
    hide Reaches;
  }

  lemma JoinedReaches(b: set<nat>, before: set<Arc>, g: set<Arc>, more: set<Arc>, comp: map<nat, nat>, num: nat,
                      i: nat, v1: nat, v2: nat, u: nat, v: nat)
    requires IsLabelling(b, Within(before, b), comp, num) && Joined(b, before, g, comp, i)
    requires v1 in b && v2 in b && comp[v1] == i && comp[v2] == i + 1
    requires more == g + {(v1, v2), (v2, v1)}
    requires u in b && v in b && comp[u] <= i + 1 && comp[v] <= i + 1
    ensures Reaches(Within(more, b), u, v)
  {
    hide Reaches;
    var m := Within(more, b);
    assert Within(before, b) <= m && Within(g, b) <= m;
    forall x, y | x in b && y in b && (comp[x] == comp[y] || (comp[x] <= i && comp[y] <= i))
      ensures Reaches(m, x, y)
    {
      if comp[x] == comp[y] {
        ReachesMonotone(Within(before, b), m, x, y);
      } else {
        ReachesMonotone(Within(g, b), m, x, y);
      }
    }
    ReachesArc(m, v1, v2);
    ReachesArc(m, v2, v1);
    if comp[u] <= i && comp[v] == i + 1 {
      ReachesTransitive(m, u, v1, v2);
      ReachesTransitive(m, u, v2, v);
    } else if comp[v] <= i && comp[u] == i + 1 {
      ReachesTransitive(m, u, v2, v1);
      ReachesTransitive(m, u, v1, v);
    }
  }

  lemma JoinedArc(b: set<nat>, before: set<Arc>, g: set<Arc>, comp: map<nat, nat>, num: nat, i: nat, a: Arc)
    requires IsLabelling(b, Within(before, b), comp, num) && Joined(b, before, g, comp, i)
    requires a in g && a.0 in b && a.1 in b
    ensures comp[a.0] == comp[a.1] || (comp[a.0] <= i && comp[a.1] <= i)
  {
    if a in before {
      ReachesArc(Within(before, b), a.0, a.1);
    }
  }

  /** One more link joins the next component. */
  lemma JoinNext(b: set<nat>, before: set<Arc>, g: set<Arc>, comp: map<nat, nat>, num: nat, i: nat, v1: nat, v2: nat)
    requires IsLabelling(b, Within(before, b), comp, num) && Joined(b, before, g, comp, i)
    requires v1 in b && v2 in b && comp[v1] == i && comp[v2] == i + 1
    ensures Joined(b, before, g + {(v1, v2), (v2, v1)}, comp, i + 1)
  {
    hide Reaches;
    var more := g + {(v1, v2), (v2, v1)};
    forall u, v | u in b && v in b && comp[u] <= i + 1 && comp[v] <= i + 1
      ensures Reaches(Within(more, b), u, v)
    {
      JoinedReaches(b, before, g, more, comp, num, i, v1, v2, u, v);
    }
    forall a | a in g && a.0 in b && a.1 in b
      ensures comp[a.0] == comp[a.1] || (comp[a.0] <= i && comp[a.1] <= i)
    {
      JoinedArc(b, before, g, comp, num, i, a);
    }
    assert |more| == |g| + 2;
  }

  lemma LinkIsWellFormed(nodes: set<nat>, g: set<Arc>, r: Ranks, v1: nat, v2: nat)
    requires WellFormed(nodes, g, r) && v1 in nodes && v2 in nodes
    ensures WellFormed(nodes, g + {(v1, v2), (v2, v1)}, r)
  {
    var more := g + {(v1, v2), (v2, v1)};
    forall u, v | HasArc(more, u, v)
      ensures HasArc(more, v, u) && u in nodes && v in nodes
    {
      if (u, v) in g {
        assert HasArc(g, u, v);
        assert HasArc(g, v, u);
      }
    }
  }

  /** The final topology as the reader documents it, with only the allowed links. */
  ghost predicate IsTopology(parsed: set<Arc>, g: set<Arc>, r: Ranks, k: int) {
    && IsRanked(parsed, g, r, k)
    && (forall u, v :: HasArc(g, u, v) ==> u in r && v in r && Allowed(r[u], r[v]))
  }

  /** In a final topology only a node beyond two clients departs from the header: as backbone
      although it borders a client. */
  lemma GatewaysAsDocumented(parsed: set<Arc>, g: set<Arc>, r: Ranks, k: int, x: nat)
    requires IsTopology(parsed, g, r, k) && x in r
    ensures AsDocumented(parsed, r, k, x) <==> !(r[x] == BACKBONE && BordersClient(parsed, x, k))
    ensures !AsDocumented(parsed, r, k, x) ==> Beyond(parsed, x, k) && !ClientDegree(parsed, x, k)
  {
    hide IsRanked, Beyond, BordersClient, AsDocumented, ClientDegree;
    RankedAsDocumented(parsed, g, r, k, x);
  }

  lemma WholeArcs(nodes: set<nat>, parsed: set<Arc>, s: set<nat>, x: nat, y: nat)
    requires Undirected(nodes, parsed) && Closed(parsed, s) && x in s
    ensures HasArc(Within(parsed, s), x, y) <==> HasArc(parsed, x, y)
    ensures HasArc(parsed, x, y) ==> y in s && Degree(Within(parsed, s), y) == Degree(parsed, y)
  {
    hide Degree;
    if HasArc(parsed, x, y) {
      assert (x, y).1 in s;
      WholeDegrees(nodes, parsed, s, y);
    }
  }

  lemma BordersWhole(nodes: set<nat>, parsed: set<Arc>, s: set<nat>, x: nat, k: int)
    requires Undirected(nodes, parsed) && Closed(parsed, s) && x in s
    ensures BordersClient(Within(parsed, s), x, k) <==> BordersClient(parsed, x, k)
  {
    hide Degree, HasArc, Within, Undirected, Closed;
    forall y
      ensures HasArc(Within(parsed, s), x, y) <==> HasArc(parsed, x, y)
      ensures HasArc(parsed, x, y) ==> Degree(Within(parsed, s), y) == Degree(parsed, y)
    {
      WholeArcs(nodes, parsed, s, x, y);
    }
  }

  lemma BeyondWhole(nodes: set<nat>, parsed: set<Arc>, s: set<nat>, x: nat, k: int)
    requires Undirected(nodes, parsed) && Closed(parsed, s) && x in s && Beyond(Within(parsed, s), x, k)
    ensures Beyond(parsed, x, k)
  {
    hide Degree, HasArc, Within, Undirected, Closed, NoSmaller;
    var y, z :| IsBeyond(Within(parsed, s), x, y, z, k);
    WholeArcs(nodes, parsed, s, x, y);
    WholeArcs(nodes, parsed, s, y, z);
    NoSmallerWhole(nodes, parsed, s, x, Degree(parsed, y));
    NoSmallerWhole(nodes, parsed, s, y, Degree(parsed, y));
    BeyondBy(parsed, x, y, z, k);
  }

  lemma NoSmallerWhole(nodes: set<nat>, parsed: set<Arc>, s: set<nat>, x: nat, d: nat)
    requires Undirected(nodes, parsed) && Closed(parsed, s) && x in s && NoSmaller(Within(parsed, s), x, d)
    ensures NoSmaller(parsed, x, d)
  {
    hide Degree, HasArc, Within, Undirected, Closed;
    forall w | HasArc(parsed, x, w)
      ensures Degree(parsed, w) >= d
    {
      WholeArcs(nodes, parsed, s, x, w);
    }
  }

  lemma RankedWhole(nodes: set<nat>, parsed: set<Arc>, s: set<nat>, r: Ranks, k: int)
    requires Undirected(nodes, parsed) && Closed(parsed, s) && r.Keys == s
    requires IsRanked(Within(parsed, s), Within(parsed, s), r, k)
    ensures IsRanked(parsed, Within(parsed, s), r, k)
  {
    hide Degree, Serves, Within, BordersClient, Beyond, Closed, Undirected;
    forall x | x in r
      ensures Degree(Within(parsed, s), x) == Degree(parsed, x)
      ensures BordersClient(Within(parsed, s), x, k) <==> BordersClient(parsed, x, k)
      ensures Beyond(Within(parsed, s), x, k) ==> Beyond(parsed, x, k)
    {
      WholeDegrees(nodes, parsed, s, x);
      BordersWhole(nodes, parsed, s, x, k);
      if Beyond(Within(parsed, s), x, k) {
        BeyondWhole(nodes, parsed, s, x, k);
      }
    }
  }

  lemma RankedMore(parsed: set<Arc>, g: set<Arc>, more: set<Arc>, r: Ranks, k: int)
    requires IsRanked(parsed, g, r, k) && g <= more
    ensures IsRanked(parsed, more, r, k)
  {
    hide Degree, BordersClient, Beyond;
    forall x | x in r && r[x] == GATEWAY
      ensures Serves(more, r, x)
    {
      var y :| HasArc(g, x, y) && y in r && r[y] == CLIENT;
      assert HasArc(more, x, y);
    }
  }

  lemma FilteredIsTopology(parsed: set<Arc>, g: set<Arc>, r: Ranks, k: int)
    requires IsRanked(parsed, g, r, k)
    ensures IsTopology(parsed, Filtered(g, r), r, k)
  {
    hide Degree, Serves, BordersClient, Beyond;
    forall x | x in r && r[x] == GATEWAY
      ensures Serves(Filtered(g, r), r, x)
    {
      FilterKeepsServing(g, r, x);
    }
  }

  lemma RestrictedIsTopology(parsed: set<Arc>, g: set<Arc>, r: Ranks, s: set<nat>, k: int)
    requires IsTopology(parsed, g, r, k) && Closed(g, s)
    ensures IsTopology(parsed, Within(g, s), Restricted(r, s), k)
  {
    hide Degree, Serves, BordersClient, Beyond;
    forall x | x in r && x in s && r[x] == GATEWAY
      ensures Serves(Within(g, s), Restricted(r, s), x)
    {
      ComponentKeepsServing(g, r, s, Restricted(r, s), x);
    }
    forall u, v | HasArc(Within(g, s), u, v)
      ensures u in Restricted(r, s) && v in Restricted(r, s) && Allowed(Restricted(r, s)[u], Restricted(r, s)[v])
    {
      assert HasArc(g, u, v);
    }
  }

  lemma UnknownRestricted(r: Ranks, s: set<nat>)
    requires forall x :: x in r ==> r[x] == UNKNOWN
    ensures forall x :: x in Restricted(r, s) ==> Restricted(r, s)[x] == UNKNOWN
  {
  }

  lemma RestrictedBackbone(g: set<Arc>, r: Ranks, s: set<nat>)
    requires BackboneConnected(g, r) && Closed(g, s)
    ensures BackboneConnected(Within(g, s), Restricted(r, s))
  {
    hide BackboneConnected, Closed;
    ComponentKeepsBackbone(g, r, s, Restricted(r, s));
  }

  lemma JoinsMore(before: set<Arc>, after: set<Arc>, r: Ranks)
    requires JoinsBackbone(before, after, r)
    ensures before <= after
  {
  }

  lemma BiggestIsClosed(nodes: set<nat>, g: set<Arc>, kept: set<nat>)
    requires IsBiggestComponent(nodes, g, kept)
    ensures kept <= nodes && Closed(g, kept)
  {
  }

  lemma KeepAll(nodes: set<nat>, g: set<Arc>, r: Ranks)
    requires WellFormed(nodes, g, r)
    ensures Within(g, nodes) == g && Restricted(r, nodes) == r
  {
    forall a | a in g
      ensures a.0 in nodes && a.1 in nodes
    {
      ArcInside(nodes, g, a);
    }
  }

  lemma LabelledAll(nodes: set<nat>, g: set<Arc>, comp: map<nat, nat>, num: nat)
    requires IsLabelling(nodes, g, comp, num)
    ensures comp.Keys == nodes
  {
  }

  lemma DropOne(g: set<Arc>, r: Ranks, nodes: set<nat>, v: nat)
    ensures (set a | a in Within(g, nodes) && a.0 != v && a.1 != v) == Within(g, nodes - {v})
    ensures (map x | x in Restricted(r, nodes) && x != v :: Restricted(r, nodes)[x]) == Restricted(r, nodes - {v})
  {
  }

  /** How many nodes each component has. */
  method CountSizes(nodes: set<nat>, g: set<Arc>, num: nat, comp: map<nat, nat>) returns (sizes: seq<nat>)
    requires IsLabelling(nodes, g, comp, num)
    ensures |sizes| == num && SizesOf(sizes, comp, nodes)
  {
    hide Reaches, SizesOf;
    sizes := seq(num, _ => 0);
    NothingCounted(sizes, comp);
    var todo := nodes;
    assert nodes - todo == {};
    while todo != {}
      invariant todo <= nodes && |sizes| == num && SizesOf(sizes, comp, nodes - todo)
      decreases todo
    {
      var v :| v in todo;
      CountOne(sizes, comp, nodes - todo, v);
      sizes := sizes[comp[v] := sizes[comp[v]] + 1];
      assert nodes - (todo - {v}) == (nodes - todo) + {v};
      todo := todo - {v};
    }
    assert nodes - todo == nodes;
  }

  lemma NothingCounted(sizes: seq<nat>, comp: map<nat, nat>)
    requires forall i :: 0 <= i < |sizes| ==> sizes[i] == 0
    ensures SizesOf(sizes, comp, {})
  {
  }

  lemma NeighboursAreNodes(nodes: set<nat>, g: set<Arc>, v: nat, todo: seq<nat>)
    requires Undirected(nodes, g) && forall u :: u in todo ==> HasArc(g, v, u)
    ensures forall u :: u in todo ==> u in nodes
  {
  }

  lemma LabelInUse(b: set<nat>, g: set<Arc>, comp: map<nat, nat>, num: nat, i: nat)
    requires IsLabelling(b, Within(g, b), comp, num) && i < num
    ensures exists v :: v in b && v in comp && comp[v] == i
  {
    assert i in comp.Values;
    var v :| v in comp && comp[v] == i;
  }

  lemma JoinedAll(b: set<nat>, before: set<Arc>, g: set<Arc>, comp: map<nat, nat>, num: nat, r: Ranks)
    requires b == BackboneOf(r) && IsLabelling(b, Within(before, b), comp, num)
    requires Joined(b, before, g, comp, if num > 0 then num - 1 else 0)
    ensures BackboneConnected(g, r) && JoinsBackbone(before, g, r)
  {
    hide Reaches, ComponentCount, Within;
    LabelsCountComponents(b, Within(before, b), comp, num);
  }

  class RocketfuelMapReader {
    var nodes: set<nat>
    var links: set<Arc>
    var rank: Ranks
    const order: seq<nat>

    constructor (nodes: set<nat>, links: set<Arc>, order: seq<nat>)
      requires Undirected(nodes, links) && Lists(order, nodes)
      ensures this.nodes == nodes && this.links == links && this.order == order && Valid()
      ensures forall x :: x in rank ==> rank[x] == UNKNOWN
    {
      this.nodes, this.links, this.order := nodes, links, order;
      rank := map x | x in nodes :: UNKNOWN;
    }

    ghost predicate Valid()
      reads this
    {
      WellFormed(nodes, links, rank) && Lists(order, nodes)
    }

    /** Removes all but a largest connected component. */
    method KeepOnlyBiggestConnectedComponent()
      requires Valid()
      modifies this
      ensures Valid()
      ensures IsBiggestComponent(old(nodes), old(links), nodes)
      ensures links == Within(old(links), nodes) && rank == Restricted(old(rank), nodes)
    {
      hide Undirected, Closed, Reaches, IsLabelling, SizesOf, IsBiggestComponent, Within, Restricted;
      ghost var all, arcs, ranks := nodes, links, rank;
      var num, comp := ConnectedComponents(nodes, links);
      var sizes := CountSizes(nodes, links, num, comp);
      var largest := LargestIndex(sizes);
      LargestIsBiggest(nodes, links, comp, num, sizes, largest);
      KeepAll(nodes, links, rank);
      LabelledAll(nodes, links, comp, num);
      var todo := nodes;
      while todo != {}
        invariant todo <= all && nodes == LabelClass(comp, largest) + todo
        invariant links == Within(arcs, nodes) && rank == Restricted(ranks, nodes)
        decreases todo
      {
        var v :| v in todo;
        todo := todo - {v};
        if comp[v] != largest {
          DropOne(arcs, ranks, nodes, v);
          links := set a | a in links && a.0 != v && a.1 != v;
          rank := map x | x in rank && x != v :: rank[x];
          nodes := nodes - {v};
        }
      }
      assert nodes == LabelClass(comp, largest);
      WithinIsWellFormed(all, arcs, ranks, nodes);
    }

    /** Ranks the unranked neighbours of a node, and on from those of small degree. */
    method AssignGw(vertex: nat, degree: nat, kind: NodeType)
      requires Valid() && vertex in nodes && kind != UNKNOWN
      modifies this`rank
      ensures Valid() && rank == Visited(links, order, old(rank), degree, kind, Adjacent(links, vertex, order))
      decreases |Unknowns(rank)|
    {
      hide Undirected, Lists, Degree, Adjacent;
      ghost var r := rank;
      var todo := Adjacent(links, vertex, order);
      NeighboursAreNodes(nodes, links, vertex, todo);
      while todo != []
        invariant rank.Keys == nodes && Unknowns(rank) <= Unknowns(r)
        invariant forall u :: u in todo ==> u in nodes
        invariant Visited(links, order, rank, degree, kind, todo) ==
                  Visited(links, order, r, degree, kind, Adjacent(links, vertex, order))
        decreases |todo|
      {
        var u := todo[0];
        if rank[u] == UNKNOWN {
          FewerUnknowns(rank, u, kind);
          SubsetCardinality(Unknowns(rank), Unknowns(r));
          rank := rank[u := kind];
          if Degree(links, u) < degree {
            AssignGw(u, degree, BACKBONE);
          }
        }
        todo := todo[1..];
      }
    }

    /** Ranks the nodes of one degree as clients, and their surroundings. */
    method AssignClients(clientDegree: nat, gwDegree: nat)
      requires Valid()
      modifies this`rank
      ensures Valid() && rank == RoundOf(links, order, old(rank), clientDegree, gwDegree + 1, order)
    {
      hide Undirected, Lists, Degree, Adjacent, Visited;
      ghost var r := rank;
      var todo := order;
      while todo != []
        invariant Valid()
        invariant RoundOf(links, order, rank, clientDegree, gwDegree + 1, todo) ==
                  RoundOf(links, order, r, clientDegree, gwDegree + 1, order)
        decreases |todo|
      {
        var v := todo[0];
        if v in nodes && Degree(links, v) == clientDegree {
          rank := rank[v := CLIENT];
          AssignGw(v, gwDegree + 1, GATEWAY);
        }
        todo := todo[1..];
      }
    }

    /** Clients of every degree up to the limit, and the rest of the nodes as the backbone. */
    method AssignRanks(clientNodeDegrees: int)
      requires Valid() && forall x :: x in rank ==> rank[x] == UNKNOWN
      modifies this`rank
      ensures Valid() && rank == RanksOf(links, order, nodes, clientNodeDegrees)
    {
      hide Undirected, Lists, RoundOf;
      var clientDegree := 1;
      while clientDegree <= clientNodeDegrees
        invariant clientDegree == 1 || clientDegree <= clientNodeDegrees + 1
        invariant clientDegree >= 1 && Valid() && rank == Rounds(links, order, nodes, clientDegree - 1)
      {
        AssignClients(clientDegree, if clientDegree < 3 then clientDegree else 3);
        clientDegree := clientDegree + 1;
      }
      ghost var r := rank;
      var todo := nodes;
      while todo != {}
        invariant rank.Keys == nodes
        invariant forall x :: x in rank ==> rank[x] == if x !in todo && r[x] == UNKNOWN then BACKBONE else r[x]
        decreases todo
      {
        var v :| v in todo;
        todo := todo - {v};
        if rank[v] == UNKNOWN {
          rank := rank[v := BACKBONE];
        }
      }
      assert rank == Filled(r);
    }

    /** Joins the components of the backbone, one after another, by one link each. */
    method ConnectBackboneRouters()
      requires Valid()
      modifies this`links
      ensures Valid() && BackboneConnected(links, rank) && JoinsBackbone(old(links), links, rank)
    {
      hide Undirected, Reaches, IsLabelling, Joined, Within, BackboneConnected, ComponentCount, JoinsBackbone;
      var b := BackboneOf(rank);
      ghost var before := links;
      WithinIsWellFormed(nodes, links, rank, b);
      var num, comp := ConnectedComponents(b, Within(links, b));
      NothingJoined(b, links, comp, num);
      if num == 1 {
        JoinedAll(b, before, links, comp, num, rank);
        return;
      }
      var i := 1;
      while i < num
        invariant 1 <= i && i <= if num > 0 then num else 1
        invariant Valid() && Joined(b, before, links, comp, i - 1)
      {
        LabelInUse(b, before, comp, num, i - 1);
        LabelInUse(b, before, comp, num, i);
        var v1 :| v1 in b && v1 in comp && comp[v1] == i - 1;
        var v2 :| v2 in b && v2 in comp && comp[v2] == i;
        JoinNext(b, before, links, comp, num, i - 1, v1, v2);
        LinkIsWellFormed(nodes, links, rank, v1, v2);
        links := links + {(v1, v2), (v2, v1)};
        i := i + 1;
      }
      JoinedAll(b, before, links, comp, num, rank);
    }

    /** Deletes every link between ranks that must not be linked. */
    method RemoveWrongLinks()
      requires Valid()
      modifies this`links
      ensures Valid() && links == Filtered(old(links), rank)
    {
      hide Undirected;
      ghost var before := links;
      var todo := links;
      while todo != {}
        invariant todo <= links <= before
        invariant forall a :: a in before ==> (a in links <==> a in todo || a in Filtered(before, rank))
        decreases todo
      {
        var e :| e in todo;
        ArcInside(nodes, before, e);
        if !Allowed(rank[e.0], rank[e.1]) {
          links := links - {e, (e.1, e.0)};
        }
        todo := todo - {e, (e.1, e.0)};
      }
      FilterIsWellFormed(nodes, before, rank);
      assert links == Filtered(before, rank);
    }

    /** From the parsed map to the final topology. */
    method Read(clientNodeDegrees: int, keepOneComponent: bool, connectBackbones: bool) returns (ghost s: Stages)
      requires Valid() && forall x :: x in rank ==> rank[x] == UNKNOWN
      modifies this
      ensures Valid()
      ensures IsReading(keepOneComponent, connectBackbones, order, old(nodes), old(links), clientNodeDegrees, s,
                        nodes, links, rank)
      ensures IsTopology(old(links), links, rank, clientNodeDegrees)
      ensures keepOneComponent ==> Connected(nodes, links)
      ensures connectBackbones ==> BackboneConnected(links, rank)
    {
      hide Undirected, Closed, Connected, BackboneConnected, BackboneOf, IsRanked, IsTopology, Filtered, Within,
           Restricted, ComponentCount, IsBiggestComponent, JoinsBackbone, Lists, RanksOf;
      ghost var parsed := links;
      KeepAll(nodes, links, rank);
      if keepOneComponent {
        KeepOnlyBiggestConnectedComponent();
        UnknownRestricted(old(rank), nodes);
      }
      ghost var core := links;
      AssignRanks(clientNodeDegrees);
      RanksAreRanked(nodes, links, order, clientNodeDegrees);
      if keepOneComponent {
        BiggestIsClosed(old(nodes), parsed, nodes);
        RankedWhole(old(nodes), parsed, nodes, rank, clientNodeDegrees);
      }
      if connectBackbones {
        ConnectBackboneRouters();
        JoinsMore(core, links, rank);
        RankedMore(parsed, core, links, rank, clientNodeDegrees);
        FilterKeepsBackbone(links, rank);
      }
      s := Stages(nodes, rank, links);
      FilteredIsTopology(parsed, links, rank, clientNodeDegrees);
      RemoveWrongLinks();
      KeepAll(nodes, links, rank);
      if keepOneComponent {
        ghost var all, kept, ranks := nodes, links, rank;
        KeepOnlyBiggestConnectedComponent();
        BiggestIsClosed(all, kept, nodes);
        BiggestIsConnected(all, kept, nodes);
        RestrictedIsTopology(parsed, kept, ranks, nodes, clientNodeDegrees);
        if connectBackbones {
          RestrictedBackbone(kept, ranks, nodes);
        }
      }
    }
  }
}
