/** Which clients of a map lose their links to the ranking, and which of them the final topology
    drops. */
module ClientLinks {
  import opened Digraph
  import opened Components
  import opened NodeRanks
  import opened RankRounds
  import opened RocketfuelMaps

  ghost predicate HasLink(g: set<Arc>, y: nat) {
    exists w :: HasArc(g, y, w)
  }

  /** A link in the map to a node ranked as gateway. */
  ghost predicate BordersGateway(g: set<Arc>, r: Ranks, y: nat) {
    exists w :: HasArc(g, y, w) && w in r && r[w] == GATEWAY
  }

  /** The joining of the backbone gives a client no link. */
  lemma JoinsNoClient(before: set<Arc>, joined: set<Arc>, r: Ranks, y: nat)
    requires JoinsBackbone(before, joined, r) && y in r && r[y] == CLIENT
    ensures before <= joined && forall w :: HasArc(joined, y, w) <==> HasArc(before, y, w)
  {
    hide ComponentCount;
  }

  /** The filter leaves a client exactly the links to gateways. */
  lemma FilteredClient(before: set<Arc>, joined: set<Arc>, r: Ranks, y: nat, w: nat)
    requires y in r && r[y] == CLIENT && (HasArc(joined, y, w) <==> HasArc(before, y, w))
    ensures HasArc(Filtered(joined, r), y, w) <==> HasArc(before, y, w) && w in r && r[w] == GATEWAY
  {
  }

  /** Of links between ranked nodes exactly those go that have a client at one end and no gateway
      at the other. */
  lemma DeletedIff(g: set<Arc>, r: Ranks, u: nat, v: nat)
    requires HasArc(g, u, v) && u in r && v in r && r[u] != UNKNOWN && r[v] != UNKNOWN
    ensures !HasArc(Filtered(g, r), u, v) <==>
            (r[u] == CLIENT && r[v] != GATEWAY) || (r[v] == CLIENT && r[u] != GATEWAY)
  {
  }

  /** In every reading the filter deletes a link exactly when it leads from a client to no gateway:
      a gateway loses none, and a backbone node only links to clients. */
  lemma LinkIsDeletedIff(keep: bool, connect: bool, order: seq<nat>, nodes: set<nat>, parsed: set<Arc>, k: int,
                         s: Stages, kept: set<nat>, g: set<Arc>, r: Ranks, u: nat, v: nat)
    requires IsReading(keep, connect, order, nodes, parsed, k, s, kept, g, r) && Lists(order, nodes)
    requires Undirected(nodes, parsed) && HasArc(s.joined, u, v)
    ensures u in s.ranks && v in s.ranks
    ensures !HasArc(Filtered(s.joined, s.ranks), u, v) <==>
              || (s.ranks[u] == CLIENT && s.ranks[v] != GATEWAY)
              || (s.ranks[v] == CLIENT && s.ranks[u] != GATEWAY)
    ensures s.ranks[u] == GATEWAY ==> HasArc(Filtered(s.joined, s.ranks), u, v)
    ensures s.ranks[u] == BACKBONE && s.ranks[v] != CLIENT ==> HasArc(Filtered(s.joined, s.ranks), u, v)
    ensures u in kept && HasArc(Filtered(s.joined, s.ranks), u, v) ==> HasArc(g, u, v)
  {
    CoreIsUndirected(keep, nodes, parsed, s.core, order);
    RanksAreRanked(s.core, Within(parsed, s.core), order, k);
    if u in kept && HasArc(Filtered(s.joined, s.ranks), u, v) {
      FilteredStays(keep, s.core, Filtered(s.joined, s.ranks), kept, u, v);
    }
    hide RanksOf, JoinsBackbone, Filtered, Within, KeepsIf, IsBiggestComponent, Serves, Beyond, BordersClient, Degree;
    DeletedIff(s.joined, s.ranks, u, v);
  }

  lemma FilteredStays(keep: bool, nodes: set<nat>, f: set<Arc>, kept: set<nat>, u: nat, v: nat)
    requires KeepsIf(keep, nodes, f, kept) && u in nodes && v in nodes && u in kept && HasArc(f, u, v)
    ensures HasArc(Within(f, kept), u, v)
  {
    hide Reaches;
    assert (u, v) in f;
  }

  lemma CoreIsUndirected(keep: bool, nodes: set<nat>, parsed: set<Arc>, core: set<nat>, order: seq<nat>)
    requires KeepsIf(keep, nodes, parsed, core) && Undirected(nodes, parsed) && Lists(order, nodes)
    ensures Undirected(core, Within(parsed, core)) && Lists(order, core)
  {
    hide Reaches;
    assert core <= nodes;
    forall u, v | HasArc(Within(parsed, core), u, v)
      ensures HasArc(Within(parsed, core), v, u) && u in core && v in core
    {
      assert HasArc(parsed, u, v);
    }
  }

  /** In every reading a client keeps a link exactly when it borders a gateway. */
  lemma ClientKeepsLinkIff(keep: bool, connect: bool, order: seq<nat>, nodes: set<nat>, parsed: set<Arc>, k: int,
                           s: Stages, kept: set<nat>, g: set<Arc>, r: Ranks, y: nat)
    requires IsReading(keep, connect, order, nodes, parsed, k, s, kept, g, r)
    requires y in s.ranks && s.ranks[y] == CLIENT
    ensures HasLink(Filtered(s.joined, s.ranks), y) <==> BordersGateway(Within(parsed, s.core), s.ranks, y)
  {
    hide RanksOf, JoinsBackbone, Filtered, Within, KeepsIf;
    var before := Within(parsed, s.core);
    if connect {
      JoinsNoClient(before, s.joined, s.ranks, y);
    }
    forall w
      ensures HasArc(Filtered(s.joined, s.ranks), y, w) <==>
              HasArc(before, y, w) && w in s.ranks && s.ranks[w] == GATEWAY
    {
      FilteredClient(before, s.joined, s.ranks, y, w);
    }
  }

  lemma NoLinkIsClosed(g: set<Arc>, y: nat)
    requires !HasLink(g, y)
    ensures Closed(g, {y})
  {
    assert forall a :: a in g && a.0 == y ==> HasArc(g, y, a.1);
  }

  /** A largest component that holds a node without links to others holds nothing else. */
  lemma LonelyIsAlone(nodes: set<nat>, g: set<Arc>, kept: set<nat>, y: nat)
    requires IsBiggestComponent(nodes, g, kept) && Closed(g, {y}) && y in kept
    ensures kept == {y}
  {
    hide Reaches, Closed;
    forall u | u in kept
      ensures u == y
    {
      ReachesWithin(g, {y}, y, u);
    }
  }

  /** While any two nodes are linked, a largest component holds more than one node. */
  lemma LinkedAreKept(nodes: set<nat>, g: set<Arc>, kept: set<nat>, u: nat, v: nat)
    requires IsBiggestComponent(nodes, g, kept) && HasArc(g, u, v) && u != v && u in nodes && v in nodes
    ensures |kept| >= 2
  {
    ReachesSelf(g, u);
    ReachesArc(g, u, v);
    hide Reaches, Closed;
    assert {u, v} <= ComponentOf(nodes, g, u);
    SubsetCardinality({u, v}, ComponentOf(nodes, g, u));
  }

  lemma LonelyIsDropped(nodes: set<nat>, g: set<Arc>, kept: set<nat>, y: nat, u: nat, v: nat)
    requires IsBiggestComponent(nodes, g, kept) && Closed(g, {y})
    requires HasArc(g, u, v) && u != v && u in nodes && v in nodes
    ensures y !in kept
  {
    hide IsBiggestComponent, Closed;
    LinkedAreKept(nodes, g, kept, u, v);
    if y in kept {
      LonelyIsAlone(nodes, g, kept, y);
    }
  }

  /** Two linked nodes are kept together. */
  lemma LinkedStayTogether(nodes: set<nat>, g: set<Arc>, kept: set<nat>, u: nat, v: nat)
    requires IsBiggestComponent(nodes, g, kept) && HasArc(g, u, v) && HasArc(g, v, u)
    ensures u in kept <==> v in kept
  {
    hide Reaches;
    assert (u, v) in g && (v, u) in g;
  }

  /** The final trimming drops a client without links, unless that client is all that is kept:
      it does so whenever any two nodes are still linked. A client with a link stays or goes
      with its gateways. */
  lemma TrimmingDropsClient(connect: bool, order: seq<nat>, nodes: set<nat>, parsed: set<Arc>, k: int,
                            s: Stages, kept: set<nat>, g: set<Arc>, r: Ranks, y: nat)
    requires IsReading(true, connect, order, nodes, parsed, k, s, kept, g, r)
    requires y in s.ranks && s.ranks[y] == CLIENT
    ensures !BordersGateway(Within(parsed, s.core), s.ranks, y) ==>
              && (y in kept <==> kept == {y})
              && forall u, v :: HasArc(Filtered(s.joined, s.ranks), u, v) && u != v ==> y !in kept
    ensures forall w :: HasArc(Filtered(s.joined, s.ranks), y, w) ==> (y in kept <==> w in kept)
  {
    ClientKeepsLinkIff(true, connect, order, nodes, parsed, k, s, kept, g, r, y);
    FilterIsWellFormed(s.core, s.joined, s.ranks);
    hide RanksOf, JoinsBackbone, Filtered, Within, IsBiggestComponent, Closed;
    var f := Filtered(s.joined, s.ranks);
    if !HasLink(f, y) {
      NoLinkIsClosed(f, y);
      if y in kept {
        LonelyIsAlone(s.core, f, kept, y);
      }
      forall u, v | HasArc(f, u, v) && u != v
        ensures y !in kept
      {
        LonelyIsDropped(s.core, f, kept, y, u, v);
      }
    }
    forall w | HasArc(f, y, w)
      ensures y in kept <==> w in kept
    {
      LinkedStayTogether(s.core, f, kept, y, w);
    }
  }
}
