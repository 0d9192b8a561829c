/** The whole LFID calculation: abstract FIBs of all nodes, loop removal, dead-end removal,
    and what the resulting FIBs guarantee. */
module LfidPipeline {
  import opened Digraph
  import opened Networks
  import opened Routers
  import opened NextHops
  import opened FibViews
  import opened AbstractFibs
  import opened NodeFibs
  import opened LfidRows
  import opened LfidRoutes
  import LoopChecks
  import LoopRemoval
  import DeadEndChecks
  import DeadEndRemoval
  import opened Delivery
  import QueueOrders

  /** The FIBs of the first `k` nodes are filled. */
  ghost predicate FilledNodes(fibs: seq<AbstractFib>, g: Graph, k: nat)
    reads fibs
  {
    |fibs| == k && forall s {:trigger fibs[s]} :: 0 <= s < k ==>
      fibs[s].nodeId == s && FilledBelow(fibs[s], g, |g.links|)
  }

  /** A filled FIB passes the consistency check. */
  lemma FilledPasses(g: Graph, fib: AbstractFib)
    requires LfidNetwork(g) && FilledBelow(fib, g, |g.links|) && |g.links| > 1
    ensures fib.perDstFib != map[]
    ensures forall d :: d in fib.perDstFib ==> RowPasses(fib.perDstFib[d])
  {
    var other := if fib.nodeId == 0 then 1 else 0;
    assert other in fib.perDstFib.Keys;
    forall d | d in fib.perDstFib
      ensures RowPasses(fib.perDstFib[d])
    {
      assert d in Below(fib.numberOfNodes);
      RowOfNetworkPasses(g, fib.nodeId, d, fib.perDstFib[d]);
    }
  }

  lemma RowOfNetworkPasses(g: Graph, s: nat, d: nat, row: set<FibNextHop>)
    requires LfidNetwork(g) && s < |g.links| && s != d && IsRow(g, s, d, row)
    ensures RowPasses(row)
  {
    RowIsSingle(g, s, d, row);
    forall nh | nh in row
      ensures 0 < nh.cost < MAX_COST && HasDownward(row)
    {
      EntriesAreUseful(g, s, d, nh);
      ReachableHasDownward(g, s, d, row);
    }
  }

  lemma FilledNodesNext(fibs: seq<AbstractFib>, g: Graph, fib: AbstractFib)
    requires FilledNodes(fibs, g, |fibs|) && fib.nodeId == |fibs| && FilledBelow(fib, g, |g.links|)
    ensures FilledNodes(fibs + [fib], g, |fibs| + 1)
  {
  }

  lemma FilledNodesFacts(fibs: seq<AbstractFib>, g: Graph, k: nat)
    requires FilledNodes(fibs, g, k)
    ensures |fibs| == k
  {
  }

  lemma FilledNodesStart(g: Graph)
    ensures FilledNodes([], g, 0)
  {
  }

  /** Computes the abstract FIB of every node. */
  method AllFibs(net: Network, ghost g: Graph) returns (fibs: seq<AbstractFib>)
    requires g == net.State() && LfidNetwork(g) && 1 < |net.links| == |g.links| <= NODE_ID_LIMIT + 1
    modifies net
    ensures net.State() == g && fresh(fibs) && FilledNodes(fibs, g, |g.links|)
  {
    hide *;
    fibs := [];
    FilledNodesStart(g);
    for s: nat := 0 to |net.links|
      invariant net.State() == g && fresh(fibs) && FilledNodes(fibs, g, s)
    {
      var fib := NodeFib(net, s, g);
      FilledPasses(g, fib);
      var passes := fib.CheckFib();
      assert passes;
      FilledNodesFacts(fibs, g, s);
      FilledNodesNext(fibs, g, fib);
      fibs := fibs + [fib];
    }
  }

  /** The views of all destinations that the filled FIBs show. */
  lemma ViewsOf(fibs: seq<AbstractFib>, g: Graph) returns (views: seq<View>)
    requires FilledNodes(fibs, g, |g.links|)
    ensures HoldAll(fibs, views)
    ensures AllFirst(g, views)
  {
    views := seq(|fibs|, d requires 0 <= d reads fibs =>
      seq(|fibs|, s requires 0 <= s < |fibs| reads fibs => fibs[s].Row(d)));
    forall d: nat {:trigger views[d]} | d < |views|
      ensures Shows(fibs, d, views[d]) && IsView(g, d, views[d])
    {
      forall s: nat {:trigger views[d][s]} | s < |g.links|
        ensures if s == d then views[d][s] == {} else IsRow(g, s, d, views[d][s])
      {
        var fib := fibs[s];
        assert d in Below(fib.numberOfNodes);
      }
    }
    assert AllNodes(fibs) by {
      assert forall s {:trigger fibs[s]} :: 0 <= s < |fibs| ==> fibs[s].Valid();
    }
  }

  /** What LFID computes for one destination: the classified rows, loop checks in queue
      order, then the dead-end worklist. */
  ghost predicate LfidResult(g: Graph, dst: nat, v: View) {
    exists first, cleared ::
      IsView(g, dst, first) && LoopRemoval.Cleared(first, cleared) && DeadEndRemoval.Trimmed(cleared, dst, v)
  }

  /** Every node that can reach the destination has entries. */
  ghost predicate Serves(g: Graph, dst: nat, v: View) {
    forall s: nat {:trigger v[s]} :: s < |v| && s != dst && Dist(g, s, dst) < INF ==> v[s] != {}
  }

  lemma ClearedFacts(v: View, w: View, dist: seq<nat>, dst: nat)
    requires WellFormed(v, dist, dst) && LoopRemoval.Cleared(v, w)
    ensures Thins(v, w) && LoopFree(w) && WellFormed(w, dist, dst)
  {
    var order :| LoopChecks.Completed(v, order) && LoopRemoval.ByPriority(v, order) &&
        LoopChecks.After(v, order).view == w;
    LoopChecks.LoopFreedom(v, order);
    ThinsWellFormed(v, w, dist, dst);
  }

  lemma TrimmedFacts(v: View, w: View, dist: seq<nat>, dst: nat)
    requires WellFormed(v, dist, dst) && DeadEndRemoval.Trimmed(v, dst, w)
    ensures Thins(v, w) && NoDeadEnds(w, dst) && WellFormed(w, dist, dst)
  {
    var order :| DeadEndChecks.Completed(v, dst, order) && DeadEndRemoval.FirstFirst(v, dst, order)
                 && DeadEndChecks.After(v, dst, order).view == w;
    DeadEndChecks.NoDeadEndsLeft(v, dist, dst, order);
  }

  /** The result is loop-free and without dead ends, keeps every DOWNWARD entry, and serves
      every node that can reach the destination. */
  lemma LfidIsSafe(g: Graph, dst: nat, v: View)
    requires LfidNetwork(g) && LfidResult(g, dst, v)
    ensures Safe(v, Distances(g, dst), dst)
    ensures Serves(g, dst, v)
    ensures exists first :: IsView(g, dst, first) && Thins(first, v)
  {
    var first: View, cleared: View :|
      IsView(g, dst, first) && LoopRemoval.Cleared(first, cleared) && DeadEndRemoval.Trimmed(cleared, dst, v);
    var dist := Distances(g, dst);
    ViewsAreWellFormed(g, dst, first);
    ClearedFacts(first, cleared, dist, dst);
    TrimmedFacts(cleared, v, dist, dst);
    LoopFreeShrinks(cleared, v);
    ThinsTransitive(first, cleared, v);
    forall s: nat {:trigger v[s]} | s < |v| && s != dst && Dist(g, s, dst) < INF
      ensures v[s] != {}
    {
      ReachableHasDownward(g, s, dst, first[s]);
      var nh :| nh in first[s] && nh.kind == DOWNWARD;
      assert nh in v[s];
    }
  }

  /** Delivery across the network: from any node that can reach `dst` at all, packets that
      are never sent back to their sender reach `dst` within n - 1 hops and without
      revisiting a node, whatever nexthops are chosen. */
  lemma LfidDelivers(g: Graph, dst: nat, v: View, choose: Strategy, src: nat)
    requires LfidNetwork(g) && LfidResult(g, dst, v)
    requires Obeys(v, dst, choose)
    requires src < |g.links| && src != dst && Dist(g, src, dst) < INF
    ensures var w := Path(choose, src, dst, |g.links| - 1);
            && w[0] == src && w[|w| - 1] == dst
            && |w| <= |g.links| && Distinct(w) && Forwarded(v, w)
  {
    hide *;
    LfidIsSafe(g, dst, v);
    ServesAt(g, dst, v, src);
    Delivers(v, Distances(g, dst), dst, choose, src);
  }

  lemma ServesAt(g: Graph, dst: nat, v: View, src: nat)
    requires Safe(v, Distances(g, dst), dst) && Serves(g, dst, v)
    requires src < |g.links| && src != dst && Dist(g, src, dst) < INF
    ensures |v| == |g.links| && v[src] != {}
  {
  }

  /** With symmetric metrics and no ties, loop removal never aborts. */
  lemma SymmetricNeverAborts(g: Graph, dst: nat, v: View)
    requires LfidNetwork(g) && IsView(g, dst, v) && SymmetricWithoutTies(g, dst)
    ensures !LoopChecks.Risky(v)
  {
    SymmetricIsOpposed(g, dst, v);
    ViewsAreWellFormed(g, dst, v);
    WellFormedIsChecked(v, Distances(g, dst), dst);
    LoopChecks.OpposedIsSafe(v);
  }

  /** With symmetric metrics and no ties, the result is the greatest sub-FIB of what loop
      removal leaves in which every UPWARD entry leads to the destination or to a node with
      a choice. */
  lemma SymmetricIsGreatest(g: Graph, dst: nat, v: View)
    requires LfidNetwork(g) && LfidResult(g, dst, v) && SymmetricWithoutTies(g, dst)
    ensures exists first, cleared ::
              && IsView(g, dst, first) && LoopRemoval.Cleared(first, cleared)
              && Thins(cleared, v) && DeadEndChecks.Alive(v, dst)
              && forall a :: Thins(cleared, a) && DeadEndChecks.Alive(a, dst) ==> Within(a, v)
  {
    var first: View, cleared: View :|
      IsView(g, dst, first) && LoopRemoval.Cleared(first, cleared) && DeadEndRemoval.Trimmed(cleared, dst, v);
    var dist := Distances(g, dst);
    ViewsAreWellFormed(g, dst, first);
    ClearedFacts(first, cleared, dist, dst);
    TrimmedFacts(cleared, v, dist, dst);
    SymmetricIsOpposed(g, dst, first);
    DeadEndChecks.OpposedThins(first, cleared);
    var order :| DeadEndChecks.Completed(cleared, dst, order) && DeadEndRemoval.FirstFirst(cleared, dst, order)
                 && DeadEndChecks.After(cleared, dst, order).view == v;
    DeadEndChecks.GreatestAlive(cleared, dist, dst, order);
  }

  lemma ViewIsUnique(g: Graph, dst: nat, v: View, w: View)
    requires IsView(g, dst, v) && IsView(g, dst, w)
    ensures v == w
  {
    hide InRow;
    forall s: nat | s < |v|
      ensures v[s] == w[s]
    {
      if s != dst {
        assert forall nh :: nh in v[s] <==> nh in w[s];
      }
    }
  }

  /** LFID has one result for a destination, or none: nothing is left to the queues. */
  lemma LfidIsUnique(g: Graph, dst: nat, v: View, w: View)
    requires LfidNetwork(g) && LfidResult(g, dst, v) && LfidResult(g, dst, w)
    ensures v == w
  {
    hide LfidNetwork, IsView, LoopRemoval.Cleared, DeadEndRemoval.Trimmed, Distances;
    var first: View, cleared: View :|
      IsView(g, dst, first) && LoopRemoval.Cleared(first, cleared) && DeadEndRemoval.Trimmed(cleared, dst, v);
    var second: View, thinned: View :|
      IsView(g, dst, second) && LoopRemoval.Cleared(second, thinned) && DeadEndRemoval.Trimmed(thinned, dst, w);
    ViewIsUnique(g, dst, first, second);
    ViewsAreWellFormed(g, dst, first);
    WellFormedIsChecked(first, Distances(g, dst), dst);
    QueueOrders.LoopRemovalIsDecided(first);
    ClearedFacts(first, cleared, Distances(g, dst), dst);
    QueueOrders.DeadEndRemovalIsDecided(cleared, Distances(g, dst), dst, v, w);
  }

  /** For some destination loop removal aborts. */
  ghost predicate LfidAborts(g: Graph) {
    exists d: nat, first {:trigger IsView(g, d, first)} ::
      d < |g.links| && IsView(g, d, first) && LoopRemoval.Aborts(first) && LoopChecks.Risky(first)
  }

  /** A destination whose view makes loop removal abort has no result. */
  lemma AbortsOrResult(g: Graph, dst: nat, first: View, v: View)
    requires LfidNetwork(g) && IsView(g, dst, first) && LoopRemoval.Aborts(first)
    ensures !LfidResult(g, dst, v)
  {
    hide LfidNetwork, IsView, LoopRemoval.Cleared, LoopRemoval.Aborts, DeadEndRemoval.Trimmed, Distances;
    ViewsAreWellFormed(g, dst, first);
    WellFormedIsChecked(first, Distances(g, dst), dst);
    QueueOrders.LoopRemovalIsDecided(first);
    forall second, cleared | IsView(g, dst, second) && LoopRemoval.Cleared(second, cleared)
      ensures LoopRemoval.Cleared(first, cleared)
    {
      ViewIsUnique(g, dst, first, second);
    }
  }

  lemma SomeAbortIsLfids(g: Graph, views: seq<View>)
    requires AllFirst(g, views) && LoopRemoval.SomeAborts(views)
    ensures LfidAborts(g)
  {
    hide IsView, LoopRemoval.Aborts, LoopChecks.Risky;
    var d: nat :| d < |views| && LoopRemoval.Aborts(views[d]) && LoopChecks.Risky(views[d]);
    assert IsView(g, d, views[d]);
  }

  lemma ClearedNeverAborts(g: Graph, views: seq<View>, cleared: seq<View>)
    requires LfidNetwork(g) && AllFirst(g, views) && LoopRemoval.AllLoopFree(views, cleared)
    ensures !LfidAborts(g)
  {
    hide LfidNetwork, IsView, LoopRemoval.Cleared, LoopRemoval.Aborts, LoopChecks.Risky, Distances;
    forall d: nat, first | d < |g.links| && IsView(g, d, first)
      ensures !LoopRemoval.Aborts(first)
    {
      ViewIsUnique(g, d, first, views[d]);
      ViewsAreWellFormed(g, d, first);
      WellFormedIsChecked(first, Distances(g, d), d);
      QueueOrders.LoopRemovalIsDecided(first);
      assert LoopRemoval.Cleared(views[d], cleared[d]);
    }
  }

  ghost predicate AllLfid(g: Graph, views: seq<View>) {
    |views| == |g.links| && forall d: nat {:trigger views[d]} :: d < |views| ==> LfidResult(g, d, views[d])
  }

  ghost predicate AllSymmetric(g: Graph) {
    forall d: nat {:trigger SymmetricWithoutTies(g, d)} :: d < |g.links| ==> SymmetricWithoutTies(g, d)
  }

  ghost predicate AllFirst(g: Graph, views: seq<View>) {
    |views| == |g.links| && forall d: nat {:trigger views[d]} :: d < |views| ==> IsView(g, d, views[d])
  }

  ghost function AllDistances(g: Graph): (r: seq<seq<nat>>)
    ensures |r| == |g.links| && forall d: nat :: d < |r| ==> r[d] == Distances(g, d)
  {
    seq(|g.links|, d requires 0 <= d => Distances(g, d))
  }

  lemma FirstAreChecked(g: Graph, views: seq<View>)
    requires LfidNetwork(g) && AllFirst(g, views)
    ensures AllChecked(views)
  {
    forall d: nat {:trigger views[d]} | d < |views|
      ensures Checked(views[d])
    {
      ViewsAreWellFormed(g, d, views[d]);
      WellFormedIsChecked(views[d], Distances(g, d), d);
    }
  }

  lemma ClearedAreWellFormed(g: Graph, views: seq<View>, cleared: seq<View>)
    requires LfidNetwork(g) && AllFirst(g, views) && LoopRemoval.AllLoopFree(views, cleared)
    ensures DeadEndRemoval.AllWellFormed(cleared, AllDistances(g))
  {
    forall d: nat {:trigger cleared[d]} | d < |cleared|
      ensures WellFormed(cleared[d], Distances(g, d), d)
    {
      ViewsAreWellFormed(g, d, views[d]);
      ClearedFacts(views[d], cleared[d], Distances(g, d), d);
    }
  }

  lemma TrimmedAreLfid(g: Graph, views: seq<View>, cleared: seq<View>, trimmed: seq<View>)
    requires AllFirst(g, views) && LoopRemoval.AllLoopFree(views, cleared)
    requires DeadEndRemoval.AllTrimmed(cleared, AllDistances(g), trimmed)
    ensures AllLfid(g, trimmed)
  {
    forall d: nat {:trigger trimmed[d]} | d < |trimmed|
      ensures LfidResult(g, d, trimmed[d])
    {
      assert IsView(g, d, views[d]) && LoopRemoval.Cleared(views[d], cleared[d]) &&
             DeadEndRemoval.Trimmed(cleared[d], d, trimmed[d]);
    }
  }

  lemma SymmetricRunsThrough(g: Graph, views: seq<View>)
    requires LfidNetwork(g) && AllFirst(g, views) && AllSymmetric(g)
    ensures !LoopRemoval.SomeAborts(views)
  {
    forall d: nat {:trigger views[d]} | d < |views|
      ensures !LoopChecks.Risky(views[d])
    {
      SymmetricNeverAborts(g, d, views[d]);
    }
  }

  /** The LFID calculation. Face metrics are all restored. It fails exactly when the view of
      some destination makes loop removal abort; otherwise the FIB objects show the LFID
      result of every destination. With symmetric metrics and no ties it never fails. */
  method CalculateLfidRoutes(net: Network, ghost g: Graph)
    returns (ok: bool, fibs: seq<AbstractFib>, ghost views: seq<View>)
    requires g == net.State() && LfidNetwork(g) && 1 < |net.links| == |g.links| <= NODE_ID_LIMIT + 1
    modifies net
    ensures net.State() == g
    ensures ok <==> !LfidAborts(g)
    ensures ok ==> HoldAll(fibs, views) && AllLfid(g, views)
    ensures AllSymmetric(g) ==> ok
  {
    hide *;
    fibs := AllFibs(net, g);
    views := ViewsOf(fibs, g);
    FirstAreChecked(g, views);
    var loops, deadEnds;
    ghost var cleared, trimmed;
    ok, loops, cleared := LoopRemoval.RemoveLoops(fibs, views);
    if !ok {
      SomeAbortIsLfids(g, views);
      if AllSymmetric(g) {
        SymmetricRunsThrough(g, views);
      }
      return;
    }
    ClearedNeverAborts(g, views, cleared);
    ClearedAreWellFormed(g, views, cleared);
    deadEnds, trimmed := DeadEndRemoval.RemoveDeadEnds(fibs, cleared, AllDistances(g));
    TrimmedAreLfid(g, views, cleared, trimmed);
    views := trimmed;
  }
}
