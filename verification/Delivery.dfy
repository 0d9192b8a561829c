/** The network-wide guarantee: packets that are never sent back where they came from
    reach the destination whatever nexthops are chosen. */
module Delivery {
  import opened Digraph
  import opened NextHops
  import opened FibViews

  /** The nodes a packet has visited: every hop uses a FIB entry, and no hop returns the
      packet to the neighbour it has just come from. */
  ghost predicate Forwarded(v: View, w: seq<nat>) {
    && IsWalk(Arcs(v), w)
    && w[0] < |v|
    && v[w[0]] != {}
    && forall i :: 0 <= i < |w| - 2 ==> w[i] != w[i + 2]
  }

  ghost predicate Descends(dist: seq<nat>, u: nat, v: nat) {
    u < |dist| && v < |dist| && dist[v] < dist[u]
  }

  lemma {:induction false} DescendingWalk(dist: seq<nat>, w: seq<nat>)
    requires |w| >= 2
    requires forall i :: 0 <= i < |w| - 1 ==> Descends(dist, w[i], w[i + 1])
    ensures Descends(dist, w[0], w[|w| - 1])
  {
    assert Descends(dist, w[|w| - 2], w[|w| - 1]);
    if |w| > 2 {
      DescendingWalk(dist, w[..|w| - 1]);
    }
  }

  lemma ArcsStayInside(v: View, dist: seq<nat>, dst: nat, s: nat, u: nat)
    requires WellFormed(v, dist, dst) && HasArc(Arcs(v), s, u)
    ensures s < |v| && u < |v| && s != dst
  {
    assert RowOk(v, dist, dst, s);
  }

  lemma NoSelfArcs(v: View, dist: seq<nat>, dst: nat, s: nat)
    requires WellFormed(v, dist, dst) && LoopFree(v)
    ensures !HasArc(Arcs(v), s, s)
  {
    if HasArc(Arcs(v), s, s) {
      var nh :| nh in v[s] && nh.nhId == s;
      assert RowOk(v, dist, dst, s);
      assert (s, nh) in Upward(v);
      ReachesSelf(Arcs(v) - {(s, s)}, s);
      assert Returns(v, (s, nh));
    }
  }

  /** With strictly decreasing DOWNWARD arcs and loop-free UPWARD ones, a simple cycle is
      a single pair of opposite arcs. */
  lemma SimpleCyclesAreTwoHops(v: View, dist: seq<nat>, dst: nat, w: seq<nat>)
    requires WellFormed(v, dist, dst) && LoopFree(v)
    requires IsSimpleCycle(Arcs(v), w)
    ensures |w| == 3
  {
    if |w| == 2 {
      assert HasArc(Arcs(v), w[0], w[1]);
      NoSelfArcs(v, dist, dst, w[0]);
    }
    if |w| >= 4 {
      forall m: nat | m < |w| - 1
        ensures Descends(dist, w[m], w[m + 1])
      {
        assert HasArc(Arcs(v), w[m], w[m + 1]);
        ArcsStayInside(v, dist, dst, w[m], w[m + 1]);
        var nh :| nh in v[w[m]] && nh.nhId == w[m + 1];
        assert RowOk(v, dist, dst, w[m]);
        AroundTheCycle(Arcs(v), w, m);
        assert Returns(v, (w[m], nh));
        assert (w[m], nh) !in Upward(v);
      }
      DescendingWalk(dist, w);
    }
  }

  /** A forwarded packet never visits a node twice. */
  lemma {:induction false} NeverRevisits(v: View, dist: seq<nat>, dst: nat, w: seq<nat>)
    requires WellFormed(v, dist, dst) && LoopFree(v) && Forwarded(v, w)
    ensures Distinct(w)
  {
    var n := |w| - 1;
    if n > 0 {
      var init := w[..n];
      assert Forwarded(v, init);
      NeverRevisits(v, dist, dst, init);
      forall i: nat | i < n
        ensures w[i] != w[n]
      {
        assert i + 2 <= n ==> w[i] != w[i + 2];
        if w[i] == w[n] {
          var cycle := w[i..];
          forall k | 0 <= k < |cycle| - 1
            ensures HasArc(Arcs(v), cycle[k], cycle[k + 1])
          {
            assert HasArc(Arcs(v), w[i + k], w[i + k + 1]);
          }
          forall j, k | 0 <= j < k < |cycle| - 1
            ensures cycle[j] != cycle[k]
          {
            assert init[i + j] != init[i + k];
          }
          SimpleCyclesAreTwoHops(v, dist, dst, cycle);
        }
      }
      forall i, j | 0 <= i < j < |w|
        ensures w[i] != w[j]
      {
        assert j < n ==> init[i] != init[j];
      }
    }
  }

  lemma ForwardOnce(v: View, w: seq<nat>, e: FibNextHop)
    requires Forwarded(v, w) && w[|w| - 1] < |v| && e in v[w[|w| - 1]]
    requires |w| > 1 ==> e.nhId != w[|w| - 2]
    ensures Forwarded(v, w + [e.nhId])
  {
    var n := |w| - 1;
    var longer := w + [e.nhId];
    assert HasArc(Arcs(v), w[n], e.nhId);
    assert forall i :: 0 <= i < |w| ==> longer[i] == w[i];
  }

  lemma LastHop(v: View, w: seq<nat>) returns (nh: FibNextHop)
    requires Forwarded(v, w) && |w| > 1
    ensures w[|w| - 2] < |v| && nh in v[w[|w| - 2]] && nh.nhId == w[|w| - 1]
  {
    assert HasArc(Arcs(v), w[|w| - 2], w[|w| - 1]);
    nh :| nh in v[w[|w| - 2]] && nh.nhId == w[|w| - 1];
  }

  /** A packet that has not arrived can always be forwarded, and not back. */
  lemma AlwaysContinues(v: View, dist: seq<nat>, dst: nat, w: seq<nat>)
    requires WellFormed(v, dist, dst) && NoDeadEnds(v, dst)
    requires Forwarded(v, w) && w[|w| - 1] != dst
    ensures exists x :: Forwarded(v, w + [x])
  {
    hide WellFormed, HasArc, Arcs;
    if |w| == 1 {
      var e: FibNextHop :| e in v[w[0]];
      ForwardOnce(v, w, e);
    } else {
      var nh := LastHop(v, w);
      assert HasExit(v, w[|w| - 1], w[|w| - 2]);
      var e :| e in v[w[|w| - 1]] && e.nhId != w[|w| - 2];
      ForwardOnce(v, w, e);
    }
  }

  lemma {:induction false} NodesStayInside(v: View, dist: seq<nat>, dst: nat, w: seq<nat>)
    requires WellFormed(v, dist, dst) && Forwarded(v, w)
    ensures forall x :: x in w ==> x < |v|
  {
    forall i | 0 <= i < |w|
      ensures w[i] < |v|
    {
      if i > 0 {
        assert HasArc(Arcs(v), w[i - 1], w[i]);
        ArcsStayInside(v, dist, dst, w[i - 1], w[i]);
      }
    }
  }

  /** A forwarding strategy picks the next node from the whole path so far. */
  type Strategy = seq<nat> -> nat

  ghost predicate Obeys(v: View, dst: nat, choose: Strategy) {
    forall w {:trigger choose(w)} ::
      Forwarded(v, w) && w[|w| - 1] != dst ==> Forwarded(v, w + [choose(w)])
  }

  /** The path of a packet from `src` after at most `hops` hops. */
  function Path(choose: Strategy, src: nat, dst: nat, hops: nat): (w: seq<nat>)
    ensures w != []
  {
    if hops == 0 then [src]
    else
      var w := Path(choose, src, dst, hops - 1);
      if w[|w| - 1] == dst then w else w + [choose(w)]
  }

  lemma {:induction false} PathIsForwarded(v: View, dst: nat, choose: Strategy, src: nat, hops: nat)
    requires Obeys(v, dst, choose)
    requires src < |v| && v[src] != {}
    ensures Forwarded(v, Path(choose, src, dst, hops))
    ensures var w := Path(choose, src, dst, hops); w[|w| - 1] == dst || |w| == hops + 1
  {
    hide Forwarded;
    if hops == 0 {
      SourceIsForwarded(v, src);
    } else {
      PathIsForwarded(v, dst, choose, src, hops - 1);
    }
  }

  lemma SourceIsForwarded(v: View, src: nat)
    requires src < |v| && v[src] != {}
    ensures Forwarded(v, [src])
  {
  }

  /** What the two removal passes establish for one destination. */
  ghost predicate Safe(v: View, dist: seq<nat>, dst: nat) {
    WellFormed(v, dist, dst) && LoopFree(v) && NoDeadEnds(v, dst)
  }

  /** Delivery: from any node with entries, every strategy that obeys the FIB and never
      returns a packet to its sender reaches `dst` within n - 1 hops, without visiting
      any node twice. */
  lemma Delivers(v: View, dist: seq<nat>, dst: nat, choose: Strategy, src: nat)
    requires Safe(v, dist, dst)
    requires Obeys(v, dst, choose)
    requires src < |v| && v[src] != {}
    ensures var w := Path(choose, src, dst, |v| - 1);
            w[0] == src && w[|w| - 1] == dst && |w| <= |v| && Distinct(w) && Forwarded(v, w)
  {
    var w := Path(choose, src, dst, |v| - 1);
    PathIsForwarded(v, dst, choose, src, |v| - 1);
    PathStarts(choose, src, dst, |v| - 1);
    NeverRevisits(v, dist, dst, w);
    NodesStayInside(v, dist, dst, w);
    DistinctIsShort(w, |v|);
    if w[|w| - 1] != dst {
      var longer := w + [choose(w)];
      NeverRevisits(v, dist, dst, longer);
      NodesStayInside(v, dist, dst, longer);
      DistinctIsShort(longer, |v|);
    }
  }

  lemma {:induction false} PathStarts(choose: Strategy, src: nat, dst: nat, hops: nat)
    ensures Path(choose, src, dst, hops)[0] == src
  {
    if hops > 0 {
      PathStarts(choose, src, dst, hops - 1);
    }
  }

  /** Strategies that obey a safe FIB exist: at any point some continuation is allowed. */
  lemma SomeStrategyObeys(v: View, dist: seq<nat>, dst: nat)
    requires Safe(v, dist, dst)
    ensures exists choose :: Obeys(v, dst, choose)
  {
    forall w | Forwarded(v, w) && w[|w| - 1] != dst
      ensures exists x :: Forwarded(v, w + [x])
    {
      AlwaysContinues(v, dist, dst, w);
    }
    ghost var choose: Strategy := (w: seq<nat>) => Continuation(v, dst, w);
    assert Obeys(v, dst, choose);
  }

  ghost function Continuation(v: View, dst: nat, w: seq<nat>): nat {
    if exists x: nat :: Forwarded(v, w + [x]) then
      var x: nat :| Forwarded(v, w + [x]);
      x
    else
      0
  }
}
