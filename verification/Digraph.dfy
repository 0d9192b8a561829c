/** Directed graphs as finite sets of arcs, with walks, reachability and the
    reachability search that the loop check relies on. */
module Digraph {

  type Arc = (nat, nat)

  predicate HasArc(g: set<Arc>, u: nat, v: nat) {
    (u, v) in g
  }

  /** A walk is a non-empty node sequence in which every consecutive pair is an arc. */
  ghost predicate IsWalk(g: set<Arc>, w: seq<nat>) {
    w != [] && forall i :: 0 <= i < |w| - 1 ==> HasArc(g, w[i], w[i + 1])
  }

  ghost predicate Connects(g: set<Arc>, u: nat, w: seq<nat>, v: nat) {
    IsWalk(g, w) && w[0] == u && w[|w| - 1] == v
  }

  ghost predicate Reaches(g: set<Arc>, u: nat, v: nat) {
    exists w :: Connects(g, u, w, v)
  }

  /** Deleting arcs never creates reachability: earlier negative checks stay valid. */
  lemma ReachesMonotone(small: set<Arc>, large: set<Arc>, u: nat, v: nat)
    requires small <= large
    requires Reaches(small, u, v)
    ensures Reaches(large, u, v)
  {
    var w :| Connects(small, u, w, v);
    forall i | 0 <= i < |w| - 1
      ensures HasArc(large, w[i], w[i + 1])
    {
      assert HasArc(small, w[i], w[i + 1]);
    }
    assert Connects(large, u, w, v);
  }

  lemma ReachesSelf(g: set<Arc>, u: nat)
    ensures Reaches(g, u, u)
  {
    assert Connects(g, u, [u], u);
  }

  lemma ReachesExtend(g: set<Arc>, u: nat, v: nat, x: nat)
    requires Reaches(g, u, v)
    requires HasArc(g, v, x)
    ensures Reaches(g, u, x)
  {
    var w :| Connects(g, u, w, v);
    assert Connects(g, u, w + [x], x);
  }

  ghost predicate Closed(g: set<Arc>, s: set<nat>) {
    forall a :: a in g && a.0 in s ==> a.1 in s
  }

  /** A walk that starts in a closed set never leaves it. */
  lemma {:induction false} ClosedKeepsWalks(g: set<Arc>, s: set<nat>, w: seq<nat>)
    requires Closed(g, s)
    requires IsWalk(g, w) && w[0] in s
    ensures w[|w| - 1] in s
  {
    if |w| > 1 {
      var init := w[..|w| - 1];
      ClosedKeepsWalks(g, s, init);
      assert HasArc(g, w[|w| - 2], w[|w| - 1]);
    }
  }

  /** Breadth-first search: the nodes reachable from `from`. */
  method ReachableFrom(g: set<Arc>, from: nat) returns (visited: set<nat>)
    ensures forall v :: v in visited <==> Reaches(g, from, v)
  {
    visited := {from};
    var frontier := {from};
    ReachesSelf(g, from);
    ghost var universe := {from} + set a | a in g :: a.1;
    while frontier != {}
      invariant from in visited && frontier <= visited <= universe
      invariant forall v :: v in visited ==> Reaches(g, from, v)
      invariant forall a :: a in g && a.0 in visited - frontier ==> a.1 in visited
      decreases universe - (visited - frontier)
    {
      var x :| x in frontier;
      var fresh' := set a | a in g && a.0 == x && a.1 !in visited :: a.1;
      forall v | v in fresh'
        ensures Reaches(g, from, v)
      {
        ReachesExtend(g, from, x, v);
      }
      ghost var done := visited - frontier;
      visited, frontier := visited + fresh', frontier - {x} + fresh';
      assert visited - frontier == done + {x};
    }
    forall v | Reaches(g, from, v)
      ensures v in visited
    {
      var w :| Connects(g, from, w, v);
      ClosedKeepsWalks(g, visited, w);
    }
  }

  /** The search behind `willLoop`: is `to` reachable from `from`? */
  method Search(g: set<Arc>, from: nat, to: nat) returns (found: bool)
    ensures found <==> Reaches(g, from, to)
  {
    var visited := ReachableFrom(g, from);
    found := to in visited;
  }

  /** `w` is a closed walk whose nodes are distinct but for the repeated endpoint. */
  ghost predicate IsSimpleCycle(g: set<Arc>, w: seq<nat>) {
    && IsWalk(g, w)
    && |w| >= 2
    && w[0] == w[|w| - 1]
    && Distinct(w[..|w| - 1])
  }

  predicate Distinct(w: seq<nat>) {
    forall i, j :: 0 <= i < j < |w| ==> w[i] != w[j]
  }

  /** From the head of any arc of a simple cycle of length at least three, the tail is
      reachable around the cycle without the opposite arc. */
  lemma AroundTheCycle(g: set<Arc>, w: seq<nat>, m: nat)
    requires IsSimpleCycle(g, w)
    requires |w| >= 4
    requires m < |w| - 1
    ensures Reaches(g - {(w[m + 1], w[m])}, w[m + 1], w[m])
  {
    var n := |w| - 1;
    var back := w[m + 1..] + w[1..m + 1];
    var rest := g - {(w[m + 1], w[m])};
    var d := w[..n];
    assert back[0] == w[m + 1];
    assert |back| == n;
    forall i | 0 <= i < |back| - 1
      ensures HasArc(rest, back[i], back[i + 1])
    {
      var k := if i < n - m then m + 1 + i else m + 1 + i - n;
      assert back[i] == w[k];
      assert back[i + 1] == w[if k == n then 1 else k + 1];
      if k == n {
        assert w[n] == w[0];
        assert HasArc(g, w[0], w[1]);
      } else {
        assert HasArc(g, w[k], w[k + 1]);
      }
      var k0 := if k == n then 0 else k;
      assert d[k0] == back[i];
      if back[i] == w[m + 1] {
        var h := if m + 1 == n then 0 else m + 1;
        assert d[h] == w[m + 1];
        assert k0 == h;
        var t := if h + 1 == n then 0 else h + 1;
        assert d[t] == back[i + 1];
        assert d[m] == w[m] != d[t];
      }
    }
    assert Connects(rest, w[m + 1], back, w[m]);
  }

  /** The nodes of a network of `n` nodes. */
  function Below(n: nat): (r: set<nat>)
    ensures forall k: nat :: k in r <==> k < n
    ensures |r| == n
  {
    if n == 0 then {} else Below(n - 1) + {n - 1}
  }

  lemma {:induction false} SubsetCardinality<T>(a: set<T>, b: set<T>)
    requires a <= b
    ensures |a| <= |b|
  {
    if a != {} {
      var x :| x in a;
      SubsetCardinality(a - {x}, b - {x});
    }
  }

  lemma {:induction false} DistinctCardinality(w: seq<nat>, s: set<nat>)
    requires Distinct(w)
    requires forall x :: x in w <==> x in s
    ensures |s| == |w|
  {
    if w == [] {
      assert s == {};
    } else {
      var init, last := w[..|w| - 1], w[|w| - 1];
      assert w == init + [last];
      DistinctCardinality(init, s - {last});
    }
  }

  /** Pigeonhole: distinct nodes below `n` are at most `n`. */
  lemma DistinctIsShort(w: seq<nat>, n: nat)
    requires Distinct(w)
    requires forall x :: x in w ==> x < n
    ensures |w| <= n
  {
    var s := set x | x in w;
    DistinctCardinality(w, s);
    SubsetCardinality(s, Below(n));
  }
}
