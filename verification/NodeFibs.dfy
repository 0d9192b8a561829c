/** The abstract FIBs of all nodes, indexed by node id, and how they show the view of a
    destination. */
module NodeFibs {
  import opened Digraph
  import opened NextHops
  import opened FibViews
  import opened AbstractFibs

  ghost predicate AllNodes(fibs: seq<AbstractFib>)
    reads fibs
  {
    && (forall s :: 0 <= s < |fibs| ==> fibs[s].nodeId == s && fibs[s].numberOfNodes == |fibs|)
    && (forall s :: 0 <= s < |fibs| ==> fibs[s].Valid())
  }

  ghost predicate Shows(fibs: seq<AbstractFib>, dst: nat, v: View)
    reads fibs
  {
    |v| == |fibs| && forall s {:trigger fibs[s]} :: 0 <= s < |fibs| ==> v[s] == fibs[s].Row(dst)
  }

  /** What the pipeline checks of every FIB before it removes anything. */
  ghost predicate Checked(v: View) {
    forall s: nat :: s < |v| ==> OnePerNexthop(v[s]) && (v[s] != {} ==> HasDownward(v[s]))
  }

  lemma CheckedRow(v: View, s: nat)
    requires Checked(v) && s < |v|
    ensures OnePerNexthop(v[s]) && (v[s] != {} ==> HasDownward(v[s]))
  {
  }

  lemma WellFormedIsChecked(v: View, dist: seq<nat>, dst: nat)
    requires WellFormed(v, dist, dst)
    ensures Checked(v)
  {
    forall s: nat | s < |v|
      ensures OnePerNexthop(v[s]) && (v[s] != {} ==> HasDownward(v[s]))
    {
      assert RowOk(v, dist, dst, s);
    }
  }

  lemma ThinsChecked(v: View, w: View)
    requires Checked(v) && Thins(v, w)
    ensures Checked(w)
  {
    forall s: nat | s < |w|
      ensures OnePerNexthop(w[s]) && (w[s] != {} ==> HasDownward(w[s]))
    {
      if w[s] != {} {
        var any :| any in w[s];
        assert any in v[s];
        var nh :| nh in v[s] && nh.kind == DOWNWARD;
        assert nh in w[s];
      }
    }
  }

  /** A row with an UPWARD entry also has a DOWNWARD one, so it is larger than its UPWARD part. */
  lemma UpwardIsSmaller(row: set<FibNextHop>, part: set<FibNextHop>)
    requires HasDownward(row) && part <= UpwardOf(row)
    ensures |part| < |row|
  {
    var nh :| nh in row && nh.kind == DOWNWARD;
    SubsetCardinality(part + {nh}, row);
  }

  /** The rows for every destination but `dst`, node by node. */
  ghost predicate Elsewhere(fibs: seq<AbstractFib>, dst: nat, rest: seq<FibMap>)
    reads fibs
  {
    |rest| == |fibs| && forall s {:trigger fibs[s]} :: 0 <= s < |fibs| ==> fibs[s].perDstFib - {dst} == rest[s]
  }

  /** The FIB objects are consistent, show `v` for `dst`, and hold `rest` otherwise. */
  ghost predicate Hold(fibs: seq<AbstractFib>, dst: nat, v: View, rest: seq<FibMap>)
    reads fibs
  {
    AllNodes(fibs) && dst < |fibs| && Shows(fibs, dst, v) && Elsewhere(fibs, dst, rest)
  }

  /** What the rows of a view say about the FIB objects. */
  lemma NodeFacts(fibs: seq<AbstractFib>, dst: nat, v: View, rest: seq<FibMap>, s: nat)
    requires Hold(fibs, dst, v, rest) && s < |fibs|
    ensures |v| == |fibs|
    ensures fibs[s].Valid() && fibs[s].nodeId == s
    ensures s == dst ==> v[s] == {}
    ensures s != dst ==> dst in fibs[s].perDstFib && v[s] == fibs[s].perDstFib[dst]
    ensures forall nh :: nh in v[s] ==> nh.nhId != s
  {
    assert v[s] == fibs[s].Row(dst);
  }

  lemma HoldLength(fibs: seq<AbstractFib>, dst: nat, v: View, rest: seq<FibMap>)
    requires Hold(fibs, dst, v, rest)
    ensures |v| == |fibs|
  {
  }

  method EraseFrom(fib: AbstractFib, dst: nat, nh: FibNextHop)
    requires fib.Valid() && dst in fib.perDstFib
    requires OnePerNexthop(fib.perDstFib[dst]) && nh in fib.perDstFib[dst] && nh.kind == UPWARD
    modifies fib
    ensures fib.Valid()
    ensures fib.perDstFib == old(fib.perDstFib)[dst := old(fib.perDstFib[dst]) - {nh}]
  {
    var erased := fib.Erase(dst, nh.nhId);
    assert erased == 1;
  }

  /** One FIB object is that of node `s`, with this row for `dst` and these others. */
  ghost predicate NodeHolds(fib: AbstractFib, s: nat, nodes: nat, dst: nat, row: set<FibNextHop>, others: FibMap)
    reads fib
  {
    && fib.nodeId == s && fib.numberOfNodes == nodes && fib.Valid()
    && row == fib.Row(dst) && fib.perDstFib - {dst} == others
  }

  lemma HoldGives(fibs: seq<AbstractFib>, dst: nat, v: View, rest: seq<FibMap>)
    requires Hold(fibs, dst, v, rest)
    ensures |v| == |fibs| == |rest| && dst < |fibs|
    ensures forall t: nat {:trigger fibs[t]} :: t < |fibs| ==> NodeHolds(fibs[t], t, |fibs|, dst, v[t], rest[t])
    ensures forall t: nat, u: nat {:trigger fibs[t], fibs[u]} :: t < u < |fibs| ==> fibs[t] != fibs[u]
  {
  }

  lemma HoldFrom(fibs: seq<AbstractFib>, dst: nat, v: View, rest: seq<FibMap>)
    requires |v| == |fibs| == |rest| && dst < |fibs|
    requires forall t: nat {:trigger fibs[t]} :: t < |fibs| ==> NodeHolds(fibs[t], t, |fibs|, dst, v[t], rest[t])
    ensures Hold(fibs, dst, v, rest)
  {
  }

  /** An erasure in one row leaves the others. */
  lemma ErasedNode(fib: AbstractFib, s: nat, nodes: nat, dst: nat, row: set<FibNextHop>, others: FibMap,
                   last: FibMap, nh: FibNextHop)
    requires fib.Valid() && fib.nodeId == s && fib.numberOfNodes == nodes
    requires dst in last && row == last[dst] && last - {dst} == others
    requires fib.perDstFib == last[dst := row - {nh}]
    ensures NodeHolds(fib, s, nodes, dst, row - {nh}, others)
  {
    assert fib.perDstFib - {dst} == last - {dst};
  }

  lemma DropRow(v: View, c: Candidate)
    requires c.0 < |v|
    ensures |Drop(v, c)| == |v| && Drop(v, c)[c.0] == v[c.0] - {c.1}
    ensures forall t: nat {:trigger Drop(v, c)[t]} :: t < |v| && t != c.0 ==> Drop(v, c)[t] == v[t]
  {
  }

  lemma UpwardEntry(v: View, c: Candidate)
    requires c in Upward(v)
    ensures c.0 < |v| && c.1 in v[c.0] && c.1.kind == UPWARD
  {
  }

  /** Erases one UPWARD entry, which is always found. */
  method EraseEntry(fibs: seq<AbstractFib>, dst: nat, ghost v: View, ghost rest: seq<FibMap>, s: nat, nh: FibNextHop)
    requires Hold(fibs, dst, v, rest) && Checked(v)
    requires (s, nh) in Upward(v)
    modifies fibs
    ensures Hold(fibs, dst, Drop(v, (s, nh)), rest)
  {
    hide *;
    HoldGives(fibs, dst, v, rest);
    UpwardEntry(v, (s, nh));
    DropRow(v, (s, nh));
    NodeFacts(fibs, dst, v, rest, s);
    CheckedRow(v, s);
    var fib := fibs[s];
    ghost var last := fib.perDstFib;
    NodeHoldsFacts(fib, s, |fibs|, dst, v[s], rest[s]);
    EraseFrom(fib, dst, nh);
    ErasedNode(fib, s, |fibs|, dst, v[s], rest[s], last, nh);
    HoldFrom(fibs, dst, Drop(v, (s, nh)), rest);
  }

  lemma NodeHoldsFacts(fib: AbstractFib, s: nat, nodes: nat, dst: nat, row: set<FibNextHop>, others: FibMap)
    requires NodeHolds(fib, s, nodes, dst, row, others)
    ensures fib.nodeId == s && fib.numberOfNodes == nodes && fib.perDstFib - {dst} == others
  {
  }

  /** The FIB objects show `views[d]` for every destination `d`. */
  ghost predicate HoldAll(fibs: seq<AbstractFib>, views: seq<View>)
    reads fibs
  {
    AllNodes(fibs) && |views| == |fibs| && forall d: nat {:trigger views[d]} :: d < |views| ==> Shows(fibs, d, views[d])
  }

  function RowIn(m: FibMap, d: nat): set<FibNextHop> {
    if d in m then m[d] else {}
  }

  ghost predicate RestShows(rest: seq<FibMap>, dst: nat, views: seq<View>) {
    && (forall d: nat {:trigger views[d]} :: d < |views| ==> |views[d]| == |rest|)
    && forall d: nat, s: nat {:trigger views[d][s]} ::
      d < |views| && d != dst && s < |views[d]| && s < |rest| ==> views[d][s] == RowIn(rest[s], d)
  }

  /** One destination can be worked on while the rows of the others are set aside. */
  lemma Focus(fibs: seq<AbstractFib>, views: seq<View>, dst: nat) returns (rest: seq<FibMap>)
    requires HoldAll(fibs, views) && dst < |fibs|
    ensures Hold(fibs, dst, views[dst], rest) && RestShows(rest, dst, views)
  {
    rest := seq(|fibs|, s requires 0 <= s < |fibs| reads fibs => fibs[s].perDstFib - {dst});
    forall d: nat, s: nat | d < |views| && d != dst && s < |views[d]| && s < |rest|
      ensures views[d][s] == RowIn(rest[s], d)
    {
      assert Shows(fibs, d, views[d]);
      assert views[d][s] == fibs[s].Row(d);
    }
  }

  lemma Unfocus(fibs: seq<AbstractFib>, views: seq<View>, dst: nat, w: View, rest: seq<FibMap>)
    requires Hold(fibs, dst, w, rest) && RestShows(rest, dst, views) && |views| == |fibs|
    ensures HoldAll(fibs, views[dst := w])
  {
    forall d: nat | d < |views| && d != dst
      ensures Shows(fibs, d, views[d])
    {
      forall s: nat {:trigger fibs[s]} | s < |fibs|
        ensures views[d][s] == fibs[s].Row(d)
      {
        assert views[d][s] == RowIn(rest[s], d);
        assert fibs[s].perDstFib - {dst} == rest[s];
        assert d in rest[s] <==> d in fibs[s].perDstFib;
      }
    }
  }

  ghost predicate AllChecked(views: seq<View>) {
    forall d: nat {:trigger views[d]} :: d < |views| ==> Checked(views[d])
  }

  lemma AllCheckedAt(views: seq<View>, d: nat)
    requires AllChecked(views) && d < |views|
    ensures Checked(views[d])
  {
  }

  lemma HoldAllFacts(fibs: seq<AbstractFib>, views: seq<View>)
    requires HoldAll(fibs, views)
    ensures |views| == |fibs|
  {
  }

  /** The UPWARD entries in the views of the first `n` destinations. */
  ghost function UpwardCount(views: seq<View>, n: nat): nat
    requires n <= |views|
  {
    if n == 0 then 0 else UpwardCount(views, n - 1) + |Upward(views[n - 1])|
  }

  lemma {:induction false} UpwardCountPrefix(a: seq<View>, b: seq<View>, n: nat)
    requires n <= |a| && n <= |b| && a[..n] == b[..n]
    ensures UpwardCount(a, n) == UpwardCount(b, n)
  {
    if n > 0 {
      assert a[..n - 1] == a[..n][..n - 1] && b[..n - 1] == b[..n][..n - 1];
      assert a[..n][n - 1] == b[..n][n - 1];
      UpwardCountPrefix(a, b, n - 1);
    }
  }
}
