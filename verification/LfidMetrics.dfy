/** How LFID sets a node's face metrics to infinity and puts them back, remembering them by
    neighbour id. */
module LfidMetrics {
  import opened Networks
  import opened Routers
  import opened LfidRows

  /** Every link of the node has a face of its own. */
  ghost predicate OwnFaces(g: Graph, s: nat) {
    && s < |g.links|
    && (forall i :: 0 <= i < |g.links[s]| ==> g.links[s][i].face.Some? && g.links[s][i].face.value in g.metric)
    && (forall i, j :: 0 <= i < j < |g.links[s]| ==> g.links[s][i].face != g.links[s][j].face)
  }

  function MetricOf(g: Graph, l: Incidency): nat {
    if l.face.Some? && l.face.value in g.metric then g.metric[l.face.value] else 0
  }

  /** The metrics remembered after the first `k` links: a later link to the same neighbour
      overwrites an earlier one. */
  function Remembered(g: Graph, s: nat, k: nat): map<nat, nat>
    requires s < |g.links| && k <= |g.links[s]|
  {
    if k == 0 then map[]
    else Remembered(g, s, k - 1)[g.links[s][k - 1].target := MetricOf(g, g.links[s][k - 1])]
  }

  lemma {:induction false} RememberedIsSome(g: Graph, s: nat, k: nat, i: nat) returns (last: nat)
    requires s < |g.links| && i < k <= |g.links[s]|
    ensures g.links[s][i].target in Remembered(g, s, k)
    ensures last < k && g.links[s][last].target == g.links[s][i].target
    ensures Remembered(g, s, k)[g.links[s][i].target] == MetricOf(g, g.links[s][last])
  {
    if g.links[s][k - 1].target == g.links[s][i].target {
      last := k - 1;
    } else {
      last := RememberedIsSome(g, s, k - 1, i);
    }
  }

  predicate IsFaceOf(g: Graph, s: nat, k: nat, f: Face)
    requires s < |g.links| && k <= |g.links[s]|
  {
    exists i :: 0 <= i < k && g.links[s][i].face == Some(f)
  }

  /** The metrics while the first `k` faces are disabled. */
  ghost predicate DisabledUpTo(g: Graph, s: nat, k: nat, m: map<Face, nat>)
    requires s < |g.links| && k <= |g.links[s]|
  {
    m.Keys == g.metric.Keys
    && forall f :: f in m ==> m[f] == if IsFaceOf(g, s, k, f) then INF else g.metric[f]
  }

  lemma DisabledNext(g: Graph, s: nat, k: nat, m: map<Face, nat>)
    requires OwnFaces(g, s) && k < |g.links[s]| && DisabledUpTo(g, s, k, m)
    ensures g.links[s][k].face.value in m
    ensures m[g.links[s][k].face.value] == MetricOf(g, g.links[s][k])
    ensures DisabledUpTo(g, s, k + 1, m[g.links[s][k].face.value := INF])
  {
    var f := g.links[s][k].face.value;
    var m' := m[f := INF];
    forall x | x in m'
      ensures m'[x] == if IsFaceOf(g, s, k + 1, x) then INF else g.metric[x]
    {
      if IsFaceOf(g, s, k + 1, x) && x != f {
        var i :| 0 <= i < k + 1 && g.links[s][i].face == Some(x);
        assert IsFaceOf(g, s, k, x);
      }
      if x == f {
        assert g.links[s][k].face == Some(x);
      }
    }
  }

  lemma DisabledAll(g: Graph, s: nat, m: map<Face, nat>)
    requires s < |g.links| && DisabledUpTo(g, s, |g.links[s]|, m)
    ensures m == Disable(g, s).metric
  {
    forall f | f in m
      ensures IsFaceOf(g, s, |g.links[s]|, f) <==> Owns(g, s, f)
    {
      if Owns(g, s, f) {
        var l :| l in g.links[s] && l.face == Some(f);
        var i :| 0 <= i < |g.links[s]| && g.links[s][i] == l;
      }
    }
  }

  /** Remembers the metric of every face of `s` and disables the face. */
  method DisableFaces(net: Network, s: nat) returns (original: map<nat, nat>)
    requires OwnFaces(net.State(), s)
    modifies net
    ensures net.metric == Disable(old(net.State()), s).metric
    ensures original == Remembered(old(net.State()), s, |net.links[s]|)
  {
    ghost var g := net.State();
    original := map[];
    var row := net.links[s];
    for k := 0 to |row|
      invariant DisabledUpTo(g, s, k, net.metric)
      invariant original == Remembered(g, s, k)
    {
      DisabledNext(g, s, k, net.metric);
      var face := row[k].face.value;
      original := original[row[k].target := net.metric[face]];
      net.SetMetric(face, INF);
    }
    DisabledAll(g, s, net.metric);
  }

  /** The metrics after the first `k` faces have got back what is remembered for their
      neighbour, while the others are still disabled. */
  ghost predicate RestoredUpTo(g: Graph, s: nat, k: nat, m: map<Face, nat>)
    requires s < |g.links| && k <= |g.links[s]|
  {
    && m.Keys == g.metric.Keys
    && (forall i :: 0 <= i < |g.links[s]| && g.links[s][i].face.Some? && g.links[s][i].face.value in m ==>
          m[g.links[s][i].face.value] == if i < k then RestoredMetric(g, s, i) else INF)
    && (forall f :: f in m && !IsFaceOf(g, s, |g.links[s]|, f) ==> m[f] == g.metric[f])
  }

  function RestoredMetric(g: Graph, s: nat, i: nat): nat
    requires s < |g.links| && i < |g.links[s]|
  {
    var known := Remembered(g, s, |g.links[s]|);
    if g.links[s][i].target in known then known[g.links[s][i].target] else 0
  }

  lemma RestoredNext(g: Graph, s: nat, k: nat, m: map<Face, nat>)
    requires OwnFaces(g, s) && k < |g.links[s]| && RestoredUpTo(g, s, k, m)
    ensures g.links[s][k].face.value in m && m[g.links[s][k].face.value] == INF
    ensures g.links[s][k].target in Remembered(g, s, |g.links[s]|)
    ensures RestoredUpTo(g, s, k + 1, m[g.links[s][k].face.value := RestoredMetric(g, s, k)])
  {
    var last := RememberedIsSome(g, s, |g.links[s]|, k);
    assert IsFaceOf(g, s, |g.links[s]|, g.links[s][k].face.value);
  }

  lemma RestoreStarts(g: Graph, s: nat)
    requires OwnFaces(g, s)
    ensures RestoredUpTo(g, s, 0, Disable(g, s).metric)
  {
    var m := Disable(g, s).metric;
    forall i | 0 <= i < |g.links[s]|
      ensures m[g.links[s][i].face.value] == INF
    {
      assert g.links[s][i] in g.links[s];
      assert Owns(g, s, g.links[s][i].face.value);
    }
  }

  /** Links of `s` to the same neighbour have the same metric. */
  ghost predicate ParallelAgree(g: Graph, s: nat)
    requires s < |g.links|
  {
    forall i, j :: 0 <= i < j < |g.links[s]| && g.links[s][i].target == g.links[s][j].target ==>
      MetricOf(g, g.links[s][i]) == MetricOf(g, g.links[s][j])
  }

  /** Exactly when remembering metrics by neighbour restores them all. */
  lemma RestoredIffParallelAgree(g: Graph, s: nat, m: map<Face, nat>)
    requires OwnFaces(g, s) && RestoredUpTo(g, s, |g.links[s]|, m)
    ensures m == g.metric <==> ParallelAgree(g, s)
  {
    var n := |g.links[s]|;
    forall i: nat | i < n
      ensures ParallelAgree(g, s) ==> RestoredMetric(g, s, i) == MetricOf(g, g.links[s][i])
    {
      var last := RememberedIsSome(g, s, n, i);
    }
    if ParallelAgree(g, s) {
      forall f | f in m
        ensures m[f] == g.metric[f]
      {
        if IsFaceOf(g, s, n, f) {
          var i :| 0 <= i < n && g.links[s][i].face == Some(f);
          assert m[g.links[s][i].face.value] == RestoredMetric(g, s, i);
        }
      }
    }
    if m == g.metric {
      forall i: nat | i < n
        ensures RestoredMetric(g, s, i) == MetricOf(g, g.links[s][i])
      {
        assert m[g.links[s][i].face.value] == RestoredMetric(g, s, i);
      }
    }
  }

  /** Gives every face of `s` the metric remembered for its neighbour. */
  method RestoreFaces(net: Network, s: nat, original: map<nat, nat>, ghost g: Graph)
    requires OwnFaces(g, s) && g.links == net.links
    requires net.metric == Disable(g, s).metric && original == Remembered(g, s, |g.links[s]|)
    modifies net
    ensures RestoredUpTo(g, s, |g.links[s]|, net.metric)
    ensures net.metric == g.metric <==> ParallelAgree(g, s)
  {
    var row := net.links[s];
    RestoreStarts(g, s);
    for k := 0 to |row|
      invariant RestoredUpTo(g, s, k, net.metric)
    {
      RestoredNext(g, s, k, net.metric);
      assert net.metric[row[k].face.value] == INF;
      net.SetMetric(row[k].face.value, original[row[k].target]);
    }
    RestoredIffParallelAgree(g, s, net.metric);
  }
}
