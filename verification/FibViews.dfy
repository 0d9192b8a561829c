/** What the abstract FIBs of all nodes say about one destination: row `s` is the set of
    nexthops of node `s`. Every property of the pipeline is stated on such views. */
module FibViews {
  import opened Digraph
  import opened NextHops

  type View = seq<set<FibNextHop>>
  /** A FIB entry together with the node that holds it. */
  type Candidate = (nat, FibNextHop)

  function Arcs(v: View): (g: set<Arc>)
    ensures forall s: nat, u: nat :: HasArc(g, s, u) <==> s < |v| && HasNexthop(v[s], u)
  {
    set s: nat, nh | 0 <= s < |v| && nh in v[s] :: (s, nh.nhId)
  }

  function Upward(v: View): (r: set<Candidate>)
    ensures forall c: Candidate :: c in r <==> c.0 < |v| && c.1 in v[c.0] && c.1.kind == UPWARD
  {
    set s: nat, nh | 0 <= s < |v| && nh in v[s] && nh.kind == UPWARD :: (s, nh)
  }

  /** Node `s` has well-typed entries for `dst`, one per neighbour, of which a DOWNWARD
      entry leads strictly closer and an UPWARD entry does not; a node with entries has
      a DOWNWARD one, and an entry never points to a node without entries. */
  ghost predicate RowOk(v: View, dist: seq<nat>, dst: nat, s: nat)
    requires |v| == |dist| && s < |v|
  {
    && OnePerNexthop(v[s])
    && (forall nh :: nh in v[s] ==>
        && nh.nhId < |v|
        && nh.kind != DISABLED
        && (nh.kind == DOWNWARD <==> dist[nh.nhId] < dist[s])
        && (nh.nhId != dst ==> v[nh.nhId] != {}))
    && (v[s] != {} ==> HasDownward(v[s]))
  }

  ghost predicate WellFormed(v: View, dist: seq<nat>, dst: nat) {
    && |v| == |dist|
    && dst < |v|
    && v[dst] == {}
    && forall s: nat :: s < |v| ==> RowOk(v, dist, dst, s)
  }

  ghost predicate Within(w: View, v: View) {
    |w| == |v| && forall s: nat, nh :: s < |v| && nh in w[s] ==> nh in v[s]
  }

  /** `w` comes from `v` by deleting UPWARD entries only. */
  ghost predicate Thins(v: View, w: View) {
    && Within(w, v)
    && forall s: nat, nh {:trigger nh in v[s]} {:trigger nh in w[s]} ::
         s < |v| && nh in v[s] && nh !in w[s] ==> nh.kind == UPWARD
  }

  lemma ThinsTransitive(u: View, v: View, w: View)
    requires Thins(u, v) && Thins(v, w)
    ensures Thins(u, w)
  {
  }

  function Drop(v: View, c: Candidate): View
    requires c.0 < |v|
  {
    v[c.0 := v[c.0] - {c.1}]
  }

  lemma DropThins(v: View, c: Candidate)
    requires c in Upward(v)
    ensures Thins(v, Drop(v, c))
    ensures Upward(Drop(v, c)) == Upward(v) - {c}
  {
  }

  /** Erasing a FIB entry erases exactly its arc. */
  lemma DropArc(v: View, c: Candidate)
    requires c.0 < |v| && c.1 in v[c.0] && OnePerNexthop(v[c.0])
    ensures Arcs(Drop(v, c)) == Arcs(v) - {(c.0, c.1.nhId)}
  {
    var d := Drop(v, c);
    forall s: nat, u: nat
      ensures HasArc(Arcs(d), s, u) <==> HasArc(Arcs(v), s, u) && (s, u) != (c.0, c.1.nhId)
    {
      if s < |v| && HasNexthop(v[s], u) && (s, u) != (c.0, c.1.nhId) {
        var nh :| nh in v[s] && nh.nhId == u;
        assert nh in d[s];
      }
    }
    forall a: Arc
      ensures a in Arcs(d) <==> a in Arcs(v) - {(c.0, c.1.nhId)}
    {
      assert HasArc(Arcs(d), a.0, a.1) <==> HasArc(Arcs(v), a.0, a.1) && a != (c.0, c.1.nhId);
    }
  }

  lemma WithinArcs(w: View, v: View)
    requires Within(w, v)
    ensures Arcs(w) <= Arcs(v)
  {
    forall a: Arc | a in Arcs(w)
      ensures a in Arcs(v)
    {
      assert HasArc(Arcs(w), a.0, a.1);
      var nh :| nh in w[a.0] && nh.nhId == a.1;
      assert nh in v[a.0];
      assert HasArc(Arcs(v), a.0, a.1);
    }
  }

  /** Deleting UPWARD entries keeps a view well-formed. */
  lemma ThinsWellFormed(v: View, w: View, dist: seq<nat>, dst: nat)
    requires WellFormed(v, dist, dst)
    requires Thins(v, w)
    ensures WellFormed(w, dist, dst)
  {
    forall s: nat | s < |w|
      ensures RowOk(w, dist, dst, s)
    {
      assert RowOk(v, dist, dst, s);
      forall t: nat | t < |v| && v[t] != {}
        ensures HasDownward(w[t])
      {
        assert RowOk(v, dist, dst, t);
        var nh :| nh in v[t] && nh.kind == DOWNWARD;
        assert nh in w[t];
      }
    }
    assert RowOk(v, dist, dst, dst);
  }

  /** Every UPWARD entry is matched by a DOWNWARD entry in the opposite direction. */
  ghost predicate Opposed(v: View) {
    forall c: Candidate :: c in Upward(v) ==>
      c.1.nhId < |v| && exists e :: e in v[c.1.nhId] && e.nhId == c.0 && e.kind == DOWNWARD
  }

  /** The head of the entry can get back to its holder without the opposite arc. */
  ghost predicate Returns(v: View, c: Candidate) {
    Reaches(Arcs(v) - {(c.1.nhId, c.0)}, c.1.nhId, c.0)
  }

  lemma ReturnsMonotone(w: View, v: View, c: Candidate)
    requires Within(w, v)
    requires Returns(w, c)
    ensures Returns(v, c)
  {
    WithinArcs(w, v);
    ReachesMonotone(Arcs(w) - {(c.1.nhId, c.0)}, Arcs(v) - {(c.1.nhId, c.0)}, c.1.nhId, c.0);
  }

  /** No packet sent over an UPWARD entry can come back over a third node. */
  ghost predicate LoopFree(v: View) {
    forall c: Candidate :: c in Upward(v) ==> !Returns(v, c)
  }

  lemma LoopFreeShrinks(v: View, w: View)
    requires LoopFree(v) && Thins(v, w)
    ensures LoopFree(w)
  {
    forall c: Candidate | c in Upward(w)
      ensures !Returns(w, c)
    {
      assert c in Upward(v);
      if Returns(w, c) {
        ReturnsMonotone(w, v, c);
      }
    }
  }

  ghost predicate HasExit(v: View, t: nat, from: nat)
    requires t < |v|
  {
    exists e :: e in v[t] && e.nhId != from
  }

  /** Whoever receives a packet from a neighbour has somewhere else to send it. */
  ghost predicate NoDeadEnds(v: View, dst: nat) {
    forall s: nat, nh :: s < |v| && nh in v[s] && nh.nhId != dst ==>
      nh.nhId < |v| && HasExit(v, nh.nhId, s)
  }

  lemma {:induction false} PairsCount(s: nat, row: set<FibNextHop>)
    ensures |set nh | nh in row :: (s, nh)| == |row|
  {
    var pairs := set nh | nh in row :: (s, nh);
    if row == {} {
      assert pairs == {};
    } else {
      var x :| x in row;
      PairsCount(s, row - {x});
      assert pairs == (set nh | nh in row - {x} :: (s, nh)) + {(s, x)};
    }
  }

  function UpwardBelow(v: View, n: nat): set<Candidate> {
    set c | c in Upward(v) && c.0 < n
  }

  lemma UpwardBelowNext(v: View, n: nat)
    requires n < |v|
    ensures |UpwardBelow(v, n + 1)| == |UpwardBelow(v, n)| + |UpwardOf(v[n])|
  {
    PairsCount(n, UpwardOf(v[n]));
    var pairs := set nh | nh in UpwardOf(v[n]) :: (n, nh);
    assert UpwardBelow(v, n + 1) == UpwardBelow(v, n) + pairs;
    assert UpwardBelow(v, n) !! pairs;
  }
}
