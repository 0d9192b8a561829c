/** Dead-end removal for one destination as a transition system over a worklist of UPWARD
    entries: an entry whose head has no choice is erased, which can take the choice from
    its holder, so entries leading to the holder go back on the worklist. */
module DeadEndChecks {
  import opened Digraph
  import opened NextHops
  import opened FibViews

  datatype DeadEndState = DeadEndState(view: View, work: set<Candidate>)

  function Start(v: View): DeadEndState {
    DeadEndState(v, Upward(v))
  }

  /** The entries that lead back to `s` from its DOWNWARD nexthops other than `dst`. */
  function Revisit(v: View, dst: nat, s: nat): (r: set<Candidate>)
    requires s < |v|
    ensures forall c: Candidate :: c in r <==>
              && c.1.nhId == s && c.0 < |v| && c.1 in v[c.0]
              && exists own :: own in v[s] && LeadsDownTo(own, c.0, dst)
  {
    set own, y | own in v[s] && own.kind == DOWNWARD && own.nhId != dst && own.nhId < |v|
                 && y in v[own.nhId] && y.nhId == s
      :: (own.nhId, y)
  }

  predicate LeadsDownTo(own: FibNextHop, t: nat, dst: nat) {
    own.nhId == t && own.kind == DOWNWARD && t != dst
  }

  predicate Hopeless(v: View, dst: nat, c: Candidate)
  {
    c.1.nhId != dst && c.1.nhId < |v| && |v[c.1.nhId]| <= 1
  }

  function Examine(st: DeadEndState, dst: nat, c: Candidate): DeadEndState
    requires c.0 < |st.view|
  {
    if Hopeless(st.view, dst, c) then
      var v := Drop(st.view, c);
      DeadEndState(v, st.work - {c} + Revisit(v, dst, c.0))
    else
      st.(work := st.work - {c})
  }

  function After(v: View, dst: nat, order: seq<Candidate>): (st: DeadEndState)
    ensures |st.view| == |v|
  {
    if order == [] then Start(v)
    else
      var prev := After(v, dst, order[..|order| - 1]);
      var c := order[|order| - 1];
      if c.0 < |v| then Examine(prev, dst, c) else prev
  }

  /** Each step takes an entry of the worklist, in any order. */
  predicate Possible(v: View, dst: nat, order: seq<Candidate>) {
    order == [] ||
    (var init := order[..|order| - 1];
     Possible(v, dst, init) && order[|order| - 1] in After(v, dst, init).work)
  }

  predicate Completed(v: View, dst: nat, order: seq<Candidate>) {
    Possible(v, dst, order) && After(v, dst, order).work == {}
  }

  lemma AfterNext(v: View, dst: nat, order: seq<Candidate>, c: Candidate)
    requires Possible(v, dst, order) && c in After(v, dst, order).work && c.0 < |v|
    ensures Possible(v, dst, order + [c])
    ensures After(v, dst, order + [c]) == Examine(After(v, dst, order), dst, c)
  {
    assert (order + [c])[..|order|] == order;
  }

  /** The holder's packets over this entry do not get stuck. */
  ghost predicate Fine(v: View, dst: nat, c: Candidate) {
    c.1.nhId != dst ==> c.1.nhId < |v| && HasExit(v, c.1.nhId, c.0)
  }

  /** What every step keeps. */
  ghost predicate Sound(v: View, dist: seq<nat>, dst: nat, st: DeadEndState) {
    && Thins(v, st.view)
    && WellFormed(st.view, dist, dst)
    && st.work <= Upward(st.view)
    && forall c :: c in Upward(st.view) && c !in st.work ==> Fine(st.view, dst, c)
  }

  /** A row with two entries offers an exit whatever neighbour the packet came from. */
  lemma TwoEntriesExit(v: View, t: nat, from: nat)
    requires t < |v| && |v[t]| >= 2 && OnePerNexthop(v[t])
    ensures HasExit(v, t, from)
  {
    var a :| a in v[t];
    var rest := v[t] - {a};
    assert |rest| >= 1;
    var b :| b in rest;
    assert a.nhId != b.nhId;
  }

  /** Entries that lead back to a node from its DOWNWARD nexthops are UPWARD. */
  lemma RevisitIsUpward(v: View, dist: seq<nat>, dst: nat, s: nat)
    requires WellFormed(v, dist, dst) && s < |v|
    ensures Revisit(v, dst, s) <= Upward(v)
  {
    forall c | c in Revisit(v, dst, s)
      ensures c in Upward(v)
    {
      var own :| own in v[s] && LeadsDownTo(own, c.0, dst);
      assert RowOk(v, dist, dst, s);
      assert RowOk(v, dist, dst, c.0);
    }
  }

  /** An erased entry can only strand the entries that are pushed again. */
  lemma StrandedAreRevisited(v: View, dist: seq<nat>, dst: nat, c: Candidate, x: Candidate)
    requires WellFormed(v, dist, dst) && c in Upward(v)
    requires x in Upward(Drop(v, c)) && Fine(v, dst, x)
    requires x !in Revisit(Drop(v, c), dst, c.0)
    ensures Fine(Drop(v, c), dst, x)
  {
    var w: View := Drop(v, c);
    DropThins(v, c);
    ThinsWellFormed(v, w, dist, dst);
    var t := x.1.nhId;
    if t != dst {
      if t != c.0 {
        assert w[t] == v[t];
        var e :| e in v[t] && e.nhId != x.0;
        assert e in w[t];
      } else {
        assert RowOk(w, dist, dst, x.0);
        assert RowOk(w, dist, dst, t);
        var own :| own in w[t] && own.kind == DOWNWARD;
        assert x.0 != dst;
        if own.nhId != dst {
          assert LeadsDownTo(own, own.nhId, dst);
        }
      }
    }
  }

  lemma ExamineKeepsSound(v: View, dist: seq<nat>, dst: nat, st: DeadEndState, c: Candidate)
    requires Sound(v, dist, dst, st) && c in st.work
    ensures Sound(v, dist, dst, Examine(st, dst, c))
  {
    var next := Examine(st, dst, c);
    if Hopeless(st.view, dst, c) {
      DropThins(st.view, c);
      ThinsTransitive(v, st.view, next.view);
      ThinsWellFormed(st.view, next.view, dist, dst);
      RevisitIsUpward(next.view, dist, dst, c.0);
      forall x | x in Upward(next.view) && x !in next.work
        ensures Fine(next.view, dst, x)
      {
        StrandedAreRevisited(st.view, dist, dst, c, x);
      }
    } else {
      assert RowOk(st.view, dist, dst, c.0);
      if c.1.nhId != dst {
        assert RowOk(st.view, dist, dst, c.1.nhId);
        TwoEntriesExit(st.view, c.1.nhId, c.0);
      }
    }
  }

  lemma {:induction false} AlwaysSound(v: View, dist: seq<nat>, dst: nat, order: seq<Candidate>)
    requires WellFormed(v, dist, dst) && Possible(v, dst, order)
    ensures Sound(v, dist, dst, After(v, dst, order))
  {
    if order != [] {
      var init := order[..|order| - 1];
      AlwaysSound(v, dist, dst, init);
      ExamineKeepsSound(v, dist, dst, After(v, dst, init), order[|order| - 1]);
    }
  }

  /** A step is never stuck on an empty row: the head of a pending entry has entries. */
  lemma HeadsHaveEntries(v: View, dist: seq<nat>, dst: nat, st: DeadEndState, c: Candidate)
    requires Sound(v, dist, dst, st) && c in st.work && c.1.nhId != dst
    ensures c.1.nhId < |st.view| && |st.view[c.1.nhId]| > 0
  {
    assert RowOk(st.view, dist, dst, c.0);
  }

  /** Termination although entries are pushed again: the UPWARD entries left, and then the
      worklist, shrink. */
  lemma ExamineDecreases(v: View, dist: seq<nat>, dst: nat, st: DeadEndState, c: Candidate)
    requires Sound(v, dist, dst, st) && c in st.work
    ensures
      var next := Examine(st, dst, c);
      || |Upward(next.view)| < |Upward(st.view)|
      || (next.view == st.view && |next.work| < |st.work|)
  {
    if Hopeless(st.view, dst, c) {
      DropThins(st.view, c);
    }
  }

  /** No dead ends: once the worklist is empty, whatever the order, every node that can
      receive a packet from a neighbour has an entry leading elsewhere. */
  lemma NoDeadEndsLeft(v: View, dist: seq<nat>, dst: nat, order: seq<Candidate>)
    requires WellFormed(v, dist, dst) && Completed(v, dst, order)
    ensures NoDeadEnds(After(v, dst, order).view, dst)
    ensures Thins(v, After(v, dst, order).view)
    ensures WellFormed(After(v, dst, order).view, dist, dst)
  {
    AlwaysSound(v, dist, dst, order);
    var w: View := After(v, dst, order).view;
    forall s: nat, nh | s < |w| && nh in w[s] && nh.nhId != dst
      ensures nh.nhId < |w| && HasExit(w, nh.nhId, s)
    {
      assert RowOk(w, dist, dst, s);
      if nh.kind == UPWARD {
        assert (s, nh) in Upward(w);
        assert Fine(w, dst, (s, nh));
      } else {
        var t := nh.nhId;
        assert RowOk(w, dist, dst, t);
        var down :| down in w[t] && down.kind == DOWNWARD;
        assert down.nhId != s;
      }
    }
  }

  /** Every UPWARD entry not leading to `dst` leads to a node with at least two entries. */
  ghost predicate Alive(v: View, dst: nat) {
    forall c :: c in Upward(v) && c.1.nhId != dst && c.1.nhId < |v| ==> |v[c.1.nhId]| >= 2
  }

  /** No order of steps ever erases an entry of a sub-FIB in which everything is alive. */
  lemma {:induction false} AliveSurvives(v: View, dist: seq<nat>, dst: nat, order: seq<Candidate>, a: View)
    requires WellFormed(v, dist, dst) && Possible(v, dst, order)
    requires Thins(v, a) && Alive(a, dst)
    ensures Thins(After(v, dst, order).view, a)
  {
    if order != [] {
      var init := order[..|order| - 1];
      var c := order[|order| - 1];
      AliveSurvives(v, dist, dst, init, a);
      AlwaysSound(v, dist, dst, init);
      var st := After(v, dst, init);
      if c.1 in a[c.0] {
        assert c in Upward(a);
        if c.1.nhId < |v| {
          SubsetCardinality(a[c.1.nhId], st.view[c.1.nhId]);
        }
      }
    }
  }

  lemma OpposedThins(v: View, w: View)
    requires Opposed(v) && Thins(v, w)
    ensures Opposed(w)
  {
    forall c: Candidate | c in Upward(w)
      ensures c.1.nhId < |w| && exists e :: e in w[c.1.nhId] && e.nhId == c.0 && e.kind == DOWNWARD
    {
      assert c in Upward(v);
      var e :| e in v[c.1.nhId] && e.nhId == c.0 && e.kind == DOWNWARD;
      assert e in w[c.1.nhId];
    }
  }

  lemma TwoDistinct<T>(s: set<T>, a: T, b: T)
    requires a in s && b in s && a != b
    ensures |s| >= 2
  {
    SubsetCardinality({a, b}, s);
  }

  /** Order independence: when every UPWARD entry is opposed by a DOWNWARD one, any order
      yields the greatest alive sub-FIB that keeps the DOWNWARD entries. */
  lemma GreatestAlive(v: View, dist: seq<nat>, dst: nat, order: seq<Candidate>)
    requires WellFormed(v, dist, dst) && Opposed(v) && Completed(v, dst, order)
    ensures Alive(After(v, dst, order).view, dst)
    ensures forall a :: Thins(v, a) && Alive(a, dst) ==> Within(a, After(v, dst, order).view)
  {
    NoDeadEndsLeft(v, dist, dst, order);
    var w: View := After(v, dst, order).view;
    OpposedThins(v, w);
    forall c | c in Upward(w) && c.1.nhId != dst && c.1.nhId < |w|
      ensures |w[c.1.nhId]| >= 2
    {
      var down :| down in w[c.1.nhId] && down.nhId == c.0 && down.kind == DOWNWARD;
      assert c.1 in w[c.0];
      var exit :| exit in w[c.1.nhId] && exit.nhId != c.0;
      TwoDistinct(w[c.1.nhId], down, exit);
    }
    forall a | Thins(v, a) && Alive(a, dst)
      ensures Within(a, w)
    {
      AliveSurvives(v, dist, dst, order, a);
    }
  }

  lemma OrderIndependent(v: View, dist: seq<nat>, dst: nat, order1: seq<Candidate>, order2: seq<Candidate>)
    requires WellFormed(v, dist, dst) && Opposed(v)
    requires Completed(v, dst, order1) && Completed(v, dst, order2)
    ensures After(v, dst, order1).view == After(v, dst, order2).view
  {
    GreatestAlive(v, dist, dst, order1);
    GreatestAlive(v, dist, dst, order2);
    NoDeadEndsLeft(v, dist, dst, order1);
    NoDeadEndsLeft(v, dist, dst, order2);
    var w1: View, w2: View := After(v, dst, order1).view, After(v, dst, order2).view;
    forall s: nat | s < |v|
      ensures w1[s] == w2[s]
    {
      assert forall nh :: nh in w1[s] <==> nh in w2[s];
    }
  }
}
