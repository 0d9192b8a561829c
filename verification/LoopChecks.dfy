/** Loop removal for one destination as a transition system: in some order, every UPWARD
    entry is checked once, and erased when its head can get back to its holder. */
module LoopChecks {
  import opened Digraph
  import opened NextHops
  import opened FibViews

  datatype LoopState = LoopState(view: View, pending: set<Candidate>, aborted: bool)

  function Start(v: View): LoopState {
    LoopState(v, Upward(v), false)
  }

  /** The opposite arc of the entry, which the check takes out of the graph and puts back. */
  predicate HasOpposite(v: View, c: Candidate) {
    HasArc(Arcs(v), c.1.nhId, c.0)
  }

  /** One check. A looping entry is erased, but the code aborts when the opposite arc is
      missing at that moment. */
  ghost function Check(st: LoopState, c: Candidate): LoopState
    requires c.0 < |st.view|
  {
    if !Returns(st.view, c) then st.(pending := st.pending - {c})
    else if !HasOpposite(st.view, c) then st.(aborted := true)
    else st.(view := Drop(st.view, c), pending := st.pending - {c})
  }

  ghost function After(v: View, order: seq<Candidate>): (st: LoopState)
    ensures |st.view| == |v|
  {
    if order == [] then Start(v)
    else
      var prev := After(v, order[..|order| - 1]);
      var c := order[|order| - 1];
      if c.0 < |v| then Check(prev, c) else prev
  }

  /** Each check takes an entry that is still pending, and nothing follows an abort. */
  ghost predicate Possible(v: View, order: seq<Candidate>) {
    order == [] ||
    (var init := order[..|order| - 1];
     && Possible(v, init)
     && !After(v, init).aborted
     && order[|order| - 1] in After(v, init).pending)
  }

  ghost predicate Completed(v: View, order: seq<Candidate>) {
    Possible(v, order) && !After(v, order).aborted && After(v, order).pending == {}
  }

  ghost predicate Aborting(v: View, order: seq<Candidate>) {
    Possible(v, order) && After(v, order).aborted
  }

  /** Extending an order by one check. */
  lemma AfterNext(v: View, order: seq<Candidate>, c: Candidate)
    requires Possible(v, order) && !After(v, order).aborted && c in After(v, order).pending
    requires c.0 < |v|
    ensures Possible(v, order + [c])
    ensures After(v, order + [c]) == Check(After(v, order), c)
  {
    assert (order + [c])[..|order|] == order;
  }

  /** What every check keeps: only UPWARD entries are gone and each had a loop; an entry
      already checked still has none, however many entries were erased since. */
  ghost predicate Sound(v: View, st: LoopState) {
    && Thins(v, st.view)
    && st.pending <= Upward(st.view)
    && (forall c :: c in Upward(st.view) && c !in st.pending ==> !Returns(st.view, c))
    && (forall c :: c in Upward(v) && c !in Upward(st.view) ==> Returns(v, c))
    && (st.aborted ==> exists c :: c in st.pending && Returns(st.view, c) && !HasOpposite(st.view, c))
  }

  lemma CheckKeepsSound(v: View, st: LoopState, c: Candidate)
    requires Sound(v, st) && !st.aborted && c in st.pending
    ensures Sound(v, Check(st, c))
  {
    var next := Check(st, c);
    if Returns(st.view, c) && HasOpposite(st.view, c) {
      DropThins(st.view, c);
      ThinsTransitive(v, st.view, next.view);
      forall x | x in Upward(next.view) && x !in next.pending
        ensures !Returns(next.view, x)
      {
        if Returns(next.view, x) {
          ReturnsMonotone(next.view, st.view, x);
        }
      }
      ReturnsMonotone(st.view, v, c);
    }
  }

  lemma {:induction false} AlwaysSound(v: View, order: seq<Candidate>)
    requires Possible(v, order)
    ensures Sound(v, After(v, order))
  {
    if order != [] {
      var init := order[..|order| - 1];
      AlwaysSound(v, init);
      CheckKeepsSound(v, After(v, init), order[|order| - 1]);
    }
  }

  /** Loop freedom: whenever the checks complete, whatever their order, no remaining UPWARD
      entry can be part of a loop over a third node, and only UPWARD entries are gone. */
  lemma LoopFreedom(v: View, order: seq<Candidate>)
    requires Completed(v, order)
    ensures LoopFree(After(v, order).view)
    ensures Thins(v, After(v, order).view)
  {
    AlwaysSound(v, order);
  }

  /** The number of checks is bounded: each one settles a different UPWARD entry. */
  lemma {:induction false} ChecksAreBounded(v: View, order: seq<Candidate>)
    requires Possible(v, order) && !After(v, order).aborted
    ensures |order| + |After(v, order).pending| == |Upward(v)|
  {
    if order != [] {
      var init := order[..|order| - 1];
      ChecksAreBounded(v, init);
      AlwaysSound(v, init);
    }
  }

  /** An UPWARD entry that loops at the outset, and whose opposite arc is either absent at
      the outset or is itself an UPWARD entry that loops and so may be erased first. */
  ghost predicate Dangerous(v: View, c: Candidate) {
    && c in Upward(v)
    && Returns(v, c)
    && (HasOpposite(v, c) ==> exists e :: e in Upward(v) && e != c && IsOpposite(e, c) && Returns(v, e))
  }

  predicate IsOpposite(e: Candidate, c: Candidate) {
    e.0 == c.1.nhId && e.1.nhId == c.0
  }

  ghost predicate Risky(v: View) {
    exists c :: Dangerous(v, c)
  }

  ghost predicate SingleEntries(v: View) {
    forall s: nat :: s < |v| ==> OnePerNexthop(v[s])
  }

  lemma AbortNeedsRisk(v: View, order: seq<Candidate>)
    requires Aborting(v, order)
    ensures Risky(v)
  {
    AlwaysSound(v, order);
    var st := After(v, order);
    var c :| c in st.pending && Returns(st.view, c) && !HasOpposite(st.view, c);
    ReturnsMonotone(st.view, v, c);
    if HasOpposite(v, c) {
      var e :| e in v[c.1.nhId] && e.nhId == c.0;
      assert e !in st.view[c.1.nhId];
      assert (c.1.nhId, e) in Upward(v);
      assert IsOpposite((c.1.nhId, e), c);
    }
    assert Dangerous(v, c);
  }

  lemma RiskAborts(v: View)
    requires Risky(v) && SingleEntries(v)
    ensures exists order :: Aborting(v, order)
  {
    var c :| Dangerous(v, c);
    var s, u := c.0, c.1.nhId;
    if HasOpposite(v, c) {
      var e :| e in Upward(v) && e != c && IsOpposite(e, c) && Returns(v, e);
      assert HasOpposite(v, e) by {
        assert c.1 in v[s];
      }
      AfterNext(v, [], e);
      var st := After(v, [e]);
      assert [] + [e] == [e];
      assert st == LoopState(Drop(v, e), Upward(v) - {e}, false);
      DropArc(v, e);
      assert Arcs(st.view) - {(u, s)} == Arcs(v) - {(u, s)};
      AfterNext(v, [e], c);
      assert Aborting(v, [e] + [c]);
    } else {
      AfterNext(v, [], c);
      assert Aborting(v, [] + [c]);
    }
  }

  /** Exactly when loop removal is safe from aborting in every order of checks. */
  lemma AbortsIffRisky(v: View)
    requires SingleEntries(v)
    ensures (exists order :: Aborting(v, order)) <==> Risky(v)
  {
    if order :| Aborting(v, order) {
      AbortNeedsRisk(v, order);
    }
    if Risky(v) {
      RiskAborts(v);
    }
  }

  /** With a DOWNWARD entry opposite to every UPWARD one there is no risk. */
  lemma OpposedIsSafe(v: View)
    requires Opposed(v) && SingleEntries(v)
    ensures !Risky(v)
  {
    forall c: Candidate
      ensures !Dangerous(v, c)
    {
      if c in Upward(v) {
        var d :| d in v[c.1.nhId] && d.nhId == c.0 && d.kind == DOWNWARD;
        assert OnePerNexthop(v[c.1.nhId]);
        assert HasOpposite(v, c);
        forall e: Candidate | e.0 == c.1.nhId && e.1 in v[c.1.nhId] && e.1.nhId == c.0
          ensures e.1.kind == DOWNWARD
        {
          assert e.1 == d;
        }
      }
    }
  }
}
