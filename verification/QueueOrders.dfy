/** The queues leave no choice: on checked views the priority queue and the worklist deliver
    their entries in one order only, so that both passes have one outcome. */
module QueueOrders {
  import opened FibViews
  import opened NodeFibs
  import opened NodePriorities
  import L = LoopChecks
  import Q = LoopRemoval
  import D = DeadEndChecks
  import W = DeadEndRemoval

  lemma SameEntry(v: View, c: Candidate, d: Candidate)
    requires Checked(v) && c in Upward(v) && d in Upward(v) && c.0 == d.0 && c.1.nhId == d.1.nhId
    ensures c == d
  {
    CheckedRow(v, c.0);
  }

  /** Only one pending entry comes first. */
  lemma FirstIsUnique(v: View, pending: set<Candidate>, c: Candidate, d: Candidate)
    requires Checked(v) && pending <= Upward(v) && Q.First(v, pending, c) && Q.First(v, pending, d)
    ensures c == d
  {
    hide Checked;
    KeyTotal(Q.KeyIn(v, c), Q.KeyIn(v, d));
    SameEntry(v, c, d);
  }

  /** What comes first in the queue: of the nodes with pending entries one with most nexthops left,
      of these one with the entry of the highest extra cost, then the highest cost, then the
      highest nexthop id, then the highest node id. */
  lemma FirstIff(v: View, pending: set<Candidate>, c: Candidate)
    requires c in pending && forall x :: x in pending ==> x.0 < |v|
    ensures Q.First(v, pending, c) <==>
              forall x :: x in pending ==>
                && |v[x.0]| <= |v[c.0]|
                && (|v[x.0]| == |v[c.0]| ==>
                    && x.1.costDelta <= c.1.costDelta
                    && (x.1.costDelta == c.1.costDelta ==>
                        && x.1.cost <= c.1.cost
                        && (x.1.cost == c.1.cost ==>
                            && x.1.nhId <= c.1.nhId
                            && (x.1.nhId == c.1.nhId ==> x.0 <= c.0))))
  {
  }

  lemma {:induction false} HighestExists(v: View, pending: set<Candidate>) returns (c: Candidate)
    requires pending != {} && pending <= Upward(v)
    ensures Q.First(v, pending, c)
  {
    var x :| x in pending;
    var rest := pending - {x};
    assert pending == rest + {x};
    if rest == {} {
      c := x;
    } else {
      var y := HighestExists(v, rest);
      assert rest <= Upward(v) && y in Upward(v);
      c := if KeyLess(Q.KeyIn(v, y), Q.KeyIn(v, x)) then x else y;
      forall z | z in pending
        ensures !KeyLess(Q.KeyIn(v, c), Q.KeyIn(v, z))
      {
        if z != x {
          KeyOrder(Q.KeyIn(v, c), Q.KeyIn(v, y), Q.KeyIn(v, z));
        }
      }
    }
  }

  lemma {:induction false} PrefixIsRun(v: View, order: seq<Candidate>, n: nat)
    requires L.Possible(v, order) && Q.ByPriority(v, order) && n <= |order|
    ensures L.Possible(v, order[..n]) && Q.ByPriority(v, order[..n])
    ensures n < |order| ==>
              && !L.After(v, order[..n]).aborted && order[n] in L.After(v, order[..n]).pending
              && Q.First(L.After(v, order[..n]).view, L.After(v, order[..n]).pending, order[n])
    decreases |order|
  {
    hide L.After, Q.First;
    if n == |order| {
      assert order[..n] == order;
    } else {
      var init := order[..|order| - 1];
      assert init[..n] == order[..n];
      if n < |init| {
        PrefixIsRun(v, init, n);
      } else {
        assert order[..n] == init;
      }
    }
  }

  lemma RunState(v: View, order: seq<Candidate>)
    requires Checked(v) && L.Possible(v, order)
    ensures Checked(L.After(v, order).view) && L.After(v, order).pending <= Upward(L.After(v, order).view)
  {
    hide Checked;
    L.AlwaysSound(v, order);
    ThinsChecked(v, L.After(v, order).view);
  }

  /** Two runs of the queue agree as far as both go. */
  lemma {:induction false} RunsAgree(v: View, a: seq<Candidate>, b: seq<Candidate>)
    requires Checked(v) && L.Possible(v, a) && Q.ByPriority(v, a) && L.Possible(v, b) && Q.ByPriority(v, b)
    requires |a| <= |b|
    ensures a == b[..|a|]
    decreases |a|
  {
    hide Checked, L.After, Q.First;
    if a != [] {
      var n := |a| - 1;
      PrefixIsRun(v, a, n);
      PrefixIsRun(v, b, n);
      RunsAgree(v, a[..n], b);
      RunState(v, a[..n]);
      FirstIsUnique(L.After(v, a[..n]).view, L.After(v, a[..n]).pending, a[n], b[n]);
      assert a == a[..n] + [a[n]];
      assert b[..|a|] == b[..n] + [b[n]];
    }
  }

  ghost predicate Ended(v: View, order: seq<Candidate>) {
    L.Possible(v, order) && Q.ByPriority(v, order) && (L.After(v, order).aborted || L.After(v, order).pending == {})
  }

  lemma EndedNotLonger(v: View, a: seq<Candidate>, b: seq<Candidate>)
    requires Checked(v) && Ended(v, a) && L.Possible(v, b) && Q.ByPriority(v, b)
    ensures |b| <= |a|
  {
    hide Checked, L.After, Q.First, L.Possible, Q.ByPriority;
    if |b| > |a| {
      RunsAgree(v, a, b);
      PrefixIsRun(v, b, |a|);
    }
  }

  /** A view has only one run that ends. */
  lemma EndIsUnique(v: View, a: seq<Candidate>, b: seq<Candidate>)
    requires Checked(v) && Ended(v, a) && Ended(v, b)
    ensures a == b
  {
    hide Checked, L.After, Q.First, L.Possible, Q.ByPriority;
    EndedNotLonger(v, a, b);
    EndedNotLonger(v, b, a);
    RunsAgree(v, a, b);
    assert b[..|b|] == b;
  }

  /** From any run on, the queue reaches an end. */
  lemma {:induction false} RunEnds(v: View, order: seq<Candidate>) returns (end: seq<Candidate>)
    requires Checked(v) && L.Possible(v, order) && Q.ByPriority(v, order)
    ensures Ended(v, end)
    decreases |L.After(v, order).pending|, if L.After(v, order).aborted then 0 else 1
  {
    hide Checked, Q.First, Returns, L.HasOpposite;
    var st := L.After(v, order);
    if st.aborted || st.pending == {} {
      end := order;
    } else {
      RunState(v, order);
      var c := HighestExists(st.view, st.pending);
      FirstIsIn(st.view, st.pending, c);
      Q.ProgressNext(v, order, st, c);
      end := RunEnds(v, order + [c]);
    }
  }

  lemma FirstIsIn(v: View, pending: set<Candidate>, c: Candidate)
    requires pending <= Upward(v) && Q.First(v, pending, c)
    ensures c in pending && c.0 < |v|
  {
  }

  lemma NoChecksYet(v: View)
    ensures L.Possible(v, []) && Q.ByPriority(v, [])
  {
  }

  /** Loop removal either aborts or leaves one view, and which of both the view alone decides. */
  lemma LoopRemovalIsDecided(v: View)
    requires Checked(v)
    ensures Q.Aborts(v) <==> !exists w :: Q.Cleared(v, w)
    ensures forall w, x :: Q.Cleared(v, w) && Q.Cleared(v, x) ==> w == x
  {
    hide Checked, L.After, L.Possible, Q.ByPriority;
    NoChecksYet(v);
    var end := RunEnds(v, []);
    if L.After(v, end).aborted {
      assert Q.Aborts(v);
    } else {
      assert Q.Cleared(v, L.After(v, end).view);
    }
    forall w | Q.Cleared(v, w)
      ensures !L.After(v, end).aborted && w == L.After(v, end).view
    {
      var order :| L.Completed(v, order) && Q.ByPriority(v, order) && L.After(v, order).view == w;
      EndIsUnique(v, order, end);
    }
    if Q.Aborts(v) {
      var order :| L.Aborting(v, order) && Q.ByPriority(v, order);
      EndIsUnique(v, order, end);
    }
  }

  /** What comes first on the worklist: the entries of the lowest node id, of these one of the
      lowest extra cost, then the lowest cost, then the lowest nexthop id. */
  lemma FirstOfWorkIff(work: set<Candidate>, c: Candidate)
    requires c in work
    ensures (forall x :: x in work ==> !W.Before(x, c)) <==>
              forall x :: x in work ==>
                && c.0 <= x.0
                && (c.0 == x.0 ==>
                    && c.1.costDelta <= x.1.costDelta
                    && (c.1.costDelta == x.1.costDelta ==>
                        && c.1.cost <= x.1.cost
                        && (c.1.cost == x.1.cost ==> c.1.nhId <= x.1.nhId)))
  {
  }

  lemma SameWork(v: View, dist: seq<nat>, dst: nat, c: Candidate, d: Candidate)
    requires WellFormed(v, dist, dst) && c in Upward(v) && d in Upward(v) && !W.Before(c, d) && !W.Before(d, c)
    ensures c == d
  {
    WellFormedIsChecked(v, dist, dst);
    hide WellFormed, Checked;
    SameEntry(v, c, d);
  }

  lemma {:induction false} PrefixOfWork(v: View, dst: nat, order: seq<Candidate>, n: nat)
    requires D.Possible(v, dst, order) && W.FirstFirst(v, dst, order) && n <= |order|
    ensures D.Possible(v, dst, order[..n]) && W.FirstFirst(v, dst, order[..n])
    ensures n < |order| ==>
              && order[n] in D.After(v, dst, order[..n]).work
              && forall x :: x in D.After(v, dst, order[..n]).work ==> !W.Before(x, order[n])
    decreases |order|
  {
    hide D.After, W.Before;
    if n == |order| {
      assert order[..n] == order;
    } else {
      var init := order[..|order| - 1];
      assert init[..n] == order[..n];
      if n < |init| {
        PrefixOfWork(v, dst, init, n);
      } else {
        assert order[..n] == init;
      }
    }
  }

  /** Two runs of the worklist agree as far as both go. */
  lemma {:induction false} WorkAgrees(v: View, dist: seq<nat>, dst: nat, a: seq<Candidate>, b: seq<Candidate>)
    requires WellFormed(v, dist, dst) && |a| <= |b|
    requires D.Possible(v, dst, a) && W.FirstFirst(v, dst, a) && D.Possible(v, dst, b) && W.FirstFirst(v, dst, b)
    ensures a == b[..|a|]
    decreases |a|
  {
    hide WellFormed, D.After, W.Before;
    if a != [] {
      var n := |a| - 1;
      PrefixOfWork(v, dst, a, n);
      PrefixOfWork(v, dst, b, n);
      WorkAgrees(v, dist, dst, a[..n], b);
      D.AlwaysSound(v, dist, dst, a[..n]);
      SameWork(D.After(v, dst, a[..n]).view, dist, dst, a[n], b[n]);
      assert a == a[..n] + [a[n]];
      assert b[..|a|] == b[..n] + [b[n]];
    }
  }

  /** Dead-end removal leaves one view. */
  lemma DeadEndRemovalIsDecided(v: View, dist: seq<nat>, dst: nat, w: View, x: View)
    requires WellFormed(v, dist, dst) && W.Trimmed(v, dst, w) && W.Trimmed(v, dst, x)
    ensures w == x
  {
    hide WellFormed, D.After, D.Possible, W.FirstFirst;
    var a :| D.Completed(v, dst, a) && W.FirstFirst(v, dst, a) && D.After(v, dst, a).view == w;
    var b :| D.Completed(v, dst, b) && W.FirstFirst(v, dst, b) && D.After(v, dst, b).view == x;
    if |a| <= |b| {
      EmptyWorkEnds(v, dist, dst, a, b);
    } else {
      EmptyWorkEnds(v, dist, dst, b, a);
    }
  }

  lemma EmptyWorkEnds(v: View, dist: seq<nat>, dst: nat, a: seq<Candidate>, b: seq<Candidate>)
    requires WellFormed(v, dist, dst) && |a| <= |b| && D.Completed(v, dst, a) && W.FirstFirst(v, dst, a)
    requires D.Possible(v, dst, b) && W.FirstFirst(v, dst, b)
    ensures a == b
  {
    hide WellFormed, D.After, D.Possible, W.FirstFirst, W.Before;
    WorkAgrees(v, dist, dst, a, b);
    PrefixOfWork(v, dst, b, |a|);
    assert b[..|b|] == b;
  }

  /** One more check of a run. */
  lemma StepTo(v: View, order: seq<Candidate>, st: L.LoopState, c: Candidate, next: L.LoopState)
    requires Q.Progress(v, order, st) && !st.aborted && c.0 < |st.view| && Q.First(st.view, st.pending, c)
    requires L.Check(st, c) == next
    ensures Q.Progress(v, order + [c], next)
  {
    hide L.Check, Q.First, Q.ByPriority;
    Q.ProgressNext(v, order, st, c);
  }

  lemma ProgressClears(v: View, order: seq<Candidate>, w: View)
    requires Q.Progress(v, order, L.LoopState(w, {}, false))
    ensures Q.Cleared(v, w)
  {
    hide Q.ByPriority, L.After, L.Possible;
    assert L.Completed(v, order);
  }

  /** One more step of the worklist. */
  lemma WorkTo(v: View, dst: nat, order: seq<Candidate>, st: D.DeadEndState, c: Candidate, next: D.DeadEndState)
    requires W.Progress(v, dst, order, st) && c.0 < |st.view| && |st.view| == |v|
    requires c in st.work && forall x :: x in st.work ==> !W.Before(x, c)
    requires D.Examine(st, dst, c) == next
    ensures W.Progress(v, dst, order + [c], next)
  {
    hide D.Examine, W.Before;
    D.AfterNext(v, dst, order, c);
    assert (order + [c])[..|order|] == order;
  }
}
