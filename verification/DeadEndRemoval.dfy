/** Dead-end removal over the abstract FIBs of all nodes, proved to be a run of the
    worklist steps of DeadEndChecks. */
module DeadEndRemoval {
  import opened NextHops
  import opened FibViews
  import opened AbstractFibs
  import opened NodeFibs
  import opened DeadEndChecks

  /** The worklist is ordered by node id, then by the order of nexthops. */
  predicate Before(a: Candidate, b: Candidate) {
    a.0 < b.0 || (a.0 == b.0 && Less(a.1, b.1))
  }

  method PopFirst(work: set<Candidate>) returns (c: Candidate)
    requires work != {}
    ensures c in work && forall x :: x in work ==> !Before(x, c)
  {
    c :| c in work;
    var rest := work - {c};
    while rest != {}
      invariant rest <= work && c in work
      invariant forall x :: x in work - rest ==> !Before(x, c)
    {
      var x :| x in rest;
      ghost var before := c;
      if Before(x, c) {
        c := x;
      }
      forall y | y in work - (rest - {x})
        ensures !Before(y, c)
      {
        assert y == x || !Before(y, before);
      }
      rest := rest - {x};
    }
  }

  /** The entries of `row`, held by node `t`, that lead to `s`. */
  function Leading(t: nat, row: set<FibNextHop>, s: nat): set<Candidate> {
    set y | y in row && y.nhId == s :: (t, y)
  }

  /** Finds the entry of a neighbour that leads back to `s`, if there is one. */
  method FindReverse(t: nat, row: set<FibNextHop>, s: nat) returns (r: set<Candidate>)
    requires OnePerNexthop(row)
    requires forall y :: y in row && y.nhId == s ==> y.kind == UPWARD
    ensures r == Leading(t, row, s)
  {
    r := {};
    var todo := row;
    while todo != {}
      invariant todo <= row
      invariant r == Leading(t, row - todo, s) == {}
    {
      var y :| y in todo;
      assert row - (todo - {y}) == row - todo + {y};
      if y.nhId == s {
        assert y.kind == UPWARD;
        assert Leading(t, row, s) == {(t, y)};
        return {(t, y)};
      }
      todo := todo - {y};
    }
    assert row - todo == row;
  }

  /** What the code pushes again for one of the holder's own nexthops. */
  function RevisitOver(v: View, dst: nat, s: nat, own: FibNextHop): set<Candidate> {
    if LeadsDownTo(own, own.nhId, dst) && own.nhId < |v| then Leading(own.nhId, v[own.nhId], s) else {}
  }

  function RevisitSome(v: View, dst: nat, s: nat, row: set<FibNextHop>): set<Candidate> {
    set own, c | own in row && c in RevisitOver(v, dst, s, own) :: c
  }

  lemma RevisitIsSome(v: View, dst: nat, s: nat)
    requires s < |v|
    ensures RevisitSome(v, dst, s, v[s]) == Revisit(v, dst, s)
  {
    forall c | c in Revisit(v, dst, s)
      ensures c in RevisitSome(v, dst, s, v[s])
    {
      var own :| own in v[s] && LeadsDownTo(own, c.0, dst);
      assert c in RevisitOver(v, dst, s, own);
    }
    forall c | c in RevisitSome(v, dst, s, v[s])
      ensures c in Revisit(v, dst, s)
    {
      var own :| own in v[s] && c in RevisitOver(v, dst, s, own);
      assert LeadsDownTo(own, c.0, dst);
    }
  }

  lemma RevisitSomeNext(v: View, dst: nat, s: nat, row: set<FibNextHop>, own: FibNextHop)
    ensures RevisitSome(v, dst, s, row + {own}) == RevisitSome(v, dst, s, row) + RevisitOver(v, dst, s, own)
  {
  }

  lemma RevisitSomeNone(v: View, dst: nat, s: nat)
    ensures RevisitSome(v, dst, s, {}) == {}
  {
  }

  /** An own DOWNWARD nexthop, its node, and its entries leading back. */
  lemma OwnNexthop(v: View, dist: seq<nat>, dst: nat, s: nat, own: FibNextHop)
    requires WellFormed(v, dist, dst) && s < |v| && own in v[s]
    ensures own.nhId < |v| && OnePerNexthop(v[own.nhId])
    ensures LeadsDownTo(own, own.nhId, dst) ==> forall y :: y in v[own.nhId] && y.nhId == s ==> y.kind == UPWARD
  {
    assert RowOk(v, dist, dst, s);
    assert RowOk(v, dist, dst, own.nhId);
  }

  /** The entries pushed again for one own nexthop. */
  method RevisitOne(fibs: seq<AbstractFib>, dst: nat, ghost v: View, ghost rest: seq<FibMap>, ghost dist: seq<nat>,
                    s: nat, own: FibNextHop)
    returns (r: set<Candidate>)
    requires Hold(fibs, dst, v, rest) && WellFormed(v, dist, dst) && s < |v| && own in v[s]
    ensures r == RevisitOver(v, dst, s, own)
  {
    r := {};
    OwnNexthop(v, dist, dst, s, own);
    if own.kind == DOWNWARD && own.nhId != dst {
      NodeFacts(fibs, dst, v, rest, own.nhId);
      r := FindReverse(own.nhId, fibs[own.nhId].perDstFib[dst], s);
    }
  }

  lemma HoldRow(fibs: seq<AbstractFib>, dst: nat, v: View, rest: seq<FibMap>, s: nat)
    requires Hold(fibs, dst, v, rest) && s < |v| && s != dst
    ensures s < |fibs| && dst in fibs[s].perDstFib && fibs[s].perDstFib[dst] == v[s]
  {
    NodeFacts(fibs, dst, v, rest, s);
  }

  /** Collects all entries that lead back to `s` from its DOWNWARD nexthops. */
  method CollectRevisits(fibs: seq<AbstractFib>, dst: nat, ghost v: View, ghost rest: seq<FibMap>,
                         ghost dist: seq<nat>, s: nat)
    returns (r: set<Candidate>)
    requires Hold(fibs, dst, v, rest) && WellFormed(v, dist, dst) && s < |v| && s != dst
    ensures r == Revisit(v, dst, s)
  {
    hide *;
    HoldRow(fibs, dst, v, rest, s);
    var row := fibs[s].perDstFib[dst];
    r := {};
    var todo := row;
    RevisitSomeNone(v, dst, s);
    assert row - todo == {};
    while todo != {}
      invariant Hold(fibs, dst, v, rest)
      invariant todo <= row == v[s]
      invariant r == RevisitSome(v, dst, s, row - todo)
    {
      var own :| own in todo;
      assert row - (todo - {own}) == row - todo + {own};
      RevisitSomeNext(v, dst, s, row - todo, own);
      var more := RevisitOne(fibs, dst, v, rest, dist, s, own);
      r := r + more;
      todo := todo - {own};
    }
    assert row - todo == row;
    RevisitIsSome(v, dst, s);
  }

  /** Takes the first entry of the worklist and erases it if its head has no choice. */
  method ExamineFirst(fibs: seq<AbstractFib>, dst: nat, work: set<Candidate>, ghost v: View, ghost dist: seq<nat>,
                      ghost st: DeadEndState, ghost rest: seq<FibMap>)
    returns (removed: nat, work': set<Candidate>, ghost c: Candidate)
    requires Hold(fibs, dst, st.view, rest) && Sound(v, dist, dst, st) && work == st.work != {}
    modifies fibs
    ensures c in work && c.0 < |st.view| && forall x :: x in work ==> !Before(x, c)
    ensures Hold(fibs, dst, Examine(st, dst, c).view, rest)
    ensures work' == Examine(st, dst, c).work
    ensures removed + |Upward(Examine(st, dst, c).view)| == |Upward(st.view)|
  {
    hide *;
    var first := PopFirst(work);
    c := first;
    work' := work - {first};
    removed := 0;
    var nodeId, nh := first.0, first.1;
    ExamineFacts(v, dist, dst, st, c);
    if nh.nhId == dst {
      return;
    }
    HoldRow(fibs, dst, st.view, rest, nh.nhId);
    var reverseEntries := |fibs[nh.nhId].perDstFib[dst]|;
    assert reverseEntries > 0;
    if reverseEntries <= 1 {
      removed := 1;
      EraseEntry(fibs, dst, st.view, rest, nodeId, nh);
      var again := CollectRevisits(fibs, dst, Drop(st.view, c), rest, dist, nodeId);
      work' := work' + again;
    }
  }

  /** The outcome of one step in the terms of the code. */
  lemma ExamineFacts(v: View, dist: seq<nat>, dst: nat, st: DeadEndState, c: Candidate)
    requires Sound(v, dist, dst, st) && c in st.work
    ensures c.0 < |st.view| && c.0 != dst && c in Upward(st.view) && Checked(st.view)
    ensures c.1.nhId != dst ==> c.1.nhId < |st.view| && |st.view[c.1.nhId]| > 0
    ensures |Drop(st.view, c)| == |st.view|
    ensures WellFormed(Drop(st.view, c), dist, dst)
    ensures |Upward(Drop(st.view, c))| == |Upward(st.view)| - 1
    ensures
      var next := Examine(st, dst, c);
      if c.1.nhId != dst && |st.view[c.1.nhId]| <= 1
      then next.view == Drop(st.view, c) && next.work == st.work - {c} + Revisit(Drop(st.view, c), dst, c.0)
      else next.view == st.view && next.work == st.work - {c}
  {
    assert RowOk(st.view, dist, dst, c.0);
    if c.1.nhId != dst {
      HeadsHaveEntries(v, dist, dst, st, c);
    }
    DropThins(st.view, c);
    ThinsWellFormed(st.view, Drop(st.view, c), dist, dst);
    WellFormedIsChecked(st.view, dist, dst);
  }

  function UpwardFrom(s: nat, row: set<FibNextHop>): set<Candidate> {
    set nh | nh in row && nh.kind == UPWARD :: (s, nh)
  }

  lemma UpwardBelowAdds(v: View, n: nat)
    requires n < |v|
    ensures UpwardBelow(v, n + 1) == UpwardBelow(v, n) + UpwardFrom(n, v[n])
  {
  }

  lemma UpwardBelowEnds(v: View)
    ensures UpwardBelow(v, 0) == {} && UpwardBelow(v, |v|) == Upward(v)
  {
    assert UpwardBelow(v, 0) == {};
  }

  method UpwardEntries(fibs: seq<AbstractFib>, dst: nat, ghost v: View, ghost rest: seq<FibMap>, s: nat)
    returns (r: set<Candidate>)
    requires Hold(fibs, dst, v, rest) && s < |v|
    ensures r == UpwardFrom(s, v[s])
  {
    r := {};
    NodeFacts(fibs, dst, v, rest, s);
    if s != dst {
      var uwNhSet := fibs[s].upwardPerDstFib[dst];
      r := set nh | nh in uwNhSet :: (s, nh);
    }
  }

  /** Puts all UPWARD entries for `dst` on the worklist. */
  method BuildWorklist(fibs: seq<AbstractFib>, dst: nat, ghost v: View, ghost rest: seq<FibMap>)
    returns (work: set<Candidate>)
    requires Hold(fibs, dst, v, rest)
    ensures work == Upward(v)
  {
    hide *;
    HoldLength(fibs, dst, v, rest);
    UpwardBelowEnds(v);
    work := {};
    for s: nat := 0 to |fibs|
      invariant Hold(fibs, dst, v, rest)
      invariant work == UpwardBelow(v, s)
    {
      UpwardBelowAdds(v, s);
      var more := UpwardEntries(fibs, dst, v, rest, s);
      work := work + more;
    }
  }

  /** The order in which the worklist delivers entries. */
  ghost predicate FirstFirst(v: View, dst: nat, order: seq<Candidate>) {
    order == [] ||
    (var init := order[..|order| - 1];
     && FirstFirst(v, dst, init)
     && forall x :: x in After(v, dst, init).work ==> !Before(x, order[|order| - 1]))
  }

  ghost predicate Progress(v: View, dst: nat, order: seq<Candidate>, st: DeadEndState) {
    Possible(v, dst, order) && FirstFirst(v, dst, order) && After(v, dst, order) == st
  }

  lemma ProgressStarts(v: View, dist: seq<nat>, dst: nat)
    requires WellFormed(v, dist, dst)
    ensures Progress(v, dst, [], Start(v)) && Sound(v, dist, dst, Start(v))
    ensures Start(v).work == Upward(v) && Start(v).view == v
  {
    AlwaysSound(v, dist, dst, []);
  }

  lemma ProgressNext(v: View, dist: seq<nat>, dst: nat, order: seq<Candidate>, st: DeadEndState, c: Candidate)
    requires Progress(v, dst, order, st) && Sound(v, dist, dst, st)
    requires c in st.work && c.0 < |st.view| && forall x :: x in st.work ==> !Before(x, c)
    ensures Progress(v, dst, order + [c], Examine(st, dst, c))
    ensures Sound(v, dist, dst, Examine(st, dst, c))
    ensures
      var next := Examine(st, dst, c);
      |Upward(next.view)| < |Upward(st.view)| || (next.view == st.view && |next.work| < |st.work|)
  {
    AfterNext(v, dst, order, c);
    assert (order + [c])[..|order|] == order;
    ExamineKeepsSound(v, dist, dst, st, c);
    ExamineDecreases(v, dist, dst, st, c);
  }

  /** `w` is what the worklist leaves of `v`. */
  ghost predicate Trimmed(v: View, dst: nat, w: View) {
    exists order :: Completed(v, dst, order) && FirstFirst(v, dst, order) && After(v, dst, order).view == w
  }

  lemma ProgressEnds(v: View, dst: nat, order: seq<Candidate>, st: DeadEndState)
    requires Progress(v, dst, order, st) && st.work == {}
    ensures Trimmed(v, dst, st.view)
  {
    assert Completed(v, dst, order);
  }

  /** Dead-end removal for one destination. */
  method RemoveDeadEndsFor(fibs: seq<AbstractFib>, dst: nat, ghost v: View, ghost dist: seq<nat>,
                           ghost rest: seq<FibMap>)
    returns (removed: nat, ghost w: View)
    requires Hold(fibs, dst, v, rest) && WellFormed(v, dist, dst)
    modifies fibs
    ensures Trimmed(v, dst, w) && Hold(fibs, dst, w, rest)
    ensures removed == |Upward(v)| - |Upward(w)|
  {
    hide *;
    removed := 0;
    var work := BuildWorklist(fibs, dst, v, rest);
    ghost var st, order := Start(v), [];
    ProgressStarts(v, dist, dst);
    while work != {}
      invariant Hold(fibs, dst, st.view, rest) && Sound(v, dist, dst, st)
      invariant Progress(v, dst, order, st) && work == st.work
      invariant removed + |Upward(st.view)| == |Upward(v)|
      decreases |Upward(st.view)|, |st.work|
    {
      var count;
      ghost var c;
      count, work, c := ExamineFirst(fibs, dst, work, v, dist, st, rest);
      ProgressNext(v, dist, dst, order, st, c);
      order, st := order + [c], Examine(st, dst, c);
      removed := removed + count;
    }
    ProgressEnds(v, dst, order, st);
    w := st.view;
  }

  ghost predicate AllWellFormed(views: seq<View>, dists: seq<seq<nat>>) {
    |dists| == |views| && forall d: nat {:trigger views[d]} :: d < |views| ==> WellFormed(views[d], dists[d], d)
  }

  lemma AllWellFormedAt(views: seq<View>, dists: seq<seq<nat>>, d: nat)
    requires AllWellFormed(views, dists) && d < |views|
    ensures |dists| == |views| && WellFormed(views[d], dists[d], d)
  {
  }

  /** The first `n` destinations are trimmed, the others untouched. */
  ghost predicate Swept(views: seq<View>, trimmed: seq<View>, n: nat, removed: nat) {
    && |trimmed| == |views| && n <= |views|
    && (forall d: nat {:trigger views[d]} :: d < n ==> Trimmed(views[d], d, trimmed[d]))
    && (forall d: nat {:trigger views[d]} :: n <= d < |views| ==> trimmed[d] == views[d])
    && removed == UpwardCount(views, n) - UpwardCount(trimmed, n)
  }

  lemma SweptStarts(views: seq<View>)
    ensures Swept(views, views, 0, 0)
  {
  }

  lemma SweptNext(views: seq<View>, trimmed: seq<View>, n: nat, removed: nat, count: nat, w: View)
    requires Swept(views, trimmed, n, removed) && n < |views|
    requires Trimmed(views[n], n, w) && count == |Upward(views[n])| - |Upward(w)|
    ensures Swept(views, trimmed[n := w], n + 1, removed + count)
  {
    UpwardCountPrefix(trimmed, trimmed[n := w], n);
  }

  lemma SweptFacts(views: seq<View>, trimmed: seq<View>, n: nat, removed: nat)
    requires Swept(views, trimmed, n, removed)
    ensures |trimmed| == |views| && n <= |views| && (n < |views| ==> trimmed[n] == views[n])
    ensures removed == UpwardCount(views, n) - UpwardCount(trimmed, n)
  {
  }

  /** Every destination has gone through the worklist and has no dead ends. */
  ghost predicate AllTrimmed(views: seq<View>, dists: seq<seq<nat>>, trimmed: seq<View>) {
    && |trimmed| == |views| == |dists|
    && forall d: nat {:trigger views[d]} :: d < |views| ==>
         && Trimmed(views[d], d, trimmed[d]) && Thins(views[d], trimmed[d])
         && NoDeadEnds(trimmed[d], d) && WellFormed(trimmed[d], dists[d], d)
  }

  lemma SweptMeansTrimmed(views: seq<View>, dists: seq<seq<nat>>, trimmed: seq<View>, removed: nat)
    requires AllWellFormed(views, dists) && Swept(views, trimmed, |views|, removed)
    ensures AllTrimmed(views, dists, trimmed)
  {
    forall d: nat {:trigger views[d]} | d < |views|
      ensures Thins(views[d], trimmed[d]) && NoDeadEnds(trimmed[d], d) && WellFormed(trimmed[d], dists[d], d)
    {
      var order :| Completed(views[d], d, order) && FirstFirst(views[d], d, order) &&
          After(views[d], d, order).view == trimmed[d];
      NoDeadEndsLeft(views[d], dists[d], d, order);
    }
  }

  /** Dead-end removal for every destination. */
  method RemoveDeadEnds(fibs: seq<AbstractFib>, ghost views: seq<View>, ghost dists: seq<seq<nat>>)
    returns (removed: nat, ghost trimmed: seq<View>)
    requires HoldAll(fibs, views) && AllWellFormed(views, dists)
    modifies fibs
    ensures HoldAll(fibs, trimmed) && AllTrimmed(views, dists, trimmed)
    ensures |trimmed| == |views| && removed == UpwardCount(views, |views|) - UpwardCount(trimmed, |views|)
  {
    hide *;
    removed, trimmed := 0, views;
    HoldAllFacts(fibs, views);
    SweptStarts(views);
    for dst: nat := 0 to |fibs|
      invariant HoldAll(fibs, trimmed)
      invariant Swept(views, trimmed, dst, removed)
    {
      SweptFacts(views, trimmed, dst, removed);
      AllWellFormedAt(views, dists, dst);
      ghost var rest := Focus(fibs, trimmed, dst);
      var count;
      ghost var w;
      count, w := RemoveDeadEndsFor(fibs, dst, views[dst], dists[dst], rest);
      Unfocus(fibs, trimmed, dst, w, rest);
      SweptNext(views, trimmed, dst, removed, count, w);
      trimmed := trimmed[dst := w];
      removed := removed + count;
    }
    SweptFacts(views, trimmed, |views|, removed);
    SweptMeansTrimmed(views, dists, trimmed, removed);
  }
}
