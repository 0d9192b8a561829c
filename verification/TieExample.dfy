/** A network of four nodes with two neighbours equally far from the destination. Depending on
    the metric between these two, loop removal aborts or completes in the order of its queue. */
module TieExample {
  import opened Digraph
  import opened Networks
  import opened NextHops
  import opened FibViews
  import opened NodeFibs
  import opened NodePriorities
  import opened LoopChecks
  import opened LoopRemoval
  import opened LfidRows
  import opened SmallNetworks
  import LfidPipeline
  import QueueOrders

  function Metrics(m: nat): Weights {
    [[0, 0, 2, 2], [0, 0, 1, 1], [2, 1, 0, m], [2, 1, m, 0]]
  }

  /** Nodes 2 and 3 are at metric 2 from node 0, node 1 is at metric 1 from both, and `m` is
      the metric between 2 and 3. Metrics are the same in both directions. */
  function TiedNetwork(m: nat): Graph {
    NetworkOf(Metrics(m))
  }

  /** Distances to node 0, with all links and without those of one node. */
  const DIST: seq<nat> := [0, 3, 2, 2]
  const NOT_1: seq<nat> := [0, INF, 2, 2]
  const NOT_2: seq<nat> := [0, 3, INF, 2]
  const NOT_3: seq<nat> := [0, 3, 2, INF]

  const DOWN_1_2 := FibNextHop(3, 2, 0, DOWNWARD)
  const DOWN_1_3 := FibNextHop(3, 3, 0, DOWNWARD)
  const DOWN_0 := FibNextHop(2, 0, 0, DOWNWARD)
  const UP_1 := FibNextHop(4, 1, 2, UPWARD)

  function Across(m: nat, u: nat): FibNextHop {
    FibNextHop(m + 2, u, m, UPWARD)
  }

  /** The view of node 0. */
  function Tied(m: nat): View {
    [{}, {DOWN_1_2, DOWN_1_3}, {DOWN_0, UP_1, Across(m, 3)}, {DOWN_0, UP_1, Across(m, 2)}]
  }

  const MAX_METRIC: nat := 65532

  lemma TiedMatrix(m: nat)
    requires 1 <= m <= MAX_METRIC
    ensures IsMatrix(Metrics(m)) && |Metrics(m)| == 4
  {
  }

  lemma TiedIsLfid(m: nat)
    requires 1 <= m <= MAX_METRIC
    ensures LfidNetwork(TiedNetwork(m))
  {
    hide NetworkOf, LfidNetwork, IsMatrix, Metrics;
    TiedMatrix(m);
    MatrixIsLfid(Metrics(m));
  }

  lemma TiedLinks(m: nat, s: nat, u: nat)
    requires 1 <= m <= MAX_METRIC
    ensures Linked(Metrics(m), s, u) <==>
              || (s == 0 && (u == 2 || u == 3))
              || (s == 1 && (u == 2 || u == 3))
              || (s == 2 && (u == 0 || u == 1 || u == 3))
              || (s == 3 && (u == 0 || u == 1 || u == 2))
  {
  }

  lemma DistIsTable(m: nat)
    requires 1 <= m <= MAX_METRIC
    ensures IsTable(Metrics(m), 0, DIST, 4)
  {
    TableFrom(Metrics(m), 0, DIST, 4, [0, 2, 0, 0]);
  }

  lemma TableWithout1(m: nat)
    requires 1 <= m <= MAX_METRIC
    ensures IsTable(Metrics(m), 0, NOT_1, 1)
  {
    TableFrom(Metrics(m), 0, NOT_1, 1, [0, 0, 0, 0]);
  }

  lemma TableWithout2(m: nat)
    requires 1 <= m <= MAX_METRIC
    ensures IsTable(Metrics(m), 0, NOT_2, 2)
  {
    TableFrom(Metrics(m), 0, NOT_2, 2, [0, 3, 0, 0]);
  }

  lemma TableWithout3(m: nat)
    requires 1 <= m <= MAX_METRIC
    ensures IsTable(Metrics(m), 0, NOT_3, 3)
  {
    TableFrom(Metrics(m), 0, NOT_3, 3, [0, 2, 0, 0]);
  }

  lemma EntriesOfOne(m: nat)
    requires 1 <= m <= MAX_METRIC
    ensures forall u: nat :: HasEntry(Metrics(m), NOT_1, 1, u) <==> u == 2 || u == 3
    ensures EntryFrom(Metrics(m), DIST, NOT_1, 1, 2) == DOWN_1_2 && EntryFrom(Metrics(m), DIST, NOT_1, 1, 3) == DOWN_1_3
  {
    forall u: nat
      ensures Linked(Metrics(m), 1, u) <==> u == 2 || u == 3
    {
      TiedLinks(m, 1, u);
    }
  }

  lemma EntriesOfTwo(m: nat)
    requires 1 <= m <= MAX_METRIC
    ensures forall u: nat :: HasEntry(Metrics(m), NOT_2, 2, u) <==> u == 0 || u == 1 || u == 3
    ensures EntryFrom(Metrics(m), DIST, NOT_2, 2, 0) == DOWN_0 && EntryFrom(Metrics(m), DIST, NOT_2, 2, 1) == UP_1
    ensures EntryFrom(Metrics(m), DIST, NOT_2, 2, 3) == Across(m, 3)
  {
    forall u: nat
      ensures Linked(Metrics(m), 2, u) <==> u == 0 || u == 1 || u == 3
    {
      TiedLinks(m, 2, u);
    }
  }

  lemma EntriesOfThree(m: nat)
    requires 1 <= m <= MAX_METRIC
    ensures forall u: nat :: HasEntry(Metrics(m), NOT_3, 3, u) <==> u == 0 || u == 1 || u == 2
    ensures EntryFrom(Metrics(m), DIST, NOT_3, 3, 0) == DOWN_0 && EntryFrom(Metrics(m), DIST, NOT_3, 3, 1) == UP_1
    ensures EntryFrom(Metrics(m), DIST, NOT_3, 3, 2) == Across(m, 2)
  {
    forall u: nat
      ensures Linked(Metrics(m), 3, u) <==> u == 0 || u == 1 || u == 2
    {
      TiedLinks(m, 3, u);
    }
  }

  lemma TiedRows(m: nat)
    ensures |Tied(m)| == 4 && Tied(m)[0] == {} && Tied(m)[1] == {DOWN_1_2, DOWN_1_3}
    ensures Tied(m)[2] == {DOWN_0, UP_1, Across(m, 3)} && Tied(m)[3] == {DOWN_0, UP_1, Across(m, 2)}
    ensures |Metrics(m)| == |DIST| == |NOT_1| == |NOT_2| == |NOT_3| == 4
    ensures forall x :: 0 <= x < 4 ==> |Metrics(m)[x]| == 4
    ensures forall u :: Across(m, u).nhId == u
  {
  }

  /** The view is what LFID computes on the network. */
  lemma TiedIsView(m: nat)
    requires 1 <= m <= MAX_METRIC
    ensures IsView(TiedNetwork(m), 0, Tied(m))
  {
    hide Tied, NetworkOf, Metrics, IsRow, IsTable, IsMatrix, HasEntry, EntryFrom, Across;
    TiedMatrix(m);
    DistIsTable(m);
    TableWithout1(m);
    TableWithout2(m);
    TableWithout3(m);
    TiedRows(m);
    NetworkIs(Metrics(m));
    EntriesOfOne(m);
    RowIs(Metrics(m), 0, DIST, NOT_1, 1, Tied(m)[1]);
    EntriesOfTwo(m);
    RowIs(Metrics(m), 0, DIST, NOT_2, 2, Tied(m)[2]);
    EntriesOfThree(m);
    RowIs(Metrics(m), 0, DIST, NOT_3, 3, Tied(m)[3]);
  }

  lemma Around(v: View, c: Candidate, via: nat)
    requires HasArc(Arcs(v), c.1.nhId, via) && HasArc(Arcs(v), via, c.0)
    requires via != c.0 && via != c.1.nhId
    ensures Returns(v, c)
  {
    var g := Arcs(v) - {(c.1.nhId, c.0)};
    assert HasArc(g, c.1.nhId, via) && HasArc(g, via, c.0);
    assert Connects(g, c.1.nhId, [c.1.nhId, via, c.0], c.0);
  }

  /** The first check erases the entry from node 2 to node 3. */
  lemma FirstCheck(m: nat, c: Candidate)
    requires m >= 2 && First(Tied(m), Upward(Tied(m)), c)
    ensures c == (2, Across(m, 3))
    ensures Check(Start(Tied(m)), c) == LoopState(Drop(Tied(m), c), Upward(Tied(m)) - {c}, false)
  {
    var v := Tied(m);
    var top: Candidate := (2, Across(m, 3));
    assert top in Upward(v);
    assert |v[2]| == 3 && |v[3]| == 3;
    assert !KeyLess(KeyIn(v, c), KeyIn(v, top));
    assert UP_1 in v[3] && DOWN_1_2 in v[1] && Across(m, 2) in v[3];
    Around(v, top, 1);
  }

  /** The second check finds a loop whose opposite arc is gone. */
  lemma SecondCheck(m: nat, c: Candidate)
    requires m >= 2 && First(Drop(Tied(m), (2, Across(m, 3))), Upward(Tied(m)) - {(2, Across(m, 3))}, c)
    ensures Check(LoopState(Drop(Tied(m), (2, Across(m, 3))), Upward(Tied(m)) - {(2, Across(m, 3))}, false), c).aborted
  {
    var v := Drop(Tied(m), (2, Across(m, 3)));
    var top: Candidate := (3, Across(m, 2));
    assert top in Upward(Tied(m));
    assert v[2] == {DOWN_0, UP_1};
    assert |v[2]| == 2 && |v[3]| == 3;
    assert !KeyLess(KeyIn(v, c), KeyIn(v, top));
    assert c == top;
    assert UP_1 in v[2] && DOWN_1_3 in v[1];
    Around(v, top, 1);
  }

  lemma OneCheck(m: nat, order: seq<Candidate>)
    requires m >= 2 && Possible(Tied(m), order) && ByPriority(Tied(m), order) && |order| == 1
    ensures order[0] == (2, Across(m, 3))
    ensures After(Tied(m), order) ==
            LoopState(Drop(Tied(m), (2, Across(m, 3))), Upward(Tied(m)) - {(2, Across(m, 3))}, false)
  {
    assert order[..0] == [];
    FirstCheck(m, order[0]);
  }

  lemma TwoChecks(m: nat, order: seq<Candidate>)
    requires m >= 2 && Possible(Tied(m), order) && ByPriority(Tied(m), order) && |order| == 2
    ensures Aborting(Tied(m), order)
  {
    OneCheck(m, order[..1]);
    SecondCheck(m, order[1]);
  }

  lemma {:induction false} AtMostTwoChecks(m: nat, order: seq<Candidate>)
    requires m >= 2 && Possible(Tied(m), order) && ByPriority(Tied(m), order)
    ensures |order| <= 2
  {
    if |order| > 2 {
      var init := order[..|order| - 1];
      AtMostTwoChecks(m, init);
      TwoChecks(m, init);
    }
  }

  /** No run of the checks in queue order completes on this view: the second check aborts. */
  lemma QueueOrderAborts(m: nat, order: seq<Candidate>)
    requires m >= 2 && Possible(Tied(m), order) && ByPriority(Tied(m), order)
    ensures !Completed(Tied(m), order)
    ensures |order| == 2 ==> Aborting(Tied(m), order)
  {
    AtMostTwoChecks(m, order);
    assert (2, Across(m, 3)) in Upward(Tied(m)) && (3, Across(m, 2)) in Upward(Tied(m));
    if |order| == 1 {
      OneCheck(m, order);
    } else if |order| == 2 {
      TwoChecks(m, order);
    }
  }

  /** The metric between the tied nodes never matters for the risk. */
  lemma TiedIsRisky(m: nat)
    ensures Risky(Tied(m))
  {
    var v := Tied(m);
    var c: Candidate, e: Candidate := (2, Across(m, 3)), (3, Across(m, 2));
    assert DOWN_1_2 in v[1] && DOWN_1_3 in v[1] && UP_1 in v[2] && UP_1 in v[3] && c.1 in v[2] && e.1 in v[3];
    Around(v, c, 1);
    Around(v, e, 1);
    assert IsOpposite(e, c);
    assert Dangerous(v, c);
  }

  lemma TiedIsChecked(m: nat)
    requires 1 <= m <= MAX_METRIC
    ensures Checked(Tied(m))
  {
    TiedIsLfid(m);
    TiedIsView(m);
    hide Tied, TiedNetwork, LfidNetwork, IsView, Checked, Distances;
    ViewsAreWellFormed(TiedNetwork(m), 0, Tied(m));
    WellFormedIsChecked(Tied(m), Distances(TiedNetwork(m), 0), 0);
  }

  /** With metric 1 between them, the entries to node 1 come first, and are erased. */
  function Opened(): View {
    [{}, {DOWN_1_2, DOWN_1_3}, {DOWN_0, Across(1, 3)}, {DOWN_0, Across(1, 2)}]
  }

  lemma UpwardOfTied(m: nat)
    ensures Upward(Tied(m)) == {(2, UP_1), (2, Across(m, 3)), (3, UP_1), (3, Across(m, 2))}
  {
  }

  lemma FirstIsErased()
    ensures First(Tied(1), Upward(Tied(1)), (3, UP_1))
    ensures Check(Start(Tied(1)), (3, UP_1)) ==
            LoopState(Drop(Tied(1), (3, UP_1)), {(2, UP_1), (2, Across(1, 3)), (3, Across(1, 2))}, false)
  {
    var v := Tied(1);
    UpwardOfTied(1);
    assert |v[2]| == 3 && |v[3]| == 3;
    assert DOWN_1_2 in v[1] && DOWN_1_3 in v[1] && Across(1, 3) in v[2];
    Around(v, (3, UP_1), 2);
  }

  lemma SecondIsErased()
    ensures
      var v := Drop(Tied(1), (3, UP_1));
      var pending: set<Candidate> := {(2, UP_1), (2, Across(1, 3)), (3, Across(1, 2))};
      && |v| == 4 && First(v, pending, (2, UP_1))
      && Check(LoopState(v, pending, false), (2, UP_1)) ==
         LoopState(Opened(), {(2, Across(1, 3)), (3, Across(1, 2))}, false)
  {
    var v := Drop(Tied(1), (3, UP_1));
    assert v[3] == {DOWN_0, Across(1, 2)} && |v[3]| == 2 && |v[2]| == 3;
    assert DOWN_1_3 in v[1] && DOWN_1_2 in v[1] && Across(1, 2) in v[3];
    Around(v, (2, UP_1), 3);
    assert v[2] - {UP_1} == {DOWN_0, Across(1, 3)};
    assert Drop(v, (2, UP_1)) == Opened();
  }

  /** A node that only node 0 is reachable from does not return. */
  lemma NoWayBack(v: View, c: Candidate)
    requires c.0 != 0 && c.0 != c.1.nhId
    requires forall u :: !HasArc(Arcs(v), 0, u)
    requires forall u :: HasArc(Arcs(v), c.1.nhId, u) ==> u == 0 || u == c.0
    ensures !Returns(v, c)
  {
    var g := Arcs(v) - {(c.1.nhId, c.0)};
    if Reaches(g, c.1.nhId, c.0) {
      var w :| Connects(g, c.1.nhId, w, c.0);
      forall a | a in g && a.0 in {c.1.nhId, 0}
        ensures a.1 in {c.1.nhId, 0}
      {
        assert HasArc(Arcs(v), a.0, a.1);
      }
      ClosedKeepsWalks(g, {c.1.nhId, 0}, w);
    }
  }

  lemma OthersStay()
    ensures |Opened()| == 4
    ensures First(Opened(), {(2, Across(1, 3)), (3, Across(1, 2))}, (2, Across(1, 3)))
    ensures Check(LoopState(Opened(), {(2, Across(1, 3)), (3, Across(1, 2))}, false), (2, Across(1, 3))) ==
            LoopState(Opened(), {(3, Across(1, 2))}, false)
    ensures First(Opened(), {(3, Across(1, 2))}, (3, Across(1, 2)))
    ensures Check(LoopState(Opened(), {(3, Across(1, 2))}, false), (3, Across(1, 2))) == LoopState(Opened(), {}, false)
  {
    var v := Opened();
    var c: Candidate, e: Candidate := (2, Across(1, 3)), (3, Across(1, 2));
    assert |v[2]| == 2 && |v[3]| == 2;
    NoWayBack(v, c);
    NoWayBack(v, e);
    assert {c, e} - {c} == {e};
  }

  lemma TiedStarts()
    ensures Progress(Tied(1), [], Start(Tied(1))) && !Start(Tied(1)).aborted
    ensures |Tied(1)| == 4 && Start(Tied(1)).view == Tied(1) && Start(Tied(1)).pending == Upward(Tied(1))
  {
    TiedIsChecked(1);
    InitialAgrees(Tied(1));
  }

  lemma TwoErased(order: seq<Candidate>)
    requires order == [(3, UP_1)] + [(2, UP_1)]
    ensures Progress(Tied(1), order, LoopState(Opened(), {(2, Across(1, 3)), (3, Across(1, 2))}, false))
  {
    TiedStarts();
    FirstIsErased();
    SecondIsErased();
    hide Check, First, Tied, Opened, Progress, Across, Drop;
    var one := LoopState(Drop(Tied(1), (3, UP_1)), {(2, UP_1), (2, Across(1, 3)), (3, Across(1, 2))}, false);
    QueueOrders.StepTo(Tied(1), [], Start(Tied(1)), (3, UP_1), one);
    assert [] + [(3, UP_1)] == [(3, UP_1)];
    QueueOrders.StepTo(Tied(1), [(3, UP_1)], one, (2, UP_1),
                       LoopState(Opened(), {(2, Across(1, 3)), (3, Across(1, 2))}, false));
  }

  /** With metric 1 between the tied nodes all checks complete. */
  lemma QueueOrderCompletes()
    ensures Cleared(Tied(1), Opened())
  {
    var order: seq<Candidate> := [(3, UP_1)] + [(2, UP_1)];
    TwoErased(order);
    OthersStay();
    hide Check, First, Tied, Opened, Progress, Across;
    var c: Candidate, e: Candidate := (2, Across(1, 3)), (3, Across(1, 2));
    QueueOrders.StepTo(Tied(1), order, LoopState(Opened(), {c, e}, false), c, LoopState(Opened(), {e}, false));
    QueueOrders.StepTo(Tied(1), order + [c], LoopState(Opened(), {e}, false), e, LoopState(Opened(), {}, false));
    QueueOrders.ProgressClears(Tied(1), order + [c] + [e], Opened());
  }

  /** The same risk, but the queue decides: loop removal aborts exactly from metric 2 on. */
  lemma AbortsFromTwoOn(m: nat)
    requires 1 <= m <= MAX_METRIC
    ensures Risky(Tied(m))
    ensures Aborts(Tied(m)) <==> m >= 2
  {
    hide *;
    TiedIsRisky(m);
    TiedIsChecked(m);
    QueueOrders.LoopRemovalIsDecided(Tied(m));
    if m >= 2 {
      forall w
        ensures !Cleared(Tied(m), w)
      {
        NeverCleared(m, w);
      }
    } else {
      QueueOrderCompletes();
    }
  }

  /** From metric 2 on, LFID has no result on the network, which meets all its demands. */
  lemma NoResultFromTwoOn(m: nat, v: View)
    requires 2 <= m <= MAX_METRIC
    ensures LfidNetwork(TiedNetwork(m)) && IsView(TiedNetwork(m), 0, Tied(m))
    ensures LfidPipeline.LfidAborts(TiedNetwork(m)) && !LfidPipeline.LfidResult(TiedNetwork(m), 0, v)
  {
    TiedIsLfid(m);
    TiedIsView(m);
    AbortsFromTwoOn(m);
    hide Tied, LfidNetwork, IsView, Risky, Aborts, LfidPipeline.LfidResult;
    LfidPipeline.AbortsOrResult(TiedNetwork(m), 0, Tied(m), v);
  }

  lemma NeverCleared(m: nat, w: View)
    requires m >= 2
    ensures !Cleared(Tied(m), w)
  {
    hide Tied, Completed, ByPriority, After;
    forall order | Completed(Tied(m), order) && ByPriority(Tied(m), order)
      ensures false
    {
      CompletedIsPossible(Tied(m), order);
      QueueOrderAborts(m, order);
    }
  }

  lemma CompletedIsPossible(v: View, order: seq<Candidate>)
    requires Completed(v, order)
    ensures Possible(v, order)
  {
  }
}
