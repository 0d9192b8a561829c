/** One run of both passes in full: six nodes with ties, on which a queue that compares extra costs
    first, or a worklist that starts at the highest node, would leave other entries. */
module QueueExample {
  import opened Digraph
  import opened Networks
  import opened NextHops
  import opened FibViews
  import opened NodeFibs
  import opened LoopChecks
  import opened LfidRows
  import opened SmallNetworks
  import D = DeadEndChecks
  import L = LoopRemoval
  import W = DeadEndRemoval
  import QueueOrders
  import LfidPipeline

  const METRICS: Weights := [
    [0, 1, 2, 0, 2, 0],
    [1, 0, 0, 2, 2, 0],
    [2, 0, 0, 1, 0, 0],
    [0, 2, 1, 0, 1, 1],
    [2, 2, 0, 1, 0, 2],
    [0, 0, 0, 1, 2, 0]]

  /** Distances to node 2, with all links and without those of one node. */
  const DIST: seq<nat> := [2, 3, 0, 1, 2, 2]
  const NOT_0: seq<nat> := [INF, 3, 0, 1, 2, 2]
  const NOT_1: seq<nat> := [2, INF, 0, 1, 2, 2]
  const NOT_3: seq<nat> := [2, 3, 0, INF, 4, 6]
  const NOT_4: seq<nat> := [2, 3, 0, 1, INF, 2]
  const NOT_5: seq<nat> := [2, 3, 0, 1, 2, INF]

  function Down(cost: nat, u: nat, extra: nat): FibNextHop {
    FibNextHop(cost, u, extra, DOWNWARD)
  }

  function Up(cost: nat, u: nat, extra: nat): FibNextHop {
    FibNextHop(cost, u, extra, UPWARD)
  }

  const ROW_1: set<FibNextHop> := {Down(4, 4, 1), Down(3, 3, 0), Down(3, 0, 0)}

  /** The view with the given rows of the nodes that lose entries. */
  function At(a: set<FibNextHop>, b: set<FibNextHop>, c: set<FibNextHop>, e: set<FibNextHop>): View {
    [a, ROW_1, {}, b, c, e]
  }

  const A_1: set<FibNextHop> := {Down(2, 2, 0)}
  const A_2: set<FibNextHop> := {Down(2, 2, 0), Up(4, 1, 2)}
  const A_3: set<FibNextHop> := {Down(2, 2, 0), Up(4, 1, 2), Up(4, 4, 2)}

  const B_1: set<FibNextHop> := {Down(1, 2, 0)}
  const B_2: set<FibNextHop> := {Down(1, 2, 0), Up(5, 1, 4)}
  const B_3: set<FibNextHop> := {Down(1, 2, 0), Up(5, 1, 4), Up(5, 4, 4)}
  const B_4: set<FibNextHop> := {Down(1, 2, 0), Up(5, 1, 4), Up(5, 4, 4), Up(7, 5, 6)}

  const C_1: set<FibNextHop> := {Down(2, 3, 0)}
  const C_2: set<FibNextHop> := {Down(2, 3, 0), Up(4, 0, 2)}
  const C_3: set<FibNextHop> := {Down(2, 3, 0), Up(4, 0, 2), Up(4, 5, 2)}
  const C_4: set<FibNextHop> := {Down(2, 3, 0), Up(4, 0, 2), Up(4, 5, 2), Up(5, 1, 3)}

  const E_1: set<FibNextHop> := {Down(2, 3, 0)}
  const E_2: set<FibNextHop> := {Down(2, 3, 0), Up(4, 4, 2)}

  lemma Matrix()
    ensures IsMatrix(METRICS) && |METRICS| == 6
  {
  }

  lemma Links(s: nat, u: nat)
    ensures Linked(METRICS, s, u) <==>
              || (s == 0 && (u == 1 || u == 2 || u == 4))
              || (s == 1 && (u == 0 || u == 3 || u == 4))
              || (s == 2 && (u == 0 || u == 3))
              || (s == 3 && (u == 1 || u == 2 || u == 4 || u == 5))
              || (s == 4 && (u == 0 || u == 1 || u == 3 || u == 5))
              || (s == 5 && (u == 3 || u == 4))
  {
  }

  lemma DistIsTable()
    ensures IsTable(METRICS, 2, DIST, 6)
  {
    TableFrom(METRICS, 2, DIST, 6, [2, 0, 0, 2, 3, 3]);
  }

  lemma TableWithout0()
    ensures IsTable(METRICS, 2, NOT_0, 0)
  {
    TableFrom(METRICS, 2, NOT_0, 0, [0, 3, 0, 2, 3, 3]);
  }

  lemma TableWithout1()
    ensures IsTable(METRICS, 2, NOT_1, 1)
  {
    TableFrom(METRICS, 2, NOT_1, 1, [2, 0, 0, 2, 3, 3]);
  }

  lemma TableWithout3()
    ensures IsTable(METRICS, 2, NOT_3, 3)
  {
    TableFrom(METRICS, 2, NOT_3, 3, [2, 0, 0, 0, 0, 4]);
  }

  lemma TableWithout4()
    ensures IsTable(METRICS, 2, NOT_4, 4)
  {
    TableFrom(METRICS, 2, NOT_4, 4, [2, 0, 0, 2, 0, 3]);
  }

  lemma TableWithout5()
    ensures IsTable(METRICS, 2, NOT_5, 5)
  {
    TableFrom(METRICS, 2, NOT_5, 5, [2, 0, 0, 2, 3, 0]);
  }

  lemma Sizes()
    ensures |METRICS| == 6 && forall x :: 0 <= x < 6 ==> |METRICS[x]| == 6
    ensures |DIST| == |NOT_0| == |NOT_1| == |NOT_3| == |NOT_4| == |NOT_5| == 6
  {
  }

  lemma RowFrom(away: seq<nat>, s: nat, row: set<FibNextHop>)
    requires s < 6 && s != 2 && |away| == 6 && |METRICS| == |DIST| == 6 && |METRICS[s]| == 6
    requires IsTable(METRICS, 2, away, s)
    requires forall u: nat :: HasEntry(METRICS, away, s, u) ==> u < 6 && EntryFrom(METRICS, DIST, away, s, u) in row
    requires forall nh :: nh in row ==> HasEntry(METRICS, away, s, nh.nhId) && nh.nhId < 6
                                        && nh == EntryFrom(METRICS, DIST, away, s, nh.nhId)
    ensures IsRow(NetworkOf(METRICS), s, 2, row)
  {
    hide NetworkOf, IsTable, IsRow, HasEntry, EntryFrom, IsMatrix;
    Matrix();
    Sizes();
    DistIsTable();
    RowIs(METRICS, 2, DIST, away, s, row);
  }

  lemma EntriesOf0()
    ensures |METRICS| == |DIST| == |NOT_0| == 6 && |METRICS[0]| == 6
    ensures forall u: nat :: HasEntry(METRICS, NOT_0, 0, u) <==> u == 1 || u == 2 || u == 4
    ensures EntryFrom(METRICS, DIST, NOT_0, 0, 1) == Up(4, 1, 2)
    ensures EntryFrom(METRICS, DIST, NOT_0, 0, 2) == Down(2, 2, 0)
    ensures EntryFrom(METRICS, DIST, NOT_0, 0, 4) == Up(4, 4, 2)
  {
    forall u: nat
      ensures Linked(METRICS, 0, u) <==> u == 1 || u == 2 || u == 4
    {
      Links(0, u);
    }
  }

  lemma RowOf0()
    ensures IsRow(NetworkOf(METRICS), 0, 2, A_3)
  {
    hide NetworkOf, IsTable, IsRow, HasEntry, EntryFrom;
    EntriesOf0();
    TableWithout0();
    RowFrom(NOT_0, 0, A_3);
  }

  lemma EntriesOf1()
    ensures |METRICS| == |DIST| == |NOT_1| == 6 && |METRICS[1]| == 6
    ensures forall u: nat :: HasEntry(METRICS, NOT_1, 1, u) <==> u == 0 || u == 3 || u == 4
    ensures EntryFrom(METRICS, DIST, NOT_1, 1, 0) == Down(3, 0, 0)
    ensures EntryFrom(METRICS, DIST, NOT_1, 1, 3) == Down(3, 3, 0)
    ensures EntryFrom(METRICS, DIST, NOT_1, 1, 4) == Down(4, 4, 1)
  {
    forall u: nat
      ensures Linked(METRICS, 1, u) <==> u == 0 || u == 3 || u == 4
    {
      Links(1, u);
    }
  }

  lemma RowOf1()
    ensures IsRow(NetworkOf(METRICS), 1, 2, ROW_1)
  {
    hide NetworkOf, IsTable, IsRow, HasEntry, EntryFrom;
    EntriesOf1();
    TableWithout1();
    RowFrom(NOT_1, 1, ROW_1);
  }

  lemma EntriesOf3()
    ensures |METRICS| == |DIST| == |NOT_3| == 6 && |METRICS[3]| == 6
    ensures forall u: nat :: HasEntry(METRICS, NOT_3, 3, u) <==> u == 1 || u == 2 || u == 4 || u == 5
    ensures EntryFrom(METRICS, DIST, NOT_3, 3, 1) == Up(5, 1, 4)
    ensures EntryFrom(METRICS, DIST, NOT_3, 3, 2) == Down(1, 2, 0)
    ensures EntryFrom(METRICS, DIST, NOT_3, 3, 4) == Up(5, 4, 4)
    ensures EntryFrom(METRICS, DIST, NOT_3, 3, 5) == Up(7, 5, 6)
  {
    forall u: nat
      ensures Linked(METRICS, 3, u) <==> u == 1 || u == 2 || u == 4 || u == 5
    {
      Links(3, u);
    }
  }

  lemma RowOf3()
    ensures IsRow(NetworkOf(METRICS), 3, 2, B_4)
  {
    hide NetworkOf, IsTable, IsRow, HasEntry, EntryFrom;
    EntriesOf3();
    TableWithout3();
    RowFrom(NOT_3, 3, B_4);
  }

  lemma EntriesOf4()
    ensures |METRICS| == |DIST| == |NOT_4| == 6 && |METRICS[4]| == 6
    ensures forall u: nat :: HasEntry(METRICS, NOT_4, 4, u) <==> u == 0 || u == 1 || u == 3 || u == 5
    ensures EntryFrom(METRICS, DIST, NOT_4, 4, 0) == Up(4, 0, 2)
    ensures EntryFrom(METRICS, DIST, NOT_4, 4, 1) == Up(5, 1, 3)
    ensures EntryFrom(METRICS, DIST, NOT_4, 4, 3) == Down(2, 3, 0)
    ensures EntryFrom(METRICS, DIST, NOT_4, 4, 5) == Up(4, 5, 2)
  {
    forall u: nat
      ensures Linked(METRICS, 4, u) <==> u == 0 || u == 1 || u == 3 || u == 5
    {
      Links(4, u);
    }
  }

  lemma RowOf4()
    ensures IsRow(NetworkOf(METRICS), 4, 2, C_4)
  {
    hide NetworkOf, IsTable, IsRow, HasEntry, EntryFrom;
    EntriesOf4();
    TableWithout4();
    RowFrom(NOT_4, 4, C_4);
  }

  lemma EntriesOf5()
    ensures |METRICS| == |DIST| == |NOT_5| == 6 && |METRICS[5]| == 6
    ensures forall u: nat :: HasEntry(METRICS, NOT_5, 5, u) <==> u == 3 || u == 4
    ensures EntryFrom(METRICS, DIST, NOT_5, 5, 3) == Down(2, 3, 0)
    ensures EntryFrom(METRICS, DIST, NOT_5, 5, 4) == Up(4, 4, 2)
  {
    forall u: nat
      ensures Linked(METRICS, 5, u) <==> u == 3 || u == 4
    {
      Links(5, u);
    }
  }

  lemma RowOf5()
    ensures IsRow(NetworkOf(METRICS), 5, 2, E_2)
  {
    hide NetworkOf, IsTable, IsRow, HasEntry, EntryFrom;
    EntriesOf5();
    TableWithout5();
    RowFrom(NOT_5, 5, E_2);
  }

  /** The view of node 2 that LFID computes on the network. */
  lemma ExampleIsView()
    ensures LfidNetwork(NetworkOf(METRICS)) && IsView(NetworkOf(METRICS), 2, At(A_3, B_4, C_4, E_2))
  {
    hide NetworkOf, IsRow, LfidNetwork, IsMatrix, A_3, B_4, C_4, E_2, ROW_1;
    Matrix();
    MatrixIsLfid(METRICS);
    NetworkIs(METRICS);
    RowOf0();
    RowOf1();
    RowOf3();
    RowOf4();
    RowOf5();
  }

  const K_35: Candidate := (3, Up(7, 5, 6))
  const K_41: Candidate := (4, Up(5, 1, 3))
  const K_34: Candidate := (3, Up(5, 4, 4))
  const K_45: Candidate := (4, Up(4, 5, 2))
  const K_04: Candidate := (0, Up(4, 4, 2))
  const K_31: Candidate := (3, Up(5, 1, 4))
  const K_54: Candidate := (5, Up(4, 4, 2))
  const K_01: Candidate := (0, Up(4, 1, 2))
  const K_40: Candidate := (4, Up(4, 0, 2))

  const PENDING_9: set<Candidate> := {K_35, K_41, K_34, K_45, K_04, K_31, K_54, K_01, K_40}
  const PENDING_8: set<Candidate> := {K_41, K_34, K_45, K_04, K_31, K_54, K_01, K_40}
  const PENDING_7: set<Candidate> := {K_34, K_45, K_04, K_31, K_54, K_01, K_40}
  const PENDING_6: set<Candidate> := {K_45, K_04, K_31, K_54, K_01, K_40}
  const PENDING_5: set<Candidate> := {K_04, K_31, K_54, K_01, K_40}
  const PENDING_4: set<Candidate> := {K_31, K_54, K_01, K_40}
  const PENDING_3: set<Candidate> := {K_54, K_01, K_40}
  const PENDING_2: set<Candidate> := {K_01, K_40}
  const PENDING_1: set<Candidate> := {K_40}
  const PENDING_0: set<Candidate> := {}

  lemma RowSizes()
    ensures |A_1| == 1 && |A_2| == 2 && |A_3| == 3 && |B_1| == 1 && |B_2| == 2 && |B_3| == 3 && |B_4| == 4
    ensures |C_1| == 1 && |C_2| == 2 && |C_3| == 3 && |C_4| == 4 && |E_1| == 1 && |E_2| == 2
  {
  }

  lemma ArcOf(v: View, s: nat, nh: FibNextHop)
    requires s < |v| && nh in v[s]
    ensures HasArc(Arcs(v), s, nh.nhId)
  {
  }

  predicate IsStep(v: View, c: Candidate, x: nat, y: nat) {
    HasArc(Arcs(v), x, y) && !(x == c.1.nhId && y == c.0)
  }

  /** An entry whose head gets back to its holder along a walk is erased. */
  lemma Erased(v: View, pending: set<Candidate>, c: Candidate, walk: seq<nat>)
    requires c.0 < |v| && HasArc(Arcs(v), c.1.nhId, c.0)
    requires walk != [] && walk[0] == c.1.nhId && walk[|walk| - 1] == c.0
    requires forall i :: 0 <= i < |walk| - 1 ==> IsStep(v, c, walk[i], walk[i + 1])
    ensures Check(LoopState(v, pending, false), c) == LoopState(Drop(v, c), pending - {c}, false)
  {
    var g := Arcs(v) - {(c.1.nhId, c.0)};
    forall i | 0 <= i < |walk| - 1
      ensures HasArc(g, walk[i], walk[i + 1])
    {
      assert IsStep(v, c, walk[i], walk[i + 1]);
    }
    assert Connects(g, c.1.nhId, walk, c.0);
  }

  /** An entry whose head cannot leave a set without its holder is kept. */
  lemma Kept(v: View, pending: set<Candidate>, c: Candidate, s: set<nat>)
    requires c.0 < |v| && c.1.nhId in s && c.0 !in s
    requires forall x, y :: x in s && IsStep(v, c, x, y) ==> y in s
    ensures Check(LoopState(v, pending, false), c) == LoopState(v, pending - {c}, false)
  {
    var g := Arcs(v) - {(c.1.nhId, c.0)};
    if Reaches(g, c.1.nhId, c.0) {
      var w :| Connects(g, c.1.nhId, w, c.0);
      forall a | a in g && a.0 in s
        ensures a.1 in s
      {
        assert HasArc(Arcs(v), a.0, a.1);
        assert IsStep(v, c, a.0, a.1);
      }
      ClosedKeepsWalks(g, s, w);
    }
  }

  lemma FirstOf(v: View, pending: set<Candidate>, c: Candidate)
    requires c in pending && forall x :: x in pending ==> x.0 < |v|
    requires forall x :: x in pending ==>
               || |v[x.0]| < |v[c.0]|
               || (|v[x.0]| == |v[c.0]| && x.1.costDelta < c.1.costDelta)
               || (|v[x.0]| == |v[c.0]| && x.1.costDelta == c.1.costDelta && x.1.cost == c.1.cost
                   && (x.1.nhId < c.1.nhId || (x.1.nhId == c.1.nhId && x.0 <= c.0)))
    ensures L.First(v, pending, c)
  {
    QueueOrders.FirstIff(v, pending, c);
  }

  lemma Check35()
    ensures L.First(At(A_3, B_4, C_4, E_2), PENDING_9, K_35)
    ensures Check(LoopState(At(A_3, B_4, C_4, E_2), PENDING_9, false), K_35) ==
            LoopState(At(A_3, B_3, C_4, E_2), PENDING_8, false)
  {
    var v := At(A_3, B_4, C_4, E_2);
    RowSizes();
    FirstOf(v, PENDING_9, K_35);
    ArcOf(v, 5, Up(4, 4, 2));
    ArcOf(v, 4, Down(2, 3, 0));
    ArcOf(v, 5, Down(2, 3, 0));
    Erased(v, PENDING_9, K_35, [5, 4, 3]);
    assert B_4 - {K_35.1} == B_3;
    assert PENDING_9 - {K_35} == PENDING_8;
  }

  lemma Check41()
    ensures L.First(At(A_3, B_3, C_4, E_2), PENDING_8, K_41)
    ensures Check(LoopState(At(A_3, B_3, C_4, E_2), PENDING_8, false), K_41) ==
            LoopState(At(A_3, B_3, C_3, E_2), PENDING_7, false)
  {
    var v := At(A_3, B_3, C_4, E_2);
    RowSizes();
    FirstOf(v, PENDING_8, K_41);
    ArcOf(v, 1, Down(3, 0, 0));
    ArcOf(v, 0, Up(4, 4, 2));
    ArcOf(v, 1, Down(4, 4, 1));
    Erased(v, PENDING_8, K_41, [1, 0, 4]);
    assert C_4 - {K_41.1} == C_3;
    assert PENDING_8 - {K_41} == PENDING_7;
  }

  lemma Check34()
    ensures L.First(At(A_3, B_3, C_3, E_2), PENDING_7, K_34)
    ensures Check(LoopState(At(A_3, B_3, C_3, E_2), PENDING_7, false), K_34) ==
            LoopState(At(A_3, B_2, C_3, E_2), PENDING_6, false)
  {
    var v := At(A_3, B_3, C_3, E_2);
    RowSizes();
    FirstOf(v, PENDING_7, K_34);
    ArcOf(v, 4, Up(4, 5, 2));
    ArcOf(v, 5, Down(2, 3, 0));
    ArcOf(v, 4, Down(2, 3, 0));
    Erased(v, PENDING_7, K_34, [4, 5, 3]);
    assert B_3 - {K_34.1} == B_2;
    assert PENDING_7 - {K_34} == PENDING_6;
  }

  lemma Check45()
    ensures L.First(At(A_3, B_2, C_3, E_2), PENDING_6, K_45)
    ensures Check(LoopState(At(A_3, B_2, C_3, E_2), PENDING_6, false), K_45) ==
            LoopState(At(A_3, B_2, C_2, E_2), PENDING_5, false)
  {
    var v := At(A_3, B_2, C_3, E_2);
    RowSizes();
    FirstOf(v, PENDING_6, K_45);
    ArcOf(v, 5, Down(2, 3, 0));
    ArcOf(v, 3, Up(5, 1, 4));
    ArcOf(v, 1, Down(4, 4, 1));
    ArcOf(v, 5, Up(4, 4, 2));
    Erased(v, PENDING_6, K_45, [5, 3, 1, 4]);
    assert C_3 - {K_45.1} == C_2;
    assert PENDING_6 - {K_45} == PENDING_5;
  }

  lemma Check04()
    ensures L.First(At(A_3, B_2, C_2, E_2), PENDING_5, K_04)
    ensures Check(LoopState(At(A_3, B_2, C_2, E_2), PENDING_5, false), K_04) ==
            LoopState(At(A_2, B_2, C_2, E_2), PENDING_4, false)
  {
    var v := At(A_3, B_2, C_2, E_2);
    RowSizes();
    FirstOf(v, PENDING_5, K_04);
    ArcOf(v, 4, Down(2, 3, 0));
    ArcOf(v, 3, Up(5, 1, 4));
    ArcOf(v, 1, Down(3, 0, 0));
    ArcOf(v, 4, Up(4, 0, 2));
    Erased(v, PENDING_5, K_04, [4, 3, 1, 0]);
    assert A_3 - {K_04.1} == A_2;
    assert PENDING_5 - {K_04} == PENDING_4;
  }

  lemma Check31()
    ensures L.First(At(A_2, B_2, C_2, E_2), PENDING_4, K_31)
    ensures Check(LoopState(At(A_2, B_2, C_2, E_2), PENDING_4, false), K_31) ==
            LoopState(At(A_2, B_1, C_2, E_2), PENDING_3, false)
  {
    var v := At(A_2, B_2, C_2, E_2);
    RowSizes();
    FirstOf(v, PENDING_4, K_31);
    ArcOf(v, 1, Down(4, 4, 1));
    ArcOf(v, 4, Down(2, 3, 0));
    ArcOf(v, 1, Down(3, 3, 0));
    Erased(v, PENDING_4, K_31, [1, 4, 3]);
    assert B_2 - {K_31.1} == B_1;
    assert PENDING_4 - {K_31} == PENDING_3;
  }

  lemma Check54()
    ensures L.First(At(A_2, B_1, C_2, E_2), PENDING_3, K_54)
    ensures Check(LoopState(At(A_2, B_1, C_2, E_2), PENDING_3, false), K_54) ==
            LoopState(At(A_2, B_1, C_2, E_2), PENDING_2, false)
  {
    var v := At(A_2, B_1, C_2, E_2);
    RowSizes();
    FirstOf(v, PENDING_3, K_54);
    Kept(v, PENDING_3, K_54, {0, 1, 2, 3, 4});
    assert PENDING_3 - {K_54} == PENDING_2;
  }

  lemma Check01()
    ensures L.First(At(A_2, B_1, C_2, E_2), PENDING_2, K_01)
    ensures Check(LoopState(At(A_2, B_1, C_2, E_2), PENDING_2, false), K_01) ==
            LoopState(At(A_1, B_1, C_2, E_2), PENDING_1, false)
  {
    var v := At(A_2, B_1, C_2, E_2);
    RowSizes();
    FirstOf(v, PENDING_2, K_01);
    ArcOf(v, 1, Down(4, 4, 1));
    ArcOf(v, 4, Up(4, 0, 2));
    ArcOf(v, 1, Down(3, 0, 0));
    Erased(v, PENDING_2, K_01, [1, 4, 0]);
    assert A_2 - {K_01.1} == A_1;
    assert PENDING_2 - {K_01} == PENDING_1;
  }

  lemma Check40()
    ensures L.First(At(A_1, B_1, C_2, E_2), PENDING_1, K_40)
    ensures Check(LoopState(At(A_1, B_1, C_2, E_2), PENDING_1, false), K_40) ==
            LoopState(At(A_1, B_1, C_2, E_2), PENDING_0, false)
  {
    var v := At(A_1, B_1, C_2, E_2);
    RowSizes();
    FirstOf(v, PENDING_1, K_40);
    Kept(v, PENDING_1, K_40, {0, 2});
    assert PENDING_1 - {K_40} == PENDING_0;
  }

  /** The entries in the order of the queue. */
  const CHECKS: seq<Candidate> := [K_35, K_41, K_34, K_45, K_04, K_31, K_54, K_01, K_40]

  lemma NextCheck(k: nat, st: LoopState, c: Candidate, next: LoopState)
    requires k < 9 && CHECKS[k] == c && L.Progress(At(A_3, B_4, C_4, E_2), CHECKS[..k], st)
    requires !st.aborted && c.0 < |st.view| && L.First(st.view, st.pending, c) && Check(st, c) == next
    ensures L.Progress(At(A_3, B_4, C_4, E_2), CHECKS[..k + 1], next)
  {
    hide L.Progress, L.First, Check, At;
    QueueOrders.StepTo(At(A_3, B_4, C_4, E_2), CHECKS[..k], st, c, next);
    assert CHECKS[..k + 1] == CHECKS[..k] + [c];
  }

  lemma ChecksStart()
    ensures L.Progress(At(A_3, B_4, C_4, E_2), CHECKS[..0], LoopState(At(A_3, B_4, C_4, E_2), PENDING_9, false))
    ensures forall a, b, c, e :: |At(a, b, c, e)| == 6
  {
    assert Upward(At(A_3, B_4, C_4, E_2)) == PENDING_9;
  }

  lemma FirstChecks()
    ensures L.Progress(At(A_3, B_4, C_4, E_2), CHECKS[..3], LoopState(At(A_3, B_2, C_3, E_2), PENDING_6, false))
  {
    hide L.Progress, L.First, Check, At;
    ChecksStart();
    Check35();
    NextCheck(0, LoopState(At(A_3, B_4, C_4, E_2), PENDING_9, false), K_35,
              LoopState(At(A_3, B_3, C_4, E_2), PENDING_8, false));
    Check41();
    NextCheck(1, LoopState(At(A_3, B_3, C_4, E_2), PENDING_8, false), K_41,
              LoopState(At(A_3, B_3, C_3, E_2), PENDING_7, false));
    Check34();
    NextCheck(2, LoopState(At(A_3, B_3, C_3, E_2), PENDING_7, false), K_34,
              LoopState(At(A_3, B_2, C_3, E_2), PENDING_6, false));
  }

  lemma MiddleChecks()
    requires L.Progress(At(A_3, B_4, C_4, E_2), CHECKS[..3], LoopState(At(A_3, B_2, C_3, E_2), PENDING_6, false))
    ensures L.Progress(At(A_3, B_4, C_4, E_2), CHECKS[..6], LoopState(At(A_2, B_1, C_2, E_2), PENDING_3, false))
  {
    hide L.Progress, L.First, Check, At;
    ChecksStart();
    Check45();
    NextCheck(3, LoopState(At(A_3, B_2, C_3, E_2), PENDING_6, false), K_45,
              LoopState(At(A_3, B_2, C_2, E_2), PENDING_5, false));
    Check04();
    NextCheck(4, LoopState(At(A_3, B_2, C_2, E_2), PENDING_5, false), K_04,
              LoopState(At(A_2, B_2, C_2, E_2), PENDING_4, false));
    Check31();
    NextCheck(5, LoopState(At(A_2, B_2, C_2, E_2), PENDING_4, false), K_31,
              LoopState(At(A_2, B_1, C_2, E_2), PENDING_3, false));
  }

  lemma LastChecks()
    requires L.Progress(At(A_3, B_4, C_4, E_2), CHECKS[..6], LoopState(At(A_2, B_1, C_2, E_2), PENDING_3, false))
    ensures L.Progress(At(A_3, B_4, C_4, E_2), CHECKS[..9], LoopState(At(A_1, B_1, C_2, E_2), PENDING_0, false))
  {
    hide L.Progress, L.First, Check, At;
    ChecksStart();
    Check54();
    NextCheck(6, LoopState(At(A_2, B_1, C_2, E_2), PENDING_3, false), K_54,
              LoopState(At(A_2, B_1, C_2, E_2), PENDING_2, false));
    Check01();
    NextCheck(7, LoopState(At(A_2, B_1, C_2, E_2), PENDING_2, false), K_01,
              LoopState(At(A_1, B_1, C_2, E_2), PENDING_1, false));
    Check40();
    NextCheck(8, LoopState(At(A_1, B_1, C_2, E_2), PENDING_1, false), K_40,
              LoopState(At(A_1, B_1, C_2, E_2), PENDING_0, false));
  }

  /** What loop removal leaves: two UPWARD entries. */
  lemma ExampleIsCleared()
    ensures L.Cleared(At(A_3, B_4, C_4, E_2), At(A_1, B_1, C_2, E_2))
  {
    hide L.Progress, L.Cleared;
    FirstChecks();
    MiddleChecks();
    LastChecks();
    QueueOrders.ProgressClears(At(A_3, B_4, C_4, E_2), CHECKS[..9], At(A_1, B_1, C_2, E_2));
  }

  /** A dead end is erased, and nothing is pushed again when no DOWNWARD nexthop of its holder
      leads back. */
  lemma DeadEnd(v: View, work: set<Candidate>, c: Candidate, w: View)
    requires c.0 < |v| && c.1.nhId < |v| && c.1.nhId != 2 && |v[c.1.nhId]| <= 1
    requires w == Drop(v, c) && |w| == |v|
    requires forall own :: own in w[c.0] && own.kind == DOWNWARD && own.nhId < |w| ==> !HasNexthop(w[own.nhId], c.0)
    ensures D.Examine(D.DeadEndState(v, work), 2, c) == D.DeadEndState(w, work - {c})
  {
    assert D.Revisit(w, 2, c.0) == {};
  }

  /** The entry of node 4 is looked at first: node 0 has no other entry. */
  lemma Examine40()
    ensures forall x :: x in {K_40, K_54} ==> !W.Before(x, K_40)
    ensures D.Examine(D.DeadEndState(At(A_1, B_1, C_2, E_2), {K_40, K_54}), 2, K_40) ==
            D.DeadEndState(At(A_1, B_1, C_1, E_2), {K_54})
  {
    hide D.Examine;
    RowSizes();
    assert C_2 - {K_40.1} == C_1;
    assert {K_40, K_54} - {K_40} == {K_54};
    DeadEnd(At(A_1, B_1, C_2, E_2), {K_40, K_54}, K_40, At(A_1, B_1, C_1, E_2));
  }

  /** Now node 4 has one entry left, and the entry of node 5 goes as well. */
  lemma Examine54()
    ensures D.Examine(D.DeadEndState(At(A_1, B_1, C_1, E_2), {K_54}), 2, K_54) ==
            D.DeadEndState(At(A_1, B_1, C_1, E_1), {})
  {
    hide D.Examine;
    RowSizes();
    assert E_2 - {K_54.1} == E_1;
    assert {K_54} - {K_54} == {};
    DeadEnd(At(A_1, B_1, C_1, E_2), {K_54}, K_54, At(A_1, B_1, C_1, E_1));
  }

  lemma WorkStarts()
    ensures W.Progress(At(A_1, B_1, C_2, E_2), 2, [], D.DeadEndState(At(A_1, B_1, C_2, E_2), {K_40, K_54}))
    ensures forall a, b, c, e :: |At(a, b, c, e)| == 6
  {
    assert Upward(At(A_1, B_1, C_2, E_2)) == {K_40, K_54};
  }

  /** What dead-end removal leaves: DOWNWARD entries only. */
  lemma ExampleIsTrimmed()
    ensures W.Trimmed(At(A_1, B_1, C_2, E_2), 2, At(A_1, B_1, C_1, E_1))
  {
    hide W.Progress, D.Examine, At;
    var v := At(A_1, B_1, C_2, E_2);
    WorkStarts();
    Examine40();
    Examine54();
    var one := D.DeadEndState(At(A_1, B_1, C_1, E_2), {K_54});
    QueueOrders.WorkTo(v, 2, [], D.DeadEndState(v, {K_40, K_54}), K_40, one);
    QueueOrders.WorkTo(v, 2, [] + [K_40], one, K_54, D.DeadEndState(At(A_1, B_1, C_1, E_1), {}));
    W.ProgressEnds(v, 2, [] + [K_40] + [K_54], D.DeadEndState(At(A_1, B_1, C_1, E_1), {}));
  }

  /** The result of LFID for node 2, and the only one. */
  lemma ExampleResult(v: View)
    ensures LfidPipeline.LfidResult(NetworkOf(METRICS), 2, v) <==> v == At(A_1, B_1, C_1, E_1)
  {
    hide NetworkOf, LfidNetwork, IsView, L.Cleared, W.Trimmed;
    ExampleIsView();
    ExampleIsCleared();
    ExampleIsTrimmed();
    assert LfidPipeline.LfidResult(NetworkOf(METRICS), 2, At(A_1, B_1, C_1, E_1));
    if LfidPipeline.LfidResult(NetworkOf(METRICS), 2, v) {
      LfidPipeline.LfidIsUnique(NetworkOf(METRICS), 2, v, At(A_1, B_1, C_1, E_1));
    }
  }
}
