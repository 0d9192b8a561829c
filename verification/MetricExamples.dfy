/** Two networks on which face metrics do not come back: two links to one neighbour, and a
    metric of more than 16 bits. */
module MetricExamples {
  import opened Networks
  import opened LfidMetrics
  import A = AllRoutes

  /** Node 0 has two links to node 1, of metrics 1 and 2. */
  const PARALLEL: Graph := Graph(
    [[Incidency(Some(0), 1), Incidency(Some(1), 1)], [Incidency(Some(2), 0), Incidency(Some(3), 0)]],
    map[0 := 1, 1 := 2, 2 := 1, 3 := 2])

  lemma ParallelFaces()
    ensures OwnFaces(PARALLEL, 0)
  {
  }

  lemma SecondIsRemembered()
    ensures RestoredMetric(PARALLEL, 0, 0) == 2
  {
    var g := PARALLEL;
    assert Remembered(g, 0, 1) == map[1 := 1];
    assert Remembered(g, 0, 2) == map[1 := 2];
  }

  /** LFID restores its first face with the metric of the second. */
  lemma ParallelMetricIsLost(m: map<Face, nat>)
    requires RestoredUpTo(PARALLEL, 0, 2, m)
    ensures OwnFaces(PARALLEL, 0) && m != PARALLEL.metric
    ensures 0 in m && m[0] == 2 && PARALLEL.metric[0] == 1
  {
    hide OwnFaces, RestoredMetric;
    ParallelFaces();
    SecondIsRemembered();
    assert PARALLEL.links[0][0].face.value in m;
  }

  /** Two nodes, and a metric of 65536 at the face of node 0. */
  const WIDE: Graph := Graph([[Incidency(Some(0), 1)], [Incidency(Some(1), 0)]], map[0 := 65536, 1 := 1])

  const TABLES: seq<seq<Face>> := [[0], [1]]

  lemma WideTables()
    ensures A.Tables(WIDE, 2, TABLES) && A.InTables(TABLES, 2, 0)
  {
    assert 0 in TABLES[0];
  }

  /** The calculation of all possible routes leaves it at zero. */
  lemma WideMetricIsLost(m: map<Face, nat>)
    requires A.NarrowedBelow(WIDE, TABLES, 2, m)
    ensures A.Tables(WIDE, 2, TABLES) && m != WIDE.metric
    ensures 0 in m && m[0] == 0 && WIDE.metric[0] == 65536
  {
    hide A.Tables, A.InTables;
    WideTables();
    assert 0 in WIDE.metric && WIDE.metric[0] == 65536;
  }
}
