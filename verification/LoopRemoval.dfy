/** Loop removal over the abstract FIBs of all nodes, proved to be a run of the checks of
    LoopChecks in the order of the priority queue. */
module LoopRemoval {
  import opened Digraph
  import opened NextHops
  import opened FibViews
  import opened AbstractFibs
  import opened NodeFibs
  import opened NodePriorities
  import opened LoopChecks

  /** The arcs of all entries for `dst`. */
  method GetDigraphFromFib(fibs: seq<AbstractFib>, dst: nat, ghost v: View, ghost rest: seq<FibMap>)
    returns (dg: set<Arc>)
    requires Hold(fibs, dst, v, rest)
    ensures dg == Arcs(v)
  {
    dg := {};
    for s: nat := 0 to |fibs|
      invariant forall a: Arc :: a in dg <==> a.0 < s && HasNexthop(v[a.0], a.1)
    {
      ghost var before := dg;
      NodeFacts(fibs, dst, v, rest, s);
      if s != dst {
        dg := dg + set nh | nh in fibs[s].perDstFib[dst] :: (s, nh.nhId);
      }
      forall a: Arc
        ensures a in dg <==> a.0 < s + 1 && HasNexthop(v[a.0], a.1)
      {
        assert a in before <==> a.0 < s && HasNexthop(v[a.0], a.1);
        if a.0 == s && HasNexthop(v[s], a.1) {
          var nh :| nh in v[s] && nh.nhId == a.1;
          assert a == (s, nh.nhId);
        }
      }
    }
    forall a: Arc
      ensures a in dg <==> a in Arcs(v)
    {
      assert HasArc(Arcs(v), a.0, a.1) <==> a in dg;
    }
  }

  function PendingOf(pending: set<Candidate>, s: nat): set<FibNextHop> {
    set c | c in pending && c.0 == s :: c.1
  }

  /** One queue element per node with pending entries, holding exactly those, and the
      node's current number of nexthops. */
  function QueueFor(v: View, pending: set<Candidate>): set<Queued> {
    set s: nat | 0 <= s < |v| && PendingOf(pending, s) != {} :: ElementOf(v, pending, s)
  }

  lemma InQueueFor(v: View, pending: set<Candidate>, p: Queued)
    ensures p in QueueFor(v, pending) <==>
              p.nodeId < |v| && p.uwSet != {} && p == ElementOf(v, pending, p.nodeId)
  {
  }

  function ElementOf(v: View, pending: set<Candidate>, s: nat): Queued
    requires s < |v|
  {
    Queued(s, |v[s]|, PendingOf(pending, s))
  }

  /** The entry whose node and cost come first in the order of the queue. */
  ghost predicate First(v: View, pending: set<Candidate>, c: Candidate) {
    && c in pending
    && forall x :: x in pending && x.0 < |v| && c.0 < |v| ==> !KeyLess(KeyIn(v, c), KeyIn(v, x))
  }

  function KeyIn(v: View, c: Candidate): Key
    requires c.0 < |v|
  {
    Key(|v[c.0]|, c.1, c.0)
  }

  /** The order in which the queue delivers entries. */
  ghost predicate ByPriority(v: View, order: seq<Candidate>) {
    order == [] ||
    (var init := order[..|order| - 1];
     && ByPriority(v, init)
     && First(After(v, init).view, After(v, init).pending, order[|order| - 1]))
  }

  lemma PendingBelow(v: View, n: nat, s: nat)
    requires n <= |v|
    ensures PendingOf(UpwardBelow(v, n), s) == if s < n then UpwardOf(v[s]) else {}
  {
    var row := PendingOf(UpwardBelow(v, n), s);
    if s < n {
      forall nh
        ensures nh in row <==> nh in UpwardOf(v[s])
      {
        if nh in UpwardOf(v[s]) {
          assert (s, nh) in UpwardBelow(v, n);
        }
      }
    }
  }

  lemma QueueForEnds(v: View)
    ensures UpwardBelow(v, 0) == {} && QueueFor(v, UpwardBelow(v, 0)) == {}
    ensures UpwardBelow(v, |v|) == Upward(v)
  {
    assert UpwardBelow(v, 0) == {};
  }

  function OwnElement(s: nat, row: set<FibNextHop>): set<Queued> {
    if UpwardOf(row) == {} then {} else {Queued(s, |row|, UpwardOf(row))}
  }

  lemma OwnNothing(s: nat, row: set<FibNextHop>)
    requires row == {}
    ensures OwnElement(s, row) == {} && |UpwardOf(row)| == 0
  {
  }

  lemma QueueForNext(v: View, s: nat)
    requires s < |v|
    ensures QueueFor(v, UpwardBelow(v, s + 1)) == QueueFor(v, UpwardBelow(v, s)) + OwnElement(s, v[s])
  {
    forall t: nat
      ensures t != s ==> PendingOf(UpwardBelow(v, s + 1), t) == PendingOf(UpwardBelow(v, s), t)
      ensures t == s ==> PendingOf(UpwardBelow(v, s), t) == {}
      ensures t == s ==> PendingOf(UpwardBelow(v, s + 1), t) == UpwardOf(v[s])
    {
      PendingBelow(v, s, t);
      PendingBelow(v, s + 1, t);
    }
    forall p
      ensures p in QueueFor(v, UpwardBelow(v, s + 1)) <==>
              p in QueueFor(v, UpwardBelow(v, s)) || p in OwnElement(s, v[s])
    {
      InQueueFor(v, UpwardBelow(v, s + 1), p);
      InQueueFor(v, UpwardBelow(v, s), p);
    }
  }

  /** Queues one node if it has UPWARD nexthops for `dst`, and counts them. */
  method Enqueue(fib: AbstractFib, dst: nat, q: set<Queued>) returns (r: set<Queued>, upward: nat)
    requires fib.Valid() && dst in fib.perDstFib
    requires fib.perDstFib[dst] != {} ==> HasDownward(fib.perDstFib[dst])
    ensures upward == |UpwardOf(fib.perDstFib[dst])|
    ensures r == q + OwnElement(fib.nodeId, fib.perDstFib[dst])
  {
    r := q;
    var uwNhSet := fib.upwardPerDstFib[dst];
    upward := |uwNhSet|;
    if uwNhSet != {} {
      UpwardIsSmaller(fib.perDstFib[dst], uwNhSet);
      var node := new NodePrio(fib.nodeId, |fib.perDstFib[dst]|, uwNhSet);
      r := q + {node.Value()};
    }
  }

  method QueueNode(fibs: seq<AbstractFib>, dst: nat, ghost v: View, ghost rest: seq<FibMap>, s: nat, q: set<Queued>)
    returns (r: set<Queued>, upward: nat)
    requires Hold(fibs, dst, v, rest) && s < |fibs| && Checked(v)
    ensures s < |v| && r == q + OwnElement(s, v[s]) && upward == |UpwardOf(v[s])|
  {
    NodeFacts(fibs, dst, v, rest, s);
    CheckedRow(v, s);
    if s == dst {
      OwnNothing(s, v[s]);
      r, upward := q, 0;
    } else {
      r, upward := Enqueue(fibs[s], dst, q);
    }
  }

  /** The queue and the counter after the first `n` nodes. */
  ghost predicate Built(v: View, n: nat, q: set<Queued>, upward: nat) {
    q == QueueFor(v, UpwardBelow(v, n)) && upward == |UpwardBelow(v, n)|
  }

  lemma BuiltNext(v: View, n: nat, q: set<Queued>, upward: nat)
    requires n < |v| && Built(v, n, q, upward)
    ensures Built(v, n + 1, q + OwnElement(n, v[n]), upward + |UpwardOf(v[n])|)
  {
    UpwardBelowNext(v, n);
    QueueForNext(v, n);
  }

  lemma BuiltEnds(v: View)
    ensures Built(v, 0, {}, 0)
    ensures forall q, upward :: Built(v, |v|, q, upward) ==> q == QueueFor(v, Upward(v)) && upward == |Upward(v)|
  {
    QueueForEnds(v);
  }

  /** Puts every node with UPWARD nexthops into the queue. */
  method BuildQueue(fibs: seq<AbstractFib>, dst: nat, ghost v: View, ghost rest: seq<FibMap>)
    returns (q: set<Queued>, upward: nat)
    requires Hold(fibs, dst, v, rest) && Checked(v)
    ensures q == QueueFor(v, Upward(v))
    ensures upward == |Upward(v)|
  {
    hide *;
    HoldLength(fibs, dst, v, rest);
    q, upward := {}, 0;
    BuiltEnds(v);
    for s: nat := 0 to |fibs|
      invariant Hold(fibs, dst, v, rest) && Built(v, s, q, upward)
    {
      BuiltNext(v, s, q, upward);
      var count;
      q, count := QueueNode(fibs, dst, v, rest, s, q);
      upward := upward + count;
    }
  }

  /** The queue after its element for node `c.0` has given up the entry `c`. */
  function Requeue(q: set<Queued>, top: Queued, node: Queued): set<Queued> {
    q - {top} + (if |node.uwSet| > 0 then {node} else {})
  }

  lemma QueueStep(v: View, w: View, pending: set<Candidate>, c: Candidate)
    requires c in pending && c.0 < |v|
    requires |w| == |v| && forall t: nat :: t < |v| && t != c.0 ==> w[t] == v[t]
    ensures
      var top := ElementOf(v, pending, c.0);
      QueueFor(w, pending - {c}) ==
        Requeue(QueueFor(v, pending), top, Queued(c.0, |w[c.0]|, top.uwSet - {c.1}))
  {
    var rest := pending - {c};
    var top := ElementOf(v, pending, c.0);
    var node := Queued(c.0, |w[c.0]|, top.uwSet - {c.1});
    forall t: nat
      ensures PendingOf(rest, t) == if t == c.0 then top.uwSet - {c.1} else PendingOf(pending, t)
    {
    }
    forall p
      ensures p in QueueFor(w, rest) <==> p in Requeue(QueueFor(v, pending), top, node)
    {
      InQueueFor(w, rest, p);
      InQueueFor(v, pending, p);
    }
  }

  /** The highest-cost entry of the top element comes first among all pending entries. */
  lemma TopIsFirst(v: View, pending: set<Candidate>, top: Queued, best: Key, nh: FibNextHop)
    requires OnTop(QueueFor(v, pending), top, best)
    requires nh in top.uwSet && forall x :: x in top.uwSet ==> !Less(nh, x)
    ensures top.nodeId < |v| && top == ElementOf(v, pending, top.nodeId)
    ensures First(v, pending, (top.nodeId, nh))
  {
    InQueueFor(v, pending, top);
    var c := (top.nodeId, nh);
    forall x | x in pending && x.0 < |v|
      ensures !KeyLess(KeyIn(v, c), KeyIn(v, x))
    {
      var p := ElementOf(v, pending, x.0);
      assert x.1 in p.uwSet;
      InQueueFor(v, pending, p);
      assert KeyOf(p, KeyIn(v, x));
      KeyOrder(KeyIn(v, c), best, KeyIn(v, x));
    }
  }

  /** The graph and the queue agree with the state of the checks. */
  ghost predicate Agrees(st: LoopState, dg: set<Arc>, q: set<Queued>) {
    && Checked(st.view)
    && dg == Arcs(st.view)
    && q == QueueFor(st.view, st.pending)
    && st.pending <= Upward(st.view)
    && !st.aborted
  }

  /** The element that `top` becomes when it gives up `nh`, with `remaining` nexthops left. */
  function Popped(top: Queued, remaining: int, nh: FibNextHop): Queued {
    Queued(top.nodeId, remaining, top.uwSet - {nh})
  }

  lemma TopFacts(st: LoopState, dg: set<Arc>, q: set<Queued>, top: Queued, best: Key, nh: FibNextHop)
    requires Agrees(st, dg, q) && OnTop(q, top, best)
    requires nh in top.uwSet && forall x :: x in top.uwSet ==> !Less(nh, x)
    ensures top.nodeId < |st.view|
    ensures First(st.view, st.pending, (top.nodeId, nh))
    ensures (top.nodeId, nh) in Upward(st.view)
    ensures top.remainingNh > |top.uwSet| > 0
    ensures |top.uwSet - {nh}| == |top.uwSet| - 1
    ensures Check(st, (top.nodeId, nh)).aborted <==>
              Returns(st.view, (top.nodeId, nh)) && !HasOpposite(st.view, (top.nodeId, nh))
    ensures Checked(st.view) && dg == Arcs(st.view)
  {
    TopIsFirst(st.view, st.pending, top, best, nh);
    var s := top.nodeId;
    assert (s, nh) in st.pending;
    assert nh in st.view[s];
    CheckedRow(st.view, s);
    assert top.uwSet <= UpwardOf(st.view[s]);
    UpwardIsSmaller(st.view[s], top.uwSet);
  }

  lemma QueuedIsPending(st: LoopState, dg: set<Arc>, q: set<Queued>, top: Queued, nh: FibNextHop)
    requires Agrees(st, dg, q) && top in q && nh in top.uwSet
    ensures top.nodeId < |st.view| && (top.nodeId, nh) in st.pending && (top.nodeId, nh) in Upward(st.view)
    ensures top == ElementOf(st.view, st.pending, top.nodeId)
  {
    InQueueFor(st.view, st.pending, top);
  }

  lemma DropCount(v: View, c: Candidate)
    requires c.0 < |v| && c.1 in v[c.0]
    ensures |Drop(v, c)[c.0]| == |v[c.0]| - 1
  {
  }

  lemma EntryStays(st: LoopState, dg: set<Arc>, q: set<Queued>, top: Queued, nh: FibNextHop)
    requires Agrees(st, dg, q) && top in q && nh in top.uwSet
    requires top.nodeId < |st.view| && !Returns(st.view, (top.nodeId, nh))
    ensures Agrees(Check(st, (top.nodeId, nh)), dg, Requeue(q, top, Popped(top, top.remainingNh, nh)))
    ensures Check(st, (top.nodeId, nh)).view == st.view
  {
    InQueueFor(st.view, st.pending, top);
    QueueStep(st.view, st.view, st.pending, (top.nodeId, nh));
  }

  lemma EntryGoes(st: LoopState, dg: set<Arc>, q: set<Queued>, top: Queued, nh: FibNextHop)
    requires Agrees(st, dg, q) && top in q && nh in top.uwSet
    requires top.nodeId < |st.view| && Returns(st.view, (top.nodeId, nh)) && HasOpposite(st.view, (top.nodeId, nh))
    ensures Agrees(Check(st, (top.nodeId, nh)), dg - {(top.nodeId, nh.nhId)},
                   Requeue(q, top, Popped(top, top.remainingNh - 1, nh)))
    ensures Check(st, (top.nodeId, nh)).view == Drop(st.view, (top.nodeId, nh))
    ensures |Upward(Drop(st.view, (top.nodeId, nh)))| == |Upward(st.view)| - 1
  {
    var c := (top.nodeId, nh);
    QueuedIsPending(st, dg, q, top, nh);
    CheckedRow(st.view, c.0);
    DropThins(st.view, c);
    DropArc(st.view, c);
    hide HasOpposite, Returns, OnePerNexthop;
    ThinsChecked(st.view, Drop(st.view, c));
    DropCount(st.view, c);
    QueueStep(st.view, Drop(st.view, c), st.pending, c);
  }

  lemma PutBack(dg: set<Arc>, a: Arc, b: Arc)
    requires a in dg && a != b
    ensures dg - {a} + {a} == dg
    ensures dg - {a} - {b} + {a} == dg - {b}
  {
  }

  /** Tests one UPWARD nexthop for a loop and erases it if there is one. Fails where the
      code aborts: the entry loops but the opposite arc is gone. */
  method CheckEntry(fibs: seq<AbstractFib>, dst: nat, dg: set<Arc>, ghost st: LoopState, ghost rest: seq<FibMap>,
                    nodeId: nat, nh: FibNextHop)
    returns (ok: bool, willLoop: bool, dg': set<Arc>)
    requires Hold(fibs, dst, st.view, rest) && Checked(st.view) && dg == Arcs(st.view)
    requires (nodeId, nh) in Upward(st.view)
    modifies fibs
    ensures willLoop <==> Returns(st.view, (nodeId, nh))
    ensures ok <==> willLoop ==> HasOpposite(st.view, (nodeId, nh))
    ensures ok ==> dg' == if willLoop then dg - {(nodeId, nh.nhId)} else dg
    ensures Hold(fibs, dst, if willLoop then Drop(st.view, (nodeId, nh)) else st.view, rest)
  {
    NodeFacts(fibs, dst, st.view, rest, nodeId);
    var nhId := nh.nhId;
    ok, dg' := true, dg;
    var arcExists := HasArc(dg, nhId, nodeId);
    if arcExists {
      dg' := dg' - {(nhId, nodeId)};
      PutBack(dg, (nhId, nodeId), (nodeId, nhId));
    }
    assert dg' == dg - {(nhId, nodeId)};
    willLoop := Search(dg', nhId, nodeId);
    if willLoop {
      EraseEntry(fibs, dst, st.view, rest, nodeId, nh);
      if !arcExists {
        return false, true, dg';
      }
      dg' := dg' - {(nodeId, nhId)};
    }
    if arcExists {
      dg' := dg' + {(nhId, nodeId)};
    }
  }

  lemma QueuedHaveEntries(st: LoopState, dg: set<Arc>, q: set<Queued>)
    requires Agrees(st, dg, q)
    ensures forall p :: p in q ==> p.uwSet != {}
  {
    forall p | p in q
      ensures p.uwSet != {}
    {
      InQueueFor(st.view, st.pending, p);
    }
  }

  lemma OnTopIsQueued(q: set<Queued>, top: Queued, best: Key)
    requires OnTop(q, top, best)
    ensures top in q
  {
  }

  lemma Requeued(q: set<Queued>, top: Queued, remaining: int, nh: FibNextHop, node: Queued)
    requires node == Queued(top.nodeId, remaining, top.uwSet - {nh})
    ensures Requeue(q, top, Popped(top, remaining, nh)) == if |node.uwSet| > 0 then q - {top} + {node} else q - {top}
  {
  }

  /** Checks the UPWARD nexthop on top of the queue, once. */
  method CheckTop(fibs: seq<AbstractFib>, dst: nat, dg: set<Arc>, q: set<Queued>, ghost st: LoopState,
                  ghost rest: seq<FibMap>)
    returns (ok: bool, removed: nat, dg': set<Arc>, q': set<Queued>, ghost c: Candidate)
    requires Hold(fibs, dst, st.view, rest) && Agrees(st, dg, q) && q != {}
    modifies fibs
    ensures c.0 < |st.view| && First(st.view, st.pending, c)
    ensures ok <==> !Check(st, c).aborted
    ensures ok ==> Hold(fibs, dst, Check(st, c).view, rest) && Agrees(Check(st, c), dg', q')
    ensures ok ==> removed + |Upward(Check(st, c).view)| == |Upward(st.view)|
  {
    hide Hold, Agrees, First, OnTop, Requeue, Popped, Check, Returns, HasOpposite, Checked;
    QueuedHaveEntries(st, dg, q);
    var top, best := Top(q);
    assert top in q by {
      OnTopIsQueued(q, top, best);
    }
    q' := q - {top};
    var node := new NodePrio.Copy(top);
    var nh := node.PopHighestCostUw();
    c := (node.nodeId, nh);
    TopFacts(st, dg, q, top, best, nh);
    var willLoop;
    ok, willLoop, dg' := CheckEntry(fibs, dst, dg, st, rest, node.nodeId, nh);
    removed := 0;
    if willLoop {
      node.ReduceRemainingNh();
      removed := 1;
    }
    if !ok {
      return;
    }
    if willLoop {
      EntryGoes(st, dg, q, top, nh);
    } else {
      EntryStays(st, dg, q, top, nh);
    }
    Requeued(q, top, node.remainingNh, nh, node.Value());
    if node.GetRemainingUw() > 0 {
      q' := q' + {node.Value()};
    }
  }

  lemma InitialAgrees(v: View)
    requires Checked(v)
    ensures Agrees(Start(v), Arcs(v), QueueFor(v, Upward(v)))
    ensures Possible(v, []) && ByPriority(v, []) && After(v, []) == Start(v)
  {
  }

  /** The checks so far, and what they have led to. */
  ghost predicate Progress(v: View, order: seq<Candidate>, st: LoopState) {
    Possible(v, order) && ByPriority(v, order) && After(v, order) == st
  }

  lemma ProgressNext(v: View, order: seq<Candidate>, st: LoopState, c: Candidate)
    requires Progress(v, order, st) && !st.aborted && c.0 < |st.view| && First(st.view, st.pending, c)
    ensures Progress(v, order + [c], Check(st, c))
    ensures !Check(st, c).aborted ==> |Check(st, c).pending| < |st.pending|
  {
    AfterNext(v, order, c);
    assert (order + [c])[..|order|] == order;
  }

  lemma QueueIsEmpty(st: LoopState, dg: set<Arc>, q: set<Queued>)
    requires Agrees(st, dg, q)
    ensures q == {} <==> st.pending == {}
  {
    if st.pending != {} {
      var c :| c in st.pending;
      assert c.1 in PendingOf(st.pending, c.0);
      InQueueFor(st.view, st.pending, ElementOf(st.view, st.pending, c.0));
    }
    if q != {} {
      var p :| p in q;
      InQueueFor(st.view, st.pending, p);
    }
  }

  /** Loop removal for one destination: a run of the checks in queue order, which either
      completes or aborts. Counts the UPWARD entries found and removed. */
  method RemoveLoopsFor(fibs: seq<AbstractFib>, dst: nat, ghost v: View, ghost rest: seq<FibMap>)
    returns (ok: bool, upward: nat, removed: nat, ghost order: seq<Candidate>)
    requires Hold(fibs, dst, v, rest) && Checked(v)
    modifies fibs
    ensures ByPriority(v, order)
    ensures ok ==> Completed(v, order) && Hold(fibs, dst, After(v, order).view, rest)
    ensures !ok ==> Aborting(v, order)
    ensures ok ==> upward == |Upward(v)| && removed == |Upward(v)| - |Upward(After(v, order).view)|
  {
    ok, removed, order := true, 0, [];
    var dg := GetDigraphFromFib(fibs, dst, v, rest);
    var q;
    q, upward := BuildQueue(fibs, dst, v, rest);
    ghost var st := Start(v);
    InitialAgrees(v);
    assert Progress(v, order, st);
    hide Hold, Agrees, Check, First, ByPriority;
    while q != {}
      invariant Hold(fibs, dst, st.view, rest) && Agrees(st, dg, q)
      invariant Progress(v, order, st) && !st.aborted
      invariant removed + |Upward(st.view)| == |Upward(v)|
      decreases |st.pending|
    {
      var count;
      ghost var c;
      ok, count, dg, q, c := CheckTop(fibs, dst, dg, q, st, rest);
      ProgressNext(v, order, st, c);
      order, st := order + [c], Check(st, c);
      if !ok {
        return;
      }
      removed := removed + count;
    }
    QueueIsEmpty(st, dg, q);
  }

  /** `w` is what queue-ordered loop checks leave of `v`. */
  ghost predicate Cleared(v: View, w: View) {
    exists order :: Completed(v, order) && ByPriority(v, order) && After(v, order).view == w
  }

  ghost predicate Aborts(v: View) {
    exists order :: Aborting(v, order) && ByPriority(v, order)
  }

  /** Every destination has gone through the checks and is free of loops. */
  ghost predicate AllLoopFree(views: seq<View>, cleared: seq<View>) {
    && |cleared| == |views|
    && forall d: nat {:trigger views[d]} :: d < |views| ==>
         Cleared(views[d], cleared[d]) && LoopFree(cleared[d]) && Thins(views[d], cleared[d])
  }

  /** For some destination the checks abort, which takes a risky view. */
  ghost predicate SomeAborts(views: seq<View>) {
    exists d: nat {:trigger views[d]} :: d < |views| && Aborts(views[d]) && Risky(views[d])
  }

  /** The first `n` destinations are cleared, the others untouched. */
  ghost predicate Swept(views: seq<View>, cleared: seq<View>, n: nat, upward: nat, removed: nat) {
    && |cleared| == |views| && n <= |views|
    && (forall d: nat {:trigger views[d]} :: d < n ==> Cleared(views[d], cleared[d]))
    && (forall d: nat {:trigger views[d]} :: n <= d < |views| ==> cleared[d] == views[d])
    && upward == UpwardCount(views, n)
    && removed == UpwardCount(views, n) - UpwardCount(cleared, n)
  }

  lemma SweptNext(views: seq<View>, cleared: seq<View>, n: nat, upward: nat, removed: nat, w: View)
    requires Swept(views, cleared, n, upward, removed) && n < |views|
    requires Cleared(views[n], w)
    requires |Upward(w)| <= |Upward(views[n])|
    ensures Swept(views, cleared[n := w], n + 1,
                  upward + |Upward(views[n])|, removed + |Upward(views[n])| - |Upward(w)|)
  {
    UpwardCountPrefix(cleared, cleared[n := w], n);
  }

  lemma SweptFacts(views: seq<View>, cleared: seq<View>, n: nat, upward: nat, removed: nat)
    requires Swept(views, cleared, n, upward, removed)
    ensures |cleared| == |views| && n <= |views| && (n < |views| ==> cleared[n] == views[n])
    ensures removed <= upward && removed == UpwardCount(views, n) - UpwardCount(cleared, n)
  {
  }

  lemma SweptStarts(views: seq<View>)
    ensures Swept(views, views, 0, 0, 0)
  {
  }

  lemma CompletedClears(v: View, order: seq<Candidate>)
    requires Completed(v, order) && ByPriority(v, order)
    ensures Cleared(v, After(v, order).view)
    ensures |Upward(After(v, order).view)| <= |Upward(v)|
  {
    LoopFreedom(v, order);
    ThinsUpward(v, After(v, order).view);
    SubsetCardinality(Upward(After(v, order).view), Upward(v));
  }

  lemma ThinsUpward(v: View, w: View)
    requires Thins(v, w)
    ensures Upward(w) <= Upward(v)
  {
  }

  lemma AbortingAborts(views: seq<View>, d: nat, order: seq<Candidate>)
    requires d < |views| && Aborting(views[d], order) && ByPriority(views[d], order)
    ensures SomeAborts(views)
  {
    AbortNeedsRisk(views[d], order);
  }

  lemma SweptMeansLoopFree(views: seq<View>, cleared: seq<View>, upward: nat, removed: nat)
    requires Swept(views, cleared, |views|, upward, removed)
    ensures AllLoopFree(views, cleared)
  {
    forall d: nat {:trigger views[d]} | d < |views|
      ensures LoopFree(cleared[d]) && Thins(views[d], cleared[d])
    {
      var order :| Completed(views[d], order) && ByPriority(views[d], order) &&
          After(views[d], order).view == cleared[d];
      LoopFreedom(views[d], order);
    }
  }

  /** Loop removal for every destination. Fails exactly where the code aborts. */
  method RemoveLoops(fibs: seq<AbstractFib>, ghost views: seq<View>)
    returns (ok: bool, removed: nat, ghost cleared: seq<View>)
    requires HoldAll(fibs, views) && AllChecked(views)
    modifies fibs
    ensures |cleared| == |views|
    ensures ok ==> HoldAll(fibs, cleared)
    ensures ok ==> AllLoopFree(views, cleared)
    ensures ok ==> removed == UpwardCount(views, |views|) - UpwardCount(cleared, |views|)
    ensures !ok ==> SomeAborts(views)
  {
    hide *;
    ok, removed, cleared := true, 0, views;
    var upward: nat := 0;
    HoldAllFacts(fibs, views);
    SweptStarts(views);
    for dst: nat := 0 to |fibs|
      invariant HoldAll(fibs, cleared)
      invariant Swept(views, cleared, dst, upward, removed)
    {
      SweptFacts(views, cleared, dst, upward, removed);
      ghost var v := views[dst];
      AllCheckedAt(views, dst);
      ghost var rest := Focus(fibs, cleared, dst);
      var done, found, gone;
      ghost var order;
      done, found, gone, order := RemoveLoopsFor(fibs, dst, v, rest);
      if !done {
        AbortingAborts(views, dst, order);
        return false, removed, cleared;
      }
      ghost var w := After(v, order).view;
      Unfocus(fibs, cleared, dst, w, rest);
      CompletedClears(v, order);
      SweptNext(views, cleared, dst, upward, removed, w);
      cleared := cleared[dst := w];
      upward, removed := upward + found, removed + gone;
    }
    SweptFacts(views, cleared, |views|, upward, removed);
    SweptMeansLoopFree(views, cleared, upward, removed);
    assert upward - removed >= 0;
  }
}
