/** The abstract FIB of one node: nexthop sets per destination, the UPWARD ones kept a
    second time, and two counters, all updated in place. */
module AbstractFibs {
  import opened NextHops
  import opened Digraph

  type FibMap = map<nat, set<FibNextHop>>

  const MAX_SIZE := 100000

  /** The number of entries for destinations below `n`. */
  function Total(m: FibMap, n: nat): nat {
    if n == 0 then 0
    else Total(m, n - 1) + (if n - 1 in m then |m[n - 1]| else 0)
  }

  lemma {:induction false} TotalUpdate(m: FibMap, n: nat, d: nat, row: set<FibNextHop>)
    requires d in m
    ensures Total(m[d := row], n) == if d < n then Total(m, n) - |m[d]| + |row| else Total(m, n)
  {
    if n > 0 {
      TotalUpdate(m, n - 1, d, row);
    }
  }

  lemma {:induction false} TotalEmpty(m: FibMap, n: nat)
    requires forall d :: d in m ==> m[d] == {}
    ensures Total(m, n) == 0
  {
    if n > 0 {
      TotalEmpty(m, n - 1);
    }
  }

  /** What the consistency check accepts for one destination. */
  predicate RowPasses(row: set<FibNextHop>) {
    && (forall nh :: nh in row ==> 0 < nh.cost < MAX_COST)
    && (forall a, b :: a in row && b in row && a.nhId == b.nhId ==> a == b)
    && (HasDownward(row) || row == {})
  }

  ghost predicate Consistent(node: nat, nodes: nat, all: FibMap, upward: FibMap) {
    && all.Keys == upward.Keys == Below(nodes) - {node}
    && (forall d :: d in all ==> upward[d] == UpwardOf(all[d]) && RowTyped(node, all[d]))
  }

  predicate RowTyped(node: nat, row: set<FibNextHop>) {
    forall nh :: nh in row ==> nh.kind != DISABLED && nh.nhId != node
  }

  lemma ReplaceRow(node: nat, nodes: nat, all: FibMap, upward: FibMap, d: nat, row: set<FibNextHop>)
    requires Consistent(node, nodes, all, upward) && d in all && RowTyped(node, row)
    ensures Consistent(node, nodes, all[d := row], upward[d := UpwardOf(row)])
    ensures Total(all[d := row], nodes) == Total(all, nodes) - |all[d]| + |row|
    ensures Total(upward[d := UpwardOf(row)], nodes) == Total(upward, nodes) - |UpwardOf(all[d])| + |UpwardOf(row)|
  {
    TotalUpdate(all, nodes, d, row);
    TotalUpdate(upward, nodes, d, UpwardOf(row));
  }

  /** The ordered set does not yet hold an entry it could not tell from `nh`. */
  predicate Separable(row: set<FibNextHop>, nh: FibNextHop) {
    forall x :: x in row ==> !Equivalent(x, nh)
  }

  lemma AddEntry(row: set<FibNextHop>, nh: FibNextHop)
    requires Separable(row, nh)
    ensures nh !in row
    ensures UpwardOf(row + {nh}) == if nh.kind == UPWARD then UpwardOf(row) + {nh} else UpwardOf(row)
  {
    assert Equivalent(nh, nh);
  }

  lemma SameRow(m: FibMap, d: nat, row: set<FibNextHop>)
    requires d in m && m[d] == row
    ensures m[d := row] == m
  {
  }

  lemma InsertKeeps(node: nat, nodes: nat, all: FibMap, upward: FibMap, d: nat, nh: FibNextHop)
    requires Consistent(node, nodes, all, upward) && d in all
    requires nh.kind != DISABLED && nh.nhId != node && Separable(all[d], nh)
    ensures
      var u := if nh.kind == UPWARD then upward[d := upward[d] + {nh}] else upward;
      && Consistent(node, nodes, all[d := all[d] + {nh}], u)
      && Total(all[d := all[d] + {nh}], nodes) == Total(all, nodes) + 1
      && Total(u, nodes) == Total(upward, nodes) + (if nh.kind == UPWARD then 1 else 0)
  {
    var row := all[d];
    AddEntry(row, nh);
    ReplaceRow(node, nodes, all, upward, d, row + {nh});
    if nh.kind == UPWARD {
      assert |UpwardOf(row) + {nh}| == |UpwardOf(row)| + 1;
    } else {
      SameRow(upward, d, UpwardOf(row));
    }
  }

  class AbstractFib {
    const nodeId: nat
    const numberOfNodes: nat
    var upwardCounter: int
    var totalNhCounter: int
    var perDstFib: FibMap
    var upwardPerDstFib: FibMap

    /** The upward map is exactly the UPWARD subset of the full map, both counters equal
        the summed set sizes, and no entry is disabled or leads back to the node. */
    ghost predicate Valid()
      reads this
    {
      && Consistent(nodeId, numberOfNodes, perDstFib, upwardPerDstFib)
      && totalNhCounter == Total(perDstFib, numberOfNodes)
      && upwardCounter == Total(upwardPerDstFib, numberOfNodes)
    }

    /** The nexthops for a destination; none for the node itself. */
    function Row(dst: nat): set<FibNextHop>
      reads this
    {
      if dst in perDstFib then perDstFib[dst] else {}
    }

    constructor (node: nat, nodes: nat)
      requires node <= MAX_SIZE && 1 < nodes <= MAX_SIZE
      ensures Valid()
      ensures nodeId == node && numberOfNodes == nodes
      ensures forall d :: d in perDstFib ==> perDstFib[d] == {}
    {
      nodeId, numberOfNodes := node, nodes;
      upwardCounter, totalNhCounter := 0, 0;
      perDstFib, upwardPerDstFib := map[], map[];
      new;
      for d := 0 to nodes
        invariant perDstFib.Keys == Below(d) - {nodeId}
        invariant upwardPerDstFib == perDstFib
        invariant upwardCounter == totalNhCounter == 0
        invariant forall e :: e in perDstFib ==> perDstFib[e] == {}
      {
        if d != nodeId {
          perDstFib := perDstFib[d := {}];
          upwardPerDstFib := upwardPerDstFib[d := {}];
        }
      }
      TotalEmpty(perDstFib, nodes);
    }

    method Insert(dst: nat, nh: FibNextHop)
      requires Valid()
      requires dst in perDstFib
      requires nh.kind != DISABLED && nh.nhId != nodeId
      requires Separable(perDstFib[dst], nh)
      modifies this
      ensures Valid()
      ensures perDstFib == old(perDstFib)[dst := old(perDstFib[dst]) + {nh}]
    {
      InsertKeeps(nodeId, numberOfNodes, perDstFib, upwardPerDstFib, dst, nh);
      perDstFib := perDstFib[dst := perDstFib[dst] + {nh}];
      totalNhCounter := totalNhCounter + 1;
      if nh.kind == UPWARD {
        upwardPerDstFib := upwardPerDstFib[dst := upwardPerDstFib[dst] + {nh}];
        upwardCounter := upwardCounter + 1;
      }
    }

    /** The first entry, in the order of the set, that leads to `nhId`. */
    method Find(dst: nat, nhId: nat) returns (found: bool, nh: FibNextHop)
      requires dst in perDstFib
      ensures found <==> HasNexthop(perDstFib[dst], nhId)
      ensures found ==> nh in perDstFib[dst] && nh.nhId == nhId
      ensures found ==> forall x :: x in perDstFib[dst] && x.nhId == nhId ==> !Less(x, nh)
    {
      found, nh := false, FibNextHop(0, nhId, 0, DISABLED);
      var rest := perDstFib[dst];
      while rest != {}
        invariant rest <= perDstFib[dst]
        invariant found ==> nh in perDstFib[dst] && nh.nhId == nhId
        invariant forall x :: x in perDstFib[dst] - rest && x.nhId == nhId ==> found && !Less(x, nh)
      {
        var x :| x in rest;
        if x.nhId == nhId && (!found || Less(x, nh)) {
          found, nh := true, x;
        }
        rest := rest - {x};
      }
    }

    /** Erases the entry that leads to `nhId`, from both maps. Only UPWARD entries may be
        erased. Returns how many entries were erased. */
    method Erase(dst: nat, nhId: nat) returns (erased: nat)
      requires Valid()
      requires dst in perDstFib
      requires forall x :: x in perDstFib[dst] && x.nhId == nhId ==> x.kind == UPWARD
      modifies this
      ensures Valid()
      ensures erased == 0 <==> !HasNexthop(old(perDstFib[dst]), nhId)
      ensures erased == 0 ==> perDstFib == old(perDstFib)
      ensures erased != 0 ==> erased == 1 && exists nh ::
                && nh in old(perDstFib[dst]) && nh.nhId == nhId
                && (forall x :: x in old(perDstFib[dst]) && x.nhId == nhId ==> !Less(x, nh))
                && perDstFib == old(perDstFib)[dst := old(perDstFib[dst]) - {nh}]
    {
      var found, nh := Find(dst, nhId);
      if !found {
        return 0;
      }
      ghost var row := perDstFib[dst];
      ReplaceRow(nodeId, numberOfNodes, perDstFib, upwardPerDstFib, dst, row - {nh});
      assert UpwardOf(row - {nh}) == UpwardOf(row) - {nh};
      totalNhCounter := totalNhCounter - 1;
      perDstFib := perDstFib[dst := perDstFib[dst] - {nh}];
      upwardPerDstFib := upwardPerDstFib[dst := upwardPerDstFib[dst] - {nh}];
      upwardCounter := upwardCounter - 1;
      erased := 1;
    }

    /** Walks over one row as the consistency check does. */
    method CheckRow(row: set<FibNextHop>) returns (ok: bool)
      ensures ok <==> RowPasses(row)
    {
      var hasDownward := false;
      var nextHopSet: set<nat> := {};
      var rest := row;
      while rest != {}
        invariant rest <= row
        invariant hasDownward <==> HasDownward(row - rest)
        invariant forall u :: u in nextHopSet <==> HasNexthop(row - rest, u)
        invariant forall nh :: nh in row - rest ==> 0 < nh.cost < MAX_COST
        invariant forall a, b :: a in row - rest && b in row - rest && a.nhId == b.nhId ==> a == b
      {
        var nh :| nh in rest;
        if nh.cost <= 0 || nh.cost >= MAX_COST {
          return false;
        }
        if nh.nhId in nextHopSet {
          ghost var other :| other in row - rest && other.nhId == nh.nhId;
          return false;
        }
        assert row - (rest - {nh}) == row - rest + {nh};
        if nh.kind == DOWNWARD {
          hasDownward := true;
        }
        nextHopSet := nextHopSet + {nh.nhId};
        rest := rest - {nh};
      }
      assert row - rest == row;
      ok := hasDownward || row == {};
    }

    /** Accepts exactly the FIBs in which every destination has at most one entry per
        nexthop, sane costs, and a DOWNWARD entry unless it has none at all. */
    method CheckFib() returns (ok: bool)
      ensures ok <==> perDstFib != map[] && forall d :: d in perDstFib ==> RowPasses(perDstFib[d])
    {
      if perDstFib == map[] {
        return false;
      }
      var rest := perDstFib.Keys;
      while rest != {}
        invariant rest <= perDstFib.Keys
        invariant forall d :: d in perDstFib.Keys - rest ==> RowPasses(perDstFib[d])
      {
        var d :| d in rest;
        var passes := CheckRow(perDstFib[d]);
        if !passes {
          return false;
        }
        rest := rest - {d};
      }
      ok := true;
    }
  }
}
