/** The abstract FIB entry: a nexthop with its cost, its extra cost over the shortest
    path, and its direction. */
module NextHops {

  datatype NextHopType = DOWNWARD | UPWARD | DISABLED

  datatype FibNextHop = FibNextHop(cost: nat, nhId: nat, costDelta: int, kind: NextHopType)

  const MAX_COST := 1000000

  /** The order of nexthop sets: cost delta, then cost, then nexthop id. */
  predicate Less(a: FibNextHop, b: FibNextHop) {
    || a.costDelta < b.costDelta
    || (a.costDelta == b.costDelta && a.cost < b.cost)
    || (a.costDelta == b.costDelta && a.cost == b.cost && a.nhId < b.nhId)
  }

  /** Two entries that the order cannot separate: an ordered set keeps only one of them. */
  predicate Equivalent(a: FibNextHop, b: FibNextHop) {
    !Less(a, b) && !Less(b, a)
  }

  predicate HasNexthop(row: set<FibNextHop>, u: nat) {
    exists nh :: nh in row && nh.nhId == u
  }

  function UpwardOf(row: set<FibNextHop>): set<FibNextHop> {
    set nh | nh in row && nh.kind == UPWARD
  }

  predicate HasDownward(row: set<FibNextHop>) {
    exists nh :: nh in row && nh.kind == DOWNWARD
  }

  ghost predicate OnePerNexthop(row: set<FibNextHop>) {
    forall a, b :: a in row && b in row && a.nhId == b.nhId ==> a == b
  }

  /** A row without equivalent entries has a largest entry. */
  lemma {:induction false} LargestExists(row: set<FibNextHop>)
    requires row != {}
    ensures exists m :: m in row && forall x :: x in row ==> !Less(m, x)
  {
    var x :| x in row;
    if row != {x} {
      var rest := row - {x};
      LargestExists(rest);
      var m :| m in rest && forall y :: y in rest ==> !Less(m, y);
      var top := if Less(m, x) then x else m;
      assert top in row && forall y :: y in row ==> !Less(top, y) by {
        assert row == rest + {x};
      }
    } else {
      assert x in row && forall y :: y in row ==> !Less(x, y);
    }
  }
}
