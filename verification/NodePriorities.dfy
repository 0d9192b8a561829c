/** The queue elements of the loop check: a node with the UPWARD nexthops it still has to
    check, ordered by remaining nexthops, then highest-cost UPWARD nexthop, then id. */
module NodePriorities {
  import opened NextHops

  datatype Key = Key(remaining: int, highest: FibNextHop, id: nat)

  predicate KeyLess(a: Key, b: Key) {
    || a.remaining < b.remaining
    || (a.remaining == b.remaining &&
        (Less(a.highest, b.highest) || (!Less(b.highest, a.highest) && a.id < b.id)))
  }

  lemma KeyOrder(a: Key, b: Key, c: Key)
    requires !KeyLess(a, b) && !KeyLess(b, c)
    ensures !KeyLess(a, c)
  {
  }

  /** Keys of different nodes are never tied. */
  lemma KeyTotal(a: Key, b: Key)
    requires !KeyLess(a, b) && !KeyLess(b, a)
    ensures a.id == b.id && a.remaining == b.remaining && Equivalent(a.highest, b.highest)
  {
  }

  /** A queue element as it is stored: the queue copies elements in and out. */
  datatype Queued = Queued(nodeId: nat, remainingNh: int, uwSet: set<FibNextHop>)

  class NodePrio {
    const nodeId: nat
    var remainingNh: int
    var uwSet: set<FibNextHop>

    constructor (node: nat, remaining: int, nhSet: set<FibNextHop>)
      requires remaining > 0 && |nhSet| > 0
      requires |nhSet| < remaining
      ensures Value() == Queued(node, remaining, nhSet)
      ensures 0 < GetRemainingUw() < remainingNh
    {
      nodeId, remainingNh, uwSet := node, remaining, nhSet;
    }

    constructor Copy(x: Queued)
      ensures Value() == x
    {
      nodeId, remainingNh, uwSet := x.nodeId, x.remainingNh, x.uwSet;
    }

    function Value(): Queued
      reads this
    {
      Queued(nodeId, remainingNh, uwSet)
    }

    function GetRemainingUw(): nat
      reads this
    {
      |uwSet|
    }

    method PopHighestCostUw() returns (nh: FibNextHop)
      requires uwSet != {}
      modifies this
      ensures nh in old(uwSet) && forall x :: x in old(uwSet) ==> !Less(nh, x)
      ensures Value() == old(Value()).(uwSet := old(uwSet) - {nh})
      ensures GetRemainingUw() == old(GetRemainingUw()) - 1
    {
      nh := HighestCostUw(uwSet);
      uwSet := uwSet - {nh};
    }

    method ReduceRemainingNh()
      requires remainingNh - 1 > 0 && remainingNh - 1 > GetRemainingUw()
      modifies this
      ensures Value() == old(Value()).(remainingNh := old(remainingNh) - 1)
      ensures remainingNh > 0 && remainingNh > GetRemainingUw()
    {
      remainingNh := remainingNh - 1;
    }
  }

  /** The last element of the ordered set. */
  method HighestCostUw(uwSet: set<FibNextHop>) returns (nh: FibNextHop)
    requires uwSet != {}
    ensures nh in uwSet && forall x :: x in uwSet ==> !Less(nh, x)
  {
    nh :| nh in uwSet;
    var rest := uwSet - {nh};
    while rest != {}
      invariant rest <= uwSet && nh in uwSet
      invariant forall x :: x in uwSet - rest ==> !Less(nh, x)
    {
      var x :| x in rest;
      ghost var before := nh;
      if Less(nh, x) {
        nh := x;
      }
      forall y | y in uwSet - (rest - {x})
        ensures !Less(nh, y)
      {
        assert y == x || !Less(before, y);
      }
      rest := rest - {x};
    }
  }

  predicate KeyOf(p: Queued, k: Key) {
    k.remaining == p.remainingNh && k.id == p.nodeId && k.highest in p.uwSet
  }

  /** No UPWARD nexthop of any queued node comes before the best one of `top`. */
  ghost predicate OnTop(q: set<Queued>, top: Queued, best: Key) {
    && top in q
    && KeyOf(top, best)
    && forall p, k :: p in q && KeyOf(p, k) ==> !KeyLess(best, k)
  }

  /** The element on top of the priority queue. */
  method Top(q: set<Queued>) returns (top: Queued, ghost best: Key)
    requires q != {} && forall p :: p in q ==> p.uwSet != {}
    ensures OnTop(q, top, best)
  {
    top :| top in q;
    var nh := HighestCostUw(top.uwSet);
    var highest := Key(top.remainingNh, nh, top.nodeId);
    var rest := q - {top};
    while rest != {}
      invariant rest <= q && top in q && KeyOf(top, highest)
      invariant forall p, k :: p in q - rest && KeyOf(p, k) ==> !KeyLess(highest, k)
    {
      var p :| p in rest;
      nh := HighestCostUw(p.uwSet);
      var key := Key(p.remainingNh, nh, p.nodeId);
      ghost var before := highest;
      if KeyLess(highest, key) {
        top, highest := p, key;
      }
      forall r, k | r in q - (rest - {p}) && KeyOf(r, k)
        ensures !KeyLess(highest, k)
      {
        if r == p {
          KeyOrder(highest, key, k);
        } else {
          KeyOrder(highest, before, k);
        }
      }
      rest := rest - {p};
    }
    best := highest;
  }
}
