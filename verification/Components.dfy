/** Undirected graphs, as symmetric sets of arcs, and their connected components. */
module Components {
  import opened Digraph

  ghost predicate Undirected(nodes: set<nat>, g: set<Arc>) {
    forall u, v :: HasArc(g, u, v) ==> HasArc(g, v, u) && u in nodes && v in nodes
  }

  function Neighbours(g: set<Arc>, u: nat): set<nat> {
    set a | a in g && a.0 == u :: a.1
  }

  function Degree(g: set<Arc>, u: nat): nat {
    |Neighbours(g, u)|
  }

  /** The links between nodes of `s`. */
  function Within(g: set<Arc>, s: set<nat>): set<Arc> {
    set a | a in g && a.0 in s && a.1 in s
  }

  ghost predicate Connected(nodes: set<nat>, g: set<Arc>) {
    forall u, v :: u in nodes && v in nodes ==> Reaches(g, u, v)
  }

  lemma ReachesTransitive(g: set<Arc>, u: nat, v: nat, x: nat)
    requires Reaches(g, u, v) && Reaches(g, v, x)
    ensures Reaches(g, u, x)
  {
    var p :| Connects(g, u, p, v);
    var q :| Connects(g, v, q, x);
    WalkOn(g, u, p, v, q, x);
  }

  lemma {:induction false} WalkOn(g: set<Arc>, u: nat, p: seq<nat>, v: nat, q: seq<nat>, x: nat)
    requires Connects(g, u, p, v) && Connects(g, v, q, x)
    ensures Reaches(g, u, x)
  {
    if |q| > 1 {
      var init := q[..|q| - 1];
      assert Connects(g, v, init, init[|init| - 1]);
      WalkOn(g, u, p, v, init, init[|init| - 1]);
      assert HasArc(g, q[|q| - 2], q[|q| - 1]);
      ReachesExtend(g, u, init[|init| - 1], x);
    }
  }

  lemma ReachesArc(g: set<Arc>, u: nat, v: nat)
    requires HasArc(g, u, v)
    ensures Reaches(g, u, v)
  {
    ReachesSelf(g, u);
    ReachesExtend(g, u, u, v);
  }

  lemma ReachesSymmetric(nodes: set<nat>, g: set<Arc>, u: nat, v: nat)
    requires Undirected(nodes, g) && Reaches(g, u, v)
    ensures Reaches(g, v, u)
  {
    var p :| Connects(g, u, p, v);
    WalkBack(nodes, g, u, p, v);
  }

  lemma {:induction false} WalkBack(nodes: set<nat>, g: set<Arc>, u: nat, p: seq<nat>, v: nat)
    requires Undirected(nodes, g) && Connects(g, u, p, v)
    ensures Reaches(g, v, u)
    decreases |p|
  {
    if |p| == 1 {
      ReachesSelf(g, u);
    } else {
      var rest := p[1..];
      assert HasArc(g, p[0], p[1]);
      assert Connects(g, rest[0], rest, v) by {
        forall i | 0 <= i < |rest| - 1 ensures HasArc(g, rest[i], rest[i + 1]) {
          assert HasArc(g, p[i + 1], p[i + 2]);
        }
      }
      WalkBack(nodes, g, rest[0], rest, v);
      ReachesExtend(g, v, rest[0], u);
    }
  }

  /** A labelling of the nodes by components, 0 to `num` - 1, every label in use. */
  ghost predicate IsLabelling(nodes: set<nat>, g: set<Arc>, comp: map<nat, nat>, num: nat) {
    && comp.Keys == nodes
    && (forall u :: u in comp ==> comp[u] < num)
    && (forall i: nat :: i < num ==> i in comp.Values)
    && (forall u, v :: u in comp && v in comp ==> (comp[u] == comp[v] <==> Reaches(g, u, v)))
  }

  /** Labels the nodes one component after another. */
  method ConnectedComponents(nodes: set<nat>, g: set<Arc>) returns (num: nat, comp: map<nat, nat>)
    requires Undirected(nodes, g)
    ensures IsLabelling(nodes, g, comp, num)
  {
    num, comp := 0, map[];
    NothingLabelled(nodes, g);
    while comp.Keys != nodes
      invariant PartlyLabelled(nodes, g, comp, num)
      decreases nodes - comp.Keys
    {
      var x :| x in nodes && x !in comp;
      var component := ReachableFrom(g, x);
      LabelNext(nodes, g, comp, num, x, component);
      comp := comp + map v | v in component :: num;
      num := num + 1;
    }
  }

  /** Some components are labelled, and whole. */
  ghost predicate PartlyLabelled(nodes: set<nat>, g: set<Arc>, comp: map<nat, nat>, num: nat) {
    && comp.Keys <= nodes
    && IsLabelling(comp.Keys, g, comp, num)
    && (forall u, v :: u in comp && Reaches(g, u, v) ==> v in comp)
  }

  lemma NothingLabelled(nodes: set<nat>, g: set<Arc>)
    ensures PartlyLabelled(nodes, g, map[], 0)
  {
  }

  lemma ReachesNodes(nodes: set<nat>, g: set<Arc>, u: nat, v: nat)
    requires Undirected(nodes, g) && u in nodes && Reaches(g, u, v)
    ensures v in nodes
  {
    var w :| Connects(g, u, w, v);
    assert Closed(g, nodes) by {
      forall a | a in g && a.0 in nodes ensures a.1 in nodes {
        assert HasArc(g, a.0, a.1);
      }
    }
    ClosedKeepsWalks(g, nodes, w);
  }

  lemma LabelNext(nodes: set<nat>, g: set<Arc>, comp: map<nat, nat>, num: nat, x: nat, component: set<nat>)
    requires Undirected(nodes, g) && PartlyLabelled(nodes, g, comp, num)
    requires x in nodes && x !in comp
    requires forall v :: v in component <==> Reaches(g, x, v)
    ensures PartlyLabelled(nodes, g, comp + map v | v in component :: num, num + 1)
    ensures x in component
  {
    hide Undirected, Reaches;
    ReachesSelf(g, x);
    forall v | v in component
      ensures v in nodes && v !in comp && Reaches(g, v, x)
    {
      ReachesNodes(nodes, g, x, v);
      ReachesSymmetric(nodes, g, x, v);
    }
    forall u, v | u in component && Reaches(g, u, v)
      ensures v in component
    {
      ReachesTransitive(g, x, u, v);
    }
    forall u, v | u in component && v in component
      ensures Reaches(g, u, v)
    {
      ReachesTransitive(g, u, x, v);
    }
    var more := comp + map v | v in component :: num;
    assert more.Keys == comp.Keys + component;
    assert more[x] == num;
    forall i: nat | i < num
      ensures i in more.Values
    {
      assert i in comp.Values;
      var u :| u in comp && comp[u] == i;
      assert u in more && more[u] == i;
    }
  }

  ghost function ComponentOf(nodes: set<nat>, g: set<Arc>, u: nat): set<nat> {
    set v | v in nodes && Reaches(g, u, v)
  }

  ghost function ComponentCount(nodes: set<nat>, g: set<Arc>): nat {
    |set u | u in nodes :: ComponentOf(nodes, g, u)|
  }

  function LabelClass(comp: map<nat, nat>, i: nat): set<nat> {
    set v | v in comp && comp[v] == i
  }

  function LabelClasses(comp: map<nat, nat>, num: nat): set<set<nat>> {
    set i: nat | i < num :: LabelClass(comp, i)
  }

  lemma {:induction false} ClassesAreDistinct(comp: map<nat, nat>, num: nat)
    requires forall i: nat :: i < num ==> i in comp.Values
    ensures |LabelClasses(comp, num)| == num
  {
    if num > 0 {
      ClassesAreDistinct(comp, num - 1);
      var last := LabelClass(comp, num - 1);
      assert num - 1 in comp.Values;
      var u :| u in comp && comp[u] == num - 1;
      assert u in last;
      assert forall i: nat :: i < num - 1 ==> u !in LabelClass(comp, i);
      assert LabelClasses(comp, num) == LabelClasses(comp, num - 1) + {last};
    }
  }

  /** Any labelling uses as many labels as there are components. */
  lemma LabelsCountComponents(nodes: set<nat>, g: set<Arc>, comp: map<nat, nat>, num: nat)
    requires IsLabelling(nodes, g, comp, num)
    ensures num == ComponentCount(nodes, g)
  {
    hide Reaches;
    ClassesAreDistinct(comp, num);
    var classes := set u | u in nodes :: ComponentOf(nodes, g, u);
    forall u | u in nodes
      ensures ComponentOf(nodes, g, u) == LabelClass(comp, comp[u])
    {
    }
    forall i: nat | i < num
      ensures LabelClass(comp, i) in classes
    {
      assert i in comp.Values;
      var u :| u in comp && comp[u] == i;
      assert ComponentOf(nodes, g, u) in classes;
    }
    assert classes == LabelClasses(comp, num);
  }

  lemma {:induction false} WalkStays(g: set<Arc>, s: set<nat>, w: seq<nat>)
    requires Closed(g, s) && IsWalk(g, w) && w[0] in s
    ensures IsWalk(Within(g, s), w)
  {
    forall i | 0 <= i < |w| - 1
      ensures HasArc(Within(g, s), w[i], w[i + 1])
    {
      ClosedKeepsWalks(g, s, w[..i + 1]);
      assert HasArc(g, w[i], w[i + 1]);
    }
  }

  /** Dropping the rest of the graph loses no connection inside a whole component. */
  lemma ReachesWithin(g: set<Arc>, s: set<nat>, u: nat, v: nat)
    requires Closed(g, s) && u in s && Reaches(g, u, v)
    ensures Reaches(Within(g, s), u, v) && v in s
  {
    var w :| Connects(g, u, w, v);
    WalkStays(g, s, w);
    ClosedKeepsWalks(g, s, w);
    assert Connects(Within(g, s), u, w, v);
  }

  lemma WholeDegrees(nodes: set<nat>, g: set<Arc>, s: set<nat>, u: nat)
    requires Undirected(nodes, g) && Closed(g, s) && u in s
    ensures Degree(Within(g, s), u) == Degree(g, u)
  {
    assert Neighbours(Within(g, s), u) == Neighbours(g, u);
  }
}
