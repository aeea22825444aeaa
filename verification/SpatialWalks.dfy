/** What holds of every node after an update, from what one node's update does
    (webrender/src/clip_scroll_tree.rs). */
module SpatialWalks {
  import opened Options
  import opened SpatialOrders
  import opened SpatialTrees

  /** A reading of update states as places of type P: which place children get, when a state stands
      for a place, when an updated node is right, and which lists of systems can come up. */
  datatype Meaning<!P(!new)> = Meaning(
    child: (nat, SpatialNode, P) -> P,
    inv: (UpdateState, P, seq<CoordinateSystem>) -> bool,
    good: (SpatialNode, nat, SpatialNode, P, seq<CoordinateSystem>) -> bool,
    ok: seq<CoordinateSystem> -> bool)

  /** Coordinate system `a` is `b` or was started directly inside it. */
  predicate Linked(systems: seq<CoordinateSystem>, a: nat, b: nat) {
    a == b || (a < |systems| && systems[a].parent == Some(b))
  }

  /** One node's update respects the meaning. */
  ghost predicate Respects<P(!new)>(m: Meaning<P>, i: nat, node: SpatialNode, state: UpdateState, p: P,
                                    systems: seq<CoordinateSystem>, u: Updated) {
    && systems <= u.systems && m.ok(u.systems)
    && m.inv(u.state, m.child(i, node, p), u.systems)
    && m.good(u.node, i, node, p, u.systems)
    && u.state.coordinateSystem == u.node.coordinateSystem
    && Linked(u.systems, u.node.coordinateSystem, state.coordinateSystem)
  }

  ghost predicate Sound<P(!new)>(m: Meaning<P>, up: Updater) {
    && (forall i, node, state, p, systems :: m.ok(systems) && m.inv(state, p, systems) ==>
          Respects(m, i, node, state, p, systems, up(i, node, state, systems)))
    && (forall state, p, a, b :: a <= b && m.ok(b) && m.inv(state, p, a) ==> m.inv(state, p, b))
    && (forall node', i, node, p, a, b ::
        a <= b && m.ok(b) && m.good(node', i, node, p, a) ==> m.good(node', i, node, p, b))
  }

  /** The place of a node, told by recursion along its ancestors only. */
  ghost function PlaceOf<P(!new)>(m: Meaning<P>, nodes: seq<SpatialNode>, root: P, i: nat): P
    requires TreeShape(nodes) && i < |nodes|
    decreases i
  {
    assert Placed(nodes, i);
    if nodes[i].parent.None? then root
    else
      var j := nodes[i].parent.value;
      m.child(j, nodes[j], PlaceOf(m, nodes, root, j))
  }

  /** Node `j` has its final form. */
  ghost predicate Right<P(!new)>(m: Meaning<P>, nodes: seq<SpatialNode>, root: P, r: Walk, j: nat)
    requires TreeShape(nodes) && SameShape(nodes, r.nodes) && j < |nodes|
  {
    m.good(r.nodes[j], j, nodes[j], PlaceOf(m, nodes, root, j), r.systems)
  }

  /** Its coordinate system is its parent's or lies directly inside it. */
  ghost predicate LinkedToParent(nodes: seq<SpatialNode>, r: Walk, j: nat)
    requires TreeShape(nodes) && SameShape(nodes, r.nodes) && 0 < j < |nodes|
  {
    assert Placed(nodes, j);
    Linked(r.systems, r.nodes[j].coordinateSystem, r.nodes[nodes[j].parent.value].coordinateSystem)
  }

  lemma {:induction false} LinkedLater(a: seq<CoordinateSystem>, b: seq<CoordinateSystem>, x: nat, y: nat)
    requires a <= b && Linked(a, x, y)
    ensures Linked(b, x, y)
  {
  }

  /** What is known after a subtree has been visited. */
  ghost predicate VisitedBelow<P(!new)>(m: Meaning<P>, nodes: seq<SpatialNode>, root: P, w: Walk, r: Walk,
      list: seq<nat>, cs: nat)
    requires TreeShape(nodes) && SameShape(nodes, w.nodes)
  {
    && SameShape(nodes, r.nodes) && w.systems <= r.systems && m.ok(r.systems)
    && (forall j: nat :: j < |nodes| && Below(nodes, list, j) ==> Right(m, nodes, root, r, j))
    && (forall j: nat :: 0 < j < |nodes| && Below(nodes, list, j) && j !in list ==> LinkedToParent(nodes, r, j))
    && (forall j: nat :: j < |nodes| && j in list ==> Linked(r.systems, r.nodes[j].coordinateSystem, cs))
    && (forall j: nat :: j < |nodes| && !Below(nodes, list, j) ==> r.nodes[j] == w.nodes[j])
  }

  /** Nodes below the list are still as they were. */
  ghost predicate Untouched(nodes: seq<SpatialNode>, w: Walk, list: seq<nat>)
    requires TreeShape(nodes) && SameShape(nodes, w.nodes)
  {
    forall j: nat :: j < |nodes| && Below(nodes, list, j) ==> w.nodes[j] == nodes[j]
  }

  lemma {:induction false} VisitNodeRight<P(!new)>(m: Meaning<P>, up: Updater, nodes: seq<SpatialNode>, root: P,
      w: Walk, i: nat, state: UpdateState)
    requires TreeShape(nodes) && SameShape(nodes, w.nodes) && TreeShape(w.nodes) && i < |nodes|
    requires KeepsShape(up) && Sound(m, up) && m.ok(w.systems)
    requires m.inv(state, PlaceOf(m, nodes, root, i), w.systems) && Untouched(nodes, w, [i])
    ensures VisitedBelow(m, nodes, root, w, VisitNode(up, w, i, state), [i], state.coordinateSystem)
    decreases |nodes| - i, 0, 0
  {
    var u := AfterUpdate(up, w, Pending(i, state));
    var w' := Walk(w.nodes[i := u.node], u.systems);
    NodeUpdated(m, up, nodes, root, w, i, state);
    ChildrenBelow(nodes, i);
    VisitListRight(m, up, nodes, root, w', nodes[i].children, u.state, i);
    NodeThenChildren(m, nodes, root, w, w', VisitNode(up, w, i, state), i, state.coordinateSystem);
  }

  lemma {:induction false} ChildrenBelow(nodes: seq<SpatialNode>, i: nat)
    requires TreeShape(nodes) && i < |nodes|
    ensures Siblings(nodes, nodes[i].children, i) && !Below(nodes, nodes[i].children, i)
    ensures forall j: nat :: j < |nodes| ==> (Below(nodes, [i], j) <==> j == i || Below(nodes, nodes[i].children, j))
  {
    assert Placed(nodes, i);
    BelowChildren(nodes, i, i);
    forall j: nat | j < |nodes| ensures Below(nodes, [i], j) <==> j == i || Below(nodes, nodes[i].children, j) {
      BelowSelf(nodes, i, j);
      BelowChildren(nodes, i, j);
    }
  }

  /** The update of one node, before its children are visited. */
  lemma {:induction false} NodeUpdated<P(!new)>(m: Meaning<P>, up: Updater, nodes: seq<SpatialNode>, root: P, w: Walk,
      i: nat, state: UpdateState)
    requires TreeShape(nodes) && SameShape(nodes, w.nodes) && TreeShape(w.nodes) && i < |nodes|
    requires KeepsShape(up) && Sound(m, up) && m.ok(w.systems)
    requires m.inv(state, PlaceOf(m, nodes, root, i), w.systems) && Untouched(nodes, w, [i])
    ensures var u := AfterUpdate(up, w, Pending(i, state));
            var w' := Walk(w.nodes[i := u.node], u.systems);
            && SameShape(nodes, w'.nodes) && TreeShape(w'.nodes) && w.systems <= w'.systems && m.ok(w'.systems)
            && Listed(w'.nodes, nodes[i].children, i + 1)
            && VisitNode(up, w, i, state) == VisitList(up, w', nodes[i].children, u.state, i + 1)
            && m.inv(u.state, m.child(i, nodes[i], PlaceOf(m, nodes, root, i)), w'.systems)
            && Right(m, nodes, root, w', i)
            && u.state.coordinateSystem == w'.nodes[i].coordinateSystem
            && Linked(w'.systems, w'.nodes[i].coordinateSystem, state.coordinateSystem)
            && Untouched(nodes, w', nodes[i].children)
  {
    var top := Pending(i, state);
    var u := AfterUpdate(up, w, top);
    ChildrenBelow(nodes, i);
    assert w.nodes[i] == nodes[i];
    assert Respects(m, i, nodes[i], state, PlaceOf(m, nodes, root, i), w.systems, u);
    VisitUnfolds(up, w, top);
  }

  lemma {:induction false} BelowSelf(nodes: seq<SpatialNode>, i: nat, j: nat)
    requires TreeShape(nodes) && i < |nodes| && j < |nodes|
    ensures Below(nodes, [i], j) <==> Ancestor(nodes, i, j)
  {
    assert [i][0] == i;
  }

  lemma {:induction false} NodeThenChildren<P(!new)>(m: Meaning<P>, nodes: seq<SpatialNode>, root: P, w: Walk, w': Walk,
      r: Walk, i: nat, cs: nat)
    requires TreeShape(nodes) && SameShape(nodes, w.nodes) && SameShape(nodes, w'.nodes) && i < |nodes|
    requires w.systems <= w'.systems && (forall j :: 0 <= j < |nodes| && j != i ==> w'.nodes[j] == w.nodes[j])
    requires forall node', k, node, p, a, b :: a <= b && m.ok(b) && m.good(node', k, node, p, a) ==>
          m.good(node', k, node, p, b)
    requires Right(m, nodes, root, w', i) && Linked(w'.systems, w'.nodes[i].coordinateSystem, cs)
    requires VisitedBelow(m, nodes, root, w', r, nodes[i].children, w'.nodes[i].coordinateSystem)
    requires !Below(nodes, nodes[i].children, i)
    requires forall j: nat :: j < |nodes| ==> (Below(nodes, [i], j) <==> j == i || Below(nodes, nodes[i].children, j))
    ensures VisitedBelow(m, nodes, root, w, r, [i], cs)
  {
    assert Placed(nodes, i);
    assert r.nodes[i] == w'.nodes[i] && Right(m, nodes, root, r, i);
    LinkedLater(w'.systems, r.systems, r.nodes[i].coordinateSystem, cs);
    forall j: nat | 0 < j < |nodes| && Below(nodes, [i], j) && j !in [i] ensures LinkedToParent(nodes, r, j) {
      assert Below(nodes, nodes[i].children, j);
      if j in nodes[i].children {
        var k :| 0 <= k < |nodes[i].children| && nodes[i].children[k] == j;
        assert nodes[j].parent == Some(i);
      }
    }
  }

  lemma {:induction false} VisitListRight<P(!new)>(m: Meaning<P>, up: Updater, nodes: seq<SpatialNode>, root: P,
      w: Walk, list: seq<nat>, state: UpdateState, p: nat)
    requires TreeShape(nodes) && SameShape(nodes, w.nodes) && TreeShape(w.nodes) && p < |nodes|
          && Siblings(nodes, list, p)
    requires KeepsShape(up) && Sound(m, up) && m.ok(w.systems)
    requires m.inv(state, m.child(p, nodes[p], PlaceOf(m, nodes, root, p)), w.systems) && Untouched(nodes, w, list)
    ensures Listed(w.nodes, list, p + 1)
    ensures VisitedBelow(m, nodes, root, w, VisitList(up, w, list, state, p + 1), list, state.coordinateSystem)
    decreases |nodes| - (p + 1), 1, |list|
  {
    if list == [] {
    } else {
      var c, tail := list[0], list[1..];
      assert Placed(nodes, c) && PlaceOf(m, nodes, root, c) == m.child(p, nodes[p], PlaceOf(m, nodes, root, p));
      forall j: nat | j < |nodes| ensures Below(nodes, list, j) <==> Below(nodes, [c], j) || Below(nodes, tail, j) {
        BelowSplit(nodes, list, j);
        BelowSelf(nodes, c, j);
      }
      VisitNodeRight(m, up, nodes, root, w, c, state);
      var w' := VisitNode(up, w, c, state);
      ShapeKept(w.nodes, w'.nodes);
      forall j: nat | j < |nodes| && Below(nodes, tail, j) ensures !Below(nodes, [c], j) {
        TailApart(nodes, list, p, j);
      }
      VisitListRight(m, up, nodes, root, w', tail, state, p);
      FirstThenTail(m, nodes, root, w, w', VisitList(up, w', tail, state, p + 1), list, state.coordinateSystem);
    }
  }

  lemma {:induction false} TailApart(nodes: seq<SpatialNode>, list: seq<nat>, p: nat, j: nat)
    requires TreeShape(nodes) && p < |nodes| && Siblings(nodes, list, p) && list != [] && j < |nodes|
          && Below(nodes, list[1..], j)
    ensures !Below(nodes, [list[0]], j)
  {
    BelowSelf(nodes, list[0], j);
    var k :| 0 <= k < |list[1..]| && Ancestor(nodes, list[1..][k], j);
    if Ancestor(nodes, list[0], j) {
      SiblingsApart(nodes, list[0], list[1..][k], j);
    }
  }

  lemma {:induction false} FirstThenTail<P(!new)>(m: Meaning<P>, nodes: seq<SpatialNode>, root: P, w: Walk, w': Walk,
      r: Walk, list: seq<nat>, cs: nat)
    requires TreeShape(nodes) && SameShape(nodes, w.nodes) && list != [] && list[0] < |nodes|
    requires VisitedBelow(m, nodes, root, w, w', [list[0]], cs)
    requires VisitedBelow(m, nodes, root, w', r, list[1..], cs)
    requires forall node', k, node, p, a, b :: a <= b && m.ok(b) && m.good(node', k, node, p, a) ==>
          m.good(node', k, node, p, b)
    requires forall j: nat :: j < |nodes| ==>
          (Below(nodes, list, j) <==> Below(nodes, [list[0]], j) || Below(nodes, list[1..], j))
    requires forall j: nat :: j < |nodes| && Below(nodes, list[1..], j) ==> !Below(nodes, [list[0]], j)
    ensures VisitedBelow(m, nodes, root, w, r, list, cs)
  {
    var c, tail := list[0], list[1..];
    forall j: nat | 0 < j < |nodes| && Below(nodes, list, j) && j !in list ensures LinkedToParent(nodes, r, j) {
      assert j !in tail && c in list && j != c;
      if Below(nodes, [c], j) {
        assert LinkedToParent(nodes, w', j);
        ParentBelow(nodes, c, j);
        var q := nodes[j].parent.value;
        assert r.nodes[j] == w'.nodes[j] && r.nodes[q] == w'.nodes[q];
        LinkedLater(w'.systems, r.systems, r.nodes[j].coordinateSystem, r.nodes[q].coordinateSystem);
      }
    }
    forall j: nat | j < |nodes| && j in list ensures Linked(r.systems, r.nodes[j].coordinateSystem, cs) {
      if j == c {
        BelowSelf(nodes, c, c);
        assert j in [c] && r.nodes[c] == w'.nodes[c];
        LinkedLater(w'.systems, r.systems, r.nodes[c].coordinateSystem, cs);
      } else {
        assert j in tail;
      }
    }
    forall j: nat | j < |nodes| && Below(nodes, list, j) ensures Right(m, nodes, root, r, j) {
      if Below(nodes, [c], j) {
        assert Right(m, nodes, root, w', j) && r.nodes[j] == w'.nodes[j];
      }
    }
  }

  lemma {:induction false} ParentBelow(nodes: seq<SpatialNode>, c: nat, j: nat)
    requires TreeShape(nodes) && c < |nodes| && 0 < j < |nodes| && Below(nodes, [c], j) && j != c
    ensures nodes[j].parent.Some? && nodes[j].parent.value < j && Below(nodes, [c], nodes[j].parent.value)
  {
    assert Placed(nodes, j);
    BelowSelf(nodes, c, j);
    BelowSelf(nodes, c, nodes[j].parent.value);
  }

  /** After an update every node is right, for its place among its ancestors, and its coordinate
      system is linked to its parent's. */
  lemma {:induction false} UpdateRight<P(!new)>(m: Meaning<P>, up: Updater, nodes: seq<SpatialNode>, root: P,
      first: CoordinateSystem, state: UpdateState)
    requires TreeShape(nodes) && nodes != [] && KeepsShape(up) && Sound(m, up) && m.ok([first])
          && m.inv(state, root, [first])
    ensures var r := VisitNode(up, Walk(nodes, [first]), 0, state);
            && SameShape(nodes, r.nodes) && [first] <= r.systems && m.ok(r.systems)
            && (forall j :: 0 <= j < |nodes| ==> Right(m, nodes, root, r, j))
            && (forall j :: 0 < j < |nodes| ==> LinkedToParent(nodes, r, j))
  {
    assert Placed(nodes, 0);
    var w := Walk(nodes, [first]);
    VisitNodeRight(m, up, nodes, root, w, 0, state);
    forall j: nat | j < |nodes| ensures Below(nodes, [0], j) {
      BelowSelf(nodes, 0, j);
      RootIsAboveAll(nodes, j);
    }
  }
}
