/** The tree of spatial nodes, its construction, and its traversal with an explicit stack
    (webrender/src/clip_scroll_tree.rs). What an update does to one node is a parameter here. */
module SpatialTrees {
  import opened Geometry
  import opened Matrices
  import opened Options
  import opened Transforms2D

  datatype Vector = Vector(x: real, y: real)

  datatype TransformStyle = Flat | Preserve3D

  datatype NodeType =
    | ReferenceFrame(style: TransformStyle, perspective: bool, origin: Vector, frameInvertible: bool)
    | ScrollFrame(offset: Vector, viewportRect: Rect)
    | StickyFrame(currentOffset: Vector)

  datatype SpatialNode = SpatialNode(
    parent: Option<nat>, children: seq<nat>, nodeType: NodeType,
    viewport: ScaleOffset, content: ScaleOffset, coordinateSystem: nat, invertible: bool)

  datatype CoordinateSystem = CoordinateSystem(transform: Mat, world: Mat, shouldFlatten: bool, parent: Option<nat>)

  /** What a parent hands to its children during an update. */
  datatype UpdateState = UpdateState(
    accumulatedScroll: Vector, nearestOffset: Vector, nearestViewport: Rect,
    coordinateSystem: nat, scaleOffset: ScaleOffset, invertible: bool, preserves3D: bool)

  /* ---------------- shape ---------------- */

  /** Node `i` is the root or is listed by its older parent, and lists its children oldest first. */
  ghost predicate Placed(nodes: seq<SpatialNode>, i: nat)
    requires i < |nodes|
  {
    && (nodes[i].parent.None? <==> i == 0)
    && (nodes[i].parent.Some? ==> nodes[i].parent.value < i && i in nodes[nodes[i].parent.value].children)
    && (forall k :: 0 <= k < |nodes[i].children| ==>
          i < nodes[i].children[k] < |nodes| && nodes[nodes[i].children[k]].parent == Some(i))
    && (forall j, k :: 0 <= j < k < |nodes[i].children| ==> nodes[i].children[j] < nodes[i].children[k])
  }

  /** One root, and every other node below an older one. */
  ghost predicate TreeShape(nodes: seq<SpatialNode>) {
    forall i :: 0 <= i < |nodes| ==> Placed(nodes, i)
  }

  ghost predicate SameShape(a: seq<SpatialNode>, b: seq<SpatialNode>) {
    |a| == |b| && forall i :: 0 <= i < |a| ==> a[i].parent == b[i].parent && a[i].children == b[i].children
  }

  lemma {:induction false} ShapeKept(a: seq<SpatialNode>, b: seq<SpatialNode>)
    requires TreeShape(a) && SameShape(a, b)
    ensures TreeShape(b)
  {
    forall i | 0 <= i < |b| ensures Placed(b, i) {
      assert Placed(a, i);
    }
  }

  /* ---------------- visiting in recursive pre-order ---------------- */

  datatype Updated = Updated(node: SpatialNode, state: UpdateState, systems: seq<CoordinateSystem>)

  /** The update of a node by its index, from its parent's state and the coordinate systems so far. */
  type Updater = (nat, SpatialNode, UpdateState, seq<CoordinateSystem>) -> Updated

  ghost predicate KeepsShape(up: Updater) {
    forall i, node, state, systems ::
      up(i, node, state, systems).node.parent == node.parent
          && up(i, node, state, systems).node.children == node.children
  }

  datatype Walk = Walk(nodes: seq<SpatialNode>, systems: seq<CoordinateSystem>)

  ghost predicate Listed(nodes: seq<SpatialNode>, list: seq<nat>, lo: nat) {
    forall k :: 0 <= k < |list| ==> lo <= list[k] < |nodes|
  }

  /** A node, then its children from the state that it prepares. */
  ghost function VisitNode(up: Updater, w: Walk, i: nat, state: UpdateState): (r: Walk)
    requires TreeShape(w.nodes) && i < |w.nodes| && KeepsShape(up)
    ensures SameShape(w.nodes, r.nodes)
    decreases |w.nodes| - i, 0, 0
  {
    assert Placed(w.nodes, i);
    var u := up(i, w.nodes[i], state, w.systems);
    var nodes := w.nodes[i := u.node];
    ShapeKept(w.nodes, nodes);
    VisitList(up, Walk(nodes, u.systems), w.nodes[i].children, u.state, i + 1)
  }

  ghost function VisitList(up: Updater, w: Walk, list: seq<nat>, state: UpdateState, lo: nat): (r: Walk)
    requires TreeShape(w.nodes) && KeepsShape(up) && Listed(w.nodes, list, lo)
    ensures SameShape(w.nodes, r.nodes)
    decreases |w.nodes| - lo, 1, |list|
  {
    if list == [] then w
    else
      var w' := VisitNode(up, w, list[0], state);
      ShapeKept(w.nodes, w'.nodes);
      VisitList(up, w', list[1..], state, lo)
  }

  /* ---------------- the order of visits ---------------- */

  ghost function Order(nodes: seq<SpatialNode>, i: nat): seq<nat>
    requires TreeShape(nodes) && i < |nodes|
    decreases |nodes| - i, 0, 0
  {
    assert Placed(nodes, i);
    [i] + OrderList(nodes, nodes[i].children, i + 1)
  }

  ghost function OrderList(nodes: seq<SpatialNode>, list: seq<nat>, lo: nat): seq<nat>
    requires TreeShape(nodes) && Listed(nodes, list, lo)
    decreases |nodes| - lo, 1, |list|
  {
    if list == [] then [] else Order(nodes, list[0]) + OrderList(nodes, list[1..], lo)
  }

  /* ---------------- the explicit stack ---------------- */

  datatype Pending = Pending(index: nat, state: UpdateState)

  ghost predicate Indices(nodes: seq<SpatialNode>, stack: seq<Pending>) {
    forall k :: 0 <= k < |stack| ==> stack[k].index < |nodes|
  }

  /** The children, youngest first, as they are pushed. */
  function PushedChildren(list: seq<nat>, state: UpdateState): (r: seq<Pending>)
    ensures |r| == |list| && forall k :: 0 <= k < |r| ==> r[k] == Pending(list[|list| - 1 - k], state)
  {
    seq(|list|, k requires 0 <= k < |list| => Pending(list[|list| - 1 - k], state))
  }

  /** Emptying the stack, each entry with the whole subtree below it. */
  ghost function Drain(up: Updater, w: Walk, stack: seq<Pending>): (r: Walk)
    requires TreeShape(w.nodes) && KeepsShape(up) && Indices(w.nodes, stack)
    ensures SameShape(w.nodes, r.nodes)
    decreases |stack|
  {
    if stack == [] then w
    else
      var top := stack[|stack| - 1];
      var w' := VisitNode(up, w, top.index, top.state);
      ShapeKept(w.nodes, w'.nodes);
      Drain(up, w', stack[..|stack| - 1])
  }

  ghost function DrainOrder(nodes: seq<SpatialNode>, stack: seq<Pending>): seq<nat>
    requires TreeShape(nodes) && Indices(nodes, stack)
    decreases |stack|
  {
    if stack == [] then [] else Order(nodes, stack[|stack| - 1].index) + DrainOrder(nodes, stack[..|stack| - 1])
  }

  lemma {:induction false} DrainTop(up: Updater, w: Walk, rest: seq<Pending>, top: Pending)
    requires TreeShape(w.nodes) && KeepsShape(up) && Indices(w.nodes, rest) && top.index < |w.nodes|
    ensures var w' := VisitNode(up, w, top.index, top.state);
            TreeShape(w'.nodes) && Drain(up, w, rest + [top]) == Drain(up, w', rest)
  {
    var stack := rest + [top];
    assert stack[..|stack| - 1] == rest;
    ShapeKept(w.nodes, VisitNode(up, w, top.index, top.state).nodes);
  }

  lemma {:induction false} DrainTopTo(up: Updater, w: Walk, rest: seq<Pending>, top: Pending, v: Walk)
    requires TreeShape(w.nodes) && KeepsShape(up) && Indices(w.nodes, rest) && top.index < |w.nodes|
    requires v == VisitNode(up, w, top.index, top.state)
    ensures TreeShape(v.nodes) && Indices(v.nodes, rest) && Drain(up, w, rest + [top]) == Drain(up, v, rest)
  {
    DrainTop(up, w, rest, top);
  }

  lemma {:induction false} DrainOrderTop(nodes: seq<SpatialNode>, rest: seq<Pending>, top: Pending)
    requires TreeShape(nodes) && Indices(nodes, rest) && top.index < |nodes|
    ensures DrainOrder(nodes, rest + [top]) == Order(nodes, top.index) + DrainOrder(nodes, rest)
  {
    var stack := rest + [top];
    assert stack[..|stack| - 1] == rest;
  }

  lemma {:induction false} LastPushed(rest: seq<Pending>, list: seq<nat>, state: UpdateState)
    requires list != []
    ensures rest + PushedChildren(list, state) == (rest + PushedChildren(list[1..], state)) + [Pending(list[0], state)]
  {
  }

  lemma {:induction false} PushedIndices(nodes: seq<SpatialNode>, rest: seq<Pending>, list: seq<nat>,
      state: UpdateState, lo: nat)
    requires Indices(nodes, rest) && Listed(nodes, list, lo)
    ensures Indices(nodes, rest + PushedChildren(list, state))
  {
  }

  /** Pushing the children of a node amounts to visiting them in order. */
  lemma {:induction false} DrainPushed(up: Updater, w: Walk, rest: seq<Pending>, list: seq<nat>, state: UpdateState,
      lo: nat)
    requires TreeShape(w.nodes) && KeepsShape(up) && Indices(w.nodes, rest) && Listed(w.nodes, list, lo)
    ensures var w' := VisitList(up, w, list, state, lo);
            TreeShape(w'.nodes) && Drain(up, w, rest + PushedChildren(list, state)) == Drain(up, w', rest)
    decreases |list|
  {
    if list == [] {
      assert rest + PushedChildren(list, state) == rest;
    } else {
      var tail := list[1..];
      PushedIndices(w.nodes, rest, tail, state, lo);
      LastPushed(rest, list, state);
      DrainTop(up, w, rest + PushedChildren(tail, state), Pending(list[0], state));
      DrainPushed(up, VisitNode(up, w, list[0], state), rest, tail, state, lo);
    }
  }

  lemma {:induction false} DrainPushedTo(up: Updater, w: Walk, rest: seq<Pending>, list: seq<nat>, state: UpdateState,
      lo: nat, v: Walk)
    requires TreeShape(w.nodes) && KeepsShape(up) && Indices(w.nodes, rest) && Listed(w.nodes, list, lo)
    requires v == VisitList(up, w, list, state, lo)
    ensures TreeShape(v.nodes) && Indices(v.nodes, rest)
          && Drain(up, w, rest + PushedChildren(list, state)) == Drain(up, v, rest)
  {
    DrainPushed(up, w, rest, list, state, lo);
  }

  lemma {:induction false} DrainOrderPushed(nodes: seq<SpatialNode>, rest: seq<Pending>, list: seq<nat>,
      state: UpdateState, lo: nat)
    requires TreeShape(nodes) && Indices(nodes, rest) && Listed(nodes, list, lo)
    ensures DrainOrder(nodes, rest + PushedChildren(list, state))
        == OrderList(nodes, list, lo) + DrainOrder(nodes, rest)
    decreases |list|
  {
    if list == [] {
      assert rest + PushedChildren(list, state) == rest;
    } else {
      var tail := list[1..];
      PushedIndices(nodes, rest, tail, state, lo);
      LastPushed(rest, list, state);
      DrainOrderTop(nodes, rest + PushedChildren(tail, state), Pending(list[0], state));
      DrainOrderPushed(nodes, rest, tail, state, lo);
      assert OrderList(nodes, list, lo) == Order(nodes, list[0]) + OrderList(nodes, tail, lo);
    }
  }

  function AfterUpdate(up: Updater, w: Walk, top: Pending): Updated
    requires top.index < |w.nodes|
  {
    up(top.index, w.nodes[top.index], top.state, w.systems)
  }

  lemma {:induction false} VisitUnfolds(up: Updater, w: Walk, top: Pending)
    requires TreeShape(w.nodes) && KeepsShape(up) && top.index < |w.nodes|
    ensures var u := AfterUpdate(up, w, top);
            var w' := Walk(w.nodes[top.index := u.node], u.systems);
            && SameShape(w.nodes, w'.nodes) && TreeShape(w'.nodes)
            && Listed(w'.nodes, w.nodes[top.index].children, top.index + 1)
            && VisitNode(up, w, top.index, top.state)
                == VisitList(up, w', w.nodes[top.index].children, u.state, top.index + 1)
  {
    assert Placed(w.nodes, top.index);
    var u := AfterUpdate(up, w, top);
    ShapeKept(w.nodes, w.nodes[top.index := u.node]);
  }

  lemma {:induction false} OrderUnfolds(nodes: seq<SpatialNode>, i: nat)
    requires TreeShape(nodes) && i < |nodes|
    ensures Listed(nodes, nodes[i].children, i + 1)
    ensures Order(nodes, i) == [i] + OrderList(nodes, nodes[i].children, i + 1)
  {
    assert Placed(nodes, i);
  }

  lemma {:induction false} Regroup(i: nat, below: seq<nat>, after: seq<nat>)
    ensures ([i] + below) + after == [i] + (below + after)
  {
  }

  lemma {:induction false} DrainOrderStep(nodes: seq<SpatialNode>, rest: seq<Pending>, top: Pending, state: UpdateState)
    requires TreeShape(nodes) && Indices(nodes, rest) && top.index < |nodes|
    ensures var stack' := rest + PushedChildren(nodes[top.index].children, state);
            && Indices(nodes, stack')
            && DrainOrder(nodes, rest + [top]) == [top.index] + DrainOrder(nodes, stack')
  {
    OrderUnfolds(nodes, top.index);
    var children := nodes[top.index].children;
    PushedIndices(nodes, rest, children, state, top.index + 1);
    DrainOrderTop(nodes, rest, top);
    DrainOrderPushed(nodes, rest, children, state, top.index + 1);
    Regroup(top.index, OrderList(nodes, children, top.index + 1), DrainOrder(nodes, rest));
  }

  /** What is known after a turn of the loop. */
  ghost predicate Stepped(up: Updater, shape: seq<SpatialNode>, w: Walk, stack: seq<Pending>, w': Walk,
      stack': seq<Pending>, i: nat)
    requires TreeShape(shape) && SameShape(shape, w.nodes) && TreeShape(w.nodes) && KeepsShape(up)
          && Indices(shape, stack)
  {
    && SameShape(shape, w'.nodes) && TreeShape(w'.nodes) && Indices(shape, stack')
    && Drain(up, w', stack') == Drain(up, w, stack)
    && DrainOrder(shape, stack) == [i] + DrainOrder(shape, stack')
  }

  /** One turn of the loop, on values: the top node is updated and its children are pushed. */
  lemma {:induction false} TurnOfLoop(up: Updater, shape: seq<SpatialNode>, w: Walk, rest: seq<Pending>, top: Pending)
    requires TreeShape(shape) && SameShape(shape, w.nodes) && TreeShape(w.nodes) && KeepsShape(up)
    requires Indices(shape, rest) && top.index < |shape|
    ensures var u := AfterUpdate(up, w, top);
            Stepped(up, shape, w, rest + [top], Walk(w.nodes[top.index := u.node], u.systems),
                    rest + PushedChildren(w.nodes[top.index].children, u.state), top.index)
  {
    var u := AfterUpdate(up, w, top);
    var w' := Walk(w.nodes[top.index := u.node], u.systems);
    var children := w.nodes[top.index].children;
    VisitUnfolds(up, w, top);
    PushedIndices(w'.nodes, rest, children, u.state, top.index + 1);
    var v := VisitNode(up, w, top.index, top.state);
    DrainTopTo(up, w, rest, top, v);
    DrainPushedTo(up, w', rest, children, u.state, top.index + 1, v);
    DrainOrderStep(shape, rest, top, u.state);
  }

  class ClipScrollTree {
    var spatialNodes: seq<SpatialNode>
    var coordSystems: seq<CoordinateSystem>
    var nodesToUpdate: seq<Pending>

    ghost predicate Valid()
      reads this
    {
      TreeShape(spatialNodes) && nodesToUpdate == []
    }

    constructor ()
      ensures Valid() && spatialNodes == [] && coordSystems == []
    {
      spatialNodes, coordSystems, nodesToUpdate := [], [], [];
    }

    /** Adds a node without children below an existing one; the first node is the root. */
    method AddSpatialNode(node: SpatialNode) returns (index: nat)
      requires Valid() && node.children == []
      requires if spatialNodes == [] then node.parent.None? else node.parent.Some? && node.parent.value < |spatialNodes|
      modifies this`spatialNodes
      ensures Valid() && index == |old(spatialNodes)| && |spatialNodes| == index + 1 && spatialNodes[index] == node
      ensures forall i :: 0 <= i < index ==>
                spatialNodes[i] == if node.parent == Some(i)
                                   then old(spatialNodes)[i].(children := old(spatialNodes)[i].children + [index])
                                   else old(spatialNodes)[i]
    {
      index := |spatialNodes|;
      if node.parent.Some? {
        var p := node.parent.value;
        spatialNodes := spatialNodes[p := spatialNodes[p].(children := spatialNodes[p].children + [index])];
      }
      spatialNodes := spatialNodes + [node];
      AddedShape(old(spatialNodes), spatialNodes, node);
    }

    /** Updates all nodes, with the stack of pending nodes instead of recursion. */
    method UpdateTree(up: Updater, root: CoordinateSystem, state: UpdateState) returns (ghost visited: seq<nat>)
      requires Valid() && KeepsShape(up)
      modifies this
      ensures Valid()
      ensures old(spatialNodes) == [] ==> spatialNodes == [] && coordSystems == old(coordSystems) && visited == []
      ensures old(spatialNodes) != [] ==>
                && Walk(spatialNodes, coordSystems) == VisitNode(up, Walk(old(spatialNodes), [root]), 0, state)
                && visited == Order(old(spatialNodes), 0)
    {
      visited := [];
      if spatialNodes == [] { return; }
      coordSystems := [root];
      nodesToUpdate := [Pending(0, state)];
      ghost var shape := spatialNodes;
      ghost var goal := VisitNode(up, Walk(spatialNodes, coordSystems), 0, state);
      FirstPending(up, Walk(spatialNodes, coordSystems), state);
      while nodesToUpdate != []
        invariant SameShape(shape, spatialNodes) && TreeShape(spatialNodes) && Indices(shape, nodesToUpdate)
        invariant Drain(up, Walk(spatialNodes, coordSystems), nodesToUpdate) == goal
        invariant visited + DrainOrder(shape, nodesToUpdate) == Order(shape, 0)
        decreases |DrainOrder(shape, nodesToUpdate)|
      {
        ghost var i := Step(up, shape);
        assert (visited + [i]) + DrainOrder(shape, nodesToUpdate) == visited + ([i] + DrainOrder(shape, nodesToUpdate));
        visited := visited + [i];
      }
    }

    /** One turn of the loop: pops a node, updates it and pushes its children. */
    method Step(up: Updater, ghost shape: seq<SpatialNode>) returns (ghost i: nat)
      requires TreeShape(shape) && SameShape(shape, spatialNodes) && TreeShape(spatialNodes) && KeepsShape(up)
      requires Indices(shape, nodesToUpdate) && nodesToUpdate != []
      modifies this
      ensures Stepped(up, shape, old(Walk(spatialNodes, coordSystems)), old(nodesToUpdate),
                      Walk(spatialNodes, coordSystems), nodesToUpdate, i)
    {
      var top := nodesToUpdate[|nodesToUpdate| - 1];
      assert nodesToUpdate == nodesToUpdate[..|nodesToUpdate| - 1] + [top];
      nodesToUpdate := nodesToUpdate[..|nodesToUpdate| - 1];
      TurnOfLoop(up, shape, Walk(spatialNodes, coordSystems), nodesToUpdate, top);
      var children := spatialNodes[top.index].children;
      var u := up(top.index, spatialNodes[top.index], top.state, coordSystems);
      spatialNodes, coordSystems := spatialNodes[top.index := u.node], u.systems;
      if children != [] {
        nodesToUpdate := nodesToUpdate + PushedChildren(children, u.state);
      } else {
        assert nodesToUpdate == nodesToUpdate + PushedChildren(children, u.state);
      }
      i := top.index;
    }
  }

  lemma {:induction false} FirstPending(up: Updater, w: Walk, state: UpdateState)
    requires TreeShape(w.nodes) && KeepsShape(up) && w.nodes != []
    ensures Drain(up, w, [Pending(0, state)]) == VisitNode(up, w, 0, state)
    ensures DrainOrder(w.nodes, [Pending(0, state)]) == Order(w.nodes, 0)
  {
    var stack := [Pending(0, state)];
    assert stack[..0] == [];
    ShapeKept(w.nodes, VisitNode(up, w, 0, state).nodes);
  }

  lemma {:induction false} AddedShape(before: seq<SpatialNode>, after: seq<SpatialNode>, node: SpatialNode)
    requires TreeShape(before) && |after| == |before| + 1 && after[|before|] == node && node.children == []
    requires if before == [] then node.parent.None? else node.parent.Some? && node.parent.value < |before|
    requires forall i :: 0 <= i < |before| ==>
               after[i] == if node.parent == Some(i) then before[i].(children := before[i].children + [|before|])
                   else before[i]
    ensures TreeShape(after)
  {
    forall i | 0 <= i < |after| ensures Placed(after, i) {
      if i == |before| {
        if node.parent.Some? {
          var p := node.parent.value;
          assert after[p].children[|before[p].children|] == i;
        }
      } else {
        assert Placed(before, i);
        if before[i].parent.Some? {
          var p := before[i].parent.value;
          var k :| 0 <= k < |before[p].children| && before[p].children[k] == i;
          assert after[p].children[k] == i;
        }
      }
    }
  }
}
