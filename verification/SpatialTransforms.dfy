/** World and relative transforms of spatial nodes (webrender/src/clip_scroll_tree.rs). */
module SpatialTransforms {
  import opened Matrices
  import opened Options
  import opened SpatialClimbs
  import opened SpatialOrders
  import opened SpatialTrees
  import opened SpatialUpdates
  import opened SpatialWalks
  import opened Transforms2D

  /* ---------------- after an update ---------------- */

  lemma {:induction false} WebRenderIsSound(inp: Inputs)
    ensures Sound(WebRender(inp), Updating(inp))
  {
    var m, up := WebRender(inp), Updating(inp);
    forall i, node, state, p, systems | m.ok(systems) && m.inv(state, p, systems)
      ensures Respects(m, i, node, state, p, systems, up(i, node, state, systems))
    {
      UpdateRespects(inp, i, node, state, p, systems);
    }
    forall state, p, a: seq<CoordinateSystem>, b: seq<CoordinateSystem> | a <= b && m.ok(b) && m.inv(state, p, a)
      ensures m.inv(state, p, b)
    {
      StandsForLater(state, p, a, b);
    }
    forall node', i, node, p, a: seq<CoordinateSystem>, b: seq<CoordinateSystem> | a <= b && m.ok(b)
        && m.good(node', i, node, p, a)
      ensures m.good(node', i, node, p, b)
    {
      PlacedLater(inp, node', i, node, p, a, b);
    }
  }

  /** More systems change nothing for those there are. */
  lemma {:induction false} StandsForLater(state: UpdateState, p: Place, a: seq<CoordinateSystem>,
      b: seq<CoordinateSystem>)
    requires a <= b && StandsFor(state, p, a)
    ensures StandsFor(state, p, b)
  {
    assert SystemAt(a, state.coordinateSystem) == SystemAt(b, state.coordinateSystem);
  }

  lemma {:induction false} PlacedLater(inp: Inputs, node': SpatialNode, i: nat, node: SpatialNode, p: Place,
                    a: seq<CoordinateSystem>, b: seq<CoordinateSystem>)
    requires a <= b && RightlyPlaced(inp, node', i, node, p, a)
    ensures RightlyPlaced(inp, node', i, node, p, b)
  {
    assert SystemAt(a, node'.coordinateSystem) == SystemAt(b, node'.coordinateSystem);
  }

  /** The place that the ancestors' matrices give to a node. */
  ghost function TruePlace(inp: Inputs, nodes: seq<SpatialNode>, i: nat): Option<Mat>
    requires TreeShape(nodes) && i < |nodes|
  {
    WorldOf(inp, i, nodes[i], PlaceOf(WebRender(inp), nodes, ROOT_PLACE, i))
  }

  /** A consistent tree after an update of the nodes `before`. */
  ghost predicate Consistent(inp: Inputs, before: seq<SpatialNode>, nodes: seq<SpatialNode>,
      systems: seq<CoordinateSystem>) {
    && TreeShape(before) && SameShape(before, nodes) && TreeShape(nodes) && SystemsOk(systems)
    && (forall i :: 0 <= i < |nodes| ==> Settled(inp, before, nodes, systems, i))
    && (forall i :: 0 < i < |nodes| ==> LinkedToParent(before, Walk(nodes, systems), i))
  }

  ghost predicate Settled(inp: Inputs, before: seq<SpatialNode>, nodes: seq<SpatialNode>,
      systems: seq<CoordinateSystem>, i: nat)
    requires TreeShape(before) && |before| == |nodes| && i < |nodes|
  {
    var world := TruePlace(inp, before, i);
    && nodes[i].coordinateSystem < |systems| && nodes[i].invertible == world.Some?
    && (world.Some? ==> world.value == InWorld(nodes[i].content, systems, nodes[i].coordinateSystem))
  }

  /** An update of the whole tree. */
  method UpdateTransforms(tree: ClipScrollTree, inp: Inputs)
    requires tree.Valid()
    modifies tree
    ensures tree.Valid()
    ensures old(tree.spatialNodes) != [] ==>
          Consistent(inp, old(tree.spatialNodes), tree.spatialNodes, tree.coordSystems)
  {
    ghost var before := tree.spatialNodes;
    UpdatingKeepsShape(inp);
    ghost var visited := tree.UpdateTree(Updating(inp), ROOT_SYSTEM, ROOT_STATE);
    if before != [] {
      UpdateConsistent(inp, before);
    }
  }

  lemma {:induction false} UpdateConsistent(inp: Inputs, nodes: seq<SpatialNode>)
    requires TreeShape(nodes) && nodes != [] && KeepsShape(Updating(inp))
    ensures var r := VisitNode(Updating(inp), Walk(nodes, [ROOT_SYSTEM]), 0, ROOT_STATE);
            Consistent(inp, nodes, r.nodes, r.systems)
  {
    var m := WebRender(inp);
    var r := VisitNode(Updating(inp), Walk(nodes, [ROOT_SYSTEM]), 0, ROOT_STATE);
    WebRenderIsSound(inp);
    assert StandsFor(ROOT_STATE, ROOT_PLACE, [ROOT_SYSTEM]) by {
      UnitWorld([ROOT_SYSTEM], 0);
    }
    UpdateRight(m, Updating(inp), nodes, ROOT_PLACE, ROOT_SYSTEM, ROOT_STATE);
    ShapeKept(nodes, r.nodes);
    forall i | 0 <= i < |nodes| ensures Settled(inp, nodes, r.nodes, r.systems, i) {
      assert Right(m, nodes, ROOT_PLACE, r, i);
    }
  }

  /* ---------------- transforms between nodes ---------------- */

  datatype Mapping = Local | ByScaleOffset(t: ScaleOffset) | ByTransform(m: Mat) {

    function IntoTransform(): Mat {
      match this
      case Local => IDENTITY
      case ByScaleOffset(t) => FromScaleOffset(t)
      case ByTransform(m) => m
    }
  }

  /** Where a node's content is, by its scale and offset and its coordinate system. */
  function World(node: SpatialNode, systems: seq<CoordinateSystem>): Mat {
    InWorld(node.content, systems, node.coordinateSystem)
  }

  function GetWorldTransform(nodes: seq<SpatialNode>, systems: seq<CoordinateSystem>, i: nat): Mapping
    requires i < |nodes| && nodes[i].coordinateSystem < |systems|
  {
    var node := nodes[i];
    if node.coordinateSystem == 0 then
      if i == 0 then Local else ByScaleOffset(node.content)
    else ByTransform(Mul(FromScaleOffset(node.content), systems[node.coordinateSystem].world))
  }

  /** Exactly when the world transform is where the node is: always, except that a root in the first
      coordinate system is taken to have no transform of its own. */
  lemma {:induction false} WorldTransformIff(nodes: seq<SpatialNode>, systems: seq<CoordinateSystem>, i: nat)
    requires SystemsOk(systems) && i < |nodes| && nodes[i].coordinateSystem < |systems|
    ensures GetWorldTransform(nodes, systems, i).IntoTransform() == World(nodes[i], systems)
       <==> !(i == 0 && nodes[0].coordinateSystem == 0 && nodes[0].content != UNIT)
  {
    var t := nodes[i].content;
    MulIdentity(FromScaleOffset(t));
    assert FromScaleOffset(t) == IDENTITY <==> t == UNIT;
  }

  /** After an update, the world transform is the product of the matrices of the node's ancestors. */
  lemma {:induction false} WorldTransformIsTrue(inp: Inputs, before: seq<SpatialNode>, nodes: seq<SpatialNode>,
      systems: seq<CoordinateSystem>, i: nat)
    requires Consistent(inp, before, nodes, systems) && i < |nodes| && nodes[i].invertible
    requires i != 0 || nodes[0].coordinateSystem != 0 || nodes[0].content == UNIT
    ensures nodes[i].coordinateSystem < |systems|
    ensures TruePlace(inp, before, i) == Some(GetWorldTransform(nodes, systems, i).IntoTransform())
  {
    assert Settled(inp, before, nodes, systems, i);
    WorldTransformIff(nodes, systems, i);
  }

  /** A node's coordinate system lies inside those of all its ancestors, so the climb from it to any
      of them arrives. */
  lemma {:induction false} AncestorsAround(inp: Inputs, before: seq<SpatialNode>, nodes: seq<SpatialNode>,
                                           systems: seq<CoordinateSystem>, child: nat, parent: nat)
    requires Consistent(inp, before, nodes, systems) && child < |nodes| && Ancestor(before, parent, child)
    ensures parent < |nodes| && nodes[child].coordinateSystem < |systems|
    ensures Inside(systems, nodes[child].coordinateSystem, nodes[parent].coordinateSystem)
    decreases child
  {
    assert Placed(before, child) && Settled(inp, before, nodes, systems, child);
    if child != parent {
      var q := before[child].parent.value;
      AncestorsAround(inp, before, nodes, systems, q, parent);
      assert LinkedToParent(before, Walk(nodes, systems), child);
      var a, b := nodes[child].coordinateSystem, nodes[q].coordinateSystem;
      assert a > 0 ==> SystemOk(systems, a);
      assert Inside(systems, a, b) by {
        assert a == b || systems[a].parent == Some(b);
        assert a != b ==> a > 0 && Inside(systems, b, b);
      }
      InsideTransitive(systems, a, b, nodes[parent].coordinateSystem);
    }
  }

  function RelativeSpec(nodes: seq<SpatialNode>, systems: seq<CoordinateSystem>, child: nat,
      parent: nat): Option<Mapping>
    requires SystemsOk(systems) && child < |nodes| && parent < |nodes| && nodes[child].coordinateSystem < |systems|
    requires child != parent ==> nodes[parent].content.sx != 0.0 && nodes[parent].content.sy != 0.0
  {
    var c, p := nodes[child], nodes[parent];
    if child == parent then Some(Local)
    else if c.coordinateSystem == p.coordinateSystem then Some(ByScaleOffset(p.content.Inverse().Accumulate(c.content)))
    else
      var climbed := Climb(systems, c.coordinateSystem, p.coordinateSystem, FromScaleOffset(c.content));
      if climbed.None? then None else Some(ByTransform(Mul(climbed.value, FromScaleOffset(p.content.Inverse()))))
  }

  /** The transform from one node to an ancestor of it. */
  method GetRelativeTransform(nodes: seq<SpatialNode>, systems: seq<CoordinateSystem>, child: nat, parent: nat)
    returns (r: Option<Mapping>)
    requires SystemsOk(systems) && parent <= child < |nodes| && nodes[child].coordinateSystem < |systems|
    requires child != parent ==> nodes[parent].content.sx != 0.0 && nodes[parent].content.sy != 0.0
    ensures r == RelativeSpec(nodes, systems, child, parent)
  {
    if child == parent { return Some(Local); }
    var c, p := nodes[child], nodes[parent];
    if c.coordinateSystem == p.coordinateSystem {
      return Some(ByScaleOffset(p.content.Inverse().Accumulate(c.content)));
    }
    var cs: nat := c.coordinateSystem;
    var transform := FromScaleOffset(c.content);
    while cs != p.coordinateSystem
      invariant cs < |systems|
      invariant Climb(systems, cs, p.coordinateSystem, transform)
             == Climb(systems, c.coordinateSystem, p.coordinateSystem, FromScaleOffset(c.content))
      decreases cs
    {
      var system := systems[cs];
      assert cs > 0 ==> SystemOk(systems, cs);
      if system.shouldFlatten {
        transform := FlattenZ(transform);
      }
      if system.parent.None? { return None; }
      cs := system.parent.value;
      transform := Mul(transform, system.transform);
    }
    r := Some(ByTransform(Mul(transform, FromScaleOffset(p.content.Inverse()))));
  }

  /** In all three branches the relative transform, followed by where the ancestor is, is where the
      node is. */
  lemma {:induction false} RelativeTelescopes(nodes: seq<SpatialNode>, systems: seq<CoordinateSystem>, child: nat,
      parent: nat)
    requires SystemsOk(systems) && child < |nodes| && parent < |nodes|
    requires nodes[child].coordinateSystem < |systems| && nodes[parent].coordinateSystem < |systems|
    requires child != parent ==> nodes[parent].content.sx != 0.0 && nodes[parent].content.sy != 0.0
    requires var a, b := nodes[child].coordinateSystem, nodes[parent].coordinateSystem;
             Inside(systems, a, b) && FlatChain(systems, a, b, true)
    ensures RelativeSpec(nodes, systems, child, parent).Some?
    ensures Mul(RelativeSpec(nodes, systems, child, parent).value.IntoTransform(), World(nodes[parent], systems))
         == World(nodes[child], systems)
  {
    var c, p := nodes[child], nodes[parent];
    var world := systems[p.coordinateSystem].world;
    if child == parent {
      MulIdentity(World(p, systems));
    } else {
      InverseIsInverse(p.content);
      if c.coordinateSystem == p.coordinateSystem {
        AccumulateIsMul(p.content.Inverse(), c.content);
        Cancel(FromScaleOffset(c.content), FromScaleOffset(p.content.Inverse()), FromScaleOffset(p.content), world);
      } else {
        ClimbTelescopes(systems, c.coordinateSystem, p.coordinateSystem, FromScaleOffset(c.content), true);
        var climbed := Climb(systems, c.coordinateSystem, p.coordinateSystem, FromScaleOffset(c.content)).value;
        Cancel(climbed, FromScaleOffset(p.content.Inverse()), FromScaleOffset(p.content), world);
      }
    }
  }

  lemma {:induction false} Cancel(a: Mat, inverse: Mat, b: Mat, c: Mat)
    requires Mul(inverse, b) == IDENTITY
    ensures Mul(Mul(a, inverse), Mul(b, c)) == Mul(a, c)
  {
    MulAssociative(Mul(a, inverse), b, c);
    MulAssociative(a, inverse, b);
    MulIdentity(a);
  }

  /** After an update: from any node to any of its ancestors. */
  lemma {:induction false} RelativeAgreesWithWorld(inp: Inputs, before: seq<SpatialNode>, nodes: seq<SpatialNode>,
                                systems: seq<CoordinateSystem>, child: nat, parent: nat)
    requires Consistent(inp, before, nodes, systems) && child < |nodes| && Ancestor(before, parent, child)
    requires parent < |nodes| && nodes[child].coordinateSystem < |systems|
    requires child != parent ==> nodes[parent].content.sx != 0.0 && nodes[parent].content.sy != 0.0
    requires FlatChain(systems, nodes[child].coordinateSystem, nodes[parent].coordinateSystem, true)
    ensures RelativeSpec(nodes, systems, child, parent).Some?
    ensures nodes[child].invertible && nodes[parent].invertible ==>
              && TruePlace(inp, before, child).Some? && TruePlace(inp, before, parent).Some?
              && Mul(RelativeSpec(nodes, systems, child, parent).value.IntoTransform(),
                  TruePlace(inp, before, parent).value)
                   == TruePlace(inp, before, child).value
  {
    AncestorsAround(inp, before, nodes, systems, child, parent);
    assert Settled(inp, before, nodes, systems, child) && Settled(inp, before, nodes, systems, parent);
    RelativeTelescopes(nodes, systems, child, parent);
  }

  /** The same on nodes: for a node of nonzero scale and a chain of flat frames, the relative
      transform leads to the node's place exactly if the ancestor's system does not flatten or the
      last step leaves z alone. */
  lemma {:induction false} RelativeAgreesIff(inp: Inputs, before: seq<SpatialNode>, nodes: seq<SpatialNode>,
                                systems: seq<CoordinateSystem>, child: nat, parent: nat, undo: Mat)
    requires Consistent(inp, before, nodes, systems) && child < |nodes| && Ancestor(before, parent, child)
    requires parent < |nodes| && nodes[child].coordinateSystem < |systems| && nodes[parent].coordinateSystem < |systems|
    requires nodes[child].coordinateSystem != nodes[parent].coordinateSystem
    requires nodes[child].invertible && nodes[child].content.sx != 0.0 && nodes[child].content.sy != 0.0
    requires nodes[parent].invertible && nodes[parent].content.sx != 0.0 && nodes[parent].content.sy != 0.0
    requires Inside(systems, nodes[child].coordinateSystem, nodes[parent].coordinateSystem)
    requires FlatBelow(systems, nodes[child].coordinateSystem, nodes[parent].coordinateSystem)
    requires Mul(systems[nodes[parent].coordinateSystem].world, undo) == IDENTITY
    ensures var last := LastBelow(systems, nodes[child].coordinateSystem, nodes[parent].coordinateSystem);
            && last < |systems| && RelativeSpec(nodes, systems, child, parent).Some?
            && TruePlace(inp, before, child).Some? && TruePlace(inp, before, parent).Some?
            && (Mul(RelativeSpec(nodes, systems, child, parent).value.IntoTransform(),
                    TruePlace(inp, before, parent).value) == TruePlace(inp, before, child).value
                <==> !systems[nodes[parent].coordinateSystem].shouldFlatten || KeepsZ(systems[last].transform))
  {
    assert Settled(inp, before, nodes, systems, child) && Settled(inp, before, nodes, systems, parent);
    var c, p := nodes[child], nodes[parent];
    var m, world := FromScaleOffset(c.content), systems[p.coordinateSystem].world;
    InverseIsInverse(c.content);
    assert Undoable(m) by { assert Mul(FromScaleOffset(c.content.Inverse()), m) == IDENTITY; }
    InverseIsInverse(p.content);
    ClimbTelescopesIff(systems, c.coordinateSystem, p.coordinateSystem, m, undo);
    var climbed := Climb(systems, c.coordinateSystem, p.coordinateSystem, m).value;
    Cancel(climbed, FromScaleOffset(p.content.Inverse()), FromScaleOffset(p.content), world);
  }
}
