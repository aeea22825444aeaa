/** A tree of three frames whose update leaves a relative transform that does not lead to the node's
    place (webrender/src/clip_scroll_tree.rs, webrender/src/spatial_node.rs). */
module SpatialPartings {
  import opened Geometry
  import opened Matrices
  import opened Options
  import opened SpatialClimbs
  import opened SpatialOrders
  import opened SpatialTransforms
  import opened SpatialTrees
  import opened SpatialUpdates

  /** Shears of z into x and of x into z. */
  const Z_TO_X: Mat :=
    Mat(Vec(1.0, 0.0, 0.0, 0.0), Vec(0.0, 1.0, 0.0, 0.0), Vec(1.0, 0.0, 1.0, 0.0), Vec(0.0, 0.0, 0.0, 1.0))
  const X_TO_Z: Mat :=
    Mat(Vec(1.0, 0.0, 1.0, 0.0), Vec(0.0, 1.0, 0.0, 0.0), Vec(0.0, 0.0, 1.0, 0.0), Vec(0.0, 0.0, 0.0, 1.0))

  function Frame(parent: Option<nat>, children: seq<nat>): SpatialNode {
    SpatialNode(parent, children, ReferenceFrame(Flat, false, NO_OFFSET, true), UNIT, UNIT, 0, true)
  }

  /** The root, a flat frame that shears z into x, and in it one that shears x into z. */
  const FRAMES: seq<SpatialNode> := [Frame(None, [1]), Frame(Some(0), [2]), Frame(Some(1), [])]

  function Shear(i: nat): Mat {
    if i == 1 then Z_TO_X else if i == 2 then X_TO_Z else IDENTITY
  }

  function NoSnap(v: Vector): Vector { NO_OFFSET }

  function NoSticky(i: nat, v: Vector, r: Rect): Vector { NO_OFFSET }

  predicate NeverSingular(m: Mat) { false }

  const SHEARS: Inputs := Inputs(Shear, NoSnap, NoSticky, NeverSingular)

  /** The nodes and systems after an update of the frames. */
  ghost function AfterFrames(inp: Inputs): Walk {
    FramesShape();
    UpdatingKeepsShape(inp);
    VisitNode(Updating(inp), Walk(FRAMES, [ROOT_SYSTEM]), 0, ROOT_STATE)
  }

  lemma {:induction false} FramesShape()
    ensures TreeShape(FRAMES)
  {
    assert Placed(FRAMES, 0) && Placed(FRAMES, 1) && Placed(FRAMES, 2);
  }

  /** What the update makes of a flat frame whose matrix is no scale and offset. */
  lemma {:induction false} FlatStarts(inp: Inputs, i: nat, node: SpatialNode, state: UpdateState,
                                      systems: seq<CoordinateSystem>, system: CoordinateSystem)
    requires node.nodeType == ReferenceFrame(Flat, false, NO_OFFSET, true) && state.coordinateSystem < |systems|
    requires state.invertible && !state.preserves3D && state.scaleOffset == UNIT
    requires RelativeTo(inp, i, state.accumulatedScroll) == system.transform && AsScaleOffset(system.transform).None?
    requires Mul(system.transform, FromScaleOffset(UNIT)) == system.transform
    requires var parent := systems[state.coordinateSystem];
             system.world == Mul(FlattenIf(parent.shouldFlatten, system.transform), parent.world)
    requires system.shouldFlatten && system.parent == Some(state.coordinateSystem) && !inp.singular(system.world)
    ensures Started(UpdateNode(inp, i, node, state, systems), systems, system)
  {
  }

  predicate Started(u: Updated, systems: seq<CoordinateSystem>, system: CoordinateSystem) {
    && u.systems == systems + [system]
    && u.node.coordinateSystem == |systems| && u.node.content == UNIT && u.node.invertible
    && u.state.invertible && !u.state.preserves3D && u.state.scaleOffset == UNIT
        && u.state.coordinateSystem == |systems|
  }

  lemma {:induction false} RelativeUnsnapped(inp: Inputs, i: nat, scroll: Vector, m: Mat)
    requires inp.snap(scroll) == NO_OFFSET && inp.resolved(i) == m
    ensures RelativeTo(inp, i, scroll) == m
    ensures Mul(m, FromScaleOffset(UNIT)) == m
  {
    assert FromScaleOffset(UNIT) == IDENTITY && Translation(NO_OFFSET) == UNIT;
    MulIdentity(m);
  }

  lemma {:induction false} RootStays(inp: Inputs)
    requires inp.snap(NO_OFFSET) == NO_OFFSET && inp.resolved(0) == IDENTITY
    ensures var u := UpdateNode(inp, 0, FRAMES[0], ROOT_STATE, [ROOT_SYSTEM]);
            && u.systems == [ROOT_SYSTEM] && u.state.invertible && !u.state.preserves3D
            && u.state.scaleOffset == UNIT && u.state.coordinateSystem == 0
  {
    RelativeUnsnapped(inp, 0, NO_OFFSET, IDENTITY);
    assert AsScaleOffset(IDENTITY) == Some(UNIT);
  }

  /** Visiting a node with one child, or with none. */
  lemma {:induction false} VisitDown(up: Updater, w: Walk, i: nat, state: UpdateState, u: Updated)
    requires TreeShape(w.nodes) && KeepsShape(up) && i < |w.nodes| && u == AfterUpdate(up, w, Pending(i, state))
    ensures var w' := Walk(w.nodes[i := u.node], u.systems);
            && TreeShape(w'.nodes) && SameShape(w.nodes, w'.nodes)
            && (w.nodes[i].children == [] ==> VisitNode(up, w, i, state) == w')
            && forall c: nat :: w.nodes[i].children == [c] ==>
                 c < |w.nodes| && VisitNode(up, w, i, state) == VisitNode(up, w', c, u.state)
  {
    VisitUnfolds(up, w, Pending(i, state));
    forall c: nat | w.nodes[i].children == [c]
      ensures c < |w.nodes|
            && VisitNode(up, w, i, state) == VisitNode(up, Walk(w.nodes[i := u.node], u.systems), c, u.state)
    {
      assert Placed(w.nodes, i) && w.nodes[i].children[0] == c;
      OnlyChild(up, Walk(w.nodes[i := u.node], u.systems), c, u.state, i + 1);
    }
  }

  lemma {:induction false} OnlyChild(up: Updater, w: Walk, i: nat, state: UpdateState, lo: nat)
    requires TreeShape(w.nodes) && KeepsShape(up) && lo <= i < |w.nodes|
    ensures VisitList(up, w, [i], state, lo) == VisitNode(up, w, i, state)
  {
    var w' := VisitNode(up, w, i, state);
    ShapeKept(w.nodes, w'.nodes);
    assert [i][1..] == [];
    assert VisitList(up, w', [], state, lo) == w';
  }

  ghost predicate NoSnapping(inp: Inputs) {
    forall scroll :: inp.snap(scroll) == NO_OFFSET
  }

  predicate Resolved(inp: Inputs, first: CoordinateSystem, second: CoordinateSystem) {
    && inp.resolved(0) == IDENTITY && inp.resolved(1) == first.transform && inp.resolved(2) == second.transform
    && AsScaleOffset(first.transform).None? && AsScaleOffset(second.transform).None?
  }

  predicate Worlds(first: CoordinateSystem, second: CoordinateSystem) {
    && first.world == Mul(first.transform, IDENTITY)
    && second.world == Mul(FlattenZ(second.transform), first.world)
  }

  /** What two nested flat frames make of their matrices, if neither is a scale and offset. */
  ghost predicate TwoFlatSystems(inp: Inputs, first: CoordinateSystem, second: CoordinateSystem) {
    && NoSnapping(inp) && Resolved(inp, first, second) && Worlds(first, second)
    && first.shouldFlatten && first.parent == Some(0) && second.shouldFlatten && second.parent == Some(1)
    && !inp.singular(first.world) && !inp.singular(second.world)
  }

  lemma {:induction false} TwoFlat(inp: Inputs, nodes: seq<SpatialNode>, state: UpdateState,
                                   first: CoordinateSystem, second: CoordinateSystem)
    requires TreeShape(nodes) && KeepsShape(Updating(inp)) && |nodes| == 3
    requires nodes[1] == Frame(Some(0), [2]) && nodes[2] == Frame(Some(1), [])
    requires state.invertible && !state.preserves3D && state.scaleOffset == UNIT && state.coordinateSystem == 0
    requires TwoFlatSystems(inp, first, second)
    ensures var r := VisitNode(Updating(inp), Walk(nodes, [ROOT_SYSTEM]), 1, state);
            && |r.nodes| == 3 && r.systems == [ROOT_SYSTEM, first, second]
            && (forall i :: 1 <= i < 3 ==>
                  r.nodes[i].coordinateSystem == i && r.nodes[i].content == UNIT && r.nodes[i].invertible)
  {
    var up := Updating(inp);
    var u1 := UpdateNode(inp, 1, nodes[1], state, [ROOT_SYSTEM]);
    RelativeUnsnapped(inp, 1, state.accumulatedScroll, first.transform);
    FlatStarts(inp, 1, nodes[1], state, [ROOT_SYSTEM], first);
    VisitDown(up, Walk(nodes, [ROOT_SYSTEM]), 1, state, u1);
    assert u1.systems == [ROOT_SYSTEM, first];
    FlatLeaf(inp, nodes[1 := u1.node], u1.state, first, second);
  }

  lemma {:induction false} FlatLeaf(inp: Inputs, nodes: seq<SpatialNode>, state: UpdateState,
                                    first: CoordinateSystem, second: CoordinateSystem)
    requires TreeShape(nodes) && KeepsShape(Updating(inp)) && |nodes| == 3 && nodes[2] == Frame(Some(1), [])
    requires state.invertible && !state.preserves3D && state.scaleOffset == UNIT && state.coordinateSystem == 1
    requires TwoFlatSystems(inp, first, second)
    ensures var u := UpdateNode(inp, 2, nodes[2], state, [ROOT_SYSTEM, first]);
            && Started(u, [ROOT_SYSTEM, first], second)
            && VisitNode(Updating(inp), Walk(nodes, [ROOT_SYSTEM, first]), 2, state)
                == Walk(nodes[2 := u.node], u.systems)
  {
    RelativeUnsnapped(inp, 2, state.accumulatedScroll, second.transform);
    FlatStarts(inp, 2, nodes[2], state, [ROOT_SYSTEM, first], second);
    VisitDown(Updating(inp), Walk(nodes, [ROOT_SYSTEM, first]), 2, state,
              UpdateNode(inp, 2, nodes[2], state, [ROOT_SYSTEM, first]));
  }

  /** Nodes and state when the root's only child is visited. */
  lemma {:induction false} RootDown(inp: Inputs) returns (nodes: seq<SpatialNode>, state: UpdateState)
    requires NoSnapping(inp) && inp.resolved(0) == IDENTITY
    ensures TreeShape(nodes) && KeepsShape(Updating(inp)) && |nodes| == 3
    ensures nodes[1] == FRAMES[1] && nodes[2] == FRAMES[2]
    ensures state.invertible && !state.preserves3D && state.scaleOffset == UNIT && state.coordinateSystem == 0
    ensures AfterFrames(inp) == VisitNode(Updating(inp), Walk(nodes, [ROOT_SYSTEM]), 1, state)
  {
    FramesShape();
    UpdatingKeepsShape(inp);
    RootStays(inp);
    nodes, state := FirstStep(inp, UpdateNode(inp, 0, FRAMES[0], ROOT_STATE, [ROOT_SYSTEM]));
  }

  lemma {:induction false} FirstStep(inp: Inputs, u: Updated) returns (nodes: seq<SpatialNode>, state: UpdateState)
    requires TreeShape(FRAMES) && KeepsShape(Updating(inp)) && u.systems == [ROOT_SYSTEM]
    requires u == AfterUpdate(Updating(inp), Walk(FRAMES, [ROOT_SYSTEM]), Pending(0, ROOT_STATE))
    ensures TreeShape(nodes) && |nodes| == 3 && nodes[1] == FRAMES[1] && nodes[2] == FRAMES[2] && state == u.state
    ensures AfterFrames(inp) == VisitNode(Updating(inp), Walk(nodes, [ROOT_SYSTEM]), 1, state)
  {
    VisitDown(Updating(inp), Walk(FRAMES, [ROOT_SYSTEM]), 0, ROOT_STATE, u);
    nodes, state := FRAMES[0 := u.node], u.state;
  }

  lemma {:induction false} AfterFramesIs(inp: Inputs, first: CoordinateSystem, second: CoordinateSystem)
    requires TwoFlatSystems(inp, first, second)
    ensures var r := AfterFrames(inp);
            && |r.nodes| == 3 && r.systems == [ROOT_SYSTEM, first, second]
            && (forall i :: 1 <= i < 3 ==>
                  r.nodes[i].coordinateSystem == i && r.nodes[i].content == UNIT && r.nodes[i].invertible)
  {
    var nodes, state := RootDown(inp);
    TwoFlat(inp, nodes, state, first, second);
  }

  /** Whatever the two matrices are: the update puts both frames somewhere, and the relative transform
      from the inner to the outer one, followed by the outer one's place, is the inner one's place
      exactly if the inner matrix leaves z alone. */
  lemma {:induction false} FlatteningPartsIff(inp: Inputs, first: CoordinateSystem, second: CoordinateSystem, undo: Mat)
    requires TwoFlatSystems(inp, first, second) && Mul(first.world, undo) == IDENTITY
    ensures TreeShape(FRAMES) && PartsIff(inp, AfterFrames(inp), KeepsZ(second.transform))
  {
    FramesShape();
    UpdatingKeepsShape(inp);
    UpdateConsistent(inp, FRAMES);
    AfterFramesIs(inp, first, second);
    var r := AfterFrames(inp);
    assert SystemOk(r.systems, 1) && SystemOk(r.systems, 2);
    assert Inside(r.systems, 1, 1) && Inside(r.systems, 2, 1);
    assert Ancestor(FRAMES, 1, 1) && Ancestor(FRAMES, 1, 2);
    RelativeAgreesIff(inp, FRAMES, r.nodes, r.systems, 2, 1, undo);
    assert LastBelow(r.systems, 2, 1) == 2;
  }

  /** After an update, the relative transform from frame 2 to frame 1 agrees with their places exactly
      if the condition holds. */
  ghost predicate PartsIff(inp: Inputs, r: Walk, condition: bool)
    requires TreeShape(FRAMES)
  {
    && Consistent(inp, FRAMES, r.nodes, r.systems) && |r.nodes| == 3
    && r.nodes[2].coordinateSystem < |r.systems| && r.nodes[1].content == UNIT
    && TruePlace(inp, FRAMES, 1).Some? && TruePlace(inp, FRAMES, 2).Some?
    && RelativeSpec(r.nodes, r.systems, 2, 1).Some?
    && condition == (Mul(RelativeSpec(r.nodes, r.systems, 2, 1).value.IntoTransform(), TruePlace(inp, FRAMES, 1).value)
                     == TruePlace(inp, FRAMES, 2).value)
  }

  /** With the two shears they part. */
  lemma {:induction false} FlatteningParts()
    ensures TreeShape(FRAMES) && PartsIff(SHEARS, AfterFrames(SHEARS), false)
  {
    ShearsFit();
    ShearUndone();
    ShearLeavesZ();
    FlatteningPartsIff(SHEARS, FIRST, SECOND, BACK);
  }

  const FIRST: CoordinateSystem := CoordinateSystem(Z_TO_X, Z_TO_X, true, Some(0))
  const SECOND: CoordinateSystem := CoordinateSystem(X_TO_Z, Z_TO_X, true, Some(1))
  const BACK: Mat :=
    Mat(Vec(1.0, 0.0, 0.0, 0.0), Vec(0.0, 1.0, 0.0, 0.0), Vec(-1.0, 0.0, 1.0, 0.0), Vec(0.0, 0.0, 0.0, 1.0))

  lemma {:induction false} ShearUndone()
    ensures Mul(FIRST.world, BACK) == IDENTITY
  {
    ApplyBack(FIRST.world.r0);
    ApplyBack(FIRST.world.r1);
    ApplyBack(FIRST.world.r2);
    ApplyBack(FIRST.world.r3);
    RowsAre(FIRST.world, BACK, IDENTITY);
  }

  lemma {:induction false} ApplyBack(v: Vec)
    ensures Apply(v, BACK) == v.(x := v.x - v.z)
  {
  }

  lemma {:induction false} RowsAre(a: Mat, b: Mat, c: Mat)
    requires Apply(a.r0, b) == c.r0 && Apply(a.r1, b) == c.r1 && Apply(a.r2, b) == c.r2 && Apply(a.r3, b) == c.r3
    ensures Mul(a, b) == c
  {
  }

  lemma {:induction false} ShearLeavesZ()
    ensures !KeepsZ(SECOND.transform)
  {
  }

  lemma {:induction false} ShearsFit()
    ensures TwoFlatSystems(SHEARS, FIRST, SECOND)
  {
    ShearsFlatten();
    ShearsUnsnapped();
    ShearsResolved();
    ShearWorlds();
  }

  lemma {:induction false} ShearsFlatten()
    ensures FIRST.shouldFlatten && FIRST.parent == Some(0) && SECOND.shouldFlatten && SECOND.parent == Some(1)
  {
  }

  lemma {:induction false} ShearsUnsnapped()
    ensures NoSnapping(SHEARS) && !SHEARS.singular(FIRST.world) && !SHEARS.singular(SECOND.world)
  {
  }

  lemma {:induction false} ShearsResolved()
    ensures Resolved(SHEARS, FIRST, SECOND)
  {
    NoScaleOffset(Z_TO_X);
    NoScaleOffset(X_TO_Z);
  }

  lemma {:induction false} ShearWorlds()
    ensures Worlds(FIRST, SECOND)
  {
    MulIdentity(Z_TO_X);
    assert FlattenZ(X_TO_Z) == IDENTITY;
  }
}
