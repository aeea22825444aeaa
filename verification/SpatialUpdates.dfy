/** The update of one spatial node (webrender/src/spatial_node.rs), and that keeping transforms as a
    scale and offset inside shared coordinate systems loses nothing against multiplying the
    matrices of all ancestors. */
module SpatialUpdates {
  import opened Geometry
  import opened Matrices
  import opened Options
  import opened SpatialTrees
  import opened SpatialWalks
  import opened Transforms2D

  const NO_OFFSET: Vector := Vector(0.0, 0.0)
  const UNIT: ScaleOffset := ScaleOffset(1.0, 1.0, 0.0, 0.0)
  const ROOT_SYSTEM: CoordinateSystem := CoordinateSystem(IDENTITY, IDENTITY, false, None)
  const ROOT_STATE: UpdateState :=
    UpdateState(NO_OFFSET, NO_OFFSET, Rect(0.0, 0.0, 0.0, 0.0), 0, UNIT, true, false)

  function Plus2(a: Vector, b: Vector): Vector { Vector(a.x + b.x, a.y + b.y) }

  /** What an update takes from elsewhere: the resolved transform of every reference frame (with its
      origin and perspective), device snapping, sticky positioning, and the singularity test. */
  datatype Inputs = Inputs(
    resolved: nat -> Mat,
    snap: Vector -> Vector,
    sticky: (nat, Vector, Rect) -> Vector,
    singular: Mat -> bool)

  function Translation(v: Vector): ScaleOffset {
    ScaleOffset(1.0, 1.0, v.x, v.y)
  }

  function SystemAt(systems: seq<CoordinateSystem>, k: nat): CoordinateSystem {
    if k < |systems| then systems[k] else ROOT_SYSTEM
  }

  function MarkUninvertible(node: SpatialNode, state: UpdateState): SpatialNode {
    node.(invertible := false, viewport := UNIT, content := UNIT, coordinateSystem := state.coordinateSystem)
  }

  /** The reference frame's transform into its parent reference frame. */
  function RelativeTo(inp: Inputs, i: nat, scroll: Vector): Mat {
    Mul(inp.resolved(i), FromScaleOffset(Translation(inp.snap(scroll))))
  }

  /** Whether a style boundary or a 3D transform asks for a new coordinate system. */
  predicate StartsSystem(style: TransformStyle, preserves3D: bool, relative: Mat) {
    (if style.Preserve3D? then !preserves3D else preserves3D) || AsScaleOffset(relative).None?
  }

  function FlattenIf(flatten: bool, m: Mat): Mat {
    if flatten then FlattenZ(m) else m
  }

  function NewSystem(node: SpatialNode, state: UpdateState, systems: seq<CoordinateSystem>,
      relative: Mat): CoordinateSystem
    requires node.nodeType.ReferenceFrame?
  {
    var transform := Mul(relative, FromScaleOffset(state.scaleOffset));
    var parent := SystemAt(systems, state.coordinateSystem);
    CoordinateSystem(transform, Mul(FlattenIf(parent.shouldFlatten, transform), parent.world),
                     node.nodeType.style.Flat? && !node.nodeType.perspective, Some(state.coordinateSystem))
  }

  datatype Placing = Placing(node: SpatialNode, state: UpdateState, systems: seq<CoordinateSystem>)

  function UpdateFrame(inp: Inputs, i: nat, node: SpatialNode, state: UpdateState,
      systems: seq<CoordinateSystem>): Placing
    requires node.nodeType.ReferenceFrame?
  {
    if !node.nodeType.frameInvertible then Placing(MarkUninvertible(node, state), state, systems)
    else
      var relative := RelativeTo(inp, i, state.accumulatedScroll);
      if StartsSystem(node.nodeType.style, state.preserves3D, relative) then
        var system := NewSystem(node, state, systems, relative);
        var state' := state.(coordinateSystem := |systems|);
        var ok := !inp.singular(system.world);
        var node' := node.(nodeType := node.nodeType.(frameInvertible := ok));
        Placing(if ok then node'.(viewport := UNIT, content := UNIT, coordinateSystem := |systems|, invertible := true)
                else MarkUninvertible(node', state'),
                state', systems + [system])
      else
        var t := state.scaleOffset.Accumulate(AsScaleOffset(relative).value);
        Placing(node.(viewport := t, content := t, coordinateSystem := state.coordinateSystem, invertible := true),
            state, systems)
  }

  function StickyOffset(inp: Inputs, i: nat, nodeType: NodeType, nearestOffset: Vector, nearestViewport: Rect): Vector {
    if nodeType.StickyFrame? then inp.sticky(i, nearestOffset, nearestViewport) else NO_OFFSET
  }

  function ScrollOffset(nodeType: NodeType): Vector {
    if nodeType.ScrollFrame? then nodeType.offset else NO_OFFSET
  }

  function UpdateScroller(inp: Inputs, i: nat, node: SpatialNode, state: UpdateState): SpatialNode
    requires !node.nodeType.ReferenceFrame?
  {
    var sticky := StickyOffset(inp, i, node.nodeType, state.nearestOffset, state.nearestViewport);
    var accumulated := Plus2(state.accumulatedScroll, sticky);
    node.(viewport := state.scaleOffset.Accumulate(Translation(inp.snap(accumulated))),
          content := state.scaleOffset.Accumulate(
            Translation(inp.snap(Plus2(accumulated, ScrollOffset(node.nodeType))))),
          nodeType := if node.nodeType.StickyFrame? then StickyFrame(sticky) else node.nodeType,
          coordinateSystem := state.coordinateSystem, invertible := true)
  }

  function MoveRect(r: Rect, d: Vector): Rect { r.(x := r.x + d.x, y := r.y + d.y) }

  function PrepareState(node: SpatialNode, state: UpdateState): UpdateState {
    if !node.invertible then state.(invertible := false)
    else
      match node.nodeType
      case StickyFrame(current) =>
        state.(accumulatedScroll := Plus2(state.accumulatedScroll, current),
               nearestOffset := Plus2(state.nearestOffset, current), preserves3D := false)
      case ScrollFrame(offset, viewport) =>
        state.(accumulatedScroll := Plus2(state.accumulatedScroll, offset),
               nearestOffset := offset, nearestViewport := viewport, preserves3D := false)
      case ReferenceFrame(style, _, origin, _) =>
        state.(preserves3D := style.Preserve3D?, accumulatedScroll := NO_OFFSET, scaleOffset := node.content,
               nearestViewport := MoveRect(state.nearestViewport, Vector(-origin.x, -origin.y)))
  }

  function UpdateNode(inp: Inputs, i: nat, node: SpatialNode, state: UpdateState,
      systems: seq<CoordinateSystem>): Updated {
    var placing :=
      if !state.invertible then Placing(MarkUninvertible(node, state), state, systems)
      else if node.nodeType.ReferenceFrame? then UpdateFrame(inp, i, node, state, systems)
      else Placing(UpdateScroller(inp, i, node, state), state, systems);
    Updated(placing.node, PrepareState(placing.node, placing.state), placing.systems)
  }

  function Updating(inp: Inputs): Updater {
    (i: nat, node: SpatialNode, state: UpdateState, systems: seq<CoordinateSystem>) =>
        UpdateNode(inp, i, node, state, systems)
  }

  lemma {:induction false} UpdatingKeepsShape(inp: Inputs)
    ensures KeepsShape(Updating(inp))
  {
  }

  /* ---------------- the reference meaning ---------------- */

  /** A vector moved by `d`, as far as it is a point. */
  function Moved(v: Vec, d: Vector): Vec {
    Vec(v.x + v.w * d.x, v.y + v.w * d.y, v.z, v.w)
  }

  /** Where a parent puts its children, with one matrix into the world and no coordinate systems. */
  datatype Place = Place(world: Mat, accumulatedScroll: Vector, nearestOffset: Vector, nearestViewport: Rect,
                         preserves3D: bool, flattens: bool, invertible: bool)

  const ROOT_PLACE: Place := Place(IDENTITY, NO_OFFSET, NO_OFFSET, Rect(0.0, 0.0, 0.0, 0.0), false, false, true)

  /** A node's own place: its content's matrix into the world, if it has one. */
  function WorldOf(inp: Inputs, i: nat, node: SpatialNode, p: Place): Option<Mat> {
    if !p.invertible then None
    else
      match node.nodeType
      case ReferenceFrame(style, _, _, frameInvertible) =>
        if !frameInvertible then None
        else
          var relative := RelativeTo(inp, i, p.accumulatedScroll);
          var starts := StartsSystem(style, p.preserves3D, relative);
          var world := Mul(FlattenIf(starts && p.flattens, relative), p.world);
          if starts && inp.singular(world) then None else Some(world)
      case ScrollFrame(offset, _) =>
        Some(Mul(FromScaleOffset(Translation(inp.snap(Plus2(Plus2(p.accumulatedScroll, NO_OFFSET), offset)))), p.world))
      case StickyFrame(_) =>
        var sticky := inp.sticky(i, p.nearestOffset, p.nearestViewport);
        Some(Mul(FromScaleOffset(Translation(inp.snap(Plus2(Plus2(p.accumulatedScroll, sticky), NO_OFFSET)))), p.world))
  }

  function ChildPlace(inp: Inputs, i: nat, node: SpatialNode, p: Place): Place {
    var world := WorldOf(inp, i, node, p);
    if world.None? then p.(invertible := false)
    else
      match node.nodeType
      case ReferenceFrame(style, perspective, origin, _) =>
        var starts := StartsSystem(style, p.preserves3D, RelativeTo(inp, i, p.accumulatedScroll));
        Place(world.value, NO_OFFSET, p.nearestOffset, MoveRect(p.nearestViewport, Vector(-origin.x, -origin.y)),
              style.Preserve3D?, if starts then style.Flat? && !perspective else p.flattens, true)
      case ScrollFrame(offset, viewport) =>
        p.(accumulatedScroll := Plus2(p.accumulatedScroll, offset), nearestOffset := offset,
           nearestViewport := viewport, preserves3D := false)
      case StickyFrame(_) =>
        var sticky := inp.sticky(i, p.nearestOffset, p.nearestViewport);
        p.(accumulatedScroll := Plus2(p.accumulatedScroll, sticky), nearestOffset := Plus2(p.nearestOffset, sticky),
           preserves3D := false)
  }

  /** A frame starts a coordinate system exactly if it enters or leaves a 3D context, or if its own
      transform is more than a scale and an offset; scrolling has no say in it. */
  lemma {:induction false} StartsSystemIff(inp: Inputs, i: nat, style: TransformStyle, preserves3D: bool,
                                           scroll: Vector)
    ensures StartsSystem(style, preserves3D, RelativeTo(inp, i, scroll)) <==>
            (style == Preserve3D) != preserves3D || !ScalesAndMoves(inp.resolved(i))
  {
    var m, t := inp.resolved(i), Translation(inp.snap(scroll));
    ApplyScaleOffset(m.r0, t);
    ApplyScaleOffset(m.r1, t);
    ApplyScaleOffset(m.r2, t);
    ApplyScaleOffset(m.r3, t);
    MovedForm(m, inp.snap(scroll));
    AsScaleOffsetIff(RelativeTo(inp, i, scroll));
  }

  lemma {:induction false} MovedForm(m: Mat, d: Vector)
    ensures ScalesAndMoves(Mat(Moved(m.r0, d), Moved(m.r1, d), Moved(m.r2, d), Moved(m.r3, d))) <==> ScalesAndMoves(m)
  {
  }

  /** Where a place puts a point of a node's content: through the frame's own transform, moved by the
      snapped scroll offset and flattened where a system starts inside a flattening one, or moved by the
      snapped offset of a scroll or sticky frame; and then to where the parent is. */
  lemma {:induction false} WorldOfPoint(inp: Inputs, i: nat, node: SpatialNode, p: Place, v: Vec)
    requires WorldOf(inp, i, node, p).Some?
    ensures var w := Apply(v, WorldOf(inp, i, node, p).value);
            match node.nodeType
            case ReferenceFrame(style, _, _, _) =>
              var u := Moved(Apply(v, inp.resolved(i)), inp.snap(p.accumulatedScroll));
              var starts := (style == Preserve3D) != p.preserves3D || !ScalesAndMoves(inp.resolved(i));
              w == Apply(if starts && p.flattens then u.(z := v.z) else u, p.world)
            case ScrollFrame(offset, _) =>
              var sum := Vector(p.accumulatedScroll.x + offset.x, p.accumulatedScroll.y + offset.y);
              w == Apply(Moved(v, inp.snap(sum)), p.world)
            case StickyFrame(_) =>
              var stuck := inp.sticky(i, p.nearestOffset, p.nearestViewport);
              var sum := Vector(p.accumulatedScroll.x + stuck.x, p.accumulatedScroll.y + stuck.y);
              w == Apply(Moved(v, inp.snap(sum)), p.world)
  {
    match node.nodeType
    case ReferenceFrame(style, _, _, _) =>
      FramePoint(inp, i, style, p, v);
    case ScrollFrame(offset, _) =>
      var sum := Vector(p.accumulatedScroll.x + offset.x, p.accumulatedScroll.y + offset.y);
      assert Plus2(Plus2(p.accumulatedScroll, NO_OFFSET), offset) == sum;
      ShiftedPoint(v, inp.snap(sum), p.world);
    case StickyFrame(_) =>
      var stuck := inp.sticky(i, p.nearestOffset, p.nearestViewport);
      var sum := Vector(p.accumulatedScroll.x + stuck.x, p.accumulatedScroll.y + stuck.y);
      assert Plus2(Plus2(p.accumulatedScroll, stuck), NO_OFFSET) == sum;
      ShiftedPoint(v, inp.snap(sum), p.world);
  }

  lemma {:induction false} ShiftedPoint(v: Vec, d: Vector, world: Mat)
    ensures Apply(v, Mul(FromScaleOffset(Translation(d)), world)) == Apply(Moved(v, d), world)
  {
    ApplyMul(v, FromScaleOffset(Translation(d)), world);
    ApplyScaleOffset(v, Translation(d));
  }

  lemma {:induction false} FramePoint(inp: Inputs, i: nat, style: TransformStyle, p: Place, v: Vec)
    ensures var relative := RelativeTo(inp, i, p.accumulatedScroll);
            var starts := StartsSystem(style, p.preserves3D, relative);
            var u := Moved(Apply(v, inp.resolved(i)), inp.snap(p.accumulatedScroll));
            && (starts <==> (style == Preserve3D) != p.preserves3D || !ScalesAndMoves(inp.resolved(i)))
            && Apply(v, Mul(FlattenIf(starts && p.flattens, relative), p.world))
                 == Apply(if starts && p.flattens then u.(z := v.z) else u, p.world)
  {
    var relative := RelativeTo(inp, i, p.accumulatedScroll);
    StartsSystemIff(inp, i, style, p.preserves3D, p.accumulatedScroll);
    RelativePoint(inp, i, p.accumulatedScroll, v);
    FlattenedPoint(StartsSystem(style, p.preserves3D, relative) && p.flattens, relative, p.world, v);
  }

  lemma {:induction false} RelativePoint(inp: Inputs, i: nat, scroll: Vector, v: Vec)
    ensures Apply(v, RelativeTo(inp, i, scroll)) == Moved(Apply(v, inp.resolved(i)), inp.snap(scroll))
  {
    var t := Translation(inp.snap(scroll));
    ApplyMul(v, inp.resolved(i), FromScaleOffset(t));
    ApplyScaleOffset(Apply(v, inp.resolved(i)), t);
  }

  lemma {:induction false} FlattenedPoint(flatten: bool, m: Mat, world: Mat, v: Vec)
    ensures var u := Apply(v, m);
            Apply(v, Mul(FlattenIf(flatten, m), world)) == Apply(if flatten then u.(z := v.z) else u, world)
  {
    ApplyMul(v, FlattenIf(flatten, m), world);
    ApplyFlattenZ(v, m);
  }

  /** What a node that has a place hands on to its children, field by field. */
  lemma {:induction false} ChildPlaceIs(inp: Inputs, i: nat, node: SpatialNode, p: Place)
    requires WorldOf(inp, i, node, p).Some?
    ensures var q := ChildPlace(inp, i, node, p);
            q.invertible
            && match node.nodeType
               case ReferenceFrame(style, perspective, origin, _) =>
                 var starts := (style == Preserve3D) != p.preserves3D || !ScalesAndMoves(inp.resolved(i));
                 && Some(q.world) == WorldOf(inp, i, node, p) && q.accumulatedScroll == Vector(0.0, 0.0)
                 && q.nearestOffset == p.nearestOffset
                 && q.nearestViewport == Rect(p.nearestViewport.x - origin.x, p.nearestViewport.y - origin.y,
                                              p.nearestViewport.w, p.nearestViewport.h)
                 && (q.preserves3D <==> style == Preserve3D)
                 && (q.flattens <==> if starts then style == Flat && !perspective else p.flattens)
               case ScrollFrame(offset, viewport) =>
                 && q.world == p.world && q.nearestOffset == offset && q.nearestViewport == viewport
                 && q.accumulatedScroll == Vector(p.accumulatedScroll.x + offset.x, p.accumulatedScroll.y + offset.y)
                 && !q.preserves3D && q.flattens == p.flattens
               case StickyFrame(_) =>
                 var stuck := inp.sticky(i, p.nearestOffset, p.nearestViewport);
                 && q.world == p.world && q.nearestViewport == p.nearestViewport
                 && q.nearestOffset == Vector(p.nearestOffset.x + stuck.x, p.nearestOffset.y + stuck.y)
                 && q.accumulatedScroll == Vector(p.accumulatedScroll.x + stuck.x, p.accumulatedScroll.y + stuck.y)
                 && !q.preserves3D && q.flattens == p.flattens
  {
    if node.nodeType.ReferenceFrame? {
      StartsSystemIff(inp, i, node.nodeType.style, p.preserves3D, p.accumulatedScroll);
    }
  }

  /** The matrix into the world that a scale and offset inside a coordinate system stands for. */
  function InWorld(t: ScaleOffset, systems: seq<CoordinateSystem>, k: nat): Mat {
    Mul(FromScaleOffset(t), SystemAt(systems, k).world)
  }

  /** A state stands for a place. */
  predicate StandsFor(state: UpdateState, p: Place, systems: seq<CoordinateSystem>) {
    && state.coordinateSystem < |systems| && state.invertible == p.invertible
    && (p.invertible ==>
          && p.world == InWorld(state.scaleOffset, systems, state.coordinateSystem)
          && p.flattens == SystemAt(systems, state.coordinateSystem).shouldFlatten
          && state.accumulatedScroll == p.accumulatedScroll && state.nearestOffset == p.nearestOffset
          && state.nearestViewport == p.nearestViewport && state.preserves3D == p.preserves3D)
  }

  /** A node is where its ancestors' matrices put it, or has no place if they do not give it one. */
  predicate RightlyPlaced(inp: Inputs, node': SpatialNode, i: nat, node: SpatialNode, p: Place,
      systems: seq<CoordinateSystem>) {
    var world := WorldOf(inp, i, node, p);
    && node'.coordinateSystem < |systems| && node'.invertible == world.Some?
    && (world.Some? ==> world.value == InWorld(node'.content, systems, node'.coordinateSystem))
  }

  /** Every system but the first lies in an older one, and its world transform goes through it. */
  predicate SystemsOk(systems: seq<CoordinateSystem>) {
    && systems != [] && systems[0] == ROOT_SYSTEM
    && forall k :: 0 < k < |systems| ==> SystemOk(systems, k)
  }

  predicate SystemOk(systems: seq<CoordinateSystem>, k: nat)
    requires k < |systems|
  {
    && systems[k].parent.Some? && systems[k].parent.value < k
    && var parent := systems[systems[k].parent.value];
       systems[k].world == Mul(FlattenIf(parent.shouldFlatten, systems[k].transform), parent.world)
  }

  function WebRender(inp: Inputs): Meaning<Place> {
    Meaning((i: nat, node: SpatialNode, p: Place) => ChildPlace(inp, i, node, p),
            (state: UpdateState, p: Place, systems: seq<CoordinateSystem>) => StandsFor(state, p, systems),
            (node': SpatialNode, i: nat, node: SpatialNode, p: Place, systems: seq<CoordinateSystem>) =>
              RightlyPlaced(inp, node', i, node, p, systems),
            (systems: seq<CoordinateSystem>) => SystemsOk(systems))
  }

  /* ---------------- algebra of one step ---------------- */

  /** A scale and offset inside a frame's scale and offset. */
  lemma {:induction false} InnerWorld(t: ScaleOffset, u: ScaleOffset, systems: seq<CoordinateSystem>, k: nat)
    ensures InWorld(t.Accumulate(u), systems, k) == Mul(FromScaleOffset(u), InWorld(t, systems, k))
  {
    AccumulateIsMul(t, u);
    MulAssociative(FromScaleOffset(u), FromScaleOffset(t), SystemAt(systems, k).world);
  }

  /** A new system's world transform is the frame's matrix in front of its parent's place. */
  lemma {:induction false} NewSystemWorld(relative: Mat, t: ScaleOffset, flatten: bool, world: Mat)
    ensures Mul(FlattenIf(flatten, Mul(relative, FromScaleOffset(t))), world)
         == Mul(FlattenIf(flatten, relative), Mul(FromScaleOffset(t), world))
  {
    FlattenCommutes(relative, t);
    MulAssociative(FlattenIf(flatten, relative), FromScaleOffset(t), world);
  }

  lemma {:induction false} UnitWorld(systems: seq<CoordinateSystem>, k: nat)
    ensures InWorld(UNIT, systems, k) == SystemAt(systems, k).world
  {
    assert FromScaleOffset(UNIT) == IDENTITY;
    MulIdentity(SystemAt(systems, k).world);
  }
  /* ---------------- soundness of one step ---------------- */

  /** The child's state stands for the child's place, and the node is rightly placed, when a frame
      stays in its coordinate system. */
  lemma {:induction false} FrameStays(inp: Inputs, i: nat, node: SpatialNode, state: UpdateState, p: Place,
      systems: seq<CoordinateSystem>)
    requires node.nodeType.ReferenceFrame? && node.nodeType.frameInvertible && p.invertible
    requires SystemsOk(systems) && StandsFor(state, p, systems)
    requires !StartsSystem(node.nodeType.style, state.preserves3D, RelativeTo(inp, i, state.accumulatedScroll))
    ensures Respects(WebRender(inp), i, node, state, p, systems, UpdateNode(inp, i, node, state, systems))
  {
    var relative := RelativeTo(inp, i, state.accumulatedScroll);
    InnerWorld(state.scaleOffset, AsScaleOffset(relative).value, systems, state.coordinateSystem);
  }

  lemma {:induction false} FrameStarts(inp: Inputs, i: nat, node: SpatialNode, state: UpdateState, p: Place,
      systems: seq<CoordinateSystem>)
    requires node.nodeType.ReferenceFrame? && node.nodeType.frameInvertible && p.invertible
    requires SystemsOk(systems) && StandsFor(state, p, systems)
    requires StartsSystem(node.nodeType.style, state.preserves3D, RelativeTo(inp, i, state.accumulatedScroll))
    ensures Respects(WebRender(inp), i, node, state, p, systems, UpdateNode(inp, i, node, state, systems))
  {
    var relative := RelativeTo(inp, i, state.accumulatedScroll);
    var parent := SystemAt(systems, state.coordinateSystem);
    var system := NewSystem(node, state, systems, relative);
    NewSystemWorld(relative, state.scaleOffset, parent.shouldFlatten, parent.world);
    UnitWorld(systems + [system], |systems|);
    SystemAdded(systems, system);
  }

  lemma {:induction false} SystemAdded(systems: seq<CoordinateSystem>, system: CoordinateSystem)
    requires SystemsOk(systems) && system.parent.Some? && system.parent.value < |systems|
    requires var parent := systems[system.parent.value];
             system.world == Mul(FlattenIf(parent.shouldFlatten, system.transform), parent.world)
    ensures SystemsOk(systems + [system])
  {
    forall k | 0 < k < |systems + [system]| ensures SystemOk(systems + [system], k) {
      if k < |systems| {
        assert SystemOk(systems, k);
      }
    }
  }

  lemma {:induction false} ScrollerStays(inp: Inputs, i: nat, node: SpatialNode, state: UpdateState, p: Place,
      systems: seq<CoordinateSystem>)
    requires !node.nodeType.ReferenceFrame? && p.invertible
    requires SystemsOk(systems) && StandsFor(state, p, systems)
    ensures Respects(WebRender(inp), i, node, state, p, systems, UpdateNode(inp, i, node, state, systems))
  {
    var sticky := StickyOffset(inp, i, node.nodeType, state.nearestOffset, state.nearestViewport);
    var added := Plus2(Plus2(state.accumulatedScroll, sticky), ScrollOffset(node.nodeType));
    InnerWorld(state.scaleOffset, Translation(inp.snap(added)), systems, state.coordinateSystem);
  }

  lemma {:induction false} UninvertibleStays(inp: Inputs, i: nat, node: SpatialNode, state: UpdateState, p: Place,
      systems: seq<CoordinateSystem>)
    requires !p.invertible || (node.nodeType.ReferenceFrame? && !node.nodeType.frameInvertible)
    requires SystemsOk(systems) && StandsFor(state, p, systems)
    ensures Respects(WebRender(inp), i, node, state, p, systems, UpdateNode(inp, i, node, state, systems))
  {
  }

  lemma {:induction false} UpdateRespects(inp: Inputs, i: nat, node: SpatialNode, state: UpdateState, p: Place,
      systems: seq<CoordinateSystem>)
    requires SystemsOk(systems) && StandsFor(state, p, systems)
    ensures Respects(WebRender(inp), i, node, state, p, systems, UpdateNode(inp, i, node, state, systems))
  {
    if !p.invertible || (node.nodeType.ReferenceFrame? && !node.nodeType.frameInvertible) {
      UninvertibleStays(inp, i, node, state, p, systems);
    } else if !node.nodeType.ReferenceFrame? {
      ScrollerStays(inp, i, node, state, p, systems);
    } else if StartsSystem(node.nodeType.style, state.preserves3D, RelativeTo(inp, i, state.accumulatedScroll)) {
      FrameStarts(inp, i, node, state, p, systems);
    } else {
      FrameStays(inp, i, node, state, p, systems);
    }
  }
}
