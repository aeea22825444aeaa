/** The climb from a coordinate system to one around it, which flattens on its way
    (get_relative_transform in webrender/src/clip_scroll_tree.rs), against the world transforms,
    which were flattened on the way in; and exactly when the two come to the same. */
module SpatialClimbs {
  import opened Matrices
  import opened Options
  import opened SpatialTrees
  import opened SpatialUpdates

  /** System `b` is `a` or around it. */
  predicate Inside(systems: seq<CoordinateSystem>, a: nat, b: nat)
    requires SystemsOk(systems) && a < |systems|
    decreases a
  {
    assert a > 0 ==> SystemOk(systems, a);
    a == b || (a > 0 && Inside(systems, systems[a].parent.value, b))
  }

  lemma {:induction false} InsideTransitive(systems: seq<CoordinateSystem>, a: nat, b: nat, c: nat)
    requires SystemsOk(systems) && a < |systems| && b < |systems| && Inside(systems, a, b) && Inside(systems, b, c)
    ensures Inside(systems, a, c)
    decreases a
  {
    if a != b {
      assert SystemOk(systems, a);
      InsideTransitive(systems, systems[a].parent.value, b, c);
    }
  }

  /** Flattening on the climb from `a` to `b` is flattening on the way in: told from the systems alone,
      where `keeps` says that what is carried up leaves z alone. Below a system that flattens it must,
      and the last step must if the target flattens, since the climb ends before flattening there. */
  predicate FlatChain(systems: seq<CoordinateSystem>, a: nat, b: nat, keeps: bool)
    requires SystemsOk(systems) && a < |systems|
    decreases a
  {
    assert a > 0 ==> SystemOk(systems, a);
    a == b || a == 0 ||
    var q := systems[a].parent.value;
    if q == b then !systems[b].shouldFlatten || KeepsZ(systems[a].transform)
    else
      && (systems[q].shouldFlatten ==> keeps)
      && FlatChain(systems, q, b, keeps && (systems[q].shouldFlatten || KeepsZ(systems[a].transform)))
  }

  /** Climbing from system `a` to system `b`; None is the source's panic. */
  function Climb(systems: seq<CoordinateSystem>, a: nat, b: nat, m: Mat): Option<Mat>
    requires SystemsOk(systems) && a < |systems|
    decreases a
  {
    assert a > 0 ==> SystemOk(systems, a);
    if a == b then Some(m)
    else if systems[a].parent.None? then None
    else Climb(systems, systems[a].parent.value, b, Mul(FlattenIf(systems[a].shouldFlatten, m), systems[a].transform))
  }

  /** The climb arrives exactly if the target is around. */
  lemma {:induction false} ClimbArrives(systems: seq<CoordinateSystem>, a: nat, b: nat, m: Mat)
    requires SystemsOk(systems) && a < |systems|
    ensures Climb(systems, a, b, m).Some? <==> Inside(systems, a, b)
    ensures Inside(systems, a, b) ==> b < |systems|
    decreases a
  {
    if a != b && a > 0 {
      assert SystemOk(systems, a);
      ClimbArrives(systems, systems[a].parent.value, b,
                   Mul(FlattenIf(systems[a].shouldFlatten, m), systems[a].transform));
    }
  }

  /** What is carried to the system around `a`, flattened if that system flattens. */
  function Carried(systems: seq<CoordinateSystem>, a: nat, m: Mat): Mat
    requires SystemsOk(systems) && 0 < a < |systems|
  {
    assert SystemOk(systems, a);
    Mul(m, FlattenIf(systems[systems[a].parent.value].shouldFlatten, systems[a].transform))
  }

  /** One step of the climb, short of the target, is one step of the world transform if what is
      carried leaves z alone whenever either system flattens. */
  lemma {:induction false} ClimbStep(systems: seq<CoordinateSystem>, a: nat, b: nat, m: Mat)
    requires SystemsOk(systems) && 0 < a < |systems| && a != b
    requires systems[a].shouldFlatten ==> KeepsZ(m)
    requires SystemOk(systems, a)
    requires systems[a].parent.value != b && (systems[systems[a].parent.value].shouldFlatten ==> KeepsZ(m))
    ensures Climb(systems, a, b, m) == Climb(systems, systems[a].parent.value, b, Carried(systems, a, m))
    ensures Mul(m, systems[a].world) == Mul(Carried(systems, a, m), systems[systems[a].parent.value].world)
  {
    var q, t := systems[a].parent.value, systems[a].transform;
    FlattenKeeps(m);
    if systems[q].shouldFlatten {
      FlattenThrough(m, t);
      FlattenTwice(Mul(m, t));
    }
    MulAssociative(m, FlattenIf(systems[q].shouldFlatten, t), systems[q].world);
  }

  /** The last step. */
  lemma {:induction false} ClimbLast(systems: seq<CoordinateSystem>, a: nat, b: nat, m: Mat)
    requires SystemsOk(systems) && 0 < a < |systems| && a != b && systems[a].parent == Some(b)
    requires systems[a].shouldFlatten ==> KeepsZ(m)
    ensures b < |systems| && Climb(systems, a, b, m) == Some(Mul(m, systems[a].transform))
    ensures Mul(m, systems[a].world) == Mul(Carried(systems, a, m), systems[b].world)
  {
    assert SystemOk(systems, a);
    FlattenKeeps(m);
    MulAssociative(m, FlattenIf(systems[b].shouldFlatten, systems[a].transform), systems[b].world);
  }

  lemma {:induction false} CarriedKeeps(systems: seq<CoordinateSystem>, a: nat, m: Mat)
    requires SystemsOk(systems) && 0 < a < |systems| && KeepsZ(m) && SystemOk(systems, a)
    requires systems[systems[a].parent.value].shouldFlatten || KeepsZ(systems[a].transform)
    ensures KeepsZ(Carried(systems, a, m))
  {
    KeepsZMul(m, FlattenIf(systems[systems[a].parent.value].shouldFlatten, systems[a].transform));
  }

  /** On such a chain the climb loses nothing against the world transforms. */
  lemma {:induction false} ClimbTelescopes(systems: seq<CoordinateSystem>, a: nat, b: nat, m: Mat, keeps: bool)
    requires SystemsOk(systems) && a < |systems| && Inside(systems, a, b) && FlatChain(systems, a, b, keeps)
    requires keeps ==> KeepsZ(m)
    requires a != b && systems[a].shouldFlatten ==> keeps
    ensures b < |systems| && Climb(systems, a, b, m).Some?
    ensures Mul(Climb(systems, a, b, m).value, systems[b].world) == Mul(m, systems[a].world)
    decreases a
  {
    if a != b {
      assert SystemOk(systems, a);
      var q := systems[a].parent.value;
      if q == b {
        ClimbLast(systems, a, b, m);
        FlattenKeeps(systems[a].transform);
      } else {
        ClimbStep(systems, a, b, m);
        var keeps' := keeps && (systems[q].shouldFlatten || KeepsZ(systems[a].transform));
        if keeps' { CarriedKeeps(systems, a, m); }
        ClimbTelescopes(systems, q, b, Carried(systems, a, m), keeps');
      }
    }
  }

  /* ---------------- and exactly when ---------------- */

  /** The system directly inside `b` on the way up from `a`. */
  function LastBelow(systems: seq<CoordinateSystem>, a: nat, b: nat): nat
    requires SystemsOk(systems) && a < |systems| && a != b && Inside(systems, a, b)
    decreases a
  {
    assert SystemOk(systems, a);
    if systems[a].parent == Some(b) then a else LastBelow(systems, systems[a].parent.value, b)
  }

  /** Every step but the last is flattened or leaves z alone, and can be undone. */
  ghost predicate FlatBelow(systems: seq<CoordinateSystem>, a: nat, b: nat)
    requires SystemsOk(systems) && a < |systems| && a != b && Inside(systems, a, b)
    decreases a
  {
    assert SystemOk(systems, a);
    var q := systems[a].parent.value;
    q == b ||
    (&& (systems[q].shouldFlatten || KeepsZ(systems[a].transform))
     && Undoable(FlattenIf(systems[q].shouldFlatten, systems[a].transform))
     && FlatBelow(systems, q, b))
  }

  /** Up to the last step of a chain of flat frames, what becomes of the relative transform is
      settled by that step alone: nothing is lost exactly if the target does not flatten or the
      step leaves z alone. */
  lemma {:induction false} ClimbTelescopesIff(systems: seq<CoordinateSystem>, a: nat, b: nat, m: Mat, undo: Mat)
    requires SystemsOk(systems) && a < |systems| && a != b && Inside(systems, a, b) && FlatBelow(systems, a, b)
    requires KeepsZ(m) && Undoable(m) && b < |systems| && Mul(systems[b].world, undo) == IDENTITY
    ensures Climb(systems, a, b, m).Some? && LastBelow(systems, a, b) < |systems|
    ensures Mul(Climb(systems, a, b, m).value, systems[b].world) == Mul(m, systems[a].world)
       <==> !systems[b].shouldFlatten || KeepsZ(systems[LastBelow(systems, a, b)].transform)
    decreases a
  {
    assert SystemOk(systems, a);
    var q, t := systems[a].parent.value, systems[a].transform;
    if q == b {
      ClimbLast(systems, a, b, m);
      FlattenKeeps(t);
      if Mul(Mul(m, t), systems[b].world) == Mul(Carried(systems, a, m), systems[b].world) {
        CancelRight(Mul(m, t), Carried(systems, a, m), systems[b].world, undo);
        CancelLeft(m, t, FlattenIf(systems[b].shouldFlatten, t));
      }
    } else {
      ClimbStep(systems, a, b, m);
      CarriedKeeps(systems, a, m);
      UndoableMul(m, FlattenIf(systems[q].shouldFlatten, t));
      ClimbTelescopesIff(systems, q, b, Carried(systems, a, m), undo);
    }
  }

  lemma {:induction false} InsideLower(systems: seq<CoordinateSystem>, a: nat, b: nat)
    requires SystemsOk(systems) && a < |systems| && Inside(systems, a, b)
    ensures b <= a
    decreases a
  {
    if a != b {
      assert SystemOk(systems, a);
      InsideLower(systems, systems[a].parent.value, b);
    }
  }

  /** Between `a` and `q`, neither included, nothing flattens: the frames of a 3D group. */
  predicate Group(systems: seq<CoordinateSystem>, a: nat, q: nat)
    requires SystemsOk(systems) && a < |systems| && a != q && Inside(systems, a, q)
    decreases a
  {
    assert SystemOk(systems, a);
    var p := systems[a].parent.value;
    p == q || (!systems[p].shouldFlatten && Group(systems, p, q))
  }

  /** What the climb through a group carries to its outermost frame. */
  function Lifted(systems: seq<CoordinateSystem>, a: nat, q: nat, m: Mat): Mat
    requires SystemsOk(systems) && a < |systems| && a != q && Inside(systems, a, q)
    decreases a
  {
    assert SystemOk(systems, a);
    var p := systems[a].parent.value;
    if p == q then m else Lifted(systems, p, q, Mul(m, systems[a].transform))
  }

  /** Out of a 3D group inside a system that flattens, and on over flat frames: the climb flattens
      all the group did, the world transform only its outermost frame, so nothing is lost exactly if
      the frames below that one, together, leave z alone. */
  lemma {:induction false} GroupTelescopesIff(systems: seq<CoordinateSystem>, a: nat, q: nat, b: nat, m: Mat, undo: Mat)
    requires SystemsOk(systems) && a < |systems| && q < |systems| && b < |systems| && a != q && q != b
    requires Inside(systems, a, q) && Inside(systems, q, b) && Inside(systems, a, b)
    requires Group(systems, a, q) && (systems[a].shouldFlatten ==> KeepsZ(m))
    requires systems[q].shouldFlatten && FlatChain(systems, q, b, true) && Mul(systems[q].world, undo) == IDENTITY
    ensures Climb(systems, a, b, m).Some?
    ensures Mul(Climb(systems, a, b, m).value, systems[b].world) == Mul(m, systems[a].world)
       <==> KeepsZ(Lifted(systems, a, q, m))
    decreases a
  {
    assert SystemOk(systems, a);
    InsideLower(systems, a, q);
    InsideLower(systems, q, b);
    var p, t := systems[a].parent.value, systems[a].transform;
    FlattenKeeps(m);
    if p == q {
      ClimbLast(systems, a, q, m);
      FlattenTwice(Mul(m, t));
      assert Climb(systems, a, b, m) == Climb(systems, q, b, Mul(m, t)) == Climb(systems, q, b, FlattenZ(Mul(m, t)));
      FlattenKeeps(Mul(m, t));
      ClimbTelescopes(systems, q, b, FlattenZ(Mul(m, t)), true);
      FlattenThrough(m, t);
      if Mul(FlattenZ(Mul(m, t)), systems[q].world) == Mul(Mul(m, FlattenZ(t)), systems[q].world) {
        CancelRight(FlattenZ(Mul(m, t)), Mul(m, FlattenZ(t)), systems[q].world, undo);
      }
    } else {
      InsideLower(systems, p, q);
      InsideTransitive(systems, p, q, b);
      MulAssociative(m, t, systems[p].world);
      GroupTelescopesIff(systems, p, q, b, Mul(m, t), undo);
    }
  }
}
