/** Homogeneous vectors and 4 x 4 matrices in the row-vector convention of euclid's Transform3D, over
    the reals. Matrices are compared by what they do to vectors. */
module Matrices {
  import opened Options
  import opened Transforms2D

  datatype Vec = Vec(x: real, y: real, z: real, w: real)

  datatype Mat = Mat(r0: Vec, r1: Vec, r2: Vec, r3: Vec)

  function Dot(v: Vec, a: real, b: real, c: real, d: real): real {
    v.x * a + v.y * b + v.z * c + v.w * d
  }

  function Apply(v: Vec, m: Mat): Vec {
    Vec(Dot(v, m.r0.x, m.r1.x, m.r2.x, m.r3.x),
        Dot(v, m.r0.y, m.r1.y, m.r2.y, m.r3.y),
        Dot(v, m.r0.z, m.r1.z, m.r2.z, m.r3.z),
        Dot(v, m.r0.w, m.r1.w, m.r2.w, m.r3.w))
  }

  /** First `a`, then `b` (post_transform). */
  function Mul(a: Mat, b: Mat): Mat {
    Mat(Apply(a.r0, b), Apply(a.r1, b), Apply(a.r2, b), Apply(a.r3, b))
  }

  lemma {:induction false} Times3(k: real, a: real, b: real)
    ensures (k * a) * b == k * (a * b)
  {
  }

  lemma {:induction false} Distribute(k: real, a: real, b: real, c: real, d: real)
    ensures k * (a + b + c + d) == k * a + k * b + k * c + k * d
    ensures (a + b + c + d) * k == a * k + b * k + c * k + d * k
  {
  }

  lemma {:induction false} Scaled(k: real, r: Vec, b: Vec)
    ensures k * Dot(r, b.x, b.y, b.z, b.w) == Dot(Scale(k, r), b.x, b.y, b.z, b.w)
  {
    Distribute(k, r.x * b.x, r.y * b.y, r.z * b.z, r.w * b.w);
    Times3(k, r.x, b.x);
    Times3(k, r.y, b.y);
    Times3(k, r.z, b.z);
    Times3(k, r.w, b.w);
  }

  function Plus(a: Vec, b: Vec, c: Vec, d: Vec): Vec {
    Vec(a.x + b.x + c.x + d.x, a.y + b.y + c.y + d.y, a.z + b.z + c.z + d.z, a.w + b.w + c.w + d.w)
  }

  lemma {:induction false} DotPlus(a: Vec, b: Vec, c: Vec, d: Vec, k: Vec)
    ensures Dot(Plus(a, b, c, d), k.x, k.y, k.z, k.w) ==
              Dot(a, k.x, k.y, k.z, k.w) + Dot(b, k.x, k.y, k.z, k.w) + Dot(c, k.x, k.y, k.z, k.w)
                  + Dot(d, k.x, k.y, k.z, k.w)
  {
    Distribute(k.x, a.x, b.x, c.x, d.x);
    Distribute(k.y, a.y, b.y, c.y, d.y);
    Distribute(k.z, a.z, b.z, c.z, d.z);
    Distribute(k.w, a.w, b.w, c.w, d.w);
  }

  function Scale(k: real, r: Vec): Vec {
    Vec(k * r.x, k * r.y, k * r.z, k * r.w)
  }

  lemma {:induction false} ApplyIsPlus(v: Vec, m: Mat)
    ensures Apply(v, m) == Plus(Scale(v.x, m.r0), Scale(v.y, m.r1), Scale(v.z, m.r2), Scale(v.w, m.r3))
  {
  }

  /** One component of applying two matrices in turn, for one column of the second. */
  lemma {:induction false} DotDot(v: Vec, m: Mat, b: Vec)
    ensures Dot(Apply(v, m), b.x, b.y, b.z, b.w) ==
              Dot(v, Dot(m.r0, b.x, b.y, b.z, b.w), Dot(m.r1, b.x, b.y, b.z, b.w),
                     Dot(m.r2, b.x, b.y, b.z, b.w), Dot(m.r3, b.x, b.y, b.z, b.w))
  {
    ApplyIsPlus(v, m);
    DotPlus(Scale(v.x, m.r0), Scale(v.y, m.r1), Scale(v.z, m.r2), Scale(v.w, m.r3), b);
    Scaled(v.x, m.r0, b);
    Scaled(v.y, m.r1, b);
    Scaled(v.z, m.r2, b);
    Scaled(v.w, m.r3, b);
  }

  /** Multiplication is composition. */
  lemma {:induction false} ApplyMul(v: Vec, a: Mat, b: Mat)
    ensures Apply(v, Mul(a, b)) == Apply(Apply(v, a), b)
  {
    DotDot(v, a, Vec(b.r0.x, b.r1.x, b.r2.x, b.r3.x));
    DotDot(v, a, Vec(b.r0.y, b.r1.y, b.r2.y, b.r3.y));
    DotDot(v, a, Vec(b.r0.z, b.r1.z, b.r2.z, b.r3.z));
    DotDot(v, a, Vec(b.r0.w, b.r1.w, b.r2.w, b.r3.w));
  }

  const IDENTITY: Mat := Mat(Vec(1.0, 0.0, 0.0, 0.0), Vec(0.0, 1.0, 0.0, 0.0), Vec(0.0, 0.0, 1.0, 0.0),
      Vec(0.0, 0.0, 0.0, 1.0))

  lemma {:induction false} ApplyIdentity(v: Vec)
    ensures Apply(v, IDENTITY) == v
  {
  }

  /** ScaleOffset::to_transform. */
  function FromScaleOffset(t: ScaleOffset): Mat {
    Mat(Vec(t.sx, 0.0, 0.0, 0.0), Vec(0.0, t.sy, 0.0, 0.0), Vec(0.0, 0.0, 1.0, 0.0), Vec(t.ox, t.oy, 0.0, 1.0))
  }

  /** What a scale and offset does to a homogeneous vector. */
  function Shift(v: Vec, t: ScaleOffset): Vec {
    Vec(v.x * t.sx + v.w * t.ox, v.y * t.sy + v.w * t.oy, v.z, v.w)
  }

  lemma {:induction false} ApplyScaleOffset(v: Vec, t: ScaleOffset)
    ensures Apply(v, FromScaleOffset(t)) == Shift(v, t)
  {
  }

  lemma {:induction false} Unshift1(x: real, w: real, s: real, o: real)
    requires s != 0.0
    ensures (x * (1.0 / s) + w * (-o / s)) * s + w * o == x
    ensures (x * s + w * o) * (1.0 / s) + w * (-o / s) == x
  {
    var i := 1.0 / s;
    assert i * s == 1.0;
    assert -o / s == -o * i;
    Times3(x, i, s);
    Times3(-o, i, s);
    assert (-o * i) * s == -o;
    Times3(w, -o * i, s);
    assert (x * i + w * (-o * i)) * s == (x * i) * s + (w * (-o * i)) * s;
    Times3(x, s, i);
    Times3(w, o, i);
    assert (x * s + w * o) * i == (x * s) * i + (w * o) * i;
  }

  /** The inverse of a scale and offset undoes it, on either side. */
  lemma {:induction false} ShiftInverse(v: Vec, t: ScaleOffset)
    requires t.sx != 0.0 && t.sy != 0.0
    ensures Shift(Shift(v, t.Inverse()), t) == v && Shift(Shift(v, t), t.Inverse()) == v
  {
    ShiftInverse1(v, t);
    ShiftInverse2(v, t);
  }

  lemma {:induction false} ShiftInverse1(v: Vec, t: ScaleOffset)
    requires t.sx != 0.0 && t.sy != 0.0
    ensures Shift(Shift(v, t.Inverse()), t) == v
  {
    Unshift1(v.x, v.w, t.sx, t.ox);
    Unshift1(v.y, v.w, t.sy, t.oy);
  }

  lemma {:induction false} ShiftInverse2(v: Vec, t: ScaleOffset)
    requires t.sx != 0.0 && t.sy != 0.0
    ensures Shift(Shift(v, t), t.Inverse()) == v
  {
    Unshift1(v.x, v.w, t.sx, t.ox);
    Unshift1(v.y, v.w, t.sy, t.oy);
  }

  /** Makes the matrix keep z (flatten_z_output). */
  function FlattenZ(m: Mat): Mat {
    Mat(m.r0.(z := 0.0), m.r1.(z := 0.0), m.r2.(z := 1.0), m.r3.(z := 0.0))
  }

  /** The pure scale and translation that a matrix is, if it is one (ScaleOffset::from_transform). */
  function AsScaleOffset(m: Mat): (t: Option<ScaleOffset>)
    ensures t.Some? ==> m == FromScaleOffset(t.value)
  {
    if m.r0.x >= 0.0 && m.r1.y >= 0.0 && m == FromScaleOffset(ScaleOffset(m.r0.x, m.r1.y, m.r3.x, m.r3.y))
    then Some(ScaleOffset(m.r0.x, m.r1.y, m.r3.x, m.r3.y)) else None
  }

  /** A matrix of that form: no rotation, skew, depth or perspective, and no mirroring. */
  predicate ScalesAndMoves(m: Mat) {
    && m.r0.x >= 0.0 && m.r0.y == 0.0 && m.r0.z == 0.0 && m.r0.w == 0.0
    && m.r1.x == 0.0 && m.r1.y >= 0.0 && m.r1.z == 0.0 && m.r1.w == 0.0
    && m.r2.x == 0.0 && m.r2.y == 0.0 && m.r2.z == 1.0 && m.r2.w == 0.0
    && m.r3.z == 0.0 && m.r3.w == 1.0
  }

  lemma {:induction false} AsScaleOffsetIff(m: Mat)
    ensures AsScaleOffset(m).Some? <==> ScalesAndMoves(m)
  {
  }

  lemma {:induction false} NoScaleOffset(m: Mat)
    requires m.r0.z != 0.0 || m.r2.x != 0.0
    ensures AsScaleOffset(m).None?
  {
  }

  /** Matrices that do the same to every vector are the same. */
  lemma {:induction false} SameMatrix(a: Mat, b: Mat)
    requires forall v: Vec :: Apply(v, a) == Apply(v, b)
    ensures a == b
  {
    RowOf(a, b, Vec(1.0, 0.0, 0.0, 0.0));
    RowOf(a, b, Vec(0.0, 1.0, 0.0, 0.0));
    RowOf(a, b, Vec(0.0, 0.0, 1.0, 0.0));
    RowOf(a, b, Vec(0.0, 0.0, 0.0, 1.0));
  }

  lemma {:induction false} RowOf(a: Mat, b: Mat, v: Vec)
    requires Apply(v, a) == Apply(v, b)
    ensures v == Vec(1.0, 0.0, 0.0, 0.0) ==> a.r0 == b.r0
    ensures v == Vec(0.0, 1.0, 0.0, 0.0) ==> a.r1 == b.r1
    ensures v == Vec(0.0, 0.0, 1.0, 0.0) ==> a.r2 == b.r2
    ensures v == Vec(0.0, 0.0, 0.0, 1.0) ==> a.r3 == b.r3
  {
  }

  lemma {:induction false} MulAssociative(a: Mat, b: Mat, c: Mat)
    ensures Mul(Mul(a, b), c) == Mul(a, Mul(b, c))
  {
    ApplyMul(a.r0, b, c);
    ApplyMul(a.r1, b, c);
    ApplyMul(a.r2, b, c);
    ApplyMul(a.r3, b, c);
  }

  lemma {:induction false} MulIdentity(a: Mat)
    ensures Mul(IDENTITY, a) == a && Mul(a, IDENTITY) == a
  {
    ApplyIdentity(a.r0);
    ApplyIdentity(a.r1);
    ApplyIdentity(a.r2);
    ApplyIdentity(a.r3);
  }

  /** Accumulating scale and offset is multiplying their matrices. */
  lemma {:induction false} AccumulateIsMul(t: ScaleOffset, u: ScaleOffset)
    ensures FromScaleOffset(t.Accumulate(u)) == Mul(FromScaleOffset(u), FromScaleOffset(t))
  {
  }

  lemma {:induction false} InverseIsInverse(t: ScaleOffset)
    requires t.sx != 0.0 && t.sy != 0.0
    ensures Mul(FromScaleOffset(t.Inverse()), FromScaleOffset(t)) == IDENTITY
    ensures Mul(FromScaleOffset(t), FromScaleOffset(t.Inverse())) == IDENTITY
  {
    InverseOne(t);
    InverseTwo(t);
  }

  lemma {:induction false} InverseOne(t: ScaleOffset)
    requires t.sx != 0.0 && t.sy != 0.0
    ensures Mul(FromScaleOffset(t.Inverse()), FromScaleOffset(t)) == IDENTITY
  {
    var m := Mul(FromScaleOffset(t.Inverse()), FromScaleOffset(t));
    forall v: Vec ensures Apply(v, m) == Apply(v, IDENTITY) {
      ApplyMul(v, FromScaleOffset(t.Inverse()), FromScaleOffset(t));
      ApplyScaleOffset(v, t.Inverse());
      ApplyScaleOffset(Shift(v, t.Inverse()), t);
      ShiftInverse(v, t);
      ApplyIdentity(v);
    }
    SameMatrix(m, IDENTITY);
  }

  lemma {:induction false} InverseTwo(t: ScaleOffset)
    requires t.sx != 0.0 && t.sy != 0.0
    ensures Mul(FromScaleOffset(t), FromScaleOffset(t.Inverse())) == IDENTITY
  {
    var m := Mul(FromScaleOffset(t), FromScaleOffset(t.Inverse()));
    forall v: Vec ensures Apply(v, m) == Apply(v, IDENTITY) {
      ApplyMul(v, FromScaleOffset(t), FromScaleOffset(t.Inverse()));
      ApplyScaleOffset(v, t);
      ApplyScaleOffset(Shift(v, t), t.Inverse());
      ShiftInverse(v, t);
      ApplyIdentity(v);
    }
    SameMatrix(m, IDENTITY);
  }

  /** Flattening commutes with a later scale and offset, which leaves z alone. */
  lemma {:induction false} FlattenCommutes(a: Mat, t: ScaleOffset)
    ensures FlattenZ(Mul(a, FromScaleOffset(t))) == Mul(FlattenZ(a), FromScaleOffset(t))
  {
    ApplyScaleOffset(a.r0, t);
    ApplyScaleOffset(a.r1, t);
    ApplyScaleOffset(a.r2, t);
    ApplyScaleOffset(a.r3, t);
    var f := FlattenZ(a);
    ApplyScaleOffset(f.r0, t);
    ApplyScaleOffset(f.r1, t);
    ApplyScaleOffset(f.r2, t);
    ApplyScaleOffset(f.r3, t);
  }

  /** The matrix leaves z alone: its z column is that of the identity. */
  predicate KeepsZ(m: Mat) {
    m.r0.z == 0.0 && m.r1.z == 0.0 && m.r2.z == 1.0 && m.r3.z == 0.0
  }

  lemma {:induction false} FlattenKeeps(m: Mat)
    ensures KeepsZ(m) <==> FlattenZ(m) == m
    ensures KeepsZ(FlattenZ(m))
  {
  }

  lemma {:induction false} FlattenTwice(m: Mat)
    ensures FlattenZ(FlattenZ(m)) == FlattenZ(m)
  {
  }

  /** Flattening a product is flattening its last factor exactly if the first leaves z alone. */
  lemma {:induction false} FlattenThrough(m: Mat, t: Mat)
    ensures FlattenZ(Mul(m, t)) == Mul(m, FlattenZ(t)) <==> KeepsZ(m)
  {
    ApplyFlattenZ(m.r0, t);
    ApplyFlattenZ(m.r1, t);
    ApplyFlattenZ(m.r2, t);
    ApplyFlattenZ(m.r3, t);
  }

  lemma {:induction false} ApplyFlattenZ(v: Vec, t: Mat)
    ensures Apply(v, FlattenZ(t)) == Apply(v, t).(z := v.z)
  {
  }

  lemma {:induction false} KeepsZMul(a: Mat, b: Mat)
    requires KeepsZ(a) && KeepsZ(b)
    ensures KeepsZ(Mul(a, b))
  {
    FlattenKeeps(b);
    FlattenThrough(a, b);
    FlattenKeeps(Mul(a, b));
  }

  /** A matrix with a left inverse. */
  ghost predicate Undoable(m: Mat) {
    exists n: Mat :: Mul(n, m) == IDENTITY
  }

  lemma {:induction false} UndoableMul(a: Mat, b: Mat)
    requires Undoable(a) && Undoable(b)
    ensures Undoable(Mul(a, b))
  {
    var x: Mat :| Mul(x, a) == IDENTITY;
    var y: Mat :| Mul(y, b) == IDENTITY;
    MulAssociative(Mul(y, x), a, b);
    MulAssociative(y, x, a);
    MulIdentity(y);
    assert Mul(Mul(y, x), Mul(a, b)) == IDENTITY;
  }

  lemma {:induction false} CancelLeft(m: Mat, a: Mat, b: Mat)
    requires Undoable(m) && Mul(m, a) == Mul(m, b)
    ensures a == b
  {
    var n: Mat :| Mul(n, m) == IDENTITY;
    MulAssociative(n, m, a);
    MulAssociative(n, m, b);
    MulIdentity(a);
    MulIdentity(b);
  }

  lemma {:induction false} CancelRight(a: Mat, b: Mat, m: Mat, undo: Mat)
    requires Mul(m, undo) == IDENTITY && Mul(a, m) == Mul(b, m)
    ensures a == b
  {
    MulAssociative(a, m, undo);
    MulAssociative(b, m, undo);
    MulIdentity(a);
    MulIdentity(b);
  }
}
