/** Clip sources, the points they admit, and the quick comparison of a clip with a rectangle
    (webrender/src/clip.rs). */
module ClipItems {
  import opened Geometry
  import opened Options

  datatype ClipMode = Clip | ClipOut

  datatype Radius = Radius(w: real, h: real)

  datatype BorderRadius = BorderRadius(topLeft: Radius, topRight: Radius, bottomLeft: Radius, bottomRight: Radius) {
    predicate NonNegative() {
      && topLeft.w >= 0.0 && topLeft.h >= 0.0 && topRight.w >= 0.0 && topRight.h >= 0.0
      && bottomLeft.w >= 0.0 && bottomLeft.h >= 0.0 && bottomRight.w >= 0.0 && bottomRight.h >= 0.0
    }
  }

  /** A corner's ellipse is only known as a set of points relative to its centre; so is the mask of
      an image or of a blurred shadow. */
  datatype ClipItemKind =
    | Rectangle(rect: Rect, mode: ClipMode)
    | RoundedRectangle(rect: Rect, radius: BorderRadius, mode: ClipMode, oval: (Radius, Point) -> bool)
    | Image(rect: Rect, repeat: bool, mask: Point -> bool)
    | BoxShadow(mask: Point -> bool)

  function MaxReal(a: real, b: real): real { if a < b then b else a }

  function Ceil(a: real): (r: real)
    ensures a <= r < a + 1.0
  {
    -((-a).Floor as real)
  }

  function FloorReal(a: real): (r: real)
    ensures a - 1.0 < r <= a
  {
    a.Floor as real
  }

  /** A point of the rectangle outside all corner ellipses' missing parts. */
  predicate RoundedContains(r: Rect, radii: BorderRadius, oval: (Radius, Point) -> bool, p: Point) {
    && r.Contains(p)
    && (var c := Point(r.x + radii.topLeft.w, r.y + radii.topLeft.h);
        c.x > p.x && c.y > p.y ==> oval(radii.topLeft, Point(p.x - c.x, p.y - c.y)))
    && (var c := Point(r.x + r.w - radii.bottomRight.w, r.y + r.h - radii.bottomRight.h);
        c.x < p.x && c.y < p.y ==> oval(radii.bottomRight, Point(p.x - c.x, p.y - c.y)))
    && (var c := Point(r.x + r.w - radii.topRight.w, r.y + radii.topRight.h);
        c.x < p.x && c.y > p.y ==> oval(radii.topRight, Point(p.x - c.x, p.y - c.y)))
    && (var c := Point(r.x + radii.bottomLeft.w, r.y + r.h - radii.bottomLeft.h);
        c.x > p.x && c.y < p.y ==> oval(radii.bottomLeft, Point(p.x - c.x, p.y - c.y)))
  }

  /** Where the corners do not overlap: in a corner its own ellipse decides, and elsewhere nothing is cut
      off. */
  lemma {:induction false} RoundedByCorner(r: Rect, radii: BorderRadius, oval: (Radius, Point) -> bool, p: Point)
    requires radii.NonNegative() && r.Contains(p)
    requires radii.topLeft.w + radii.topRight.w <= r.w && radii.bottomLeft.w + radii.bottomRight.w <= r.w
    requires radii.topLeft.h + radii.bottomLeft.h <= r.h && radii.topRight.h + radii.bottomRight.h <= r.h
    requires radii.topLeft.w + radii.bottomRight.w <= r.w || radii.topLeft.h + radii.bottomRight.h <= r.h
    requires radii.bottomLeft.w + radii.topRight.w <= r.w || radii.bottomLeft.h + radii.topRight.h <= r.h
    ensures var x0, y0, x1, y1 := p.x - r.x, p.y - r.y, r.x + r.w - p.x, r.y + r.h - p.y;
            RoundedContains(r, radii, oval, p) ==
              if x0 < radii.topLeft.w && y0 < radii.topLeft.h
              then oval(radii.topLeft, Point(x0 - radii.topLeft.w, y0 - radii.topLeft.h))
              else if x1 < radii.topRight.w && y0 < radii.topRight.h
              then oval(radii.topRight, Point(radii.topRight.w - x1, y0 - radii.topRight.h))
              else if x0 < radii.bottomLeft.w && y1 < radii.bottomLeft.h
              then oval(radii.bottomLeft, Point(x0 - radii.bottomLeft.w, radii.bottomLeft.h - y1))
              else if x1 < radii.bottomRight.w && y1 < radii.bottomRight.h
              then oval(radii.bottomRight, Point(radii.bottomRight.w - x1, radii.bottomRight.h - y1))
              else true
  {
    var x0, y0, x1, y1 := p.x - r.x, p.y - r.y, r.x + r.w - p.x, r.y + r.h - p.y;
    assert p.x - (r.x + radii.topLeft.w) == x0 - radii.topLeft.w;
  }

  /** A pixel-aligned rectangle that avoids the corners' bounding boxes, if there is one. */
  function ExtractInnerRectSafe(r: Rect, radii: BorderRadius): Option<Rect> {
    var xl := Ceil(MaxReal(radii.topLeft.w, radii.bottomLeft.w));
    var xr := FloorReal(r.w - MaxReal(radii.topRight.w, radii.bottomRight.w));
    var yt := Ceil(MaxReal(radii.topLeft.h, radii.topRight.h));
    var yb := FloorReal(r.h - MaxReal(radii.bottomLeft.h, radii.bottomRight.h));
    if xl <= xr && yt <= yb then Some(Rect(r.x + xl, r.y + yt, xr - xl, yb - yt)) else None
  }

  lemma {:induction false} InnerRectInside(r: Rect, radii: BorderRadius, oval: (Radius, Point) -> bool, p: Point)
    requires radii.NonNegative()
    requires ExtractInnerRectSafe(r, radii).Some? && ExtractInnerRectSafe(r, radii).value.Contains(p)
    ensures RoundedContains(r, radii, oval, p)
  {
  }

  /** The points that a clip lets through, in its own coordinates. */
  predicate Admits(item: ClipItemKind, p: Point) {
    match item
    case Rectangle(rect, mode) => rect.Contains(p) == mode.Clip?
    case RoundedRectangle(rect, radius, mode, oval) => RoundedContains(rect, radius, oval, p) == mode.Clip?
    case Image(rect, repeat, mask) => mask(p) && (repeat || rect.Contains(p))
    case BoxShadow(mask) => mask(p)
  }

  /** A repeated image's mask decides everywhere, any other's inside its rectangle. */
  lemma {:induction false} ImageAdmits(item: ClipItemKind, p: Point)
    requires item.Image?
    ensures item.repeat || item.rect.Contains(p) ==> (Admits(item, p) <==> item.mask(p))
    ensures !item.repeat && !item.rect.Contains(p) ==> !Admits(item, p)
  {
  }

  predicate WellFormed(item: ClipItemKind) {
    item.RoundedRectangle? ==> item.radius.NonNegative()
  }

  /** A rectangle that all admitted points lie in, if the source provides one. */
  function GetLocalClipRect(item: ClipItemKind): (r: Option<Rect>)
    ensures r.Some? ==> forall p: Point :: Admits(item, p) ==> r.value.Contains(p)
    ensures item.Rectangle? && item.mode.Clip? ==> r.Some? && forall p: Point :: r.value.Contains(p) ==> Admits(item, p)
  {
    match item
    case Rectangle(rect, mode) => if mode.Clip? then Some(rect) else None
    case RoundedRectangle(rect, _, mode, _) => if mode.Clip? then Some(rect) else None
    case Image(rect, repeat, _) => if repeat then None else Some(rect)
    case BoxShadow(_) => None
  }

  /** What the offered rectangle says of a point: it binds all but inverted, repeated and blurred clips. */
  predicate Binds(item: ClipItemKind, p: Point) {
    && (item.Rectangle? && item.mode.Clip? ==> item.rect.Contains(p))
    && (item.RoundedRectangle? && item.mode.Clip? ==> item.rect.Contains(p))
    && (item.Image? && !item.repeat ==> item.rect.Contains(p))
  }

  lemma {:induction false} OfferedIff(item: ClipItemKind, p: Point)
    ensures var r := GetLocalClipRect(item);
            Binds(item, p) <==> (r.Some? ==> r.value.Contains(p))
  {
  }

  datatype ClipResult = Accept | Reject | Partial

  /** How a clip affects a region: every point passes, none does, or it is not settled. */
  function GetClipResult(item: ClipItemKind, prim: Rect): (r: ClipResult)
    requires WellFormed(item) && !prim.IsEmptyOrNegative()
    ensures r.Accept? ==> forall p: Point :: prim.Contains(p) ==> Admits(item, p)
    ensures r.Reject? ==> forall p: Point :: prim.Contains(p) ==> !Admits(item, p)
  {
    match item
    case Rectangle(rect, mode) =>
      if mode.Clip? then
        if rect.ContainsRect(prim) then Accept
        else if rect.Intersection(prim).Some? then Partial else Reject
      else
        if rect.ContainsRect(prim) then Reject
        else if rect.Intersection(prim).Some? then Partial else Accept
    case RoundedRectangle(rect, radius, mode, oval) =>
      var inner := ExtractInnerRectSafe(rect, radius);
      if mode.Clip? then
        if inner.Some? && inner.value.ContainsRect(prim) then
          assert forall p: Point :: inner.value.Contains(p) ==> RoundedContains(rect, radius, oval, p) by {
            forall p: Point | inner.value.Contains(p) ensures RoundedContains(rect, radius, oval, p) {
              InnerRectInside(rect, radius, oval, p);
            }
          }
          Accept
        else if rect.Intersection(prim).Some? then Partial else Reject
      else
        if inner.Some? && inner.value.ContainsRect(prim) then
          assert forall p: Point :: inner.value.Contains(p) ==> RoundedContains(rect, radius, oval, p) by {
            forall p: Point | inner.value.Contains(p) ensures RoundedContains(rect, radius, oval, p) {
              InnerRectInside(rect, radius, oval, p);
            }
          }
          Reject
        else if rect.Intersection(prim).Some? then Partial else Accept
    case Image(rect, repeat, _) =>
      if repeat then Partial
      else if rect.Intersection(prim).Some? then Partial else Reject
    case BoxShadow(_) => Partial
  }

  /** A rectangle holds another one exactly if it holds its points. */
  lemma {:induction false} ContainsPoints(a: Rect, b: Rect)
    requires !b.IsEmptyOrNegative()
    ensures a.ContainsRect(b) <==> forall p: Point :: b.Contains(p) ==> a.Contains(p)
  {
    if forall p: Point :: b.Contains(p) ==> a.Contains(p) {
      assert a.Contains(Point(b.x, b.y));
      assert b.x + b.w <= a.x + a.w by {
        if a.x + a.w < b.x + b.w { assert b.Contains(Point(MaxReal(b.x, a.x + a.w), b.y)); }
      }
      assert b.y + b.h <= a.y + a.h by {
        if a.y + a.h < b.y + b.h { assert b.Contains(Point(b.x, MaxReal(b.y, a.y + a.h))); }
      }
    }
  }

  ghost predicate AllInside(prim: Rect, rect: Rect) {
    forall p: Point :: prim.Contains(p) ==> rect.Contains(p)
  }

  ghost predicate AllOutside(prim: Rect, rect: Rect) {
    forall p: Point :: prim.Contains(p) ==> !rect.Contains(p)
  }

  lemma {:induction false} NoCommonPoint(prim: Rect, rect: Rect)
    ensures AllOutside(prim, rect) <==> rect.Intersection(prim).None?
  {
    var common := rect.Intersection(prim);
    if common.Some? {
      assert common.value.Contains(Point(common.value.x, common.value.y));
    }
  }

  /** Exactly when each answer is given. A rectangle is settled whenever its points settle it; a rounded
      one is accepted on its inner rectangle alone. */
  lemma {:induction false} ClipResultIff(item: ClipItemKind, prim: Rect)
    requires WellFormed(item) && !prim.IsEmptyOrNegative()
    ensures var r := GetClipResult(item, prim);
            match item
            case Rectangle(rect, mode) =>
              && (AllInside(prim, rect) <==> if mode.Clip? then r.Accept? else r.Reject?)
              && (AllOutside(prim, rect) <==> if mode.Clip? then r.Reject? else r.Accept?)
            case RoundedRectangle(rect, radius, mode, _) =>
              var inner := ExtractInnerRectSafe(rect, radius);
              var held := inner.Some? && AllInside(prim, inner.value);
              && (held <==> if mode.Clip? then r.Accept? else r.Reject?)
              && (!held && AllOutside(prim, rect) <==> if mode.Clip? then r.Reject? else r.Accept?)
            case Image(rect, repeat, _) => !r.Accept? && (r.Reject? <==> !repeat && AllOutside(prim, rect))
            case BoxShadow(_) => r.Partial?
  {
    var corner := Point(prim.x, prim.y);
    assert prim.Contains(corner);
    match item
    case Rectangle(rect, _) => ContainsPoints(rect, prim); NoCommonPoint(prim, rect);
    case RoundedRectangle(rect, radius, _, _) =>
      NoCommonPoint(prim, rect);
      var inner := ExtractInnerRectSafe(rect, radius);
      if inner.Some? { ContainsPoints(inner.value, prim); }
    case Image(rect, _, _) => NoCommonPoint(prim, rect);
    case BoxShadow(_) =>
  }

  /** The rectangle at whole distances from the corner of `r`. */
  function At(r: Rect, i: int, j: int, w: int, h: int): Rect {
    Rect(r.x + i as real, r.y + j as real, w as real, h as real)
  }

  /** No point of the rectangle is in a row or a column of a corner. */
  predicate AvoidsCorners(r: Rect, radii: BorderRadius, q: Rect) {
    && q.x >= r.x + radii.topLeft.w && q.x >= r.x + radii.bottomLeft.w
    && q.y >= r.y + radii.topLeft.h && q.y >= r.y + radii.topRight.h
    && q.x + q.w <= r.x + r.w - radii.topRight.w && q.x + q.w <= r.x + r.w - radii.bottomRight.w
    && q.y + q.h <= r.y + r.h - radii.bottomLeft.h && q.y + q.h <= r.y + r.h - radii.bottomRight.h
  }

  /** Edge by edge, which says something of a rectangle without area too. */
  predicate Within(q: Rect, r: Rect) {
    r.x <= q.x && q.x + q.w <= r.x + r.w && r.y <= q.y && q.y + q.h <= r.y + r.h
  }

  /** The safe rectangle is the largest one at whole distances that avoids the corners. */
  lemma {:induction false} InnerRectLargest(r: Rect, radii: BorderRadius, i: int, j: int, w: int, h: int)
    requires w >= 0 && h >= 0
    ensures var inner := ExtractInnerRectSafe(r, radii);
            && (AvoidsCorners(r, radii, At(r, i, j, w, h)) <==>
                  inner.Some? && Within(At(r, i, j, w, h), inner.value))
            && (inner.Some? ==> inner.value.w >= 0.0 && inner.value.h >= 0.0
                                && exists i', j', w', h' :: inner.value == At(r, i', j', w', h'))
  {
    var xl, xr := MaxReal(radii.topLeft.w, radii.bottomLeft.w), r.w - MaxReal(radii.topRight.w, radii.bottomRight.w);
    var yt, yb := MaxReal(radii.topLeft.h, radii.topRight.h), r.h - MaxReal(radii.bottomLeft.h, radii.bottomRight.h);
    LeastWhole(xl, i);
    LeastWhole(yt, j);
    GreatestWhole(xr, i + w);
    GreatestWhole(yb, j + h);
    assert (i + w) as real == i as real + w as real && (j + h) as real == j as real + h as real;
    var i', j', x', y' := -((-xl).Floor), -((-yt).Floor), xr.Floor, yb.Floor;
    assert (x' - i') as real == x' as real - i' as real && (y' - j') as real == y' as real - j' as real;
    assert ExtractInnerRectSafe(r, radii).Some? ==>
      ExtractInnerRectSafe(r, radii).value == At(r, i', j', x' - i', y' - j');
  }

  lemma {:induction false} GreatestWhole(a: real, n: int)
    ensures n as real <= a <==> n as real <= FloorReal(a)
    ensures n as real <= a <==> n <= a.Floor
  {
    if n > a.Floor {
      assert n as real >= (a.Floor + 1) as real == a.Floor as real + 1.0;
    } else {
      assert n as real <= a.Floor as real;
    }
  }

  lemma {:induction false} LeastWhole(a: real, n: int)
    ensures a <= n as real <==> Ceil(a) <= n as real
    ensures Ceil(a) == (-((-a).Floor)) as real
  {
    GreatestWhole(-a, -n);
    var k := (-a).Floor;
    assert (-n) as real == -(n as real) && (-k) as real == -(k as real);
  }
}
