/** Points and rectangles, as the euclid types that webrender's batching and clipping code is
    written against. Coordinates are reals: rounding is not modelled. */
module Geometry {

  import opened Options

  datatype Point = Point(x: real, y: real)

  /** A rectangle by origin and size; it holds the points of [x, x + w) x [y, y + h). */
  datatype Rect = Rect(x: real, y: real, w: real, h: real) {

    predicate IsEmptyOrNegative() {
      w <= 0.0 || h <= 0.0
    }

    predicate Contains(p: Point) {
      x <= p.x < x + w && y <= p.y < y + h
    }

    /** Strict overlap test: rectangles that only share an edge do not intersect. */
    predicate Intersects(other: Rect) {
      && x < other.x + other.w && other.x < x + w
      && y < other.y + other.h && other.y < y + h
    }

    /** The common part, or None when that part has no area. */
    function Intersection(other: Rect): (r: Option<Rect>)
      ensures forall p: Point ::
                (Contains(p) && other.Contains(p)) <==> (r.Some? && r.value.Contains(p))
      ensures r.Some? ==> !r.value.IsEmptyOrNegative()
    {
      var x0 := if x < other.x then other.x else x;
      var y0 := if y < other.y then other.y else y;
      var x1 := if x + w < other.x + other.w then x + w else other.x + other.w;
      var y1 := if y + h < other.y + other.h then y + h else other.y + other.h;
      if x1 <= x0 || y1 <= y0 then None else Some(Rect(x0, y0, x1 - x0, y1 - y0))
    }

    predicate ContainsRect(other: Rect) {
      || other.IsEmptyOrNegative()
      || (&& x <= other.x && other.x + other.w <= x + w
          && y <= other.y && other.y + other.h <= y + h)
    }
  }

  /** Two rectangles that hold a common point pass the strict overlap test. */
  lemma {:induction false} CommonPointIntersects(a: Rect, b: Rect, p: Point)
    requires a.Contains(p) && b.Contains(p)
    ensures a.Intersects(b)
  {
  }

  /** Two rectangles meet: they hold a common point. */
  ghost predicate Meet(a: Rect, b: Rect) {
    exists p: Point :: a.Contains(p) && b.Contains(p)
  }

  /** For rectangles with area the strict overlap test is exactly that. */
  lemma {:induction false} IntersectsIff(a: Rect, b: Rect)
    requires !a.IsEmptyOrNegative() && !b.IsEmptyOrNegative()
    ensures a.Intersects(b) <==> Meet(a, b)
  {
    if a.Intersects(b) {
      var p := Point(if a.x < b.x then b.x else a.x, if a.y < b.y then b.y else a.y);
      assert a.Contains(p) && b.Contains(p);
    }
  }
}
