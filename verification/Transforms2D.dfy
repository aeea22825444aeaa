/** Axis-aligned scales and offsets (ScaleOffset in webrender/src/util.rs), over the reals. */
module Transforms2D {
  import opened Geometry

  function Map1(s: real, o: real, x: real): real {
    x * s + o
  }

  function Unmap1(s: real, o: real, x: real): real
    requires s != 0.0
  {
    (x - o) / s
  }

  lemma {:induction false} UnmapMap1(s: real, o: real, x: real)
    requires s != 0.0
    ensures Unmap1(s, o, Map1(s, o, x)) == x && Map1(s, o, Unmap1(s, o, x)) == x
  {
    assert (x * s) / s == x;
  }

  /** A positive scale keeps order, in both directions. */
  lemma {:induction false} MapOrder1(s: real, o: real, x: real, y: real)
    requires s > 0.0
    ensures x <= y <==> Map1(s, o, x) <= Map1(s, o, y)
    ensures x < y <==> Map1(s, o, x) < Map1(s, o, y)
  {
    if x < y {
      assert (y - x) * s > 0.0;
    } else if x > y {
      assert (x - y) * s > 0.0;
    }
  }

  datatype ScaleOffset = ScaleOffset(sx: real, sy: real, ox: real, oy: real) {

    predicate Positive() {
      sx > 0.0 && sy > 0.0
    }

    function MapPoint(p: Point): Point {
      Point(Map1(sx, ox, p.x), Map1(sy, oy, p.y))
    }

    function UnmapPoint(p: Point): Point
      requires sx != 0.0 && sy != 0.0
    {
      Point(Unmap1(sx, ox, p.x), Unmap1(sy, oy, p.y))
    }

    function Inverse(): ScaleOffset
      requires sx != 0.0 && sy != 0.0
    {
      ScaleOffset(1.0 / sx, 1.0 / sy, -ox / sx, -oy / sy)
    }

    /** Applies `other` first, then this one. */
    function Accumulate(other: ScaleOffset): ScaleOffset {
      ScaleOffset(sx * other.sx, sy * other.sy, ox + sx * other.ox, oy + sy * other.oy)
    }

    function MapRect(r: Rect): Rect {
      Rect(r.x * sx + ox, r.y * sy + oy, r.w * sx, r.h * sy)
    }

    function UnmapRect(r: Rect): Rect
      requires sx != 0.0 && sy != 0.0
    {
      Rect((r.x - ox) / sx, (r.y - oy) / sy, r.w / sx, r.h / sy)
    }
  }

  lemma {:induction false} UnmapMap(t: ScaleOffset, p: Point)
    requires t.Positive()
    ensures t.UnmapPoint(t.MapPoint(p)) == p && t.MapPoint(t.UnmapPoint(p)) == p
  {
    UnmapMap1(t.sx, t.ox, p.x);
    UnmapMap1(t.sy, t.oy, p.y);
  }

  lemma {:induction false} Accumulate1(s: real, o: real, s': real, o': real, x: real)
    ensures Map1(s * s', o + s * o', x) == Map1(s, o, Map1(s', o', x))
  {
    assert x * (s * s') == (x * s') * s;
    assert (x * s' + o') * s == (x * s') * s + o' * s;
  }

  lemma {:induction false} AccumulateMaps(t: ScaleOffset, u: ScaleOffset, p: Point)
    ensures t.Accumulate(u).MapPoint(p) == t.MapPoint(u.MapPoint(p))
  {
    Accumulate1(t.sx, t.ox, u.sx, u.ox, p.x);
    Accumulate1(t.sy, t.oy, u.sy, u.oy, p.y);
    var a, q := t.Accumulate(u), u.MapPoint(p);
    assert q.x == Map1(u.sx, u.ox, p.x) && q.y == Map1(u.sy, u.oy, p.y);
    assert t.MapPoint(q).x == Map1(t.sx, t.ox, q.x) && t.MapPoint(q).y == Map1(t.sy, t.oy, q.y);
    assert a.MapPoint(p).x == Map1(a.sx, a.ox, p.x) && a.MapPoint(p).y == Map1(a.sy, a.oy, p.y);
  }

  lemma {:induction false} Inverse1(s: real, o: real, x: real)
    requires s != 0.0
    ensures Map1(1.0 / s, -o / s, x) == Unmap1(s, o, x)
  {
    assert x * (1.0 / s) == x / s;
    assert -o / s == -(o / s);
    assert (x - o) / s == x / s - o / s;
  }

  lemma {:induction false} InverseMaps(t: ScaleOffset, p: Point)
    requires t.Positive()
    ensures t.Inverse().Positive() && t.Inverse().MapPoint(p) == t.UnmapPoint(p)
  {
    Inverse1(t.sx, t.ox, p.x);
    Inverse1(t.sy, t.oy, p.y);
  }

  lemma {:induction false} MapEdge1(s: real, o: real, x: real, w: real)
    ensures Map1(s, o, x) + w * s == Map1(s, o, x + w)
  {
    assert (x + w) * s == x * s + w * s;
  }

  /** A mapped rectangle holds a point exactly if the rectangle holds the point mapped back. */
  lemma {:induction false} MapRectContains(t: ScaleOffset, r: Rect, p: Point)
    requires t.Positive()
    ensures t.MapRect(r).Contains(p) <==> r.Contains(t.UnmapPoint(p))
  {
    var q := t.UnmapPoint(p);
    UnmapMap(t, p);
    MapEdge1(t.sx, t.ox, r.x, r.w);
    MapEdge1(t.sy, t.oy, r.y, r.h);
    MapOrder1(t.sx, t.ox, r.x, q.x);
    MapOrder1(t.sx, t.ox, q.x, r.x + r.w);
    MapOrder1(t.sy, t.oy, r.y, q.y);
    MapOrder1(t.sy, t.oy, q.y, r.y + r.h);
  }

  lemma {:induction false} MapUnmapRect(t: ScaleOffset, r: Rect)
    requires t.Positive()
    ensures t.MapRect(t.UnmapRect(r)) == r
  {
    UnmapMap1(t.sx, t.ox, r.x);
    UnmapMap1(t.sy, t.oy, r.y);
    assert (r.w / t.sx) * t.sx == r.w && (r.h / t.sy) * t.sy == r.h;
  }

  lemma {:induction false} UnmapRectContains(t: ScaleOffset, r: Rect, p: Point)
    requires t.Positive()
    ensures t.UnmapRect(r).Contains(t.UnmapPoint(p)) <==> r.Contains(p)
  {
    MapUnmapRect(t, r);
    MapRectContains(t, t.UnmapRect(r), p);
  }

  lemma {:induction false} UnmapRectArea(t: ScaleOffset, r: Rect)
    requires t.Positive()
    ensures t.UnmapRect(r).IsEmptyOrNegative() <==> r.IsEmptyOrNegative()
  {
    MapUnmapRect(t, r);
    var u := t.UnmapRect(r);
    assert u.w * t.sx == r.w && u.h * t.sy == r.h;
    assert u.w > 0.0 ==> u.w * t.sx > 0.0;
    assert u.h > 0.0 ==> u.h * t.sy > 0.0;
    assert u.w <= 0.0 ==> u.w * t.sx <= 0.0;
    assert u.h <= 0.0 ==> u.h * t.sy <= 0.0;
  }
}
