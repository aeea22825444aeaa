/** What reaches the screen at one point: drawing in submission order, against drawing the opaque
    instances first with the depth test and depth write, then the blended ones with the depth test
    only, as webrender/src/renderer.rs does. A later z id is closer; equal depth passes. */
module Painter {
  import opened Geometry
  import opened Options
  import opened Sequences
  import opened BatchKeys
  import opened AlphaBatching

  /** How instances touch the screen. `Covers` is the set of pixels an instance touches, `Solid` the
      colour an opaque instance writes, and `Blend` what a blended one makes of the colour below. */
  datatype Scene<!C> = Scene(
    covers: (Instance, Point) -> bool,
    solid: (Instance, Point) -> C,
    blend: (Instance, Point, C) -> C)

  /** Pixels lie in the bounding rectangle. */
  ghost predicate Bounded<C>(scene: Scene<C>) {
    forall x: Instance, p: Point :: scene.covers(x, p) ==> x.rect.Contains(p)
  }

  predicate IsOpaque(x: Instance) {
    x.key.IsOpaque()
  }

  function OpaqueOf(history: seq<Instance>): seq<Instance> {
    Filter(history, x => IsOpaque(x))
  }

  function BlendedOf(history: seq<Instance>): seq<Instance> {
    Filter(history, x => !IsOpaque(x))
  }

  lemma {:induction false} AppendToHistory(history: seq<Instance>, inst: Instance)
    ensures OpaqueOf(history + [inst]) == OpaqueOf(history) + (if IsOpaque(inst) then [inst] else [])
    ensures BlendedOf(history + [inst]) == BlendedOf(history) + (if IsOpaque(inst) then [] else [inst])
  {
    FilterConcat(history, [inst], x => IsOpaque(x));
    FilterConcat(history, [inst], x => !IsOpaque(x));
  }

  function Keep<C>(scene: Scene<C>, p: Point, opaque_: bool): (f: Instance -> bool) {
    x => scene.covers(x, p) && IsOpaque(x) == opaque_
  }

  /** Painter's algorithm: every submission in order, with no depth buffer. */
  function Paint<C>(scene: Scene<C>, history: seq<Instance>, p: Point, c: C): C {
    if history == [] then c else
      var x := history[0];
      var c' := if !scene.covers(x, p) then c
                else if IsOpaque(x) then scene.solid(x, p)
                else scene.blend(x, p, c);
      Paint(scene, history[1..], p, c')
  }

  /** Colour and depth of the pixel; None is the cleared, farthest depth. */
  datatype Pixel<C> = Pixel(color: C, depth: Option<int>) {
    predicate Passes(z: int) {
      depth.None? || depth.value <= z
    }
  }

  function OpaquePass<C>(scene: Scene<C>, list: seq<Instance>, p: Point, px: Pixel<C>): Pixel<C> {
    if list == [] then px else
      var x := list[0];
      var px' := if scene.covers(x, p) && px.Passes(x.z) then Pixel(scene.solid(x, p), Some(x.z)) else px;
      OpaquePass(scene, list[1..], p, px')
  }

  function AlphaPass<C>(scene: Scene<C>, list: seq<Instance>, p: Point, px: Pixel<C>): Pixel<C> {
    if list == [] then px else
      var x := list[0];
      var px' := if scene.covers(x, p) && px.Passes(x.z) then px.(color := scene.blend(x, p, px.color)) else px;
      AlphaPass(scene, list[1..], p, px')
  }

  function Render<C>(scene: Scene<C>, solids: seq<Instance>, blended: seq<Instance>, p: Point, c: C): C {
    AlphaPass(scene, blended, p, OpaquePass(scene, solids, p, Pixel(c, Option.None))).color
  }

  /** z ids never decrease, and instances that share one overlap only if both are blended. */
  ghost predicate WellLayered<C>(scene: Scene<C>, history: seq<Instance>, p: Point) {
    forall i, j :: 0 <= i < j < |history| && scene.covers(history[i], p) && scene.covers(history[j], p) ==>
                     && history[i].z <= history[j].z
                     && (history[i].z == history[j].z ==> !IsOpaque(history[i]) && !IsOpaque(history[j]))
  }

  /** At this point the two lists hold exactly the submissions that cover it, and the blended ones
      stand in submission order. */
  ghost predicate FaithfulAt<C>(scene: Scene<C>, history: seq<Instance>, solids: seq<Instance>,
                                blended: seq<Instance>, p: Point)
  {
    && multiset(Filter(solids, Keep(scene, p, true))) == multiset(Filter(history, Keep(scene, p, true)))
    && Filter(blended, Keep(scene, p, false)) == Filter(history, Keep(scene, p, false))
    && (forall x :: x in solids ==> IsOpaque(x))
    && (forall x :: x in blended ==> !IsOpaque(x))
  }

  /** Drawing in reordered batches gives the picture drawn in submission order. */
  lemma {:induction false} PaintersEquivalence<C>(scene: Scene<C>, history: seq<Instance>, solids: seq<Instance>,
                               blended: seq<Instance>, p: Point, c: C)
    requires WellLayered(scene, history, p)
    requires FaithfulAt(scene, history, solids, blended, p)
    ensures Render(scene, solids, blended, p, c) == Paint(scene, history, p, c)
  {
    var px := Pixel(c, Option.None);
    var top := LastOpaque(scene, history, p);
    OpaquePassFilter(scene, solids, p, px);
    AlphaPassFilter(scene, blended, p, OpaquePass(scene, solids, p, px));
    var o := Filter(solids, Keep(scene, p, true));
    assert o == [] || o[0] in o;
    SameMembers(o, Filter(history, Keep(scene, p, true)));
    if top == -1 {
      assert forall x :: x !in o;
      PaintNoOpaque(scene, history, p, px);
    } else {
      TopmostWins(scene, history, o, top, p, c);
      PaintFromTopmost(scene, history, top, p, c);
    }
  }

  lemma {:induction false} SameMembers(a: seq<Instance>, b: seq<Instance>)
    requires multiset(a) == multiset(b)
    ensures forall x :: x in a <==> x in b
  {
    forall x ensures x in a <==> x in b {
      assert x in a <==> x in multiset(a);
      assert x in b <==> x in multiset(b);
    }
  }

  /** The opaque pass over the covering instances ends with the last submitted one. */
  lemma {:induction false} TopmostWins<C>(scene: Scene<C>, history: seq<Instance>, o: seq<Instance>, top: nat, p: Point,
      c: C)
    requires WellLayered(scene, history, p) && top < |history|
    requires scene.covers(history[top], p) && IsOpaque(history[top])
    requires forall i :: top < i < |history| && scene.covers(history[i], p) ==> !IsOpaque(history[i])
    requires forall x :: x in o <==> x in Filter(history, Keep(scene, p, true))
    ensures OpaquePass(scene, o, p, Pixel(c, Option.None))
            == Pixel(scene.solid(history[top], p), Some(history[top].z))
  {
    var m := history[top];
    assert m in Filter(history, Keep(scene, p, true));
    forall x | x in o && x != m ensures x.z < m.z {
      assert x in Filter(history, Keep(scene, p, true));
      var i :| 0 <= i < |history| && history[i] == x;
      assert i < top;
    }
    OpaquePassTop(scene, o, p, Pixel(c, Option.None), m);
  }

  /** Painting everything is painting what follows the topmost opaque instance, over its colour;
      and that is what the depth test lets through. */
  lemma {:induction false} PaintFromTopmost<C>(scene: Scene<C>, history: seq<Instance>, top: nat, p: Point, c: C)
    requires WellLayered(scene, history, p) && top < |history|
    requires scene.covers(history[top], p) && IsOpaque(history[top])
    requires forall i :: top < i < |history| && scene.covers(history[i], p) ==> !IsOpaque(history[i])
    ensures var px := Pixel(scene.solid(history[top], p), Some(history[top].z));
            AlphaPass(scene, Filter(history, Keep(scene, p, false)), p, px).color == Paint(scene, history, p, c)
  {
    var m, keep := history[top], Keep(scene, p, false);
    var px := Pixel(scene.solid(m, p), Some(m.z));
    var front, back := history[..top + 1], history[top + 1..];
    assert history == front + back && front == history[..top] + [m];
    PaintConcat(scene, front, back, p, c);
    PaintConcat(scene, history[..top], [m], p, c);
    FilterConcat(front, back, keep);
    forall x | x in Filter(front, keep) ensures !px.Passes(x.z) {
      var i :| 0 <= i < |front| && front[i] == x;
      assert history[i] == x && i < top;
    }
    AlphaPassHidden(scene, Filter(front, keep), Filter(back, keep), p, px);
    NothingOpaqueAbove(scene, history, top, p);
    PaintNoOpaque(scene, back, p, px);
  }

  /** What is submitted after the topmost opaque instance is blended and not behind it. */
  lemma {:induction false} NothingOpaqueAbove<C>(scene: Scene<C>, history: seq<Instance>, top: nat, p: Point)
    requires WellLayered(scene, history, p) && top < |history| && scene.covers(history[top], p)
    requires forall i :: top < i < |history| && scene.covers(history[i], p) ==> !IsOpaque(history[i])
    ensures forall x :: x in history[top + 1..] && scene.covers(x, p) ==> !IsOpaque(x) && history[top].z <= x.z
  {
    forall x | x in history[top + 1..] && scene.covers(x, p) ensures !IsOpaque(x) && history[top].z <= x.z {
      var i :| top + 1 <= i < |history| && history[i] == x;
    }
  }

  /** The last opaque submission that covers the point, or -1. */
  lemma {:induction false} LastOpaque<C>(scene: Scene<C>, history: seq<Instance>, p: Point) returns (k: int)
    ensures -1 <= k < |history|
    ensures k >= 0 ==> scene.covers(history[k], p) && IsOpaque(history[k])
    ensures forall i :: k < i < |history| && scene.covers(history[i], p) ==> !IsOpaque(history[i])
  {
    k := |history| - 1;
    while k >= 0 && !(scene.covers(history[k], p) && IsOpaque(history[k]))
      invariant -1 <= k < |history|
      invariant forall i :: k < i < |history| && scene.covers(history[i], p) ==> !IsOpaque(history[i])
    {
      k := k - 1;
    }
  }

  /** The depth of the last opaque submission that covers the point. */
  function TopDepth<C>(scene: Scene<C>, history: seq<Instance>, p: Point): Option<int> {
    if history == [] then Option.None
    else
      var x := history[|history| - 1];
      if scene.covers(x, p) && IsOpaque(x) then Some(x.z) else TopDepth(scene, history[..|history| - 1], p)
  }

  lemma {:induction false} TopDepthAt<C>(scene: Scene<C>, history: seq<Instance>, p: Point, k: int)
    requires -1 <= k < |history| && (k >= 0 ==> scene.covers(history[k], p) && IsOpaque(history[k]))
    requires forall i :: k < i < |history| && scene.covers(history[i], p) ==> !IsOpaque(history[i])
    ensures TopDepth(scene, history, p) == if k < 0 then Option.None else Some(history[k].z)
  {
    if k < |history| - 1 {
      var init := history[..|history| - 1];
      assert forall i :: k < i < |init| ==> init[i] == history[i];
      TopDepthAt(scene, init, p, k);
    }
  }

  /** What the opaque pass leaves in the depth buffer. */
  lemma {:induction false} OpaquePassDepth<C>(scene: Scene<C>, history: seq<Instance>, solids: seq<Instance>,
                                              blended: seq<Instance>, p: Point, c: C)
    requires WellLayered(scene, history, p) && FaithfulAt(scene, history, solids, blended, p)
    ensures OpaquePass(scene, solids, p, Pixel(c, Option.None)).depth == TopDepth(scene, history, p)
  {
    var top := LastOpaque(scene, history, p);
    TopDepthAt(scene, history, p, top);
    OpaquePassFilter(scene, solids, p, Pixel(c, Option.None));
    var o := Filter(solids, Keep(scene, p, true));
    assert o == [] || o[0] in o;
    SameMembers(o, Filter(history, Keep(scene, p, true)));
    if top != -1 {
      TopmostWins(scene, history, o, top, p, c);
    }
  }

  lemma {:induction false} PaintConcat<C>(scene: Scene<C>, a: seq<Instance>, b: seq<Instance>, p: Point, c: C)
    ensures Paint(scene, a + b, p, c) == Paint(scene, b, p, Paint(scene, a, p, c))
  {
    if a == [] {
      assert a + b == b;
    } else {
      var x := a[0];
      var c' := if !scene.covers(x, p) then c else if IsOpaque(x) then scene.solid(x, p) else scene.blend(x, p, c);
      PaintConcat(scene, a[1..], b, p, c');
      assert (a + b)[1..] == a[1..] + b;
    }
  }

  lemma {:induction false} OpaquePassFilter<C>(scene: Scene<C>, list: seq<Instance>, p: Point, px: Pixel<C>)
    requires forall x :: x in list ==> IsOpaque(x)
    ensures OpaquePass(scene, list, p, px) == OpaquePass(scene, Filter(list, Keep(scene, p, true)), p, px)
  {
    if list != [] {
      var x := list[0];
      assert forall y :: y in list[1..] ==> y in list;
      var px' := if scene.covers(x, p) && px.Passes(x.z) then Pixel(scene.solid(x, p), Some(x.z)) else px;
      OpaquePassFilter(scene, list[1..], p, px');
      if scene.covers(x, p) {
        assert ([x] + Filter(list[1..], Keep(scene, p, true)))[1..] == Filter(list[1..], Keep(scene, p, true));
      }
    }
  }

  lemma {:induction false} AlphaPassFilter<C>(scene: Scene<C>, list: seq<Instance>, p: Point, px: Pixel<C>)
    requires forall x :: x in list ==> !IsOpaque(x)
    ensures AlphaPass(scene, list, p, px) == AlphaPass(scene, Filter(list, Keep(scene, p, false)), p, px)
  {
    if list != [] {
      var x := list[0];
      assert forall y :: y in list[1..] ==> y in list;
      var px' := if scene.covers(x, p) && px.Passes(x.z) then px.(color := scene.blend(x, p, px.color)) else px;
      AlphaPassFilter(scene, list[1..], p, px');
      if scene.covers(x, p) {
        assert ([x] + Filter(list[1..], Keep(scene, p, false)))[1..] == Filter(list[1..], Keep(scene, p, false));
      }
    }
  }

  /** Whatever the batch order, the opaque pass leaves the topmost instance. */
  lemma {:induction false} OpaquePassTop<C>(scene: Scene<C>, list: seq<Instance>, p: Point, px: Pixel<C>, m: Instance)
    requires forall x :: x in list ==> scene.covers(x, p) && (x == m || x.z < m.z)
    requires m in list || px == Pixel(scene.solid(m, p), Some(m.z))
    requires px.Passes(m.z)
    ensures OpaquePass(scene, list, p, px) == Pixel(scene.solid(m, p), Some(m.z))
  {
    if list != [] {
      var x := list[0];
      assert x in list;
      assert forall y :: y in list[1..] ==> y in list;
      assert list == [x] + list[1..];
      var px' := if scene.covers(x, p) && px.Passes(x.z) then Pixel(scene.solid(x, p), Some(x.z)) else px;
      OpaquePassTop(scene, list[1..], p, px', m);
    }
  }

  /** Blended instances behind the topmost opaque one fail the depth test. */
  lemma {:induction false} AlphaPassHidden<C>(scene: Scene<C>, a: seq<Instance>, b: seq<Instance>, p: Point,
      px: Pixel<C>)
    requires forall x :: x in a ==> !px.Passes(x.z)
    ensures AlphaPass(scene, a + b, p, px) == AlphaPass(scene, b, p, px)
  {
    if a == [] {
      assert a + b == b;
    } else {
      assert a[0] in a;
      assert forall y :: y in a[1..] ==> y in a;
      assert (a + b)[1..] == a[1..] + b;
      AlphaPassHidden(scene, a[1..], b, p, px);
    }
  }

  /** Where nothing opaque follows and every depth test passes, the alpha pass is painting. */
  lemma {:induction false} PaintNoOpaque<C>(scene: Scene<C>, history: seq<Instance>, p: Point, px: Pixel<C>)
    requires forall x :: x in history && scene.covers(x, p) ==> !IsOpaque(x) && px.Passes(x.z)
    ensures AlphaPass(scene, Filter(history, Keep(scene, p, false)), p, px).color == Paint(scene, history, p, px.color)
  {
    if history != [] {
      var x := history[0];
      assert x in history;
      assert forall y :: y in history[1..] ==> y in history;
      var px' := if scene.covers(x, p) then px.(color := scene.blend(x, p, px.color)) else px;
      PaintNoOpaque(scene, history[1..], p, px');
      if scene.covers(x, p) {
        assert ([x] + Filter(history[1..], Keep(scene, p, false)))[1..] == Filter(history[1..], Keep(scene, p, false));
      }
    }
  }

  /** A reordered list that keeps overlapping instances in order shows the submission order at
      every point. */
  lemma {:induction false} OrderedShowsHistory<C>(scene: Scene<C>, history: seq<Instance>, blended: seq<Instance>,
      p: Point)
    requires Bounded(scene)
    requires forall i :: 0 <= i < |history| ==> history[i].order == i
    requires Ordered(blended)
    requires multiset(blended) == multiset(BlendedOf(history))
    ensures Filter(blended, Keep(scene, p, false)) == Filter(history, Keep(scene, p, false))
  {
    var keep := Keep(scene, p, false);
    FilterPermutation(blended, BlendedOf(history), keep);
    FilterTwice(history, x => !IsOpaque(x), keep);
    AscendingFilter(history, keep);
    assert Ascending(Filter(history, keep));
    OrderedFilter(blended, scene, p);
    AscendingUnique(Filter(blended, keep), Filter(history, keep));
  }

  ghost predicate Ascending(s: seq<Instance>) {
    forall i, j :: 0 <= i < j < |s| ==> s[i].order < s[j].order
  }

  lemma {:induction false} FilterTwice(s: seq<Instance>, f: Instance -> bool, g: Instance -> bool)
    requires forall x :: g(x) ==> f(x)
    ensures Filter(Filter(s, f), g) == Filter(s, g)
  {
    if s != [] {
      FilterTwice(s[1..], f, g);
      if f(s[0]) {
        assert ([s[0]] + Filter(s[1..], f))[1..] == Filter(s[1..], f);
      }
    }
  }

  lemma {:induction false} AscendingFilter(s: seq<Instance>, keep: Instance -> bool)
    requires Ascending(s)
    ensures Ascending(Filter(s, keep))
  {
    if s != [] {
      AscendingFilter(s[1..], keep);
      forall x | x in s[1..] ensures s[0].order < x.order {
        var i :| 0 <= i < |s[1..]| && s[1..][i] == x;
        assert s[1 + i] == x;
      }
    }
  }

  lemma {:induction false} OrderedFilter<C>(s: seq<Instance>, scene: Scene<C>, p: Point)
    requires Bounded(scene) && Ordered(s)
    ensures Ascending(Filter(s, Keep(scene, p, false)))
  {
    if s != [] {
      OrderedFilter(s[1..], scene, p);
      if scene.covers(s[0], p) {
        forall x | x in Filter(s[1..], Keep(scene, p, false)) ensures s[0].order < x.order {
          var i :| 0 <= i < |s[1..]| && s[1..][i] == x;
          assert s[1 + i] == x;
          CommonPointIntersects(s[0].rect, x.rect, p);
        }
      }
    }
  }

  lemma {:induction false} SameLeast(a: seq<Instance>, b: seq<Instance>)
    requires Ascending(a) && Ascending(b) && multiset(a) == multiset(b) && a != []
    ensures b != [] && a[0] == b[0]
  {
    SameMembers(a, b);
    assert a[0] in b;
    assert b != [] && b[0] in a;
    var j :| 0 <= j < |b| && b[j] == a[0];
    var i :| 0 <= i < |a| && a[i] == b[0];
  }

  lemma {:induction false} TailOf(s: seq<Instance>)
    requires s != []
    ensures s == [s[0]] + s[1..] && multiset(s[1..]) == multiset(s) - multiset{s[0]}
    ensures Ascending(s) ==> Ascending(s[1..])
  {
    assert s == [s[0]] + s[1..];
  }

  /** Ascending lists with the same elements are equal. */
  lemma {:induction false} AscendingUnique(a: seq<Instance>, b: seq<Instance>)
    requires Ascending(a) && Ascending(b) && multiset(a) == multiset(b)
    ensures a == b
  {
    if a == [] {
      assert |multiset(b)| == |b|;
    } else {
      SameLeast(a, b);
      TailOf(a);
      TailOf(b);
      AscendingUnique(a[1..], b[1..]);
    }
  }
}
