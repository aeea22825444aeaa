/** Batches that are drawn in three passes over all their instances (text on an opaque background,
    webrender/src/renderer.rs and webrender/doc/text-rendering.md), against drawing each instance
    with its three passes in turn. */
module Multipass {
  import opened Geometry
  import opened Options
  import opened Sequences
  import opened BatchKeys
  import opened AlphaBatching
  import opened Painter

  predicate IsMultipass(x: Instance) {
    x.key.blendMode.SubpixelWithBgColor?
  }

  /** How the renderer touches the screen: `single` is the blend of an ordinary instance, `pass` one
      of the three passes of a multipass one. */
  datatype Drawing<!C> = Drawing(
    covers: (Instance, Point) -> bool,
    solid: (Instance, Point) -> C,
    single: (Instance, Point, C) -> C,
    pass: (Instance, Point, nat, C) -> C)

  /** Each instance with all its passes in turn. */
  function InTurn<C>(d: Drawing<C>): Scene<C> {
    Scene(d.covers, d.solid, (x: Instance, p: Point, c: C) => Blended(d, x, p, c))
  }

  function Blended<C>(d: Drawing<C>, x: Instance, p: Point, c: C): C {
    if IsMultipass(x) then d.pass(x, p, 2, d.pass(x, p, 1, d.pass(x, p, 0, c))) else d.single(x, p, c)
  }

  /** One pass over all instances. */
  function DrawPass<C>(d: Drawing<C>, k: nat, list: seq<Instance>, p: Point, px: Pixel<C>): Pixel<C> {
    if list == [] then px
    else
      var x := list[0];
      var px' := if d.covers(x, p) && px.Passes(x.z) then px.(color := d.pass(x, p, k, px.color)) else px;
      DrawPass(d, k, list[1..], p, px')
  }

  function DrawSingle<C>(d: Drawing<C>, list: seq<Instance>, p: Point, px: Pixel<C>): Pixel<C> {
    if list == [] then px
    else
      var x := list[0];
      var px' := if d.covers(x, p) && px.Passes(x.z) then px.(color := d.single(x, p, px.color)) else px;
      DrawSingle(d, list[1..], p, px')
  }

  /** A batch is drawn by its own blend mode. */
  function DrawBatch<C>(d: Drawing<C>, b: PrimitiveBatch, p: Point, px: Pixel<C>): Pixel<C> {
    if b.key.blendMode.SubpixelWithBgColor? then
      DrawPass(d, 2, b.instances, p, DrawPass(d, 1, b.instances, p, DrawPass(d, 0, b.instances, p, px)))
    else DrawSingle(d, b.instances, p, px)
  }

  function DrawBatches<C>(d: Drawing<C>, batches: seq<PrimitiveBatch>, p: Point, px: Pixel<C>): Pixel<C> {
    if batches == [] then px else DrawBatches(d, batches[1..], p, DrawBatch(d, batches[0], p, px))
  }

  /** The opaque pass, then the blended batches as the renderer draws them. */
  function RenderBatches<C>(d: Drawing<C>, solids: seq<Instance>, batches: seq<PrimitiveBatch>, p: Point, c: C): C {
    DrawBatches(d, batches, p, OpaquePass(InTurn(d), solids, p, Pixel(c, Option.None))).color
  }

  /** The instance shows at the point, through the depth that the opaque pass left. */
  function Seen<C>(d: Drawing<C>, p: Point, depth: Option<int>): (f: Instance -> bool) {
    x => d.covers(x, p) && (depth.None? || depth.value <= x.z)
  }

  /** How many instances of a batch show. */
  function Count<C>(d: Drawing<C>, b: PrimitiveBatch, p: Point, depth: Option<int>): nat {
    |Filter(b.instances, Seen(d, p, depth))|
  }

  /** No two instances of a multipass batch show. */
  predicate Once<C>(d: Drawing<C>, b: PrimitiveBatch, p: Point, depth: Option<int>) {
    b.key.blendMode.SubpixelWithBgColor? ==> Count(d, b, p, depth) <= 1
  }

  ghost predicate AllOnce<C>(d: Drawing<C>, batches: seq<PrimitiveBatch>, p: Point, depth: Option<int>) {
    forall b :: 0 <= b < |batches| ==> Once(d, batches[b], p, depth)
  }

  /* ---------------- pass by pass is in turn ---------------- */

  lemma {:induction false} DrawPassFilter<C>(d: Drawing<C>, k: nat, list: seq<Instance>, p: Point, px: Pixel<C>)
    ensures DrawPass(d, k, list, p, px) == DrawPass(d, k, Filter(list, Seen(d, p, px.depth)), p, px)
    ensures DrawPass(d, k, list, p, px).depth == px.depth
  {
    if list != [] {
      var x, seen := list[0], Seen(d, p, px.depth);
      assert seen(x) == (d.covers(x, p) && px.Passes(x.z));
      var px' := if seen(x) then px.(color := d.pass(x, p, k, px.color)) else px;
      DrawPassFilter(d, k, list[1..], p, px');
      if seen(x) {
        assert ([x] + Filter(list[1..], seen))[1..] == Filter(list[1..], seen);
      }
    }
  }

  lemma {:induction false} InTurnFilter<C>(d: Drawing<C>, list: seq<Instance>, p: Point, px: Pixel<C>)
    ensures Painter.AlphaPass(InTurn(d), list, p, px)
         == Painter.AlphaPass(InTurn(d), Filter(list, Seen(d, p, px.depth)), p, px)
    ensures Painter.AlphaPass(InTurn(d), list, p, px).depth == px.depth
  {
    if list != [] {
      var x, seen := list[0], Seen(d, p, px.depth);
      assert seen(x) == (d.covers(x, p) && px.Passes(x.z));
      var px' := if seen(x) then px.(color := InTurn(d).blend(x, p, px.color)) else px;
      InTurnFilter(d, list[1..], p, px');
      if seen(x) {
        assert ([x] + Filter(list[1..], seen))[1..] == Filter(list[1..], seen);
      }
    }
  }

  lemma {:induction false} SingleInTurn<C>(d: Drawing<C>, list: seq<Instance>, p: Point, px: Pixel<C>)
    requires forall x :: x in list ==> !IsMultipass(x)
    ensures DrawSingle(d, list, p, px) == Painter.AlphaPass(InTurn(d), list, p, px)
  {
    if list != [] {
      var x := list[0];
      assert x in list;
      assert forall y :: y in list[1..] ==> y in list;
      var px' := if d.covers(x, p) && px.Passes(x.z) then px.(color := d.single(x, p, px.color)) else px;
      SingleInTurn(d, list[1..], p, px');
    }
  }

  /** Three passes over at most one instance. */
  lemma {:induction false} OneInTurn<C>(d: Drawing<C>, list: seq<Instance>, p: Point, px: Pixel<C>)
    requires |list| <= 1 && forall x :: x in list ==> IsMultipass(x)
    ensures DrawPass(d, 2, list, p, DrawPass(d, 1, list, p, DrawPass(d, 0, list, p, px)))
         == Painter.AlphaPass(InTurn(d), list, p, px)
  {
    if list != [] {
      var x := list[0];
      assert x in list && list[1..] == [];
      forall k: nat, q: Pixel<C>
        ensures DrawPass(d, k, list, p, q)
             == if d.covers(x, p) && q.Passes(x.z) then q.(color := d.pass(x, p, k, q.color)) else q
      {
        DrawPassOne(d, k, list, p, q);
      }
    }
  }

  lemma {:induction false} DrawPassOne<C>(d: Drawing<C>, k: nat, list: seq<Instance>, p: Point, q: Pixel<C>)
    requires |list| == 1
    ensures DrawPass(d, k, list, p, q)
         == if d.covers(list[0], p) && q.Passes(list[0].z) then q.(color := d.pass(list[0], p, k, q.color)) else q
  {
    assert list[1..] == [];
  }

  /** Drawing a batch pass by pass is drawing its instances in turn, at a point where at most one of
      them shows. */
  lemma {:induction false} BatchInTurn<C>(d: Drawing<C>, b: PrimitiveBatch, p: Point, px: Pixel<C>)
    requires b.SuitsBlend() && Once(d, b, p, px.depth)
    ensures DrawBatch(d, b, p, px) == Painter.AlphaPass(InTurn(d), b.instances, p, px)
  {
    if b.key.blendMode.SubpixelWithBgColor? {
      var f := Filter(b.instances, Seen(d, p, px.depth));
      var px0 := DrawPass(d, 0, b.instances, p, px);
      var px1 := DrawPass(d, 1, b.instances, p, px0);
      DrawPassFilter(d, 0, b.instances, p, px);
      DrawPassFilter(d, 1, b.instances, p, px0);
      DrawPassFilter(d, 2, b.instances, p, px1);
      InTurnFilter(d, b.instances, p, px);
      OneInTurn(d, f, p, px);
    } else {
      SingleInTurn(d, b.instances, p, px);
    }
  }

  lemma {:induction false} AlphaPassConcat<C>(scene: Scene<C>, a: seq<Instance>, b: seq<Instance>, p: Point,
      px: Pixel<C>)
    ensures Painter.AlphaPass(scene, a + b, p, px) == Painter.AlphaPass(scene, b, p, Painter.AlphaPass(scene, a, p, px))
  {
    if a == [] {
      assert a + b == b;
    } else {
      var x := a[0];
      var px' := if scene.covers(x, p) && px.Passes(x.z) then px.(color := scene.blend(x, p, px.color)) else px;
      AlphaPassConcat(scene, a[1..], b, p, px');
      assert (a + b)[1..] == a[1..] + b;
    }
  }

  lemma {:induction false} BatchesInTurn<C>(d: Drawing<C>, batches: seq<PrimitiveBatch>, p: Point, px: Pixel<C>)
    requires AllSuitBlend(batches) && AllOnce(d, batches, p, px.depth)
    ensures DrawBatches(d, batches, p, px) == Painter.AlphaPass(InTurn(d), Flatten(InstanceLists(batches)), p, px)
  {
    if batches != [] {
      BatchInTurn(d, batches[0], p, px);
      InTurnFilter(d, batches[0].instances, p, px);
      BatchesInTurn(d, batches[1..], p, DrawBatch(d, batches[0], p, px));
      FirstBatch(d, batches, p, px);
    }
  }

  lemma {:induction false} FirstBatch<C>(d: Drawing<C>, batches: seq<PrimitiveBatch>, p: Point, px: Pixel<C>)
    requires batches != []
    ensures Painter.AlphaPass(InTurn(d), Flatten(InstanceLists(batches)), p, px)
         == Painter.AlphaPass(InTurn(d), Flatten(InstanceLists(batches[1..])), p,
                              Painter.AlphaPass(InTurn(d), batches[0].instances, p, px))
  {
    assert InstanceLists(batches)[1..] == InstanceLists(batches[1..]);
    AlphaPassConcat(InTurn(d), batches[0].instances, Flatten(InstanceLists(batches[1..])), p, px);
  }

  /* ---------------- and exactly when ---------------- */

  /** What a drawing did, oldest first: instance and pass. */
  type Trace = seq<(Instance, nat)>

  /** A drawing that writes down what it does. */
  function Record(covers: (Instance, Point) -> bool): Drawing<Trace> {
    Drawing(covers, (x: Instance, p: Point) => [],
            (x: Instance, p: Point, c: Trace) => c + [(x, 3)],
            (x: Instance, p: Point, k: nat, c: Trace) => c + [(x, k)])
  }

  /** A pass over instances that all show writes them down in their order. */
  lemma {:induction false} PassRecords(d: Drawing<Trace>, k: nat, list: seq<Instance>, p: Point, px: Pixel<Trace>)
    requires d == Record(d.covers) && forall x :: x in list ==> Seen(d, p, px.depth)(x)
    ensures var r := DrawPass(d, k, list, p, px);
            px.color <= r.color && |r.color| == |px.color| + |list|
            && forall i :: 0 <= i < |list| ==> r.color[|px.color| + i] == (list[i], k)
  {
    if list != [] {
      var x := list[0];
      assert x in list && Seen(d, p, px.depth)(x);
      assert forall y :: y in list[1..] ==> y in list;
      PassRecords(d, k, list[1..], p, px.(color := px.color + [(x, k)]));
      var r := DrawPass(d, k, list, p, px);
      forall i | 0 <= i < |list| ensures r.color[|px.color| + i] == (list[i], k) {
        if i > 0 {
          assert list[i] == list[1..][i - 1];
        }
      }
    }
  }

  /** Whatever is drawn, what was written down stays. */
  lemma {:induction false} PassAppends(d: Drawing<Trace>, k: nat, list: seq<Instance>, p: Point, px: Pixel<Trace>)
    requires d == Record(d.covers)
    ensures px.color <= DrawPass(d, k, list, p, px).color
  {
    if list != [] {
      var x := list[0];
      var px' := if d.covers(x, p) && px.Passes(x.z) then px.(color := d.pass(x, p, k, px.color)) else px;
      PassAppends(d, k, list[1..], p, px');
    }
  }

  lemma {:induction false} SingleAppends(d: Drawing<Trace>, list: seq<Instance>, p: Point, px: Pixel<Trace>)
    requires d == Record(d.covers)
    ensures px.color <= DrawSingle(d, list, p, px).color
  {
    if list != [] {
      var x := list[0];
      var px' := if d.covers(x, p) && px.Passes(x.z) then px.(color := d.single(x, p, px.color)) else px;
      SingleAppends(d, list[1..], p, px');
    }
  }

  lemma {:induction false} BatchAppends(d: Drawing<Trace>, b: PrimitiveBatch, p: Point, px: Pixel<Trace>)
    requires d == Record(d.covers)
    ensures px.color <= DrawBatch(d, b, p, px).color
  {
    var px0 := DrawPass(d, 0, b.instances, p, px);
    var px1 := DrawPass(d, 1, b.instances, p, px0);
    PassAppends(d, 0, b.instances, p, px);
    PassAppends(d, 1, b.instances, p, px0);
    PassAppends(d, 2, b.instances, p, px1);
    SingleAppends(d, b.instances, p, px);
  }

  lemma {:induction false} BatchesAppend(d: Drawing<Trace>, batches: seq<PrimitiveBatch>, p: Point, px: Pixel<Trace>)
    requires d == Record(d.covers)
    ensures px.color <= DrawBatches(d, batches, p, px).color
  {
    if batches != [] {
      BatchAppends(d, batches[0], p, px);
      BatchesAppend(d, batches[1..], p, DrawBatch(d, batches[0], p, px));
    }
  }

  lemma {:induction false} TurnAppends(d: Drawing<Trace>, x: Instance, p: Point, c: Trace)
    requires d == Record(d.covers)
    ensures c <= InTurn(d).blend(x, p, c)
    ensures IsMultipass(x) ==> InTurn(d).blend(x, p, c) == c + [(x, 0), (x, 1), (x, 2)]
  {
    assert c + [(x, 0)] + [(x, 1)] + [(x, 2)] == c + [(x, 0), (x, 1), (x, 2)];
  }

  lemma {:induction false} TurnsAppend(d: Drawing<Trace>, list: seq<Instance>, p: Point, px: Pixel<Trace>)
    requires d == Record(d.covers)
    ensures px.color <= Painter.AlphaPass(InTurn(d), list, p, px).color
  {
    if list != [] {
      var x := list[0];
      var px' := if d.covers(x, p) && px.Passes(x.z) then px.(color := InTurn(d).blend(x, p, px.color)) else px;
      TurnAppends(d, x, p, px.color);
      TurnsAppend(d, list[1..], p, px');
    }
  }

  /** In turn, the first instance has all its passes before anything else. */
  lemma {:induction false} TurnsRecord(d: Drawing<Trace>, list: seq<Instance>, p: Point, px: Pixel<Trace>)
    requires d == Record(d.covers) && list != [] && IsMultipass(list[0]) && Seen(d, p, px.depth)(list[0])
    ensures px.color + [(list[0], 0), (list[0], 1), (list[0], 2)] <= Painter.AlphaPass(InTurn(d), list, p, px).color
  {
    TurnAppends(d, list[0], p, px.color);
    TurnsAppend(d, list[1..], p, px.(color := InTurn(d).blend(list[0], p, px.color)));
  }

  /** The second entry that a multipass batch adds tells pass by pass from in turn. */
  lemma {:induction false} TwiceTells(d: Drawing<Trace>, b: PrimitiveBatch, p: Point, px: Pixel<Trace>)
    requires d == Record(d.covers) && b.SuitsBlend() && !Once(d, b, p, px.depth)
    ensures var r, t := DrawBatch(d, b, p, px).color, Painter.AlphaPass(InTurn(d), b.instances, p, px).color;
            var n := |px.color| + 1;
            n < |r| && n < |t| && r[n].1 == 0 && t[n].1 == 1
  {
    var f := Filter(b.instances, Seen(d, p, px.depth));
    var px0 := DrawPass(d, 0, b.instances, p, px);
    var px1 := DrawPass(d, 1, b.instances, p, px0);
    DrawPassFilter(d, 0, b.instances, p, px);
    PassRecords(d, 0, f, p, px);
    assert px0.color[|px.color| + 1] == (f[1], 0);
    PassAppends(d, 1, b.instances, p, px0);
    PassAppends(d, 2, b.instances, p, px1);
    InTurnFilter(d, b.instances, p, px);
    assert f[0] in f;
    TurnsRecord(d, f, p, px);
  }

  /** Exactly when the renderer's way to draw a list of batches is drawing every instance in turn: for
      the drawing that writes everything down exactly if no two instances of a multipass batch show,
      and then for every drawing. */
  lemma {:induction false} BatchesAgreeIff<C>(d: Drawing<C>, batches: seq<PrimitiveBatch>, p: Point, px: Pixel<C>,
      tx: Pixel<Trace>)
    requires AllSuitBlend(batches) && tx.depth == px.depth
    ensures AgreeOn(Record(d.covers), batches, p, tx) <==> AllOnce(d, batches, p, px.depth)
    ensures AllOnce(d, batches, p, px.depth) ==> AgreeOn(d, batches, p, px)
  {
    var r := Record(d.covers);
    SameOnce(d, r, batches, p, px.depth);
    if AllOnce(d, batches, p, px.depth) {
      BatchesInTurn(d, batches, p, px);
      BatchesInTurn(r, batches, p, tx);
    } else {
      TwiceDiffers(r, batches, p, tx);
    }
  }

  ghost predicate AgreeOn<C>(d: Drawing<C>, batches: seq<PrimitiveBatch>, p: Point, px: Pixel<C>) {
    DrawBatches(d, batches, p, px).color == Painter.AlphaPass(InTurn(d), Flatten(InstanceLists(batches)), p, px).color
  }

  lemma {:induction false} SameSeen<C, E>(d: Drawing<C>, e: Drawing<E>, list: seq<Instance>, p: Point,
      depth: Option<int>)
    requires d.covers == e.covers
    ensures Filter(list, Seen(d, p, depth)) == Filter(list, Seen(e, p, depth))
  {
    FilterSame(list, Seen(d, p, depth), Seen(e, p, depth));
  }

  lemma {:induction false} SameOnce<C, E>(d: Drawing<C>, e: Drawing<E>, batches: seq<PrimitiveBatch>, p: Point,
      depth: Option<int>)
    requires d.covers == e.covers
    ensures AllOnce(d, batches, p, depth) <==> AllOnce(e, batches, p, depth)
  {
    forall b | 0 <= b < |batches| ensures Once(d, batches[b], p, depth) == Once(e, batches[b], p, depth) {
      SameSeen(d, e, batches[b].instances, p, depth);
    }
  }

  lemma {:induction false} TwiceDiffers(d: Drawing<Trace>, batches: seq<PrimitiveBatch>, p: Point, px: Pixel<Trace>)
    requires d == Record(d.covers) && AllSuitBlend(batches) && !AllOnce(d, batches, p, px.depth)
    ensures !AgreeOn(d, batches, p, px)
  {
    var b, rest := batches[0], batches[1..];
    var drawn, turned := DrawBatch(d, b, p, px), Painter.AlphaPass(InTurn(d), b.instances, p, px);
    FirstBatch(d, batches, p, px);
    if Once(d, b, p, px.depth) {
      BatchInTurn(d, b, p, px);
      InTurnFilter(d, b.instances, p, px);
      assert !AllOnce(d, rest, p, px.depth) by {
        var i :| 0 <= i < |batches| && !Once(d, batches[i], p, px.depth);
        assert rest[i - 1] == batches[i];
      }
      TwiceDiffers(d, rest, p, drawn);
    } else {
      TwiceTells(d, b, p, px);
      BatchesAppend(d, rest, p, drawn);
      TurnsAppend(d, Flatten(InstanceLists(rest)), p, turned);
    }
  }

  /** One batch. */
  lemma {:induction false} PassesAgreeIff<C>(d: Drawing<C>, b: PrimitiveBatch, p: Point, px: Pixel<C>, tx: Pixel<Trace>)
    requires b.SuitsBlend() && tx.depth == px.depth
    ensures var r := Record(d.covers);
            DrawBatch(r, b, p, tx) == Painter.AlphaPass(InTurn(r), b.instances, p, tx) <==> Once(d, b, p, px.depth)
    ensures Once(d, b, p, px.depth) ==> DrawBatch(d, b, p, px) == Painter.AlphaPass(InTurn(d), b.instances, p, px)
  {
    var r := Record(d.covers);
    SameSeen(d, r, b.instances, p, px.depth);
    if Once(d, b, p, px.depth) {
      BatchInTurn(d, b, p, px);
      BatchInTurn(r, b, p, tx);
    } else {
      TwiceTells(r, b, p, tx);
    }
  }

  /* ---------------- what the look-back is for ---------------- */

  /** In a batch that the look-back filled, the instances that cover a point share one z id. */
  lemma {:induction false} OneZ<C>(d: Drawing<C>, b: PrimitiveBatch, p: Point, x: Instance, y: Instance)
    requires Bounded(InTurn(d)) && PassSafe(b) && b.key.blendMode.SubpixelWithBgColor?
    requires x in b.instances && y in b.instances && d.covers(x, p) && d.covers(y, p)
    ensures x.z == y.z && x.rect == y.rect
  {
    assert InTurn(d).covers(x, p) && InTurn(d).covers(y, p);
    CommonPointIntersects(x.rect, y.rect, p);
  }

  predicate TextAt<C>(d: Drawing<C>, x: Instance, p: Point) {
    IsMultipass(x) && d.covers(x, p)
  }

  /** The point is covered at most once by the multipass instances of each z id. */
  ghost predicate OncePerZ<C>(d: Drawing<C>, history: seq<Instance>, p: Point) {
    forall x, y :: x in history && y in history && TextAt(d, x, p) && TextAt(d, y, p) && x.z == y.z ==> x == y
  }

  lemma {:induction false} OrderedPart(a: seq<Instance>, b: seq<Instance>, c: seq<Instance>)
    requires Ordered(a + b + c)
    ensures Ordered(b)
  {
    var s := a + b + c;
    forall i, j | 0 <= i < j < |b| && b[i].rect.Intersects(b[j].rect) ensures b[i].order < b[j].order {
      assert s[|a| + i] == b[i] && s[|a| + j] == b[j];
    }
  }

  /** What shows of instances in order is in ascending order. */
  lemma {:induction false} SeenAscends<C>(d: Drawing<C>, s: seq<Instance>, p: Point, depth: Option<int>)
    requires Bounded(InTurn(d)) && Ordered(s) && forall x :: x in s ==> !IsOpaque(x)
    ensures Ascending(Filter(s, Seen(d, p, depth)))
  {
    var keep, seen := Keep(InTurn(d), p, false), Seen(d, p, depth);
    OrderedFilter(s, InTurn(d), p);
    AscendingFilter(Filter(s, keep), seen);
    SeenAreKept(d, s, p, depth);
  }

  lemma {:induction false} SeenAreKept<C>(d: Drawing<C>, s: seq<Instance>, p: Point, depth: Option<int>)
    requires forall x :: x in s ==> !IsOpaque(x)
    ensures Filter(Filter(s, Keep(InTurn(d), p, false)), Seen(d, p, depth)) == Filter(s, Seen(d, p, depth))
  {
    var keep, seen := Keep(InTurn(d), p, false), Seen(d, p, depth);
    if s != [] {
      assert s[0] in s;
      assert forall x :: x in s[1..] ==> x in s;
      SeenAreKept(d, s[1..], p, depth);
      if keep(s[0]) {
        assert ([s[0]] + Filter(s[1..], keep))[1..] == Filter(s[1..], keep);
      }
    }
  }

  /** So one batch of a list in order is drawn safely. */
  lemma {:induction false} SafeIsOnce<C>(d: Drawing<C>, b: PrimitiveBatch, p: Point, depth: Option<int>)
    requires Bounded(InTurn(d)) && b.SuitsBlend() && PassSafe(b) && Ordered(b.instances)
    requires OncePerZ(d, b.instances, p)
    ensures Once(d, b, p, depth)
  {
    var f := Filter(b.instances, Seen(d, p, depth));
    if b.key.blendMode.SubpixelWithBgColor? && |f| > 1 {
      SeenAscends(d, b.instances, p, depth);
      assert f[0] in f && f[1] in f;
      OneZ(d, b, p, f[0], f[1]);
      assert false;
    }
  }

  lemma {:induction false} SafeAreOnce<C>(d: Drawing<C>, batches: seq<PrimitiveBatch>, p: Point, depth: Option<int>)
    requires Bounded(InTurn(d)) && AllSuitBlend(batches) && AllPassSafe(batches)
    requires Ordered(Flatten(InstanceLists(batches))) && OncePerZ(d, Flatten(InstanceLists(batches)), p)
    ensures AllOnce(d, batches, p, depth)
  {
    var lists := InstanceLists(batches);
    forall b | 0 <= b < |batches| ensures Once(d, batches[b], p, depth) {
      FlattenAround(lists, b);
      OrderedPart(Flatten(lists[..b]), lists[b], Flatten(lists[b + 1..]));
      assert forall x :: x in batches[b].instances ==> x in Flatten(lists);
      SafeIsOnce(d, batches[b], p, depth);
    }
  }
}
