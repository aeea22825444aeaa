/** Drawing a clip mask from a chain's clips: clearing (RenderTask::new_mask in
    webrender/src/render_task.rs), batching (ClipBatcher in webrender/src/batch.rs) and the two
    drawing passes (draw_alpha_target in webrender/src/renderer.rs), for one mask. */
module ClipMasks {
  import opened ClipChains
  import opened ClipItems
  import opened ClipTiles
  import opened Geometry
  import opened Options

  /** How much of a pixel of the mask a clip lets through, and the multiplicative blending that
      accumulates it. Of `times` only its unit matters, so rounding to eight bits is covered. */
  datatype Coverage = Coverage(of: (nat, Pixel) -> real, times: (real, real) -> real) {

    ghost predicate Valid() {
      forall v: real :: times(v, 1.0) == v && times(1.0, v) == v
    }
  }

  /** The first pass writes, without blending. */
  function DrawOver(ts: seq<ClipMaskInstance>, cov: Coverage, p: Pixel, v: real): real {
    if ts == [] then v
    else
      var t := ts[|ts| - 1];
      if t.sub.Contains(p) then cov.of(t.handle, p) else DrawOver(ts[..|ts| - 1], cov, p, v)
  }

  /** The second pass multiplies. */
  function DrawTimes(ts: seq<ClipMaskInstance>, cov: Coverage, p: Pixel, v: real): real {
    if ts == [] then v
    else
      var t := ts[|ts| - 1];
      var w := DrawTimes(ts[..|ts| - 1], cov, p, v);
      if t.sub.Contains(p) then cov.times(w, cov.of(t.handle, p)) else w
  }

  lemma {:induction false} DrawTimesAppend(a: seq<ClipMaskInstance>, b: seq<ClipMaskInstance>, cov: Coverage, p: Pixel,
      v: real)
    ensures DrawTimes(a + b, cov, p, v) == DrawTimes(b, cov, p, DrawTimes(a, cov, p, v))
  {
    if b == [] {
      assert a + b == a;
    } else {
      assert (a + b)[..|a + b| - 1] == a + b[..|b| - 1];
      DrawTimesAppend(a, b[..|b| - 1], cov, p, v);
    }
  }

  lemma {:induction false} DrawTimesOnce(ts: seq<ClipMaskInstance>, k: nat, cov: Coverage, p: Pixel, v: real)
    requires forall j :: 0 <= j < |ts| && ts[j].sub.Contains(p) ==> j == k
    ensures DrawTimes(ts, cov, p, v) ==
              if k < |ts| && ts[k].sub.Contains(p) then cov.times(v, cov.of(ts[k].handle, p)) else v
  {
    if ts != [] {
      DrawTimesOnce(ts[..|ts| - 1], k, cov, p, v);
    }
  }

  lemma {:induction false} DrawOverOnce(ts: seq<ClipMaskInstance>, k: nat, cov: Coverage, p: Pixel, v: real)
    requires forall j :: 0 <= j < |ts| && ts[j].sub.Contains(p) ==> j == k
    ensures DrawOver(ts, cov, p, v) == if k < |ts| && ts[k].sub.Contains(p) then cov.of(ts[k].handle, p) else v
  {
    if ts != [] {
      DrawOverOnce(ts[..|ts| - 1], k, cov, p, v);
    }
  }

  /** Drawing the tiles is drawing the whole clip, if the clip leaves alone what it wholly covers. */
  lemma {:induction false} TilesDrawWhole(ts: seq<ClipMaskInstance>, handle: nat, clip: Rect, mask: DeviceRect,
      cov: Coverage, p: Pixel, v: real)
    requires mask.HasLocal(p) && Tiled(ts, handle, clip, mask) && DrawnUpTo(ts, clip, mask, 0, mask.h)
    requires cov.Valid() && (Inside(clip, mask, p) ==> cov.of(handle, p) == 1.0)
    ensures DrawTimes(ts, cov, p, v) == cov.times(v, cov.of(handle, p))
    ensures DrawOver(ts, cov, p, 1.0) == cov.of(handle, p)
  {
    var c := cov.of(handle, p);
    var k := TileOfPixel(ts, handle, clip, mask, p);
    DrawTimesOnce(ts, k, cov, p, v);
    DrawOverOnce(ts, k, cov, p, 1.0);
    assert k == |ts| ==> c == 1.0;
  }

  lemma {:induction false} TileOfPixel(ts: seq<ClipMaskInstance>, handle: nat, clip: Rect, mask: DeviceRect, p: Pixel)
    returns (k: nat)
    requires mask.HasLocal(p) && Tiled(ts, handle, clip, mask) && DrawnUpTo(ts, clip, mask, 0, mask.h)
    ensures k <= |ts| && forall j :: 0 <= j < |ts| && ts[j].sub.Contains(p) ==> j == k
    ensures if k < |ts| then ts[k].handle == handle && ts[k].sub.Contains(p) else Inside(clip, mask, p)
  {
    TilesComplete(ts, handle, clip, mask, p);
    k := |ts|;
    if j :| 0 <= j < |ts| && ts[j].sub.Contains(p) {
      k := j;
    }
  }

  predicate KnownClips(s: ClipScene, kept: seq<ClipNodeInstance>) {
    s.Valid() && forall i :: 0 <= i < |kept| ==> kept[i].handle < |s.clips|
  }

  /** An inclusive rectangle of another coordinate system. */
  predicate FarRectangle(s: ClipScene, i: ClipNodeInstance)
    requires i.handle < |s.clips|
  {
    s.clips[i.handle].item.Rectangle? && s.clips[i.handle].item.mode.Clip? && !i.sameCoordSystem
  }

  predicate AnyWantsMask(s: ClipScene, kept: seq<ClipNodeInstance>)
    requires KnownClips(s, kept)
  {
    exists i :: 0 <= i < |kept| && WantsMask(s.clips[kept[i].handle].item, kept[i])
  }

  /** Whether the mask's area is cleared to one before anything is drawn. */
  method NeedsClear(s: ClipScene, kept: seq<ClipNodeInstance>, gpuSupportsFastClears: bool) returns (needsClear: bool)
    requires KnownClips(s, kept)
    ensures needsClear == (gpuSupportsFastClears || exists i :: 0 <= i < |kept| && FarRectangle(s, kept[i]))
  {
    needsClear := gpuSupportsFastClears;
    for i := 0 to |kept|
      invariant needsClear == (gpuSupportsFastClears || exists j :: 0 <= j < i && FarRectangle(s, kept[j]))
    {
      var item := s.clips[kept[i].handle].item;
      if item.Rectangle? && item.mode.Clip? && !kept[i].sameCoordSystem {
        assert FarRectangle(s, kept[i]);
        needsClear := true;
      }
    }
  }

  /** Reference meaning of a mask: every clip that asks for one multiplies its coverage. */
  function Product(s: ClipScene, kept: seq<ClipNodeInstance>, cov: Coverage, p: Pixel): real
    requires KnownClips(s, kept)
  {
    if kept == [] then 1.0
    else
      var last := kept[|kept| - 1];
      var rest := Product(s, kept[..|kept| - 1], cov, p);
      if WantsMask(s.clips[last.handle].item, last) then cov.times(rest, cov.of(last.handle, p)) else rest
  }

  /** The value of a pixel after both passes, from a cleared or an arbitrary old value. */
  function Render(primary: seq<ClipMaskInstance>, secondary: seq<ClipMaskInstance>, needsClear: bool,
                  cov: Coverage, old_: Pixel -> real, p: Pixel): real {
    DrawTimes(secondary, cov, p, DrawOver(primary, cov, p, if needsClear then 1.0 else old_(p)))
  }

  /** What the clips of one mask have come to after a prefix of them. */
  ghost predicate Rendered(primary: seq<ClipMaskInstance>, secondary: seq<ClipMaskInstance>, needsClear: bool,
                           cov: Coverage, old_: Pixel -> real, mask: DeviceRect, s: ClipScene,
                               kept: seq<ClipNodeInstance>) {
    && KnownClips(s, kept)
    && forall p: Pixel :: mask.HasLocal(p) ==>
         Render(primary, secondary, needsClear, cov, old_, p)
           == if needsClear || AnyWantsMask(s, kept) then Product(s, kept, cov, p) else old_(p)
  }

  function WholeMask(mask: DeviceRect): DeviceRect {
    DeviceRect(0, 0, mask.w, mask.h)
  }

  /** `ts` amounts to drawing the clip over the whole mask; it may leave gaps only if the mask has
      been cleared. */
  ghost predicate DrawsWhole(ts: seq<ClipMaskInstance>, handle: nat, cov: Coverage, mask: DeviceRect, cleared: bool) {
    forall p: Pixel, v: real :: mask.HasLocal(p) ==>
      && DrawTimes(ts, cov, p, v) == cov.times(v, cov.of(handle, p))
      && (v == 1.0 || !cleared ==> DrawOver(ts, cov, p, v) == cov.of(handle, p))
  }

  lemma {:induction false} WholeDrawsWhole(handle: nat, cov: Coverage, mask: DeviceRect, cleared: bool)
    ensures DrawsWhole([ClipMaskInstance(handle, WholeMask(mask))], handle, cov, mask, cleared)
  {
  }

  lemma {:induction false} TilesDraw(ts: seq<ClipMaskInstance>, handle: nat, clip: Rect, cov: Coverage,
      mask: DeviceRect)
    requires Tiled(ts, handle, clip, mask) && DrawnUpTo(ts, clip, mask, 0, mask.h)
    requires cov.Valid() && forall p: Pixel :: mask.HasLocal(p) && Inside(clip, mask, p) ==> cov.of(handle, p) == 1.0
    ensures DrawsWhole(ts, handle, cov, mask, true)
  {
    forall p: Pixel, v: real | mask.HasLocal(p)
      ensures DrawTimes(ts, cov, p, v) == cov.times(v, cov.of(handle, p))
      ensures v == 1.0 ==> DrawOver(ts, cov, p, v) == cov.of(handle, p)
    {
      TilesDrawWhole(ts, handle, clip, mask, cov, p, v);
    }
  }

  predicate Wants(s: ClipScene, i: ClipNodeInstance)
    requires i.handle < |s.clips|
  {
    WantsMask(s.clips[i.handle].item, i)
  }

  lemma {:induction false} PrefixStep(s: ClipScene, kept: seq<ClipNodeInstance>, i: nat, cov: Coverage, p: Pixel)
    requires KnownClips(s, kept) && i < |kept|
    ensures KnownClips(s, kept[..i]) && KnownClips(s, kept[..i + 1])
    ensures Product(s, kept[..i + 1], cov, p) ==
              if Wants(s, kept[i]) then cov.times(Product(s, kept[..i], cov, p), cov.of(kept[i].handle, p))
              else Product(s, kept[..i], cov, p)
    ensures AnyWantsMask(s, kept[..i + 1]) <==> AnyWantsMask(s, kept[..i]) || Wants(s, kept[i])
    ensures !AnyWantsMask(s, kept[..i]) ==> Product(s, kept[..i], cov, p) == 1.0
  {
    assert kept[..i + 1][..i] == kept[..i];
    if AnyWantsMask(s, kept[..i]) {
      var j :| 0 <= j < |kept[..i]| && WantsMask(s.clips[kept[..i][j].handle].item, kept[..i][j]);
      assert kept[..i + 1][j] == kept[..i][j];
    }
    if Wants(s, kept[i]) {
      assert kept[..i + 1][i] == kept[i];
    }
    if AnyWantsMask(s, kept[..i + 1]) && !Wants(s, kept[i]) {
      var j :| 0 <= j < |kept[..i + 1]| && WantsMask(s.clips[kept[..i + 1][j].handle].item, kept[..i + 1][j]);
      assert kept[..i][j] == kept[..i + 1][j];
    }
    if !AnyWantsMask(s, kept[..i]) {
      NoneIsOne(s, kept[..i], cov, p);
    }
  }

  lemma {:induction false} NoneIsOne(s: ClipScene, kept: seq<ClipNodeInstance>, cov: Coverage, p: Pixel)
    requires KnownClips(s, kept) && !AnyWantsMask(s, kept)
    ensures Product(s, kept, cov, p) == 1.0
  {
    if kept != [] {
      assert forall i :: 0 <= i < |kept| - 1 ==> kept[..|kept| - 1][i] == kept[i];
      NoneIsOne(s, kept[..|kept| - 1], cov, p);
    }
  }

  /** The first clip of a mask, written without blending. */
  lemma {:induction false} FirstClip(ts: seq<ClipMaskInstance>, needsClear: bool, cov: Coverage, old_: Pixel -> real,
      mask: DeviceRect, s: ClipScene, kept: seq<ClipNodeInstance>, i: nat)
    requires KnownClips(s, kept) && i < |kept| && Wants(s, kept[i]) && !AnyWantsMask(s, kept[..i])
    requires cov.Valid() && DrawsWhole(ts, kept[i].handle, cov, mask, needsClear)
    ensures Rendered(ts, [], needsClear, cov, old_, mask, s, kept[..i + 1])
  {
    forall p: Pixel | mask.HasLocal(p)
      ensures KnownClips(s, kept[..i + 1]) && AnyWantsMask(s, kept[..i + 1])
      ensures Render(ts, [], needsClear, cov, old_, p) == Product(s, kept[..i + 1], cov, p)
    {
      PrefixStep(s, kept, i, cov, p);
      var v := if needsClear then 1.0 else old_(p);
      assert DrawOver(ts, cov, p, v) == cov.of(kept[i].handle, p);
    }
  }

  /** A further clip, multiplied in. */
  lemma {:induction false} NextClip(primary: seq<ClipMaskInstance>, secondary: seq<ClipMaskInstance>,
      ts: seq<ClipMaskInstance>, needsClear: bool,
                 cov: Coverage, old_: Pixel -> real, mask: DeviceRect, s: ClipScene, kept: seq<ClipNodeInstance>,
                     i: nat)
    requires KnownClips(s, kept) && i < |kept| && Wants(s, kept[i])
    requires Rendered(primary, secondary, needsClear, cov, old_, mask, s, kept[..i])
    requires needsClear || AnyWantsMask(s, kept[..i])
    requires DrawsWhole(ts, kept[i].handle, cov, mask, needsClear)
    ensures Rendered(primary, secondary + ts, needsClear, cov, old_, mask, s, kept[..i + 1])
  {
    forall p: Pixel | mask.HasLocal(p)
      ensures KnownClips(s, kept[..i + 1]) && AnyWantsMask(s, kept[..i + 1])
      ensures Render(primary, secondary + ts, needsClear, cov, old_, p) == Product(s, kept[..i + 1], cov, p)
    {
      PrefixStep(s, kept, i, cov, p);
      var under := if needsClear then 1.0 else old_(p);
      NextClipAt(secondary, ts, kept[i].handle, cov, p, DrawOver(primary, cov, p, under), mask, needsClear);
    }
  }

  lemma {:induction false} NextClipAt(secondary: seq<ClipMaskInstance>, ts: seq<ClipMaskInstance>, handle: nat,
      cov: Coverage, p: Pixel, v: real, mask: DeviceRect, cleared: bool)
    requires mask.HasLocal(p) && DrawsWhole(ts, handle, cov, mask, cleared)
    ensures DrawTimes(secondary + ts, cov, p, v) == cov.times(DrawTimes(secondary, cov, p, v), cov.of(handle, p))
  {
    DrawTimesAppend(secondary, ts, cov, p, v);
  }

  /** A clip that the primitive's local rectangle takes care of. */
  lemma {:induction false} SkippedClip(primary: seq<ClipMaskInstance>, secondary: seq<ClipMaskInstance>,
      needsClear: bool, cov: Coverage, old_: Pixel -> real, mask: DeviceRect, s: ClipScene, kept: seq<ClipNodeInstance>,
                        i: nat)
    requires KnownClips(s, kept) && i < |kept| && !Wants(s, kept[i])
    requires Rendered(primary, secondary, needsClear, cov, old_, mask, s, kept[..i])
    ensures Rendered(primary, secondary, needsClear, cov, old_, mask, s, kept[..i + 1])
  {
    PrefixStep(s, kept, i, cov, Pixel(0, 0));
    forall p: Pixel | mask.HasLocal(p)
      ensures Product(s, kept[..i + 1], cov, p) == Product(s, kept[..i], cov, p)
    {
      PrefixStep(s, kept, i, cov, p);
    }
  }

  /** A chain's flag says exactly whether one of its clips wants a mask, so the mask of a chain that
      is flagged never keeps an old value. */
  lemma {:induction false} FlaggedChains(s: ClipScene, prim: nat, complex: nat -> ClipResult, region: Rect,
      infos: seq<ClipNodeInfo>)
    requires Converted(s, prim, infos) && !region.IsEmptyOrNegative()
    ensures var o := Sift(s, prim, complex, region, infos);
            KnownClips(s, o.kept) && o.mask == AnyWantsMask(s, o.kept)
    decreases |infos|
  {
    if infos != [] {
      ConvertCorrect(s, prim, infos[0].handle, Point(0.0, 0.0));
      ConvertedSplit(s, prim, infos);
      FlaggedChains(s, prim, complex, region, infos[1..]);
      FlaggedStep(s, ResultFor(s, complex, infos[0], region), infos[0], Sift(s, prim, complex, region, infos[1..]));
    }
  }

  lemma {:induction false} FlaggedStep(s: ClipScene, result: ClipResult, info: ClipNodeInfo, rest: Sifted)
    requires s.Valid() && info.handle < |s.clips|
    requires KnownClips(s, rest.kept) && rest.mask == AnyWantsMask(s, rest.kept)
    ensures var o := Put(result, s.clips[info.handle].item, info, rest);
            KnownClips(s, o.kept) && o.mask == AnyWantsMask(s, o.kept)
  {
    if result.Partial? {
      var kept := [CreateInstance(info)] + rest.kept;
      assert WantsMask(s.clips[info.handle].item, kept[0]) ==> AnyWantsMask(s, kept);
      if AnyWantsMask(s, rest.kept) {
        var j :| 0 <= j < |rest.kept| && WantsMask(s.clips[rest.kept[j].handle].item, rest.kept[j]);
        assert kept[j + 1] == rest.kept[j];
      }
    }
  }

  /** Where clips lie on the device, as far as it could be worked out. */
  datatype Projection = Projection(world: nat -> Option<Rect>, devicePixelScale: real) {

    function Device(h: nat): Rect
      requires world(h).Some?
    {
      var r := world(h).value;
      Rect(r.x * devicePixelScale, r.y * devicePixelScale, r.w * devicePixelScale, r.h * devicePixelScale)
    }
  }

  /** Device rectangles are world rectangles, scaled. */
  lemma {:induction false} DeviceHolds(proj: Projection, h: nat, p: Point)
    requires proj.world(h).Some? && proj.devicePixelScale > 0.0
    ensures proj.Device(h).Contains(Point(p.x * proj.devicePixelScale, p.y * proj.devicePixelScale)) <==>
            proj.world(h).value.Contains(p)
  {
    var r, s := proj.world(h).value, proj.devicePixelScale;
    ScaledOrder(s, r.x, p.x);
    ScaledOrder(s, p.x, r.x + r.w);
    ScaledOrder(s, r.y, p.y);
    ScaledOrder(s, p.y, r.y + r.h);
    assert (r.x + r.w) * s == r.x * s + r.w * s && (r.y + r.h) * s == r.y * s + r.h * s;
  }

  lemma {:induction false} ScaledOrder(s: real, a: real, b: real)
    requires s > 0.0
    ensures (a * s <= b * s <==> a <= b) && (a * s < b * s <==> a < b)
  {
    if a < b { assert (b - a) * s > 0.0; }
    if b < a { assert (a - b) * s > 0.0; }
  }

  /** A rectangular clip lets through all of a pixel that lies wholly inside it. */
  ghost predicate Honest(s: ClipScene, kept: seq<ClipNodeInstance>, proj: Projection, mask: DeviceRect, cov: Coverage)
    requires KnownClips(s, kept)
  {
    forall i, p: Pixel ::
      0 <= i < |kept| && FarRectangle(s, kept[i]) && proj.world(kept[i].handle).Some? && mask.HasLocal(p) ==>
        Inside(proj.Device(kept[i].handle), mask, p) ==> cov.of(kept[i].handle, p) == 1.0
  }

  class ClipBatcher {
    const gpuSupportsFastClears: bool
    var primaryClips: seq<ClipMaskInstance>
    var secondaryClips: seq<ClipMaskInstance>

    constructor (gpuSupportsFastClears: bool)
      ensures this.gpuSupportsFastClears == gpuSupportsFastClears && primaryClips == [] && secondaryClips == []
    {
      this.gpuSupportsFastClears := gpuSupportsFastClears;
      primaryClips, secondaryClips := [], [];
    }

    predicate ToPrimary(isFirstClip: bool) {
      isFirstClip && !gpuSupportsFastClears
    }

    /** Appends to the batch list that fits. */
    method Append(isFirstClip: bool, ts: seq<ClipMaskInstance>)
      modifies this
      ensures primaryClips == old(primaryClips) + if ToPrimary(isFirstClip) then ts else []
      ensures secondaryClips == old(secondaryClips) + if ToPrimary(isFirstClip) then [] else ts
    {
      if isFirstClip && !gpuSupportsFastClears {
        primaryClips := primaryClips + ts;
      } else {
        secondaryClips := secondaryClips + ts;
      }
    }

    /** Draws a clip rectangle as tiles, if it is big enough and aligned to the root coordinate
        system, and its place on the device is known; otherwise nothing happens. */
    method AddTiledClipMask(s: ClipScene, h: nat, proj: Projection, mask: DeviceRect, isFirstClip: bool)
      returns (added: bool, ghost ts: seq<ClipMaskInstance>)
      requires s.Valid() && h < |s.clips|
      modifies this
      ensures added == (mask.w * mask.h >= 65536
                        && s.nodes[s.clips[h].spatialNode].coordinateSystem == 0 && proj.world(h).Some?)
      ensures primaryClips == old(primaryClips) + if added && ToPrimary(isFirstClip) then ts else []
      ensures secondaryClips == old(secondaryClips) + if added && !ToPrimary(isFirstClip) then ts else []
      ensures added ==> Tiled(ts, h, proj.Device(h), mask) && DrawnUpTo(ts, proj.Device(h), mask, 0, mask.h)
    {
      ts := [];
      if mask.w * mask.h < CLIP_RECTANGLE_AREA_THRESHOLD {
        return false, ts;
      }
      if s.nodes[s.clips[h].spatialNode].coordinateSystem != 0 {
        return false, ts;
      }
      if proj.world(h).None? {
        return false, ts;
      }
      var tiles := PushTiles(h, proj.Device(h), mask);
      Append(isFirstClip, tiles);
      return true, tiles;
    }

    /** One clip of a mask; tells whether anything was drawn for it. */
    method AddClip(s: ClipScene, i: ClipNodeInstance, proj: Projection, mask: DeviceRect, isFirstClip: bool,
                   ghost cov: Coverage)
      returns (added: bool, ghost ts: seq<ClipMaskInstance>)
      requires s.Valid() && i.handle < |s.clips| && cov.Valid()
      requires FarRectangle(s, i) && proj.world(i.handle).Some? ==>
                 forall p: Pixel :: mask.HasLocal(p) && Inside(proj.Device(i.handle), mask, p) ==>
                     cov.of(i.handle, p) == 1.0
      modifies this
      ensures added == Wants(s, i)
      ensures added ==> DrawsWhole(ts, i.handle, cov, mask, FarRectangle(s, i))
      ensures primaryClips == old(primaryClips) + if added && ToPrimary(isFirstClip) then ts else []
      ensures secondaryClips == old(secondaryClips) + if added && !ToPrimary(isFirstClip) then ts else []
    {
      var item := s.clips[i.handle].item;
      ts := [];
      if item.Rectangle? && item.mode.Clip? {
        if i.sameCoordSystem {
          return false, ts;
        }
        var tiled, tiles := AddTiledClipMask(s, i.handle, proj, mask, isFirstClip);
        if tiled {
          TilesDraw(tiles, i.handle, proj.Device(i.handle), cov, mask);
          return true, tiles;
        }
      }
      var whole := [ClipMaskInstance(i.handle, WholeMask(mask))];
      WholeDrawsWhole(i.handle, cov, mask, FarRectangle(s, i));
      Append(isFirstClip, whole);
      return true, whole;
    }

    /** All clips of a mask. Whatever the order of clips, and however they are split over the two
        passes and into tiles, the mask becomes the product of the coverages of the clips that want
        one; only if there is no such clip and no clear does the old value stay. */
    method Add(s: ClipScene, kept: seq<ClipNodeInstance>, proj: Projection, mask: DeviceRect,
               ghost needsClear: bool, ghost cov: Coverage, ghost old_: Pixel -> real)
      requires KnownClips(s, kept) && cov.Valid() && Honest(s, kept, proj, mask, cov)
      requires needsClear == (gpuSupportsFastClears || exists i :: 0 <= i < |kept| && FarRectangle(s, kept[i]))
      modifies this
      ensures old(primaryClips) <= primaryClips && old(secondaryClips) <= secondaryClips
      ensures Rendered(primaryClips[|old(primaryClips)|..], secondaryClips[|old(secondaryClips)|..],
                       needsClear, cov, old_, mask, s, kept)
    {
      var isFirstClip := true;
      ghost var primary: seq<ClipMaskInstance>, secondary: seq<ClipMaskInstance> := [], [];
      for i := 0 to |kept|
        invariant primaryClips == old(primaryClips) + primary && secondaryClips == old(secondaryClips) + secondary
        invariant Rendered(primary, secondary, needsClear, cov, old_, mask, s, kept[..i])
        invariant isFirstClip == !AnyWantsMask(s, kept[..i])
        invariant isFirstClip ==> primary == [] && secondary == []
      {
        PrefixStep(s, kept, i, cov, Pixel(0, 0));
        var added, ts := AddClip(s, kept[i], proj, mask, isFirstClip, cov);
        if !added {
          SkippedClip(primary, secondary, needsClear, cov, old_, mask, s, kept, i);
        } else if ToPrimary(isFirstClip) {
          FirstClip(ts, needsClear, cov, old_, mask, s, kept, i);
          primary := primary + ts;
          assert primary == ts;
        } else {
          NextClip(primary, secondary, ts, needsClear, cov, old_, mask, s, kept, i);
          secondary := secondary + ts;
        }
        isFirstClip := isFirstClip && !added;
      }
      assert kept[..|kept|] == kept;
      assert primaryClips[|old(primaryClips)|..] == primary && secondaryClips[|old(secondaryClips)|..] == secondary;
    }
  }
}
