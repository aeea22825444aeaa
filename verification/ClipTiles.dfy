/** Splitting a large rectangular clip mask into tiles (add_tiled_clip_mask in
    webrender/src/batch.rs). Sub-rectangles are relative to the mask. */
module ClipTiles {
  import opened Geometry
  import opened Integers

  const CLIP_RECTANGLE_TILE_SIZE: int := 128
  const CLIP_RECTANGLE_AREA_THRESHOLD: int := 128 * 128 * 4

  datatype Pixel = Pixel(x: int, y: int)

  datatype DeviceRect = DeviceRect(x: int, y: int, w: int, h: int) {

    predicate Contains(p: Pixel) {
      x <= p.x < x + w && y <= p.y < y + h
    }

    function ToReal(): Rect {
      Rect(x as real, y as real, w as real, h as real)
    }

    /** The pixels of the mask, counted from its own corner. */
    predicate HasLocal(p: Pixel) {
      0 <= p.x < w && 0 <= p.y < h
    }
  }

  /** Division of i32, which rounds towards zero. */
  function TruncDiv(a: int, b: int): (r: int)
    requires b > 0
    ensures if a >= 0 then 0 <= a - b * r < b else -b < a - b * r <= 0
  {
    if a >= 0 then a / b else -((-a) / b)
  }

  /** The tile with its corner at `x`, `y`. */
  function Tile(mask: DeviceRect, x: int, y: int): DeviceRect {
    DeviceRect(x, y, Min(x + 128, mask.w) - x, Min(y + 128, mask.h) - y)
  }

  predicate IsTile(mask: DeviceRect, r: DeviceRect) {
    r.x % 128 == 0 && r.y % 128 == 0 && 0 <= r.x < mask.w && 0 <= r.y < mask.h && r == Tile(mask, r.x, r.y)
  }

  /** The tiles partition the mask, whatever its size: every pixel lies in exactly one, and no tile
      sticks out, is empty or exceeds 128 pixels a side. */
  lemma {:induction false} TilesPartition(mask: DeviceRect, p: Pixel) returns (tile: DeviceRect)
    requires mask.HasLocal(p)
    ensures IsTile(mask, tile) && tile.Contains(p)
    ensures forall q: Pixel :: tile.Contains(q) ==> mask.HasLocal(q)
    ensures 0 < tile.w <= 128 && 0 < tile.h <= 128
    ensures forall r: DeviceRect :: IsTile(mask, r) && r.Contains(p) ==> r == tile
  {
    tile := Tile(mask, p.x / 128 * 128, p.y / 128 * 128);
    forall r: DeviceRect | IsTile(mask, r) && r.Contains(p) ensures r == tile {
      SameTile(r.x, tile.x, p.x);
      SameTile(r.y, tile.y, p.y);
    }
  }

  lemma {:induction false} SameTile(a: int, b: int, p: int)
    requires a % 128 == 0 && b % 128 == 0 && a <= p < a + 128 && b <= p < b + 128
    ensures a == b
  {
    assert a == 128 * (a / 128) && b == 128 * (b / 128);
  }

  /** Where a part of the mask lies on the device. */
  function OnDevice(mask: DeviceRect, r: DeviceRect): Rect {
    DeviceRect(r.x + mask.x, r.y + mask.y, r.w, r.h).ToReal()
  }

  /** The clip rectangle covers the whole square of the pixel. */
  predicate Inside(clip: Rect, mask: DeviceRect, p: Pixel) {
    clip.ContainsRect(OnDevice(mask, DeviceRect(p.x, p.y, 1, 1)))
  }

  /** The mask's corner is where its pixels are counted from: a pixel's square lies inside the clip
      rectangle exactly if its edges do. */
  lemma {:induction false} InsideIff(clip: Rect, mask: DeviceRect, p: Pixel)
    ensures Inside(clip, mask, p) <==>
            && clip.x <= (mask.x + p.x) as real && (mask.x + p.x + 1) as real <= clip.x + clip.w
            && clip.y <= (mask.y + p.y) as real && (mask.y + p.y + 1) as real <= clip.y + clip.h
  {
    assert (mask.x + p.x) as real + 1.0 == (mask.x + p.x + 1) as real;
    assert (mask.y + p.y) as real + 1.0 == (mask.y + p.y + 1) as real;
  }

  /** A part of the mask holds on the device the squares of its pixels, moved by the mask's corner. */
  lemma {:induction false} OnDeviceHolds(mask: DeviceRect, r: DeviceRect, x: int, y: int)
    ensures OnDevice(mask, r).Contains(Point((mask.x + x) as real, (mask.y + y) as real)) <==> r.Contains(Pixel(x, y))
  {
    var q := OnDevice(mask, r);
    assert q.x + q.w == (mask.x + r.x + r.w) as real && q.y + q.h == (mask.y + r.y + r.h) as real;
  }

  lemma {:induction false} InsideTile(clip: Rect, mask: DeviceRect, r: DeviceRect, p: Pixel)
    requires r.Contains(p) && clip.ContainsRect(OnDevice(mask, r))
    ensures Inside(clip, mask, p)
  {
    assert (r.x + mask.x) as real <= (p.x + mask.x) as real;
    assert (p.x + 1 + mask.x) as real <= (r.x + r.w + mask.x) as real;
    assert (r.y + mask.y) as real <= (p.y + mask.y) as real;
    assert (p.y + 1 + mask.y) as real <= (r.y + r.h + mask.y) as real;
  }

  datatype ClipMaskInstance = ClipMaskInstance(handle: nat, sub: DeviceRect)

  predicate RowMajor(a: DeviceRect, b: DeviceRect) {
    a.y < b.y || (a.y == b.y && a.x < b.x)
  }

  /** The instances of `clip` are tiles in row-major order, none of them redundant. */
  predicate Tiled(ts: seq<ClipMaskInstance>, handle: nat, clip: Rect, mask: DeviceRect) {
    && (forall k :: 0 <= k < |ts| ==>
          ts[k].handle == handle && IsTile(mask, ts[k].sub) && !clip.ContainsRect(OnDevice(mask, ts[k].sub)))
    && forall j, k :: 0 <= j < k < |ts| ==> RowMajor(ts[j].sub, ts[k].sub)
  }

  predicate Drawn(ts: seq<ClipMaskInstance>, r: DeviceRect) {
    exists k :: 0 <= k < |ts| && ts[k].sub == r
  }

  /** Every tile above `y`, and those of row `y` left of `x`, is drawn unless it is redundant. */
  ghost predicate DrawnUpTo(ts: seq<ClipMaskInstance>, clip: Rect, mask: DeviceRect, x: int, y: int) {
    forall r: DeviceRect :: IsTile(mask, r) && (r.y < y || (r.y == y && r.x < x)) ==>
      Drawn(ts, r) || clip.ContainsRect(OnDevice(mask, r))
  }

  /** Nothing is drawn beyond `x`, `y`. */
  predicate OnlyBefore(ts: seq<ClipMaskInstance>, x: int, y: int) {
    forall k :: 0 <= k < |ts| ==> ts[k].sub.y < y || (ts[k].sub.y == y && ts[k].sub.x < x)
  }

  /** State of the loops before tile `x` of row `y`, both counted in tiles. */
  ghost predicate Reached(ts: seq<ClipMaskInstance>, handle: nat, clip: Rect, mask: DeviceRect, x: int, y: int) {
    && Tiled(ts, handle, clip, mask)
    && DrawnUpTo(ts, clip, mask, x * 128, y * 128)
    && OnlyBefore(ts, x * 128, y * 128)
  }

  function TileCount(size: int): int {
    TruncDiv(size + CLIP_RECTANGLE_TILE_SIZE - 1, CLIP_RECTANGLE_TILE_SIZE)
  }

  lemma {:induction false} TileCountCovers(size: int, i: nat)
    ensures i < TileCount(size) <==> i * 128 < size
  {
  }

  lemma {:induction false} TiledPush(ts: seq<ClipMaskInstance>, handle: nat, clip: Rect, mask: DeviceRect,
      r: DeviceRect)
    requires Tiled(ts, handle, clip, mask) && OnlyBefore(ts, r.x, r.y)
    requires IsTile(mask, r) && !clip.ContainsRect(OnDevice(mask, r))
    ensures Tiled(ts + [ClipMaskInstance(handle, r)], handle, clip, mask)
  {
  }

  lemma {:induction false} DrawnPush(ts: seq<ClipMaskInstance>, clip: Rect, mask: DeviceRect, r: DeviceRect,
      t: ClipMaskInstance)
    requires IsTile(mask, r) && DrawnUpTo(ts, clip, mask, r.x, r.y) && t.sub == r
    ensures DrawnUpTo(ts + [t], clip, mask, r.x + 128, r.y)
  {
    var ts' := ts + [t];
    forall q: DeviceRect | IsTile(mask, q) && (q.y < r.y || (q.y == r.y && q.x < r.x + 128))
      ensures Drawn(ts', q) || clip.ContainsRect(OnDevice(mask, q))
    {
      if q.y < r.y || q.x < r.x {
        if Drawn(ts, q) {
          var k :| 0 <= k < |ts| && ts[k].sub == q;
          assert ts'[k] == ts[k];
        }
      } else {
        SameTile(q.x, r.x, q.x);
        assert ts'[|ts|].sub == q;
      }
    }
  }

  lemma {:induction false} DrawnSkip(ts: seq<ClipMaskInstance>, clip: Rect, mask: DeviceRect, r: DeviceRect)
    requires IsTile(mask, r) && DrawnUpTo(ts, clip, mask, r.x, r.y) && clip.ContainsRect(OnDevice(mask, r))
    ensures DrawnUpTo(ts, clip, mask, r.x + 128, r.y)
  {
    forall q: DeviceRect | IsTile(mask, q) && q.y == r.y && r.x <= q.x < r.x + 128 ensures q == r {
      SameTile(q.x, r.x, q.x);
    }
  }

  /** One tile, pushed unless the clip rectangle makes it redundant. */
  lemma {:induction false} PushTile(ts: seq<ClipMaskInstance>, handle: nat, clip: Rect, mask: DeviceRect, x: nat,
      y: nat)
    requires x < TileCount(mask.w) && y < TileCount(mask.h) && Reached(ts, handle, clip, mask, x, y)
    ensures var r := Tile(mask, x * 128, y * 128);
            var ts' := if clip.ContainsRect(OnDevice(mask, r)) then ts else ts + [ClipMaskInstance(handle, r)];
            Reached(ts', handle, clip, mask, x + 1, y)
  {
    TileCountCovers(mask.w, x);
    TileCountCovers(mask.h, y);
    var r := Tile(mask, x * 128, y * 128);
    if clip.ContainsRect(OnDevice(mask, r)) {
      DrawnSkip(ts, clip, mask, r);
    } else {
      TiledPush(ts, handle, clip, mask, r);
      DrawnPush(ts, clip, mask, r, ClipMaskInstance(handle, r));
    }
  }

  /** At the end of a row the next one begins. */
  lemma {:induction false} EndOfRow(ts: seq<ClipMaskInstance>, handle: nat, clip: Rect, mask: DeviceRect, x: nat,
      y: nat)
    requires TileCount(mask.w) <= x && Reached(ts, handle, clip, mask, x, y)
    ensures Reached(ts, handle, clip, mask, 0, y + 1)
  {
    TileCountCovers(mask.w, x);
    forall r: DeviceRect | IsTile(mask, r) && r.y < (y + 1) * 128
      ensures Drawn(ts, r) || clip.ContainsRect(OnDevice(mask, r))
    {
      if r.y >= y * 128 {
        SameTile(r.y, y * 128, r.y);
      }
    }
  }

  lemma {:induction false} AllRowsDone(ts: seq<ClipMaskInstance>, handle: nat, clip: Rect, mask: DeviceRect, y: nat)
    requires TileCount(mask.h) <= y && Reached(ts, handle, clip, mask, 0, y)
    ensures DrawnUpTo(ts, clip, mask, 0, mask.h)
  {
    TileCountCovers(mask.h, y);
  }

  /** What the loops over the tiles push. */
  method PushTiles(handle: nat, clip: Rect, mask: DeviceRect) returns (ts: seq<ClipMaskInstance>)
    ensures Tiled(ts, handle, clip, mask)
    ensures DrawnUpTo(ts, clip, mask, 0, mask.h)
  {
    ts := [];
    var xTiles, yTiles := TileCount(mask.w), TileCount(mask.h);
    var y := 0;
    while y < yTiles
      invariant 0 <= y && Reached(ts, handle, clip, mask, 0, y)
      decreases yTiles - y
    {
      var x := 0;
      while x < xTiles
        invariant 0 <= x && Reached(ts, handle, clip, mask, x, y)
        decreases xTiles - x
      {
        PushTile(ts, handle, clip, mask, x, y);
        var p0 := Pixel(x * CLIP_RECTANGLE_TILE_SIZE, y * CLIP_RECTANGLE_TILE_SIZE);
        var p1 := Pixel(Min(p0.x + CLIP_RECTANGLE_TILE_SIZE, mask.w), Min(p0.y + CLIP_RECTANGLE_TILE_SIZE, mask.h));
        var sub := DeviceRect(p0.x, p0.y, p1.x - p0.x, p1.y - p0.y);
        assert sub == Tile(mask, x * 128, y * 128);
        if !clip.ContainsRect(OnDevice(mask, sub)) {
          ts := ts + [ClipMaskInstance(handle, sub)];
        }
        x := x + 1;
      }
      EndOfRow(ts, handle, clip, mask, x, y);
      y := y + 1;
    }
    AllRowsDone(ts, handle, clip, mask, y);
  }

  /** Every pixel that the clip rectangle does not wholly cover is in exactly one pushed tile; no
      pixel is in two. */
  lemma {:induction false} TilesComplete(ts: seq<ClipMaskInstance>, handle: nat, clip: Rect, mask: DeviceRect, p: Pixel)
    requires mask.HasLocal(p) && Tiled(ts, handle, clip, mask) && DrawnUpTo(ts, clip, mask, 0, mask.h)
    ensures forall j, k :: 0 <= j < |ts| && 0 <= k < |ts| && ts[j].sub.Contains(p) && ts[k].sub.Contains(p) ==> j == k
    ensures Inside(clip, mask, p) || exists k :: 0 <= k < |ts| && ts[k].sub.Contains(p)
  {
    var tile := TilesPartition(mask, p);
    forall j, k | 0 <= j < |ts| && 0 <= k < |ts| && ts[j].sub.Contains(p) && ts[k].sub.Contains(p)
      ensures j == k
    {
      assert ts[j].sub == tile && ts[k].sub == tile;
      assert j < k ==> RowMajor(ts[j].sub, ts[k].sub);
      assert k < j ==> RowMajor(ts[k].sub, ts[j].sub);
    }
    if Drawn(ts, tile) {
      var k :| 0 <= k < |ts| && ts[k].sub == tile;
    } else {
      InsideTile(clip, mask, tile, p);
    }
  }
}
