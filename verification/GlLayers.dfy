/** Compositing textures onto one another (Composite in swgl/src/gl.cc): one call, whatever clears are
    owed, and layers one after the other. */
module GlLayers {
  import opened GlBlend
  import opened GlComposite
  import opened GlSurfaces
  import opened GlTexture
  import opened Options

  ghost function OwedRows(t: Texture): (owed: seq<bool>)
    requires t.Valid()
    reads t
    ensures |owed| == t.height && forall y: nat :: y < t.height ==> owed[y] == t.Pending(y)
  {
    seq(t.height, y requires 0 <= y < t.height && t.Valid() reads t => t.Pending(y))
  }

  /** The texture as a value. */
  ghost function SurfaceOf(t: Texture): (d: Surface)
    requires t.Valid()
    reads t, t.buf
    ensures d.owed == OwedRows(t) && d.clear == t.clearVal
    ensures forall y: nat, x: nat :: y < t.height && x < t.width ==>
              d.cells(y, x) == t.Cell(y, x) && d.Picture()(y, x) == t.Logical(y, x)
  {
    var d := Surface(OwedRows(t), t.clearVal, CellImage(t, t.buf[..]));
    assert forall y: nat, x: nat :: y < t.height && x < t.width ==> d.cells(y, x) == t.Cell(y, x) by {
      t.CellsRead();
    }
    d
  }

  /** Composites the source over the destination. A reader of the destination sees what `Outcome`
      says of the destination as it was; that is the source over the destination's old picture
      whenever `KeepsAll` held, and `FaithfulIff` says that nothing weaker would do. */
  method Composite(src: Texture, dst: Texture, req: Request, kind: PackKind)
    requires src.Valid() && dst.Valid() && src != dst && src.buf != dst.buf && src.cellBytes == 4 && dst.cellBytes == 4
    requires req.Fits(src.width, dst.width)
    modifies src`delayClear, src`clearedRows, src.buf, dst`delayClear, dst`clearedRows, dst.buf
    ensures src.Valid() && dst.Valid() && Shows(src, old(SurfaceOf(src).Picture()))
    ensures forall y: nat :: y < dst.height ==>
              dst.Pending(y) == StillOwed(dst, old(OwedRows(dst)), req.Skip(src.height, dst.height), y)
    ensures Shows(dst, Outcome(dst, old(SurfaceOf(dst)), req, src.height, old(SurfaceOf(src)).Picture(),
                               req.Combine(kind)))
    ensures KeepsAll(dst, old(OwedRows(dst)), req, src.height) ==>
              Shows(dst, Over(req, src.height, dst.height, old(SurfaceOf(src)).Picture(),
                              old(SurfaceOf(dst)).Picture(), req.Combine(kind)))
    ensures KeepsAll(dst, old(OwedRows(dst)), req, src.height) ==>
              forall y: nat, x: nat :: y < dst.height && x < dst.width ==>
                PixelOver(req, src.height, dst.height, old(SurfaceOf(src)).Picture(), old(dst.Logical(y, x)), y, x,
                          dst.Logical(y, x))
  {
    ghost var s, d := SurfaceOf(src).Picture(), SurfaceOf(dst);
    var f := req.Combine(kind);
    Materialise(src, s);
    var skip := req.Skip(src.height, dst.height);
    Prepare(dst, skip);
    ghost var s', c := CellImage(src, src.buf[..]), CellImage(dst, dst.buf[..]);
    ClipRowsExact(src.height, dst.height, req.srcY, req.dstY, req.height);
    CompositeRows(src, dst, req, f, req.Clipped(src.height, dst.height));
    src.CellsRead();
    dst.CellsRead();
    forall y: nat, x: nat | y < dst.height && x < dst.width
      ensures dst.Logical(y, x) == Outcome(dst, d, req, src.height, s, f)(y, x)
    {
      if !StillOwed(dst, d.owed, skip, y) {
        StoredIsOutcome(dst, d, req, src.width, src.height, s, s', c, f, y, x);
      }
    }
    if KeepsAll(dst, d.owed, req, src.height) {
      KeepsAllFaithful(dst, d, req, src.height, s, f);
      forall y: nat, x: nat | y < dst.height && x < dst.width
        ensures PixelOver(req, src.height, dst.height, s, d.Picture()(y, x), y, x, dst.Logical(y, x))
      {
        OverPixel(req, src.height, dst.height, s, d.Picture(), kind, y, x);
      }
    }
  }

  /** The preparation leaves in the storage what the loop will find. */
  method Prepare(t: Texture, skip: IntRect)
    requires t.Valid()
    modifies t`delayClear, t`clearedRows, t.buf
    ensures t.Valid() && forall y: nat :: y < t.height ==> t.Pending(y) == StillOwed(t, old(OwedRows(t)), skip, y)
    ensures forall y: nat, x: nat :: y < t.height && x < t.width && !StillOwed(t, old(OwedRows(t)), skip, y) ==>
              CellImage(t, t.buf[..])(y, x) == Found(t, old(SurfaceOf(t)), skip)(y, x)
  {
    ghost var d := SurfaceOf(t);
    t.PrepareTexture(Some(skip));
    t.CellsRead();
    forall y: nat, x: nat | y < t.height && x < t.width && !StillOwed(t, d.owed, skip, y)
      ensures CellImage(t, t.buf[..])(y, x) == Found(t, d, skip)(y, x)
    {
      assert t.Cell(y, x) == if Surfaces(t, d.owed, skip, y, x) then d.cells(y, x) else d.Picture()(y, x);
    }
  }

  lemma {:induction false} StoredIsOutcome(t: Texture, d: Surface, req: Request, srcWidth: nat, srcHeight: nat,
      s: Image, s': Image, c: Image, f: (nat, nat) -> nat, y: nat, x: nat)
    requires |d.owed| == t.height && y < t.height && x < t.width && req.Fits(srcWidth, t.width)
    requires forall sy: nat, sx: nat :: sy < srcHeight && sx < srcWidth ==> s'(sy, sx) == s(sy, sx)
    requires !StillOwed(t, d.owed, req.Skip(srcHeight, t.height), y)
    requires c(y, x) == Found(t, d, req.Skip(srcHeight, t.height))(y, x)
    ensures Over(req, srcHeight, t.height, s', c, f)(y, x) == Outcome(t, d, req, srcHeight, s, f)(y, x)
  {
    OutcomePixel(t, d, req, srcHeight, s, f, y, x);
    if req.Covers(srcHeight, t.height, y, x) {
      var sy: nat, sx: nat := req.srcY + req.PairOf(t.height, y), req.srcX + x - req.dstX;
      assert s'(sy, sx) == s(sy, sx);
    }
  }

  /** Brings a texture's storage up to its picture. */
  method Materialise(t: Texture, ghost image: Image)
    requires t.Valid() && Shows(t, image)
    modifies t`delayClear, t`clearedRows, t.buf
    ensures t.Valid() && Shows(t, image)
    ensures forall y: nat, x: nat :: y < t.height && x < t.width ==> CellImage(t, t.buf[..])(y, x) == image(y, x)
  {
    t.PrepareTexture(None);
    t.CellsRead();
  }

  /** A texture one column wide that shows `v` at its top. */
  method Filled(height: nat, v: nat) returns (t: Texture)
    requires height > 0
    ensures t.Valid() && fresh(t) && fresh(t.buf) && t.width == 1 && t.height == height && t.cellBytes == 4
    ensures t.clearedRows.None? && t.Cell(0, 0) == t.Logical(0, 0) == v
  {
    t := new Texture(1, height, 4);
    t.RowsFit();
    t.buf[0] := v;
  }

  /** The same texture, cleared to zero. */
  method Cleared(height: nat, v: nat) returns (t: Texture)
    requires height > 0
    ensures t.Valid() && fresh(t) && fresh(t.buf) && t.width == 1 && t.height == height && t.cellBytes == 4
    ensures t.clearVal == 0 && t.Cell(0, 0) == v && forall y: nat :: y < t.height ==> t.Pending(y)
  {
    t := Filled(height, v);
    t.EnableDelayedClear(0);
  }

  const BLEND_TOP := Request(0, 0, 1, 1, 0, 0, false, false)
  const FLIP_TOP := Request(0, 0, 1, 1, 0, 0, true, true)

  lemma {:induction false} BlendShowsStorage(t: Texture, d: Surface, s: Image, f: (nat, nat) -> nat)
    requires |d.owed| == t.height == 1 && d.owed[0] && t.width == 1 && d.cells(0, 0) == 7 && s(0, 0) == 0
    requires f(0, 7) == 7
    ensures Outcome(t, d, BLEND_TOP, 1, s, f)(0, 0) == 7
  {
    OutcomePixel(t, d, BLEND_TOP, 1, s, f, 0, 0);
    assert BLEND_TOP.Covers(1, 1, 0, 0);
  }

  /** A transparent pixel, blended onto a texture that was cleared to zero: what the storage held
      before the clear comes up. */
  method BlendOntoCleared(kind: PackKind) returns (ghost before: nat, after: nat)
    ensures before == 0 && after == 7
  {
    var src := Filled(1, 0);
    var dst := Cleared(1, 7);
    before := dst.Logical(0, 0);
    ghost var s, d := SurfaceOf(src).Picture(), SurfaceOf(dst);
    assert s(0, 0) == src.Logical(0, 0) && d.cells(0, 0) == dst.Cell(0, 0);
    Composite(src, dst, BLEND_TOP, kind);
    CombineTransparent(BLEND_TOP, kind, 7);
    BlendShowsStorage(dst, d, s, BLEND_TOP.Combine(kind));
    after := ReadPixel(dst, 0, 0);
  }

  lemma {:induction false} FlipMissesClear(t: Texture, d: Surface, s: Image, f: (nat, nat) -> nat)
    requires |d.owed| == t.height == 33 && d.owed[0] && d.owed[32] && t.width == 1 && d.cells(0, 0) == 7 && d.clear == 0
    ensures Outcome(t, d, FLIP_TOP, 1, s, f)(32, 0) == 0 && Outcome(t, d, FLIP_TOP, 1, s, f)(0, 0) == 7
    ensures FLIP_TOP.Covers(1, 33, 32, 0)
  {
    OutcomePixel(t, d, FLIP_TOP, 1, s, f, 32, 0);
    OutcomePixel(t, d, FLIP_TOP, 1, s, f, 0, 0);
    assert !FLIP_TOP.Covers(1, 33, 0, 0);
  }

  /** A pixel of nine, copied onto a texture of 33 rows that was cleared to zero, flipped: the row it
      covers still shows the clear, and at the other end old storage comes up. */
  method FlipOntoCleared(kind: PackKind) returns (covered: nat, beside: nat)
    ensures covered == 0 && beside == 7
  {
    var src := Filled(1, 9);
    var dst := Cleared(33, 7);
    ghost var s, d := SurfaceOf(src).Picture(), SurfaceOf(dst);
    assert d.cells(0, 0) == dst.Cell(0, 0);
    Composite(src, dst, FLIP_TOP, kind);
    FlipMissesClear(dst, d, s, FLIP_TOP.Combine(kind));
    covered := ReadPixel(dst, 32, 0);
    beside := ReadPixel(dst, 0, 0);
  }

  method ReadPixel(t: Texture, y: nat, x: nat) returns (v: nat)
    requires t.Valid() && y < t.height && x < t.width
    modifies t`delayClear, t`clearedRows, t.buf
    ensures t.Valid() && v == old(t.Logical(y, x)) && Shows(t, old(SurfaceOf(t).Picture()))
  {
    Materialise(t, SurfaceOf(t).Picture());
    t.RowsFit();
    v := t.buf[RowAt(t.stride, y) + x];
    assert v == t.Cell(y, x);
    t.CellsRead();
  }

  /* ---------------- many layers ---------------- */

  datatype Layer = Layer(req: Request, picture: Image, width: nat, height: nat)

  /** The layers composited one after the other. */
  function OverAll(layers: seq<Layer>, dstHeight: nat, d: Image, kind: PackKind): Image {
    if layers == [] then d
    else
      var last := layers[|layers| - 1];
      Over(last.req, last.height, dstHeight, last.picture, OverAll(layers[..|layers| - 1], dstHeight, d, kind),
          last.req.Combine(kind))
  }

  /** Every layer is put over the picture of those below it, pixel by pixel. */
  lemma {:induction false} LayersOver(layers: seq<Layer>, dstHeight: nat, d: Image, kind: PackKind, i: nat, y: nat,
                                      x: nat)
    requires i < |layers| && y < dstHeight
    ensures OverAll(layers[..0], dstHeight, d, kind) == d
    ensures OverAll(layers[..|layers|], dstHeight, d, kind) == OverAll(layers, dstHeight, d, kind)
    ensures PixelOver(layers[i].req, layers[i].height, dstHeight, layers[i].picture,
                      OverAll(layers[..i], dstHeight, d, kind)(y, x), y, x,
                      OverAll(layers[..i + 1], dstHeight, d, kind)(y, x))
  {
    assert layers[..i + 1][..i] == layers[..i] && layers[..i + 1][i] == layers[i] && layers[..|layers|] == layers;
    var l := layers[i];
    OverPixel(l.req, l.height, dstHeight, l.picture, OverAll(layers[..i], dstHeight, d, kind), kind, y, x);
  }

  /** The rows that one layer leaves owed. */
  ghost function OwedAbove(t: Texture, owed: seq<bool>, l: Layer): (r: seq<bool>)
    requires |owed| == t.height
    ensures |r| == t.height
  {
    seq(t.height, y requires 0 <= y < t.height => StillOwed(t, owed, l.req.Skip(l.height, t.height), y))
  }

  /** The rows that are still owed after some layers. */
  ghost function OwedAfter(t: Texture, owed: seq<bool>, layers: seq<Layer>): (r: seq<bool>)
    requires |owed| == t.height
    ensures |r| == t.height
  {
    if layers == [] then owed
    else OwedAbove(t, OwedAfter(t, owed, layers[..|layers| - 1]), layers[|layers| - 1])
  }

  /** Every layer meets what `FaithfulIff` asks for, on the rows that the layers below leave owed. */
  ghost predicate AllKept(t: Texture, owed: seq<bool>, layers: seq<Layer>)
    requires |owed| == t.height
  {
    forall i :: 0 <= i < |layers| ==>
      KeepsAll(t, OwedAfter(t, owed, layers[..i]), layers[i].req, layers[i].height)
  }

  /** Textures that may be composited onto `dst`; one of them may occur several times. */
  ghost predicate Sources(srcs: seq<Texture>, dst: Texture)
    reads srcs
  {
    && (forall i :: 0 <= i < |srcs| ==>
          srcs[i].Valid() && srcs[i].cellBytes == 4 && srcs[i] != dst && srcs[i].buf != dst.buf)
    && (forall i, j :: 0 <= i < |srcs| && 0 <= j < |srcs| && srcs[i] != srcs[j] ==> srcs[i].buf != srcs[j].buf)
  }

  ghost predicate LayerOf(src: Texture, req: Request, l: Layer)
    requires src.Valid()
    reads src, src.buf
  {
    l.req == req && l.width == src.width && l.height == src.height && Shows(src, l.picture)
  }

  ghost predicate LayersOf(srcs: seq<Texture>, dst: Texture, reqs: seq<Request>, layers: seq<Layer>)
    requires Sources(srcs, dst)
    reads srcs, set i | 0 <= i < |srcs| :: srcs[i].buf
  {
    |srcs| == |reqs| == |layers| && forall i :: 0 <= i < |srcs| ==> LayerOf(srcs[i], reqs[i], layers[i])
  }

  lemma {:induction false} OverAgrees(l: Layer, s: Image, d: Image, d': Image, width: nat, height: nat,
      f: (nat, nat) -> nat, y: nat, x: nat)
    requires l.req.Fits(l.width, width) && y < height && x < width && d(y, x) == d'(y, x)
    requires forall sy: nat, sx: nat :: sy < l.height && sx < l.width ==> s(sy, sx) == l.picture(sy, sx)
    ensures Over(l.req, l.height, height, s, d, f)(y, x) == Over(l.req, l.height, height, l.picture, d', f)(y, x)
  {
    if l.req.Covers(l.height, height, y, x) {
      var sy: nat, sx: nat := l.req.srcY + l.req.PairOf(height, y), l.req.srcX + x - l.req.dstX;
      assert s(sy, sx) == l.picture(sy, sx);
    }
  }

  method CompositeLayer(src: Texture, dst: Texture, req: Request, kind: PackKind, ghost l: Layer, ghost under: Image)
    requires src.Valid() && dst.Valid() && src != dst && src.buf != dst.buf && src.cellBytes == 4 && dst.cellBytes == 4
    requires req.Fits(src.width, dst.width) && LayerOf(src, req, l) && Shows(dst, under)
    requires KeepsAll(dst, OwedRows(dst), req, src.height)
    modifies src`delayClear, src`clearedRows, src.buf, dst`delayClear, dst`clearedRows, dst.buf
    ensures src.Valid() && dst.Valid() && forall image: Image :: old(Shows(src, image)) ==> Shows(src, image)
    ensures OwedRows(dst) == OwedAbove(dst, old(OwedRows(dst)), l)
    ensures Shows(dst, Over(req, src.height, dst.height, l.picture, under, req.Combine(kind)))
  {
    ghost var s, d := SurfaceOf(src).Picture(), SurfaceOf(dst).Picture();
    Composite(src, dst, req, kind);
    forall y: nat, x: nat | y < dst.height && x < dst.width
      ensures dst.Logical(y, x) == Over(req, src.height, dst.height, l.picture, under, req.Combine(kind))(y, x)
    {
      OverAgrees(l, s, d, under, dst.width, dst.height, req.Combine(kind), y, x);
    }
  }

  lemma {:induction false} LayersGrow(t: Texture, owed: seq<bool>, layers: seq<Layer>, i: nat, d: Image, kind: PackKind)
    requires |owed| == t.height && i < |layers| && AllKept(t, owed, layers)
    ensures KeepsAll(t, OwedAfter(t, owed, layers[..i]), layers[i].req, layers[i].height)
    ensures OwedAfter(t, owed, layers[..i + 1]) == OwedAbove(t, OwedAfter(t, owed, layers[..i]), layers[i])
    ensures OverAll(layers[..i + 1], t.height, d, kind)
         == Over(layers[i].req, layers[i].height, t.height, layers[i].picture, OverAll(layers[..i], t.height, d, kind),
                 layers[i].req.Combine(kind))
  {
    assert layers[..i + 1][..i] == layers[..i] && layers[..i + 1][i] == layers[i];
  }

  /** One layer of many; the others are left as they are. */
  method CompositeNth(srcs: seq<Texture>, dst: Texture, reqs: seq<Request>, kind: PackKind, i: nat,
                      ghost layers: seq<Layer>, ghost under: Image)
    requires dst.Valid() && dst.cellBytes == 4 && Sources(srcs, dst) && LayersOf(srcs, dst, reqs, layers)
    requires i < |srcs| && layers[i].req.Fits(layers[i].width, dst.width) && Shows(dst, under)
    requires KeepsAll(dst, OwedRows(dst), layers[i].req, layers[i].height)
    modifies srcs, set i | 0 <= i < |srcs| :: srcs[i].buf, dst`delayClear, dst`clearedRows, dst.buf
    ensures dst.Valid() && Sources(srcs, dst) && LayersOf(srcs, dst, reqs, layers)
    ensures OwedRows(dst) == OwedAbove(dst, old(OwedRows(dst)), layers[i])
    ensures Shows(dst, Over(layers[i].req, layers[i].height, dst.height, layers[i].picture, under,
                            layers[i].req.Combine(kind)))
  {
    ghost var l, src := layers[i], srcs[i];
    assert LayerOf(src, reqs[i], l);
    CompositeLayer(srcs[i], dst, reqs[i], kind, l, under);
    forall j | 0 <= j < |srcs|
      ensures srcs[j].Valid() && LayerOf(srcs[j], reqs[j], layers[j])
    {
      assert old(LayerOf(srcs[j], reqs[j], layers[j]));
      if srcs[j] != src {
        assert srcs[j].buf != src.buf;
      } else {
        assert old(Shows(src, layers[j].picture));
      }
    }
  }

  /** The first `n` layers of a frame, one call after the other, onto a destination that shows `d`. */
  method CompositeAll(srcs: seq<Texture>, dst: Texture, reqs: seq<Request>, kind: PackKind, n: nat,
                      ghost layers: seq<Layer>, ghost d: Image)
    requires dst.Valid() && dst.cellBytes == 4 && Sources(srcs, dst) && LayersOf(srcs, dst, reqs, layers)
    requires n <= |srcs| && forall l <- layers :: l.req.Fits(l.width, dst.width)
    requires Shows(dst, d) && AllKept(dst, OwedRows(dst), layers)
    modifies srcs, set i | 0 <= i < |srcs| :: srcs[i].buf, dst`delayClear, dst`clearedRows, dst.buf
    ensures dst.Valid() && Sources(srcs, dst) && LayersOf(srcs, dst, reqs, layers)
    ensures OwedRows(dst) == OwedAfter(dst, old(OwedRows(dst)), layers[..n])
    ensures Shows(dst, OverAll(layers[..n], dst.height, d, kind))
    decreases n
  {
    ghost var owed := OwedRows(dst);
    if n == 0 {
      assert layers[..0] == [];
    } else {
      CompositeAll(srcs, dst, reqs, kind, n - 1, layers, d);
      LayersGrow(dst, owed, layers, n - 1, d, kind);
      CompositeNth(srcs, dst, reqs, kind, n - 1, layers, OverAll(layers[..n - 1], dst.height, d, kind));
    }
  }

  ghost predicate PremultipliedIn(image: Image, width: nat, height: nat) {
    forall y: int, x: int :: 0 <= y < height && 0 <= x < width ==> Premultiplied(image(y, x))
  }

  /** Premultiplied layers over a premultiplied destination leave it premultiplied, and the result
      does not depend on how the platform packs. */
  lemma {:induction false} LayersPremultiplied(layers: seq<Layer>, d: Image, width: nat, height: nat, kind: PackKind)
    requires PremultipliedIn(d, width, height)
    requires forall l <- layers :: l.req.Fits(l.width, width) && PremultipliedIn(l.picture, l.width, l.height)
    ensures PremultipliedIn(OverAll(layers, height, d, kind), width, height)
    ensures forall y: int, x: int :: 0 <= y < height && 0 <= x < width ==>
              OverAll(layers, height, d, kind)(y, x) == OverAll(layers, height, d, Truncate)(y, x)
  {
    if layers != [] {
      var l, rest := layers[|layers| - 1], layers[..|layers| - 1];
      LayersPremultiplied(rest, d, width, height, kind);
      var under, under' := OverAll(rest, height, d, kind), OverAll(rest, height, d, Truncate);
      forall y: int, x: int | 0 <= y < height && 0 <= x < width
        ensures Premultiplied(OverAll(layers, height, d, kind)(y, x))
        ensures OverAll(layers, height, d, kind)(y, x) == OverAll(layers, height, d, Truncate)(y, x)
      {
        assert under(y, x) == under'(y, x) && Premultiplied(under(y, x));
        OverPremultiplied(l, height, under, under', kind, width, y, x);
      }
    }
  }

  lemma {:induction false} OverPremultiplied(l: Layer, height: nat, d: Image, d': Image, kind: PackKind, width: nat,
      y: int, x: int)
    requires l.req.Fits(l.width, width) && PremultipliedIn(l.picture, l.width, l.height)
    requires d(y, x) == d'(y, x) && Premultiplied(d(y, x))
    ensures Premultiplied(Over(l.req, l.height, height, l.picture, d, l.req.Combine(kind))(y, x))
    ensures Over(l.req, l.height, height, l.picture, d, l.req.Combine(kind))(y, x)
         == Over(l.req, l.height, height, l.picture, d', l.req.Combine(Truncate))(y, x)
  {
    if l.req.Covers(l.height, height, y, x) {
      var sy, sx := l.req.srcY + l.req.PairOf(height, y), l.req.srcX + x - l.req.dstX;
      assert Premultiplied(l.picture(sy, sx));
      CombinePremultiplied(l.req, l.picture(sy, sx), d(y, x), kind);
    }
  }

  lemma {:induction false} CombinePremultiplied(req: Request, s: nat, d: nat, kind: PackKind)
    requires Premultiplied(s) && Premultiplied(d)
    ensures Premultiplied(req.Combine(kind)(s, d)) && req.Combine(kind)(s, d) == req.Combine(Truncate)(s, d)
  {
    BlendPremultiplied(s, d, kind);
  }
}
