/** Compositing one texture over another (Composite in swgl/src/gl.cc). */
module GlComposite {
  import opened GlBlend
  import opened GlTexture

  /** The vertical part of a request after clipping to both textures. */
  datatype Rows = Rows(src: int, dst: int, count: int)

  function ClipRows(srcHeight: nat, dstHeight: nat, srcY: int, dstY: int, count: int): Rows {
    var d1 := if srcY < 0 then dstY - srcY else dstY;
    var n1 := if srcY < 0 then count + srcY else count;
    var s1 := if srcY < 0 then 0 else srcY;
    var s2 := if d1 < 0 then s1 - d1 else s1;
    var n2 := if d1 < 0 then n1 + d1 else n1;
    var d2 := if d1 < 0 then 0 else d1;
    var n3 := if s2 + n2 > srcHeight then srcHeight - s2 else n2;
    var n4 := if d2 + n3 > dstHeight then dstHeight - d2 else n3;
    Rows(s2, d2, n4)
  }

  /** Row pair `k` of the request lies in both textures. */
  predicate InBoth(srcHeight: nat, dstHeight: nat, srcY: int, dstY: int, count: int, k: int) {
    0 <= k < count && 0 <= srcY + k < srcHeight && 0 <= dstY + k < dstHeight
  }

  /** The rows are those of exactly the row pairs in bounds on both sides. */
  ghost predicate ExactRows(r: Rows, srcHeight: nat, dstHeight: nat, srcY: int, dstY: int, count: int) {
    && 0 <= r.src && 0 <= r.dst && r.src - r.dst == srcY - dstY
    && (r.count > 0 ==> r.src + r.count <= srcHeight && r.dst + r.count <= dstHeight)
    && forall k :: InBoth(srcHeight, dstHeight, srcY, dstY, count, k) <==> r.src <= srcY + k < r.src + r.count
  }

  lemma {:induction false} ClipRowsExact(srcHeight: nat, dstHeight: nat, srcY: int, dstY: int, count: int)
    ensures ExactRows(ClipRows(srcHeight, dstHeight, srcY, dstY, count), srcHeight, dstHeight, srcY, dstY, count)
  {
  }

  /** A request: which part of the source goes where, and how. */
  datatype Request = Request(srcX: int, srcY: int, width: int, height: int, dstX: int, dstY: int,
                             overwrite: bool, flip: bool) {

    /** What the source text takes for granted of the columns. */
    predicate Fits(srcWidth: nat, dstWidth: nat) {
      && width >= 0 && 0 <= srcX && srcX + width <= srcWidth && 0 <= dstX && dstX + width <= dstWidth
    }

    /** The row pair that lands in destination row `y`. */
    function PairOf(dstHeight: nat, y: int): int {
      (if flip then dstHeight - 1 - y else y) - dstY
    }

    predicate Covers(srcHeight: nat, dstHeight: nat, y: int, x: int) {
      dstX <= x < dstX + width && InBoth(srcHeight, dstHeight, srcY, dstY, height, PairOf(dstHeight, y))
    }

    function Clipped(srcHeight: nat, dstHeight: nat): Rows {
      ClipRows(srcHeight, dstHeight, srcY, dstY, height)
    }

    ghost predicate Rows(r: Rows, srcHeight: nat, dstHeight: nat) {
      ExactRows(r, srcHeight, dstHeight, srcY, dstY, height)
    }

    /** The rectangle that the destination need not clear first. */
    function Skip(srcHeight: nat, dstHeight: nat): IntRect {
      var r := Clipped(srcHeight, dstHeight);
      IntRect(dstX, r.dst, width, r.count)
    }

    function Combine(kind: PackKind): (nat, nat) -> nat {
      if overwrite then (s: nat, d: nat) => s else (s: nat, d: nat) => BlendCell(s, d, kind)
    }
  }

  predicate Blended(before: seq<nat>, after: seq<nat>, to: nat, src: seq<nat>, from: nat, n: nat, f: (nat, nat) -> nat)
    requires |before| == |after| && to + n <= |before| && from + n <= |src|
  {
    forall i :: 0 <= i < |before| ==>
      after[i] == if to <= i < to + n then f(src[from + i - to], before[i]) else before[i]
  }

  /** One row: four pixels at a time; the tail combines four pixels too, but stores only those of the
      row. The loads of the tail may pass the row's end, and stay inside the storage. */
  method BlendRow(dst: array<nat>, to: nat, src: array<nat>, from: nat, n: nat, f: (nat, nat) -> nat)
    requires dst != src && to + n + 3 <= dst.Length && from + n + 3 <= src.Length
    modifies dst
    ensures Blended(old(dst[..]), dst[..], to, src[..], from, n, f)
  {
    ghost var b0, s0 := dst[..], src[..];
    var done := 0;
    while done + 4 <= n
      invariant 0 <= done <= n && Blended(b0, dst[..], to, s0, from, done, f)
    {
      var s, d := src[from + done..from + done + 4], dst[to + done..to + done + 4];
      StoreLanes(dst, to + done, [f(s[0], d[0]), f(s[1], d[1]), f(s[2], d[2]), f(s[3], d[3])]);
      done := done + 4;
    }
    if done < n {
      var s, d := src[from + done..from + done + 4], dst[to + done..to + done + 4];
      var r := [f(s[0], d[0]), f(s[1], d[1]), f(s[2], d[2]), f(s[3], d[3])];
      dst[to + done] := r[0];
      if done + 1 < n {
        dst[to + done + 1] := r[1];
        if done + 2 < n {
          dst[to + done + 2] := r[2];
        }
      }
    }
  }

  method StoreLanes(dst: array<nat>, at: nat, lanes: seq<nat>)
    requires at + |lanes| <= dst.Length
    modifies dst
    ensures forall i :: 0 <= i < dst.Length ==> dst[i] == if at <= i < at + |lanes| then lanes[i - at] else old(dst[i])
  {
    for k := 0 to |lanes|
      invariant forall i :: 0 <= i < dst.Length ==> dst[i] == if at <= i < at + k then lanes[i - at] else old(dst[i])
    {
      dst[at + k] := lanes[k];
    }
  }

  /** A row that the request overwrites. */
  method MoveRow(dst: array<nat>, to: nat, src: array<nat>, from: nat, n: nat, f: (nat, nat) -> nat)
    requires dst != src && to + n <= dst.Length && from + n <= src.Length
    requires forall s: nat, d: nat :: f(s, d) == s
    modifies dst
    ensures Blended(old(dst[..]), dst[..], to, src[..], from, n, f)
  {
    StoreLanes(dst, to, src[from..from + n]);
  }

  /** A picture, meant for the pixels of a texture. */
  type Image = (int, int) -> nat

  ghost predicate Shows(t: Texture, image: Image)
    requires t.Valid()
    reads t, t.buf
  {
    forall y: nat, x: nat :: y < t.height && x < t.width ==> t.Logical(y, x) == image(y, x)
  }

  /** The picture in the storage. */
  ghost function CellImage(t: Texture, cells: seq<nat>): Image
    requires t.Shape() && |cells| == t.buf.Length
  {
    (y: int, x: int) => if 0 <= y < t.height && 0 <= x < t.width then t.CellIn(cells, y, x) else 0
  }

  /** The picture after a request, pixel by pixel: those covered combine with the source pixel that
      the unclipped request pairs them with. */
  function Over(req: Request, srcHeight: nat, dstHeight: nat, src: Image, dst: Image, f: (nat, nat) -> nat): Image {
    (y: int, x: int) =>
      if req.Covers(srcHeight, dstHeight, y, x) then
        f(src(req.srcY + req.PairOf(dstHeight, y), req.srcX + x - req.dstX), dst(y, x))
      else dst(y, x)
  }

  /** `r` is `a` blended over `b`. */
  ghost predicate SourceOver(a: nat, b: nat, r: nat) {
    && (0xFF00_0000 <= a < 0x1_0000_0000 ==> r == a)
    && (a == 0 && b < 0x1_0000_0000 ==> r == b)
    && (Premultiplied(a) && Premultiplied(b) ==>
          forall k :: 0 <= k < 4 ==>
            Channel(r, k) == Channel(a, k) + Channel(b, k) - (Channel(b, k) * Channel(a, 3) + Channel(b, k)) / 256)
  }

  /** What a request makes of a pixel `under`, on its fields: the source pixel that lands there, if one
      does, replaces it or is blended over it. */
  ghost predicate PixelOver(req: Request, srcHeight: nat, dstHeight: nat, s: Image, under: nat, y: int, x: int,
                            r: nat) {
    var k := (if req.flip then dstHeight - 1 - y else y) - req.dstY;
    if 0 <= k < req.height && 0 <= req.srcY + k < srcHeight && req.dstX <= x < req.dstX + req.width then
      var a := s(req.srcY + k, req.srcX + x - req.dstX);
      if req.overwrite then r == a else SourceOver(a, under, r)
    else r == under
  }

  lemma {:induction false} OverPixel(req: Request, srcHeight: nat, dstHeight: nat, s: Image, d: Image, kind: PackKind,
                                     y: nat, x: nat)
    requires y < dstHeight
    ensures PixelOver(req, srcHeight, dstHeight, s, d(y, x), y, x,
                      Over(req, srcHeight, dstHeight, s, d, req.Combine(kind))(y, x))
  {
    if req.Covers(srcHeight, dstHeight, y, x) && !req.overwrite {
      var a, b := s(req.srcY + req.PairOf(dstHeight, y), req.srcX + x - req.dstX), d(y, x);
      BlendIsOver(a, b, kind);
    }
  }

  lemma {:induction false} BlendIsOver(a: nat, b: nat, kind: PackKind)
    ensures SourceOver(a, b, BlendCell(a, b, kind))
  {
    if 0xFF00_0000 <= a < 0x1_0000_0000 { OpaqueReplaces(a, b, kind); }
    if a == 0 && b < 0x1_0000_0000 { TransparentKeeps(b, kind); }
    if Premultiplied(a) && Premultiplied(b) {
      forall k | 0 <= k < 4
        ensures Channel(BlendCell(a, b, kind), k)
             == Channel(a, k) + Channel(b, k) - (Channel(b, k) * Channel(a, 3) + Channel(b, k)) / 256
      {
        BlendIsSourceOver(a, b, kind, k);
      }
    }
  }

  /** A pixel while the source rows before `limit` have been combined. */
  function Partly(req: Request, srcHeight: nat, dstHeight: nat, s: Image, d: Image, f: (nat, nat) -> nat, limit: int,
      y: int, x: int): nat {
    if req.srcY + req.PairOf(dstHeight, y) < limit then Over(req, srcHeight, dstHeight, s, d, f)(y, x) else d(y, x)
  }

  ghost predicate RowsDone(req: Request, src: Texture, dst: Texture, s: Image, d: Image, cells: seq<nat>,
      f: (nat, nat) -> nat, limit: int)
    requires src.Shape() && dst.Shape() && |cells| == dst.buf.Length
  {
    forall y: nat, x: nat :: y < dst.height && x < dst.width ==>
      dst.CellIn(cells, y, x) == Partly(req, src.height, dst.height, s, d, f, limit, y, x)
  }

  /** The destination row of step `k`. */
  function RowOf(req: Request, dstHeight: nat, rows: Rows, k: nat): int {
    if req.flip then dstHeight - 1 - (rows.dst + k) else rows.dst + k
  }

  lemma {:induction false} RowCovered(req: Request, srcHeight: nat, dstHeight: nat, rows: Rows, k: nat, y: int, x: int)
    requires req.Rows(rows, srcHeight, dstHeight) && k < rows.count
    ensures req.srcY + req.PairOf(dstHeight, y) == rows.src + k <==> y == RowOf(req, dstHeight, rows, k)
    ensures y == RowOf(req, dstHeight, rows, k) ==>
              (req.Covers(srcHeight, dstHeight, y, x) <==> req.dstX <= x < req.dstX + req.width)
  {
    assert InBoth(srcHeight, dstHeight, req.srcY, req.dstY, req.height, rows.src + k - req.srcY);
  }

  /** Step `k` changes exactly the covered pixels of its row. */
  lemma {:induction false} PartlyStep(req: Request, srcHeight: nat, dstHeight: nat, s: Image, d: Image,
      f: (nat, nat) -> nat, rows: Rows, k: nat, y: int, x: int)
    requires req.Rows(rows, srcHeight, dstHeight) && k < rows.count
    ensures var limit := rows.src + k;
            var before := Partly(req, srcHeight, dstHeight, s, d, f, limit, y, x);
            Partly(req, srcHeight, dstHeight, s, d, f, limit + 1, y, x) ==
              if y == RowOf(req, dstHeight, rows, k) && req.dstX <= x < req.dstX + req.width
              then f(s(limit, req.srcX + x - req.dstX), before) else before
  {
    RowCovered(req, srcHeight, dstHeight, rows, k, y, x);
    if y == RowOf(req, dstHeight, rows, k) {
      assert req.srcY + req.PairOf(dstHeight, y) == rows.src + k;
    } else {
      assert req.srcY + req.PairOf(dstHeight, y) != rows.src + k;
    }
  }

  lemma {:induction false} PartlyEnds(req: Request, srcHeight: nat, dstHeight: nat, s: Image, d: Image,
      f: (nat, nat) -> nat, rows: Rows, y: int, x: int)
    requires req.Rows(rows, srcHeight, dstHeight)
    ensures Partly(req, srcHeight, dstHeight, s, d, f, rows.src, y, x) == d(y, x)
    ensures rows.count >= 0 ==>
              Partly(req, srcHeight, dstHeight, s, d, f, rows.src + rows.count, y, x)
                  == Over(req, srcHeight, dstHeight, s, d, f)(y, x)
    ensures rows.count <= 0 ==> Over(req, srcHeight, dstHeight, s, d, f)(y, x) == d(y, x)
  {
    assert req.Covers(srcHeight, dstHeight, y, x) ==>
      InBoth(srcHeight, dstHeight, req.srcY, req.dstY, req.height, req.PairOf(dstHeight, y));
  }

  /** One combined cell of a row. */
  lemma {:induction false} RowCell(src: Texture, dst: Texture, cells: seq<nat>, b0: seq<nat>, b1: seq<nat>, y: nat,
      sy: nat, req: Request, f: (nat, nat) -> nat, x: nat)
    requires src.Shape() && dst.Shape() && |cells| == src.buf.Length && |b0| == |b1| == dst.buf.Length
    requires y < dst.height && sy < src.height && req.Fits(src.width, dst.width) && req.dstX <= x < req.dstX + req.width
    requires RowAt(dst.stride, y) + dst.stride <= |b0| && RowAt(src.stride, sy) + src.stride <= |cells|
    requires Blended(b0, b1, RowAt(dst.stride, y) + req.dstX, cells, RowAt(src.stride, sy) + req.srcX, req.width, f)
    ensures dst.CellIn(b1, y, x) == f(src.CellIn(cells, sy, req.srcX + x - req.dstX), dst.CellIn(b0, y, x))
  {
    var i := RowAt(dst.stride, y) + x;
    assert b1[i] == f(cells[RowAt(src.stride, sy) + req.srcX + i - (RowAt(dst.stride, y) + req.dstX)], b0[i]);
  }

  /** What a blended row means for all cells of the destination. */
  ghost predicate RowBlended(req: Request, src: Texture, dst: Texture, cells: seq<nat>, b0: seq<nat>, b1: seq<nat>,
                             f: (nat, nat) -> nat, row: nat, srcRow: nat)
    requires src.Shape() && dst.Shape() && |cells| == src.buf.Length && |b0| == |b1| == dst.buf.Length
    requires req.Fits(src.width, dst.width) && srcRow < src.height
  {
    forall y: nat, x: nat :: y < dst.height && x < dst.width ==>
      dst.CellIn(b1, y, x) ==
        if y == row && req.dstX <= x < req.dstX + req.width
        then f(src.CellIn(cells, srcRow, req.srcX + x - req.dstX), dst.CellIn(b0, y, x))
        else dst.CellIn(b0, y, x)
  }

  lemma {:induction false} BlendedCells(req: Request, src: Texture, dst: Texture, cells: seq<nat>, b0: seq<nat>,
      b1: seq<nat>, f: (nat, nat) -> nat, row: nat, srcRow: nat)
    requires src.Shape() && dst.Shape() && |cells| == src.buf.Length && |b0| == |b1| == dst.buf.Length
    requires req.Fits(src.width, dst.width) && srcRow < src.height && row < dst.height
    requires RowAt(dst.stride, row) + dst.stride <= |b0| && RowAt(src.stride, srcRow) + src.stride <= |cells|
    requires Blended(b0, b1, RowAt(dst.stride, row) + req.dstX, cells, RowAt(src.stride, srcRow) + req.srcX,
                     req.width, f)
    ensures RowBlended(req, src, dst, cells, b0, b1, f, row, srcRow)
  {
    dst.RowWritten(b0, b1, row, req.dstX, req.dstX + req.width);
    forall x: nat | req.dstX <= x < req.dstX + req.width
      ensures dst.CellIn(b1, row, x) == f(src.CellIn(cells, srcRow, req.srcX + x - req.dstX), dst.CellIn(b0, row, x))
    {
      RowCell(src, dst, cells, b0, b1, row, srcRow, req, f, x);
    }
  }

  /** A blended row of storage is one step of the picture. */
  lemma {:induction false} BlendedDone(req: Request, src: Texture, dst: Texture, cells: seq<nat>, d: Image,
      b0: seq<nat>, b1: seq<nat>, f: (nat, nat) -> nat, rows: Rows, k: nat, row: nat)
    requires src.Shape() && dst.Shape() && |cells| == src.buf.Length && |b0| == |b1| == dst.buf.Length
    requires req.Fits(src.width, dst.width) && req.Rows(rows, src.height, dst.height) && k < rows.count
    requires row == RowOf(req, dst.height, rows, k) < dst.height
    requires RowAt(dst.stride, row) + dst.stride <= |b0| && RowAt(src.stride, rows.src + k) + src.stride <= |cells|
    requires Blended(b0, b1, RowAt(dst.stride, row) + req.dstX, cells, RowAt(src.stride, rows.src + k) + req.srcX,
                     req.width, f)
    requires RowsDone(req, src, dst, CellImage(src, cells), d, b0, f, rows.src + k)
    ensures RowsDone(req, src, dst, CellImage(src, cells), d, b1, f, rows.src + k + 1)
  {
    var s := CellImage(src, cells);
    BlendedCells(req, src, dst, cells, b0, b1, f, row, rows.src + k);
    forall y: nat, x: nat | y < dst.height && x < dst.width
      ensures dst.CellIn(b1, y, x) == Partly(req, src.height, dst.height, s, d, f, rows.src + k + 1, y, x)
    {
      PartlyStep(req, src.height, dst.height, s, d, f, rows, k, y, x);
      assert dst.CellIn(b0, y, x) == Partly(req, src.height, dst.height, s, d, f, rows.src + k, y, x);
    }
  }

  /** One row pair. */
  method CompositeRow(src: Texture, dst: Texture, req: Request, f: (nat, nat) -> nat, row: nat, srcRow: nat)
    requires src.Valid() && dst.Valid() && src.buf != dst.buf && src.cellBytes == 4 && dst.cellBytes == 4
    requires req.Fits(src.width, dst.width) && row < dst.height && srcRow < src.height
    requires req.overwrite ==> forall s: nat, d: nat :: f(s, d) == s
    modifies dst.buf
    ensures src.buf[..] == old(src.buf[..])
    ensures RowAt(dst.stride, row) + dst.stride <= dst.buf.Length
          && RowAt(src.stride, srcRow) + src.stride <= src.buf.Length
    ensures Blended(old(dst.buf[..]), dst.buf[..], RowAt(dst.stride, row) + req.dstX, old(src.buf[..]),
                    RowAt(src.stride, srcRow) + req.srcX, req.width, f)
  {
    src.RowsFit();
    dst.RowsFit();
    ghost var cells := src.buf[..];
    var to, from := RowAt(dst.stride, row) + req.dstX, RowAt(src.stride, srcRow) + req.srcX;
    if req.overwrite {
      MoveRow(dst.buf, to, src.buf, from, req.width, f);
    } else {
      BlendRow(dst.buf, to, src.buf, from, req.width, f);
    }
    assert src.buf[..] == cells;
  }

  lemma {:induction false} RowsStart(req: Request, src: Texture, dst: Texture, s: Image, cells: seq<nat>,
      f: (nat, nat) -> nat, rows: Rows)
    requires src.Shape() && dst.Shape() && |cells| == dst.buf.Length && req.Rows(rows, src.height, dst.height)
    ensures RowsDone(req, src, dst, s, CellImage(dst, cells), cells, f, rows.src)
  {
    var d := CellImage(dst, cells);
    forall y: nat, x: nat | y < dst.height && x < dst.width
      ensures dst.CellIn(cells, y, x) == Partly(req, src.height, dst.height, s, d, f, rows.src, y, x)
    {
      PartlyEnds(req, src.height, dst.height, s, d, f, rows, y, x);
    }
  }

  lemma {:induction false} RowsEnd(req: Request, src: Texture, dst: Texture, s: Image, d: Image, cells: seq<nat>,
      f: (nat, nat) -> nat, rows: Rows, k: nat)
    requires src.Shape() && dst.Shape() && |cells| == dst.buf.Length && req.Rows(rows, src.height, dst.height)
    requires k == if rows.count < 0 then 0 else rows.count
    requires RowsDone(req, src, dst, s, d, cells, f, rows.src + k)
    ensures forall y: nat, x: nat :: y < dst.height && x < dst.width ==>
              dst.CellIn(cells, y, x) == Over(req, src.height, dst.height, s, d, f)(y, x)
  {
    forall y: nat, x: nat | y < dst.height && x < dst.width
      ensures dst.CellIn(cells, y, x) == Over(req, src.height, dst.height, s, d, f)(y, x)
    {
      PartlyEnds(req, src.height, dst.height, s, d, f, rows, y, x);
    }
  }

  /** The loop over the row pairs; the row pointers as indices. */
  method CompositeRows(src: Texture, dst: Texture, req: Request, f: (nat, nat) -> nat, rows: Rows)
    requires src.Valid() && dst.Valid() && src.buf != dst.buf && src.cellBytes == 4 && dst.cellBytes == 4
    requires req.Fits(src.width, dst.width) && req.Rows(rows, src.height, dst.height)
    requires req.overwrite ==> forall s: nat, d: nat :: f(s, d) == s
    modifies dst.buf
    ensures forall y: nat, x: nat :: y < dst.height && x < dst.width ==>
              dst.CellIn(dst.buf[..], y, x) ==
                Over(req, src.height, dst.height, CellImage(src, old(src.buf[..])), CellImage(dst, old(dst.buf[..])),
                    f)(y, x)
  {
    ghost var cells := src.buf[..];
    ghost var s, d := CellImage(src, cells), CellImage(dst, dst.buf[..]);
    RowsStart(req, src, dst, s, dst.buf[..], f, rows);
    var k := 0;
    while k < rows.count
      invariant 0 <= k && (if rows.count < 0 then k == 0 else k <= rows.count)
      invariant src.buf[..] == cells
      invariant RowsDone(req, src, dst, s, d, dst.buf[..], f, rows.src + k)
    {
      ghost var b0 := dst.buf[..];
      var row := RowOf(req, dst.height, rows, k);
      CompositeRow(src, dst, req, f, row, rows.src + k);
      BlendedDone(req, src, dst, cells, d, b0, dst.buf[..], f, rows, k, row);
      k := k + 1;
    }
    RowsEnd(req, src, dst, s, d, dst.buf[..], f, rows, k);
  }
}
