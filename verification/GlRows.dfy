/** One row of a quad in the software rasteriser: owed clears are settled or fused with the draw,
    and the span is shaded by the fastest loop that its state allows (swgl/src/gl.cc). */
module GlRows {
  import opened GlTexture
  import opened GlSpans

  /** Tests four pixels, of which only the first `span` belong to the row. Without discard the depth
      is stored at once; with it the store waits for the shader. */
  method CheckDepth4(depth: array<nat>, pos: nat, z: nat, span: nat, discard_: bool, pl: Pipeline)
    returns (any: bool, mask: seq<bool>)
    requires pos + 4 <= depth.Length
    modifies depth
    ensures |mask| == 4
    ensures forall k :: 0 <= k < 4 ==> mask[k] == (span <= k || !Passes(pl.func, z, old(depth[pos + k])))
    ensures any <==> exists k :: 0 <= k < 4 && !mask[k]
    ensures forall i :: 0 <= i < depth.Length ==>
              depth[i] == if pos <= i < pos + 4 && !discard_ && pl.depthMask && !mask[i - pos] then z else old(depth[i])
  {
    var dest := depth[pos..pos + 4];
    mask := seq(4, k requires 0 <= k < 4 => span <= k || !Passes(pl.func, z, dest[k]));
    any := exists k :: 0 <= k < 4 && !mask[k];
    if any && !discard_ && pl.depthMask {
      forall k | 0 <= k < 4 { depth[pos + k] := if mask[k] then dest[k] else z; }
    }
  }

  /** Stores the depth of the pixels that passed and were not discarded. */
  method DiscardDepth(depth: array<nat>, pos: nat, z: nat, mask: seq<bool>, discarded: seq<bool>, pl: Pipeline)
    requires pos + 4 <= depth.Length && |mask| == 4 && |discarded| == 4
    modifies depth
    ensures forall i :: 0 <= i < depth.Length ==>
              depth[i] == if pos <= i < pos + 4 && pl.depthMask && !mask[i - pos] && !discarded[i - pos]
                          then z else old(depth[i])
  {
    if pl.depthMask {
      forall k | 0 <= k < 4 { depth[pos + k] := if mask[k] || discarded[k] then depth[pos + k] else z; }
    }
  }

  ghost function RowOf(shader: FragmentShader, z: nat, useDepth: bool, pl: Pipeline): Row
    reads shader
  {
    Row(pl, z, useDepth, shader.RowAt(shader.fragY), shader.DiscardRowAt(shader.fragY))
  }

  /** Up to four pixels with the depth test: the four-wide step for `span == 4`, the tail below. */
  method CommitDepth(shader: FragmentShader, z: nat, buf: array<nat>, cpos: nat, depth: array<nat>, dpos: nat,
                     span: nat, pl: Pipeline)
    requires buf != depth && 1 <= span <= 4 && cpos + 4 <= buf.Length && dpos + 4 <= depth.Length
    modifies buf, depth, shader`fragX
    ensures span == 4 ==> shader.fragX == old(shader.fragX) + 4
    ensures Drawn(RowOf(shader, z, true, pl), old(shader.fragX), span,
                  old(buf[..]), buf[..], cpos, old(depth[..]), depth[..], dpos)
  {
    ghost var c0, d0, x0, row := buf[..], depth[..], shader.fragX, RowOf(shader, z, true, pl);
    var any, mask := CheckDepth4(depth, dpos, z, span, shader.useDiscard, pl);
    assert forall k :: 0 <= k < 4 ==> mask[k] == (span <= k || !Passes(pl.func, z, d0[dpos + k]));
    if any {
      var discarded := CommitOutput(shader, buf, cpos, mask, shader.useDiscard, pl);
      if shader.useDiscard {
        DiscardDepth(depth, dpos, z, mask, discarded, pl);
      }
    } else if span == 4 {
      shader.Skip(1);
    }
    FourPixels(row, x0, span, c0, buf[..], cpos, d0, depth[..], dpos, mask);
  }

  /** Lanes at or past `span`, failed lanes and discarded lanes keep their cells. */
  lemma {:induction false} FourPixels(row: Row, x0: int, span: nat, c0: seq<nat>, c1: seq<nat>, cpos: nat,
                   d0: seq<nat>, d1: seq<nat>, dpos: nat, mask: seq<bool>)
    requires row.useDepth && span <= 4 && cpos + 4 <= |c0| == |c1| && dpos + 4 <= |d0| == |d1| && |mask| == 4
    requires forall k :: 0 <= k < 4 ==> mask[k] == (span <= k || !Passes(row.pl.func, row.z, d0[dpos + k]))
    requires forall i :: 0 <= i < |c0| ==>
               c1[i] == if cpos <= i < cpos + 4 && !mask[i - cpos] && !row.discards(x0 + i - cpos)
                        then row.pl.Mix(c0[i], row.color(x0 + i - cpos)) else c0[i]
    requires forall i :: 0 <= i < |d0| ==>
               d1[i] == if dpos <= i < dpos + 4 && row.pl.depthMask && !mask[i - dpos] && !row.discards(x0 + i - dpos)
                        then row.z else d0[i]
    ensures Drawn(row, x0, span, c0, c1, cpos, d0, d1, dpos)
  {
    forall i | 0 <= i < |c0|
      ensures c1[i] == if cpos <= i < cpos + span then row.ColorOut(x0 + i - cpos, c0[i], d0[i - cpos + dpos])
                       else c0[i]
    {
      if cpos <= i < cpos + 4 {
        var k := i - cpos;
        assert mask[k] == (span <= k || !Passes(row.pl.func, row.z, d0[dpos + k]));
      }
    }
    forall i | 0 <= i < |d0|
      ensures d1[i] == if dpos <= i < dpos + span then row.DepthOut(x0 + i - dpos, d0[i]) else d0[i]
    {
      if dpos <= i < dpos + 4 {
        var k := i - dpos;
        assert mask[k] == (span <= k || !Passes(row.pl.func, row.z, d0[dpos + k]));
      }
    }
  }

  /** Four pixels at a time, then the tail. */
  method DrawFourWide(shader: FragmentShader, z: nat, buf: array<nat>, cpos: nat, depth: array<nat>, dpos: nat,
                      span: nat, pl: Pipeline)
    requires buf != depth && cpos + span + 4 <= buf.Length && dpos + span + 4 <= depth.Length
    modifies buf, depth, shader`fragX
    ensures Drawn(RowOf(shader, z, true, pl), old(shader.fragX), span,
                  old(buf[..]), buf[..], cpos, old(depth[..]), depth[..], dpos)
  {
    ghost var c0, d0, x0, row := buf[..], depth[..], shader.fragX, RowOf(shader, z, true, pl);
    var done := 0;
    while span - done >= 4
      invariant 0 <= done <= span && shader.fragX == x0 + done
      invariant Drawn(row, x0, done, c0, buf[..], cpos, d0, depth[..], dpos)
    {
      ghost var c1, d1 := buf[..], depth[..];
      CommitDepth(shader, z, buf, cpos + done, depth, dpos + done, 4, pl);
      DrawnThen(row, x0, done, 4, cpos, dpos, c0, c1, buf[..], d0, d1, depth[..]);
      done := done + 4;
    }
    if span - done > 0 {
      ghost var c1, d1 := buf[..], depth[..];
      CommitDepth(shader, z, buf, cpos + done, depth, dpos + done, span - done, pl);
      DrawnThen(row, x0, done, span - done, cpos, dpos, c0, c1, buf[..], d0, d1, depth[..]);
    }
  }

  /** A span with the depth test: eight pixels at a time if nothing can be discarded. */
  method DrawDepthTested(shader: FragmentShader, z: nat, buf: array<nat>, cpos: nat, depth: array<nat>, dpos: nat,
                         span: nat, pl: Pipeline)
    requires buf != depth && cpos + span + 4 <= buf.Length && dpos + span + 4 <= depth.Length
    modifies buf, depth, shader`fragX
    ensures Drawn(RowOf(shader, z, true, pl), old(shader.fragX), span,
                  old(buf[..]), buf[..], cpos, old(depth[..]), depth[..], dpos)
  {
    if !shader.useDiscard && span >= 8 {
      ghost var c0, d0, x0 := buf[..], depth[..], shader.fragX;
      var wide := span - span % 8;
      DrawDepthSpan(shader, z, buf, cpos, depth, dpos, span, pl);
      ghost var c1, d1 := buf[..], depth[..];
      DrawFourWide(shader, z, buf, cpos + wide, depth, dpos + wide, span - wide, pl);
      DrawnThen(RowOf(shader, z, true, pl), x0, wide, span - wide, cpos, dpos, c0, c1, buf[..], d0, d1, depth[..]);
    } else {
      DrawFourWide(shader, z, buf, cpos, depth, dpos, span, pl);
    }
  }

  /** The colour cells of a span drawn without a depth test. */
  ghost predicate PlainDone(row: Row, x0: int, n: nat, c0: seq<nat>, c1: seq<nat>, cpos: nat)
    requires cpos + n <= |c0|
  {
    && |c0| == |c1|
    && forall i :: 0 <= i < |c0| ==>
         c1[i] == if cpos <= i < cpos + n then row.ColorOut(x0 + i - cpos, c0[i], 0) else c0[i]
  }

  lemma {:induction false} PlainThen(row: Row, x0: int, n: nat, m: nat, c0: seq<nat>, c1: seq<nat>, c2: seq<nat>,
      cpos: nat)
    requires cpos + n + m <= |c0|
    requires PlainDone(row, x0, n, c0, c1, cpos) && PlainDone(row, x0 + n, m, c1, c2, cpos + n)
    ensures PlainDone(row, x0, n + m, c0, c2, cpos)
  {
  }

  /** Up to four pixels without the depth test. */
  method CommitPlain(shader: FragmentShader, z: nat, buf: array<nat>, cpos: nat, span: nat, pl: Pipeline)
    requires span <= 4 && cpos + 4 <= buf.Length
    modifies buf, shader`fragX
    ensures shader.fragX == old(shader.fragX) + 4
    ensures PlainDone(RowOf(shader, z, false, pl), old(shader.fragX), span, old(buf[..]), buf[..], cpos)
  {
    var mask := seq(4, k => span <= k);
    var _ := CommitOutput(shader, buf, cpos, mask, shader.useDiscard, pl);
  }

  /** A span without the depth test. */
  method DrawPlain(shader: FragmentShader, z: nat, buf: array<nat>, cpos: nat, span: nat, pl: Pipeline)
    requires cpos + span + 4 <= buf.Length
    modifies buf, shader`fragX
    ensures PlainDone(RowOf(shader, z, false, pl), old(shader.fragX), span, old(buf[..]), buf[..], cpos)
  {
    ghost var c0, x0, row := buf[..], shader.fragX, RowOf(shader, z, false, pl);
    var done := 0;
    if !shader.useDiscard && span >= 4 && shader.hasDrawSpan {
      shader.DrawSpan(buf, cpos, span - span % 4, pl);
      done := span - span % 4;
    }
    while span - done >= 4
      invariant 0 <= done <= span && shader.fragX == x0 + done
      invariant PlainDone(row, x0, done, c0, buf[..], cpos)
    {
      ghost var c1 := buf[..];
      CommitPlain(shader, z, buf, cpos + done, 4, pl);
      PlainThen(row, x0, done, 4, c0, c1, buf[..], cpos);
      done := done + 4;
    }
    if span - done > 0 {
      ghost var c1 := buf[..];
      CommitPlain(shader, z, buf, cpos + done, span - done, pl);
      PlainThen(row, x0, done, span - done, c0, c1, buf[..], cpos);
    }
  }

  /** Draws into a colour texture, with or without a depth texture of the same size. */
  class Rasterizer {
    const color: Texture
    const depth: Texture?
    /** What a draw binds: its program, its pipeline, and whether it is tested against the depth. */
    var shader: FragmentShader
    var pl: Pipeline
    var depthTest: bool

    constructor (c: Texture, d: Texture?, s: FragmentShader, p: Pipeline, test: bool)
      ensures color == c && depth == d && shader == s && pl == p && depthTest == test
    {
      color, depth, shader, pl, depthTest := c, d, s, p, test;
    }

    predicate Tested()
      reads this
    {
      depth != null && depthTest
    }

    ghost predicate Valid()
      reads this, color, if depth == null then {} else {depth}
    {
      && color.Valid()
      && (depth != null ==>
            && depth.Valid() && depth != color && depth.buf != color.buf && depth.cellBytes == 2
            && depth.width == color.width && depth.height == color.height)
    }

    /** Settles the owed clear of a depth row: it may decide the test for the whole span, it may be
        fused with the depth writes, or it is carried out so that pixels are tested one by one. */
    method PrepareDepthRow(y: nat, startx: nat, endx: nat, z: nat) returns (drawRow: bool, useDepth: bool)
      requires Valid() && depth != null && y < color.height && startx < endx <= color.width && z < 0x1_0000
      modifies depth`delayClear, depth`clearedRows, depth.buf
      ensures Valid()
      ensures !drawRow ==> forall x: nat :: startx <= x < endx ==> !Passes(pl.func, z, old(depth.Logical(y, x)))
      ensures drawRow && useDepth ==> !depth.Pending(y)
      ensures drawRow && !useDepth ==>
                && (forall x: nat :: startx <= x < endx ==> Passes(pl.func, z, old(depth.Logical(y, x))))
                && (pl.depthMask ==> !shader.useDiscard)
      ensures forall r: nat, x: nat :: r < color.height && x < color.width ==>
                depth.Logical(r, x) == if drawRow && !useDepth && pl.depthMask && r == y && startx <= x < endx
                                       then z else old(depth.Logical(r, x))
    {
      drawRow, useDepth := true, true;
      if depth.delayClear != 0 && depth.Pending(y) {
        if !Passes(pl.func, z, depth.clearVal) {
          return false, true;
        }
        if pl.depthMask {
          depth.MarkRow(y);
          if shader.useDiscard {
            depth.ClearBuffer(depth.clearVal, 0, depth.width, y, y + 1, 0, 0);
          } else {
            if startx > 0 || endx < depth.width {
              depth.ClearBuffer(depth.clearVal, 0, depth.width, y, y + 1, startx, endx);
            }
            depth.ClearBuffer(z, startx, endx, y, y + 1, 0, 0);
            useDepth := false;
          }
        } else {
          useDepth := false;
        }
      } else {
        depth.NothingOwed();
      }
    }

    /** Settles the owed clear of a colour row, leaving out the pixels that are sure to be replaced. */
    method PrepareColorRow(y: nat, startx: nat, endx: nat, whole: bool)
      requires Valid() && y < color.height && startx < endx <= color.width
      modifies color`delayClear, color`clearedRows, color.buf
      ensures Valid() && !color.Pending(y)
      ensures forall r: nat, x: nat ::
                r < color.height && x < color.width && (whole || r != y || !(startx <= x < endx)) ==>
                  color.Logical(r, x) == old(color.Logical(r, x))
    {
      if color.delayClear != 0 && color.Pending(y) {
        color.MarkRow(y);
        if whole {
          color.ClearBuffer(color.clearVal, 0, color.width, y, y + 1, 0, 0);
        } else if startx > 0 || endx < color.width {
          color.ClearBuffer(color.clearVal, 0, color.width, y, y + 1, startx, endx);
        }
      } else {
        color.NothingOwed();
      }
    }

    /** What the row must look like, one pixel at a time. */
    ghost function RowSpec(y: int, z: nat, useDepth: bool): Row
      reads this
    {
      Row(pl, z, useDepth, shader.RowAt(y), shader.DiscardRowAt(y))
    }

    /** A drawn stretch of cells, read as the pixels of a row. */
    lemma {:induction false} TestedCells(row: Row, y: nat, startx: nat, endx: nat, c0: seq<nat>, c1: seq<nat>,
        d0: seq<nat>, d1: seq<nat>)
      requires color.Shape() && depth != null && depth.Shape()
      requires depth.width == color.width && depth.height == color.height
      requires y < color.height && startx < endx <= color.width
      requires |c0| == |c1| == color.buf.Length && |d0| == |d1| == depth.buf.Length
      requires RowAt(color.stride, y) + endx <= |c0| && RowAt(depth.stride, y) + endx <= |d0|
      requires Drawn(row, startx, endx - startx, c0, c1, RowAt(color.stride, y) + startx,
                     d0, d1, RowAt(depth.stride, y) + startx)
      ensures forall r: nat, x: nat :: r < color.height && x < color.width ==>
                color.CellIn(c1, r, x) == if r == y && startx <= x < endx
                                          then row.ColorOut(x, color.CellIn(c0, r, x), depth.CellIn(d0, r, x))
                                          else color.CellIn(c0, r, x)
      ensures forall r: nat, x: nat :: r < color.height && x < color.width ==>
                depth.CellIn(d1, r, x) == if r == y && startx <= x < endx
                                          then row.DepthOut(x, depth.CellIn(d0, r, x)) else depth.CellIn(d0, r, x)
    {
      color.RowWritten(c0, c1, y, startx, endx);
      depth.RowWritten(d0, d1, y, startx, endx);
      forall x: nat | startx <= x < endx
        ensures color.CellIn(c1, y, x) == row.ColorOut(x, color.CellIn(c0, y, x), depth.CellIn(d0, y, x))
        ensures depth.CellIn(d1, y, x) == row.DepthOut(x, depth.CellIn(d0, y, x))
      {
        var i, j := RowAt(color.stride, y) + x, RowAt(depth.stride, y) + x;
        assert c1[i] == row.ColorOut(x, c0[i], d0[j]);
        assert d1[j] == row.DepthOut(x, d0[j]);
      }
    }

    lemma {:induction false} PlainCells(row: Row, y: nat, startx: nat, endx: nat, c0: seq<nat>, c1: seq<nat>)
      requires color.Shape() && y < color.height && startx < endx <= color.width
      requires |c0| == |c1| == color.buf.Length && RowAt(color.stride, y) + endx <= |c0|
      requires PlainDone(row, startx, endx - startx, c0, c1, RowAt(color.stride, y) + startx)
      ensures forall r: nat, x: nat :: r < color.height && x < color.width ==>
                color.CellIn(c1, r, x) == if r == y && startx <= x < endx
                                          then row.ColorOut(x, color.CellIn(c0, r, x), 0) else color.CellIn(c0, r, x)
    {
      color.RowWritten(c0, c1, y, startx, endx);
      forall x: nat | startx <= x < endx
        ensures color.CellIn(c1, y, x) == row.ColorOut(x, color.CellIn(c0, y, x), 0)
      {
        var i := RowAt(color.stride, y) + x;
        assert c1[i] == row.ColorOut(x, c0[i], 0);
      }
    }

    /** Shades a span of a settled row with the depth test. */
    method DrawTestedRow(y: nat, startx: nat, endx: nat, z: nat)
      requires Valid() && depth != null && y < color.height && startx < endx <= color.width
      requires !color.Pending(y) && !depth.Pending(y)
      requires shader.fragX == startx && shader.fragY == y
      modifies color.buf, depth.buf, shader`fragX
      ensures forall r: nat, x: nat :: r < color.height && x < color.width ==>
                color.Logical(r, x) ==
                if r == y && startx <= x < endx
                then RowSpec(y, z, true).ColorOut(x, old(color.Logical(r, x)), old(depth.Logical(r, x)))
                else old(color.Logical(r, x))
      ensures forall r: nat, x: nat :: r < color.height && x < color.width ==>
                depth.Logical(r, x) ==
                if r == y && startx <= x < endx
                then RowSpec(y, z, true).DepthOut(x, old(depth.Logical(r, x)))
                else old(depth.Logical(r, x))
    {
      color.RowsFit();
      depth.RowsFit();
      ghost var c0, d0 := color.buf[..], depth.buf[..];
      color.CellsRead();
      depth.CellsRead();
      DrawDepthTested(shader, z, color.buf, RowAt(color.stride, y) + startx,
                      depth.buf, RowAt(depth.stride, y) + startx, endx - startx, pl);
      TestedCells(RowSpec(y, z, true), y, startx, endx, c0, color.buf[..], d0, depth.buf[..]);
      color.CellsRead();
      depth.CellsRead();
    }

    /** Shades a span of a settled row without the depth test. */
    method DrawPlainRow(y: nat, startx: nat, endx: nat, z: nat)
      requires Valid() && y < color.height && startx < endx <= color.width
      requires !color.Pending(y)
      requires shader.fragX == startx && shader.fragY == y
      modifies color.buf, shader`fragX
      ensures forall r: nat, x: nat :: r < color.height && x < color.width ==>
                color.Logical(r, x) == if r == y && startx <= x < endx
                                       then RowSpec(y, z, false).ColorOut(x, old(color.Logical(r, x)), 0)
                                       else old(color.Logical(r, x))
    {
      color.RowsFit();
      ghost var c0 := color.buf[..];
      color.CellsRead();
      DrawPlain(shader, z, color.buf, RowAt(color.stride, y) + startx, endx - startx, pl);
      PlainCells(RowSpec(y, z, false), y, startx, endx, c0, color.buf[..]);
      color.CellsRead();
    }

    ghost function DepthAt(r: nat, x: nat): nat
      requires Valid() && r < color.height && x < color.width
      reads this, color, color.buf, if depth == null then {} else {depth, depth.buf}
    {
      if depth == null then 0 else depth.Logical(r, x)
    }

    /** One span of one row: whatever clears are owed, the images that a reader would see change as
        if every clear had been carried out and every pixel had been tested and drawn on its own. */
    method DrawRow(y: nat, startx: nat, endx: nat, z: nat)
      requires Valid() && y < color.height && startx < endx <= color.width && z < 0x1_0000
      modifies color`delayClear, color`clearedRows, color.buf, shader
      modifies if depth == null then {} else {depth, depth.buf}
      ensures Valid()
      ensures forall r: nat, x: nat :: r < color.height && x < color.width ==>
                color.Logical(r, x) ==
                if r == y && startx <= x < endx
                then RowSpec(y, z, Tested()).ColorOut(x, old(color.Logical(r, x)), old(DepthAt(r, x)))
                else old(color.Logical(r, x))
      ensures depth != null ==> depth.clearVal == old(depth.clearVal)
      ensures depth != null ==> forall r: nat, x: nat :: r < color.height && x < color.width ==>
                depth.Logical(r, x) ==
                if r == y && startx <= x < endx
                then RowSpec(y, z, Tested()).DepthOut(x, old(depth.Logical(r, x)))
                else old(depth.Logical(r, x))
    {
      var drawRow, useDepth := true, Tested();
      if Tested() {
        drawRow, useDepth := PrepareDepthRow(y, startx, endx, z);
      }
      if drawRow {
        PrepareColorRow(y, startx, endx, useDepth || pl.blend.Some? || shader.useDiscard);
        shader.InitSpan(startx, y);
        if useDepth {
          DrawTestedRow(y, startx, endx, z);
        } else {
          DrawPlainRow(y, startx, endx, z);
        }
      }
    }
  }
}
