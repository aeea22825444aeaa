/** Shading a span of pixels with a depth test, in the software rasteriser (swgl/src/gl.cc,
    swgl/src/program.h). The fast loops test eight pixels at a time, gather passing chunks into one
    long `DrawSpan`, and gather failing chunks into one `Skip`. The shader keeps its own position,
    so a wrong advance would show up as a wrong colour. */
module GlSpans {
  import opened Options

  datatype DepthFunc = Less | LessEqual

  /** `int16_t(v)` of a 16-bit cell. */
  function Int16(v: nat): int {
    if v < 0x8000 then v else v - 0x1_0000
  }

  predicate Passes(func: DepthFunc, z: nat, d: nat) {
    match func
    case Less => Int16(z) < Int16(d)
    case LessEqual => Int16(z) <= Int16(d)
  }

  /** Depth and blend state. Without blending the source colour replaces the destination. */
  datatype Pipeline = Pipeline(func: DepthFunc, depthMask: bool, blend: Option<(nat, nat) -> nat>) {
    function Mix(dst: nat, src: nat): nat {
      match blend
      case None => src
      case Some(f) => f(dst, src)
    }
  }

  /** What one row is drawn with: the reference is one pixel at a time. */
  datatype Row = Row(pl: Pipeline, z: nat, useDepth: bool, color: int -> nat, discards: int -> bool) {

    predicate Writes(x: int, d: nat) {
      (useDepth ==> Passes(pl.func, z, d)) && !discards(x)
    }

    function ColorOut(x: int, c: nat, d: nat): nat {
      if Writes(x, d) then pl.Mix(c, color(x)) else c
    }

    function DepthOut(x: int, d: nat): nat {
      if useDepth && pl.depthMask && Writes(x, d) then z else d
    }
  }

  /** The colour cells from `cpos` hold pixels [x0, x0 + n) as drawn over `c0` with depths `d0`. */
  ghost predicate ColorDone(row: Row, x0: int, n: nat, c0: seq<nat>, c1: seq<nat>, cpos: nat, d0: seq<nat>, dpos: nat)
    requires cpos + n <= |c0| && dpos + n <= |d0|
  {
    && |c0| == |c1|
    && forall i :: 0 <= i < |c0| ==>
         c1[i] == if cpos <= i < cpos + n then row.ColorOut(x0 + i - cpos, c0[i], d0[i - cpos + dpos]) else c0[i]
  }

  ghost predicate DepthDone(row: Row, x0: int, n: nat, d0: seq<nat>, d1: seq<nat>, dpos: nat)
    requires dpos + n <= |d0|
  {
    && |d0| == |d1|
    && forall i :: 0 <= i < |d0| ==>
         d1[i] == if dpos <= i < dpos + n then row.DepthOut(x0 + i - dpos, d0[i]) else d0[i]
  }

  /** Pixels [x0, x0 + n) were drawn, and no other cell changed. */
  ghost predicate Drawn(row: Row, x0: int, n: nat, c0: seq<nat>, c1: seq<nat>, cpos: nat,
                        d0: seq<nat>, d1: seq<nat>, dpos: nat)
    requires cpos + n <= |c0| && dpos + n <= |d0|
  {
    ColorDone(row, x0, n, c0, c1, cpos, d0, dpos) && DepthDone(row, x0, n, d0, d1, dpos)
  }

  /** Drawing two adjacent stretches is drawing the whole. */
  lemma {:induction false} DrawnThen(row: Row, x0: int, n: nat, m: nat, cpos: nat, dpos: nat,
                  c0: seq<nat>, c1: seq<nat>, c2: seq<nat>, d0: seq<nat>, d1: seq<nat>, d2: seq<nat>)
    requires cpos + n + m <= |c0| && dpos + n + m <= |d0|
    requires Drawn(row, x0, n, c0, c1, cpos, d0, d1, dpos)
    requires Drawn(row, x0 + n, m, c1, c2, cpos + n, d1, d2, dpos + n)
    ensures Drawn(row, x0, n + m, c0, c2, cpos, d0, d2, dpos)
  {
  }

  /** What a bound program does to the pixels of a draw. */
  datatype Program = Program(
    color: (int, int) -> nat, discardsAt: (int, int) -> bool, hasDrawSpan: bool, useDiscard: bool)
  {
    predicate Discards(x: int, y: int) {
      useDiscard && discardsAt(x, y)
    }
  }

  /** The stepping contract of a fragment shader: every run shades the chunk of four pixels at the
      current position and moves past it. */
  class FragmentShader {
    var fragX: int
    var fragY: int
    const color: (int, int) -> nat
    const discardsAt: (int, int) -> bool
    const hasDrawSpan: bool
    const useDiscard: bool

    constructor (p: Program)
      ensures color == p.color && discardsAt == p.discardsAt
      ensures hasDrawSpan == p.hasDrawSpan && useDiscard == p.useDiscard
    {
      fragX, fragY := 0, 0;
      color, discardsAt, hasDrawSpan, useDiscard := p.color, p.discardsAt, p.hasDrawSpan, p.useDiscard;
    }

    ghost function RowAt(y: int): (int -> nat) {
      x => color(x, y)
    }

    ghost function DiscardRowAt(y: int): (int -> bool) {
      x => useDiscard && discardsAt(x, y)
    }

    method InitSpan(x: int, y: int)
      modifies this
      ensures fragX == x && fragY == y
    {
      fragX, fragY := x, y;
    }

    method Run() returns (frag: seq<nat>, discarded: seq<bool>)
      modifies `fragX
      ensures fragX == old(fragX) + 4 && |frag| == 4 && |discarded| == 4
      ensures forall k :: 0 <= k < 4 ==> frag[k] == color(old(fragX) + k, fragY)
      ensures forall k :: 0 <= k < 4 ==> discarded[k] == discardsAt(old(fragX) + k, fragY)
    {
      var x, y := fragX, fragY;
      frag := seq(4, k => color(x + k, y));
      discarded := seq(4, k => discardsAt(x + k, y));
      fragX := fragX + 4;
    }

    method Skip(chunks: nat)
      modifies `fragX
      ensures fragX == old(fragX) + 4 * chunks
    {
      fragX := fragX + 4 * chunks;
    }

    /** Shades `len` pixels with no depth test and no discard. */
    method DrawSpan(buf: array<nat>, pos: nat, len: nat, pl: Pipeline)
      requires pos + len <= buf.Length && len % 4 == 0
      modifies buf, `fragX
      ensures fragX == old(fragX) + len
      ensures forall i :: 0 <= i < buf.Length ==>
                buf[i] == if pos <= i < pos + len
                          then pl.Mix(old(buf[i]), color(old(fragX) + i - pos, fragY)) else old(buf[i])
    {
      var drawn := 0;
      while drawn < len
        invariant 0 <= drawn <= len && drawn % 4 == 0
        invariant fragX == old(fragX) + drawn
        invariant forall i :: 0 <= i < buf.Length ==>
                    buf[i] == if pos <= i < pos + drawn
                              then pl.Mix(old(buf[i]), color(old(fragX) + i - pos, fragY)) else old(buf[i])
      {
        var _ := CommitOutput(this, buf, pos + drawn, [false, false, false, false], false, pl);
        drawn := drawn + 4;
      }
    }
  }

  /** Runs the shader on one chunk and stores the pixels that are neither masked nor discarded. The
      store covers all four cells. */
  method CommitOutput(shader: FragmentShader, buf: array<nat>, pos: nat, mask: seq<bool>, discard_: bool, pl: Pipeline)
    returns (discarded: seq<bool>)
    requires pos + 4 <= buf.Length && |mask| == 4
    modifies buf, shader`fragX
    ensures shader.fragX == old(shader.fragX) + 4
    ensures |discarded| == 4
    ensures forall k :: 0 <= k < 4 ==> discarded[k] == shader.discardsAt(old(shader.fragX) + k, shader.fragY)
    ensures forall i :: 0 <= i < buf.Length ==>
              buf[i] == if pos <= i < pos + 4 && !mask[i - pos] && !(discard_ && discarded[i - pos])
                        then pl.Mix(old(buf[i]), shader.color(old(shader.fragX) + i - pos, shader.fragY))
                        else old(buf[i])
  {
    var frag;
    frag, discarded := shader.Run();
    forall k | 0 <= k < 4 {
      buf[pos + k] := if mask[k] || (discard_ && discarded[k]) then buf[pos + k] else pl.Mix(buf[pos + k], frag[k]);
    }
  }

  /** Tests eight pixels, storing the depth of those that pass if depth writes are on. The code is
      0 if none passed, -1 if all did, 1 otherwise. */
  method CheckDepth8(depth: array<nat>, pos: nat, z: nat, pl: Pipeline) returns (code: int, mask: seq<bool>)
    requires pos + 8 <= depth.Length
    modifies depth
    ensures |mask| == 8 && forall k :: 0 <= k < 8 ==> mask[k] == !Passes(pl.func, z, old(depth[pos + k]))
    ensures code == 0 <==> forall k :: 0 <= k < 8 ==> mask[k]
    ensures code == -1 <==> forall k :: 0 <= k < 8 ==> !mask[k]
    ensures forall i :: 0 <= i < depth.Length ==>
              depth[i] == if pos <= i < pos + 8 && pl.depthMask && !mask[i - pos] then z else old(depth[i])
  {
    var dest := depth[pos..pos + 8];
    mask := seq(8, k requires 0 <= k < 8 => !Passes(pl.func, z, dest[k]));
    if forall k :: 0 <= k < 8 ==> mask[k] {
      code := 0;
      assert mask[0];
    } else if forall k :: 0 <= k < 8 ==> !mask[k] {
      if pl.depthMask {
        forall k | 0 <= k < 8 { depth[pos + k] := z; }
      }
      code := -1;
    } else {
      if pl.depthMask {
        forall k | 0 <= k < 8 { depth[pos + k] := if mask[k] then dest[k] else z; }
      }
      code := 1;
    }
  }

  /** The row that a shader draws with the depth test on. */
  ghost function DepthRow(shader: FragmentShader, z: nat, pl: Pipeline): Row
    reads shader
  {
    Row(pl, z, true, shader.RowAt(shader.fragY), shader.DiscardRowAt(shader.fragY))
  }

  lemma {:induction false} ColorThen(row: Row, x0: int, n: nat, m: nat, cpos: nat, dpos: nat,
                  c0: seq<nat>, c1: seq<nat>, c2: seq<nat>, d0: seq<nat>)
    requires cpos + n + m <= |c0| && dpos + n + m <= |d0|
    requires ColorDone(row, x0, n, c0, c1, cpos, d0, dpos)
    requires ColorDone(row, x0 + n, m, c1, c2, cpos + n, d0, dpos + n)
    ensures ColorDone(row, x0, n + m, c0, c2, cpos, d0, dpos)
  {
  }

  /** Draws the pending run of pixels, all of which passed. */
  method FlushRun(shader: FragmentShader, z: nat, buf: array<nat>, pos: nat, len: nat, pl: Pipeline,
                  ghost d0: seq<nat>, ghost dpos: nat)
    requires pos + len <= buf.Length && len % 4 == 0 && dpos + len <= |d0| && !shader.useDiscard
    requires forall i :: dpos <= i < dpos + len ==> Passes(pl.func, z, d0[i])
    modifies buf, shader`fragX
    ensures shader.fragX == old(shader.fragX) + len
    ensures ColorDone(DepthRow(shader, z, pl), old(shader.fragX), len, old(buf[..]), buf[..], pos, d0, dpos)
  {
    shader.DrawSpan(buf, pos, len, pl);
  }

  /** Draws eight pixels, some of which passed. */
  method CommitPair(shader: FragmentShader, z: nat, buf: array<nat>, pos: nat, mask: seq<bool>, pl: Pipeline,
                    ghost d0: seq<nat>, ghost dpos: nat)
    requires pos + 8 <= buf.Length && dpos + 8 <= |d0| && !shader.useDiscard
    requires |mask| == 8 && forall k :: 0 <= k < 8 ==> mask[k] == !Passes(pl.func, z, d0[dpos + k])
    modifies buf, shader`fragX
    ensures shader.fragX == old(shader.fragX) + 8
    ensures ColorDone(DepthRow(shader, z, pl), old(shader.fragX), 8, old(buf[..]), buf[..], pos, d0, dpos)
  {
    var _ := CommitOutput(shader, buf, pos, mask[..4], false, pl);
    var _ := CommitOutput(shader, buf, pos + 4, mask[4..], false, pl);
  }

  /** Between two chunks: all pixels before the pending run are drawn, the pending run has passed
      the depth test, and the shader lags by exactly the pending run or the pending skip, never both. */
  ghost predicate SpanState(shader: FragmentShader, z: nat, pl: Pipeline, x0: int, done: nat, skip: nat, len: nat,
                            c0: seq<nat>, c1: seq<nat>, cpos: nat, d0: seq<nat>, dpos: nat)
    reads shader
  {
    && done % 8 == 0 && len % 8 == 0 && len <= done
    && cpos + done <= |c0| && dpos + done <= |d0|
    && (skip == 0 || len == 0)
    && shader.fragX + 4 * skip + len == x0 + done
    && ColorDone(DepthRow(shader, z, pl), x0, done - len, c0, c1, cpos, d0, dpos)
    && (forall i :: dpos + done - len <= i < dpos + done ==> Passes(pl.func, z, d0[i]))
  }

  /** Disposes of the pending work: at most one of the two is non-zero. */
  method FlushPending(shader: FragmentShader, z: nat, buf: array<nat>, done: nat, skip: nat, len: nat, pl: Pipeline,
                      ghost x0: int, ghost c0: seq<nat>, cpos: nat, ghost d0: seq<nat>, ghost dpos: nat)
    requires |c0| == buf.Length && !shader.useDiscard
    requires SpanState(shader, z, pl, x0, done, skip, len, c0, buf[..], cpos, d0, dpos)
    modifies buf, shader`fragX
    ensures SpanState(shader, z, pl, x0, done, 0, 0, c0, buf[..], cpos, d0, dpos)
  {
    if len != 0 {
      ghost var c1 := buf[..];
      FlushRun(shader, z, buf, cpos + done - len, len, pl, d0, dpos + done - len);
      ColorThen(DepthRow(shader, z, pl), x0, done - len, len, cpos, dpos, c0, c1, buf[..], d0);
    } else if skip != 0 {
      shader.Skip(skip);
    }
  }

  /** One chunk of eight pixels, after its depth test. */
  method ShadeChunk(shader: FragmentShader, z: nat, buf: array<nat>, done: nat, skip: nat, len: nat, pl: Pipeline,
                    code: int, mask: seq<bool>,
                    ghost x0: int, ghost c0: seq<nat>, cpos: nat, ghost d0: seq<nat>, ghost dpos: nat)
    returns (skip': nat, len': nat)
    requires |c0| == buf.Length && !shader.useDiscard
    requires SpanState(shader, z, pl, x0, done, skip, len, c0, buf[..], cpos, d0, dpos)
    requires cpos + done + 8 <= |c0| && dpos + done + 8 <= |d0|
    requires |mask| == 8 && forall k :: 0 <= k < 8 ==> mask[k] == !Passes(pl.func, z, d0[dpos + done + k])
    requires code == 0 <==> forall k :: 0 <= k < 8 ==> mask[k]
    requires code == -1 <==> forall k :: 0 <= k < 8 ==> !mask[k]
    modifies buf, shader`fragX
    ensures SpanState(shader, z, pl, x0, done + 8, skip', len', c0, buf[..], cpos, d0, dpos)
  {
    skip', len' := skip, len;
    ghost var row := DepthRow(shader, z, pl);
    if code == 0 {
      if len != 0 {
        FlushPending(shader, z, buf, done, skip, len, pl, x0, c0, cpos, d0, dpos);
        len' := 0;
      }
      skip' := skip + 2;
      AllFailed(row, x0, done, c0, buf[..], cpos, d0, dpos, mask);
    } else if code == -1 && shader.hasDrawSpan {
      if skip != 0 {
        FlushPending(shader, z, buf, done, skip, len, pl, x0, c0, cpos, d0, dpos);
        skip' := 0;
      }
      len' := len + 8;
      AllPassed(row, d0, dpos + done, mask);
    } else {
      FlushPending(shader, z, buf, done, skip, len, pl, x0, c0, cpos, d0, dpos);
      skip', len' := 0, 0;
      ghost var c1 := buf[..];
      CommitPair(shader, z, buf, cpos + done, mask, pl, d0, dpos + done);
      ColorThen(row, x0, done, 8, cpos, dpos, c0, c1, buf[..], d0);
    }
  }

  /** The eight-wide loop: draws the first `span & ~7` pixels and leaves the shader just past them. */
  method DrawDepthSpan(shader: FragmentShader, z: nat, buf: array<nat>, cpos: nat, depth: array<nat>, dpos: nat,
                       span: nat, pl: Pipeline)
    requires buf != depth && 8 <= span && cpos + span <= buf.Length && dpos + span <= depth.Length
    requires !shader.useDiscard
    modifies buf, depth, shader`fragX
    ensures shader.fragX == old(shader.fragX) + (span - span % 8)
    ensures Drawn(DepthRow(shader, z, pl), old(shader.fragX), span - span % 8,
                  old(buf[..]), buf[..], cpos, old(depth[..]), depth[..], dpos)
  {
    ghost var c0, d0, x0 := buf[..], depth[..], shader.fragX;
    var done, skip, len := 0, 0, 0;
    while done + 8 <= span
      invariant done <= span
      invariant SpanState(shader, z, pl, x0, done, skip, len, c0, buf[..], cpos, d0, dpos)
      invariant DepthDone(DepthRow(shader, z, pl), x0, done, d0, depth[..], dpos)
    {
      ghost var d1 := depth[..];
      var code, mask := CheckDepth8(depth, dpos + done, z, pl);
      DepthStep(DepthRow(shader, z, pl), x0, done, d0, d1, depth[..], dpos, mask);
      skip, len := ShadeChunk(shader, z, buf, done, skip, len, pl, code, mask, x0, c0, cpos, d0, dpos);
      done := done + 8;
    }
    FlushPending(shader, z, buf, done, skip, len, pl, x0, c0, cpos, d0, dpos);
  }

  lemma {:induction false} DepthStep(row: Row, x0: int, n: nat, d0: seq<nat>, d1: seq<nat>, d2: seq<nat>, dpos: nat,
      mask: seq<bool>)
    requires dpos + n + 8 <= |d0| && row.useDepth && forall x :: !row.discards(x)
    requires DepthDone(row, x0, n, d0, d1, dpos) && |d2| == |d1| && |mask| == 8
    requires forall k :: 0 <= k < 8 ==> mask[k] == !Passes(row.pl.func, row.z, d1[dpos + n + k])
    requires forall i :: 0 <= i < |d1| ==>
               d2[i] == if dpos + n <= i < dpos + n + 8 && row.pl.depthMask && !mask[i - dpos - n] then row.z else d1[i]
    ensures DepthDone(row, x0, n + 8, d0, d2, dpos)
    ensures forall k :: 0 <= k < 8 ==> mask[k] == !Passes(row.pl.func, row.z, d0[dpos + n + k])
  {
    forall i | dpos + n <= i < dpos + n + 8 ensures d2[i] == row.DepthOut(x0 + i - dpos, d0[i]) {
      var k := i - dpos - n;
      assert mask[k] == !Passes(row.pl.func, row.z, d1[dpos + n + k]);
    }
  }

  lemma {:induction false} AllFailed(row: Row, x0: int, n: nat, c0: seq<nat>, c1: seq<nat>, cpos: nat, d0: seq<nat>,
      dpos: nat, mask: seq<bool>)
    requires cpos + n + 8 <= |c0| && dpos + n + 8 <= |d0| && row.useDepth
    requires ColorDone(row, x0, n, c0, c1, cpos, d0, dpos) && |mask| == 8
    requires forall k :: 0 <= k < 8 ==> mask[k] == !Passes(row.pl.func, row.z, d0[dpos + n + k])
    requires forall k :: 0 <= k < 8 ==> mask[k]
    ensures ColorDone(row, x0, n + 8, c0, c1, cpos, d0, dpos)
  {
    forall i | cpos + n <= i < cpos + n + 8
      ensures c1[i] == row.ColorOut(x0 + i - cpos, c0[i], d0[i - cpos + dpos])
    {
      assert mask[i - cpos - n];
    }
  }

  lemma {:induction false} AllPassed(row: Row, d0: seq<nat>, dpos: nat, mask: seq<bool>)
    requires dpos + 8 <= |d0| && |mask| == 8
    requires forall k :: 0 <= k < 8 ==> mask[k] == !Passes(row.pl.func, row.z, d0[dpos + k])
    requires forall k :: 0 <= k < 8 ==> !mask[k]
    ensures forall i :: dpos <= i < dpos + 8 ==> Passes(row.pl.func, row.z, d0[i])
  {
    forall i | dpos <= i < dpos + 8 ensures Passes(row.pl.func, row.z, d0[i]) {
      assert !mask[i - dpos];
    }
  }
}
