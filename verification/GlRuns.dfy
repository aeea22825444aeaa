/** Whole runs of clears, spans and read-backs: with delayed clears the images that a reader sees
    are those of a rasteriser that clears eagerly and draws one pixel at a time. */
module GlRuns {
  import opened Options
  import opened GlSpans
  import opened GlRows

  /** Depth values are stored biased, since the wide comparison is signed. */
  function Bias(v: nat): (r: nat)
    requires v < 0x1_0000
    ensures r < 0x1_0000
  {
    (v + 0x8000) % 0x1_0000
  }

  /** The biased test is the unsigned one. */
  lemma {:induction false} BiasKeepsOrder(z: nat, d: nat)
    requires z < 0x1_0000 && d < 0x1_0000
    ensures Passes(Less, Bias(z), Bias(d)) <==> z < d
    ensures Passes(LessEqual, Bias(z), Bias(d)) <==> z <= d
  {
    assert Int16(Bias(z)) == z - 0x8000 && Int16(Bias(d)) == d - 0x8000;
  }

  /** Clear values are those of the context; a span has its depth, its row of pixels, and the state that
      its draw binds: program, pipeline, and the depth test on or off. */
  datatype Command =
    | ClearColor(color: nat)
    | ClearDepth(depth: nat)
    | Span(y: nat, startx: nat, endx: nat, z: nat, program: Program, pl: Pipeline, depthTest: bool)
    | ReadColor
    | ReadDepth

  datatype Frame = Frame(color: seq<seq<nat>>, depth: seq<seq<nat>>)

  /** A pixel of a span is drawn: it is in the span, the program keeps it, and the test, if there is one,
      passes. The stored depth `d` is biased; the test is that of the depths themselves. */
  ghost predicate Hit(hasDepth: bool, c: Command, y: int, x: int, d: nat)
    requires c.Span?
  {
    && y == c.y && c.startx <= x < c.endx
    && !(c.program.useDiscard && c.program.discardsAt(x, y))
    && (hasDepth && c.depthTest ==>
          var stored := (d + 0x8000) % 0x1_0000;
          if c.pl.func.Less? then c.z < stored else c.z <= stored)
  }

  /** What a command does to a pixel of colour `c0` and depth `d0`, on the command's fields. */
  ghost predicate Effect(cellBytes: nat, hasDepth: bool, c: Command, y: int, x: int, c0: nat, d0: nat, c1: nat,
                         d1: nat) {
    match c
    case ClearColor(v) => d1 == d0 && c1 == if cellBytes == 4 then v else v / 0x1_0000 % 0x100
    case ClearDepth(v) => c1 == c0 && d1 == if hasDepth then (v + 0x8000) % 0x1_0000 else d0
    case Span(_, _, _, z, program, pl, depthTest) =>
      (hasDepth && depthTest ==> d0 < 0x1_0000) ==>
      (&& c1 == (if !Hit(hasDepth, c, y, x, d0) then c0
                 else if pl.blend.Some? then pl.blend.value(c0, program.color(x, y)) else program.color(x, y))
       && d1 == if hasDepth && depthTest && pl.depthMask && Hit(hasDepth, c, y, x, d0)
                then (z + 0x8000) % 0x1_0000 else d0)
    case ReadColor => c1 == c0 && d1 == d0
    case ReadDepth => c1 == c0 && d1 == d0
  }

  /** The surface that the run draws on. */
  datatype Surface = Surface(width: nat, height: nat, cellBytes: nat, hasDepth: bool) {

    ghost predicate Fits(f: Frame) {
      && |f.color| == |f.depth| == height
      && forall y :: 0 <= y < height ==> |f.color[y]| == |f.depth[y]| == width
    }

    predicate Accepts(c: Command) {
      match c
      case ClearColor(v) => v < 0x1_0000_0000
      case ClearDepth(v) => v < 0x1_0000
      case Span(y, startx, endx, z, _, _, _) => y < height && startx < endx <= width && z < 0x1_0000
      case ReadColor => true
      case ReadDepth => true
    }

    /** An 8-bit target keeps the red channel of the clear colour. */
    function ClearValue(v: nat): nat {
      if cellBytes == 4 then v else v / 0x1_0000 % 0x100
    }

    ghost function RowFor(c: Command): Row
      requires c.Span? && Accepts(c)
    {
      Row(c.pl, Bias(c.z), hasDepth && c.depthTest, x => c.program.color(x, c.y), x => c.program.Discards(x, c.y))
    }

    /** Eager semantics: clears fill at once, and each pixel of a span is tested and drawn alone. */
    ghost function Step(f: Frame, c: Command): Frame
      requires Fits(f) && Accepts(c)
      ensures Fits(Step(f, c))
    {
      match c
      case ClearColor(v) => f.(color := seq(height, y => seq(width, x => ClearValue(v))))
      case ClearDepth(v) =>
        if hasDepth then f.(depth := seq(height, y => seq(width, x => Bias(v)))) else f
      case Span(y, startx, endx, _, _, _, _) =>
        var row := RowFor(c);
        var colors := seq(width, x requires 0 <= x < width =>
          if startx <= x < endx then row.ColorOut(x, f.color[y][x], f.depth[y][x]) else f.color[y][x]);
        var depths := seq(width, x requires 0 <= x < width =>
          if startx <= x < endx then row.DepthOut(x, f.depth[y][x]) else f.depth[y][x]);
        Frame(f.color[y := colors], f.depth[y := depths])
      case ReadColor => f
      case ReadDepth => f
    }

    ghost function Run(f: Frame, cs: seq<Command>): Frame
      requires Fits(f) && forall c :: c in cs ==> Accepts(c)
      ensures Fits(Run(f, cs))
    {
      if cs == [] then f else Step(Run(f, cs[..|cs| - 1]), cs[|cs| - 1])
    }
  }

  /** A step of the eager rasteriser, pixel by pixel: a span blends, or replaces without a blend. */
  lemma {:induction false} StepEffect(t: Surface, f: Frame, c: Command, y: nat, x: nat)
    requires t.Fits(f) && t.Accepts(c) && y < t.height && x < t.width
    ensures var g := t.Step(f, c);
            Effect(t.cellBytes, t.hasDepth, c, y, x, f.color[y][x], f.depth[y][x], g.color[y][x], g.depth[y][x])
  {
    if c.Span? && f.depth[y][x] < 0x1_0000 {
      var stored := (f.depth[y][x] + 0x8000) % 0x1_0000;
      assert Bias(stored) == f.depth[y][x];
      BiasKeepsOrder(c.z, stored);
    }
  }

  lemma {:induction false} StepEffects(t: Surface, f: Frame, c: Command)
    requires t.Fits(f) && t.Accepts(c)
    ensures var g := t.Step(f, c);
            forall y: nat, x: nat :: y < t.height && x < t.width ==>
              && Effect(t.cellBytes, t.hasDepth, c, y, x, f.color[y][x], f.depth[y][x], g.color[y][x], g.depth[y][x])
              && (!t.hasDepth ==> Effect(t.cellBytes, false, c, y, x, f.color[y][x], 0, g.color[y][x], 0))
  {
    forall y: nat, x: nat | y < t.height && x < t.width
      ensures var g := t.Step(f, c);
              && Effect(t.cellBytes, t.hasDepth, c, y, x, f.color[y][x], f.depth[y][x], g.color[y][x], g.depth[y][x])
              && (!t.hasDepth ==> Effect(t.cellBytes, false, c, y, x, f.color[y][x], 0, g.color[y][x], 0))
    {
      StepEffect(t, f, c, y, x);
    }
  }

  /** Every frame of a run comes from the one before by the effect of one command on each pixel. */
  lemma {:induction false} RunEffects(t: Surface, f: Frame, cs: seq<Command>, i: nat, y: nat, x: nat)
    requires t.Fits(f) && (forall c :: c in cs ==> t.Accepts(c)) && i < |cs| && y < t.height && x < t.width
    ensures t.Run(f, cs[..0]) == f && t.Run(f, cs[..|cs|]) == t.Run(f, cs)
    ensures var g, h := t.Run(f, cs[..i]), t.Run(f, cs[..i + 1]);
            Effect(t.cellBytes, t.hasDepth, cs[i], y, x, g.color[y][x], g.depth[y][x], h.color[y][x], h.depth[y][x])
  {
    assert cs[..i + 1][..i] == cs[..i] && cs[..i + 1][i] == cs[i] && cs[..|cs|] == cs;
    StepEffect(t, t.Run(f, cs[..i]), cs[i], y, x);
  }

  class Device {
    const raster: Rasterizer

    constructor (r: Rasterizer)
      ensures raster == r
    {
      raster := r;
    }

    ghost predicate Valid()
      reads raster, raster.color, if raster.depth == null then {} else {raster.depth}
    {
      raster.Valid() && (raster.color.cellBytes == 4 || raster.color.cellBytes == 1)
    }

    ghost function Target(): Surface {
      Surface(raster.color.width, raster.color.height, raster.color.cellBytes, raster.depth != null)
    }

    /** The images that a reader would see. */
    ghost predicate Shows(f: Frame)
      requires Valid()
      reads raster, raster.color, raster.color.buf,
            if raster.depth == null then {} else {raster.depth, raster.depth.buf}
    {
      && Target().Fits(f)
      && (forall y: nat, x: nat :: y < raster.color.height && x < raster.color.width ==>
            raster.color.Logical(y, x) == f.color[y][x])
      && (raster.depth != null ==>
            forall y: nat, x: nat :: y < raster.color.height && x < raster.color.width ==>
              raster.depth.Logical(y, x) == f.depth[y][x])
    }

    /** `Clear` only marks the rows as owed. */
    method Clear(c: Command, ghost f: Frame)
      requires Valid() && Shows(f) && Target().Accepts(c) && (c.ClearColor? || c.ClearDepth?)
      modifies raster.color, if raster.depth == null then {} else {raster.depth}
      ensures Valid() && Shows(Target().Step(f, c))
    {
      if c.ClearColor? {
        if raster.color.cellBytes == 4 {
          raster.color.EnableDelayedClear(c.color);
        } else {
          raster.color.EnableDelayedClear(c.color / 0x1_0000 % 0x100);
        }
      } else if raster.depth != null {
        raster.depth.EnableDelayedClear(Bias(c.depth));
      }
    }

    /** The state that the draw asks for is bound. */
    ghost predicate Bound(c: Command)
      requires c.Span?
      reads raster
    {
      && raster.pl == c.pl && raster.depthTest == c.depthTest
      && raster.shader.color == c.program.color && raster.shader.discardsAt == c.program.discardsAt
      && raster.shader.useDiscard == c.program.useDiscard
    }

    method Bind(c: Command, ghost f: Frame)
      requires Valid() && Shows(f) && c.Span?
      modifies raster
      ensures Valid() && Shows(f) && Bound(c) && fresh(raster.shader)
    {
      raster.shader := new FragmentShader(c.program);
      raster.pl, raster.depthTest := c.pl, c.depthTest;
    }

    /** Binds what the draw needs, then draws the row. */
    method DrawSpan(c: Command, ghost f: Frame)
      requires Valid() && Shows(f) && Target().Accepts(c) && c.Span?
      modifies raster, raster.color, raster.color.buf
      modifies if raster.depth == null then {} else {raster.depth, raster.depth.buf}
      ensures Valid() && Shows(Target().Step(f, c))
    {
      Bind(c, f);
      DrawBound(c, f);
    }

    method DrawBound(c: Command, ghost f: Frame)
      requires Valid() && Shows(f) && Target().Accepts(c) && c.Span? && Bound(c)
      modifies raster.shader, raster.color, raster.color.buf
      modifies if raster.depth == null then {} else {raster.depth, raster.depth.buf}
      ensures Valid() && Shows(Target().Step(f, c))
    {
      raster.DrawRow(c.y, c.startx, c.endx, Bias(c.z));
      SameRow(c);
    }

    /** The rasteriser's row and the surface's row draw the same pixels. */
    lemma {:induction false} SameRow(c: Command)
      requires Valid() && Target().Accepts(c) && c.Span? && Bound(c)
      ensures forall x: int, col: nat, d: nat :: Target().RowFor(c).ColorOut(x, col, d) ==
                raster.RowSpec(c.y, Bias(c.z), raster.Tested())
                  .ColorOut(x, col, if raster.depth == null then 0 else d)
      ensures forall x: int, d: nat :: Target().RowFor(c).DepthOut(x, d) ==
                raster.RowSpec(c.y, Bias(c.z), raster.Tested()).DepthOut(x, d)
    {
      var row, spec := Target().RowFor(c), raster.RowSpec(c.y, Bias(c.z), raster.Tested());
      forall x: int ensures row.discards(x) == spec.discards(x) && row.color(x) == spec.color(x) {
      }
    }

    /** The depth that a reader would see, or nothing to see. */
    ghost function DepthAt(y: nat, x: nat): nat
      requires Valid() && y < raster.color.height && x < raster.color.width
      reads raster, raster.color, if raster.depth == null then {} else {raster.depth, raster.depth.buf}
    {
      if raster.depth == null then 0 else raster.depth.Logical(y, x)
    }

    method Execute(c: Command, ghost f: Frame)
      requires Valid() && Shows(f) && Target().Accepts(c)
      modifies raster, raster.color, raster.color.buf
      modifies if raster.depth == null then {} else {raster.depth, raster.depth.buf}
      ensures Valid() && Shows(Target().Step(f, c))
      ensures forall y: nat, x: nat :: y < raster.color.height && x < raster.color.width ==>
                Effect(raster.color.cellBytes, raster.depth != null, c, y, x,
                       old(raster.color.Logical(y, x)), old(DepthAt(y, x)), raster.color.Logical(y, x), DepthAt(y, x))
    {
      StepEffects(Target(), f, c);
      match c {
        case ClearColor(_) => Clear(c, f);
        case ClearDepth(_) => Clear(c, f);
        case Span(_, _, _, _, _, _, _) => DrawSpan(c, f);
        case ReadColor => raster.color.PrepareTexture(None);
        case ReadDepth =>
          if raster.depth != null {
            raster.depth.PrepareTexture(None);
          }
      }
    }

    /** Every run shows the eager frame; at the end the colour buffer itself holds it. */
    method Run(cs: seq<Command>, ghost f: Frame)
      requires Valid() && Shows(f) && forall c :: c in cs ==> Target().Accepts(c)
      modifies raster, raster.color, raster.color.buf
      modifies if raster.depth == null then {} else {raster.depth, raster.depth.buf}
      ensures Valid() && Shows(Target().Run(f, cs))
      ensures forall y: nat, x: nat :: y < raster.color.height && x < raster.color.width ==>
                raster.color.Cell(y, x) == Target().Run(f, cs).color[y][x]
      ensures |cs| == 1 ==> forall y: nat, x: nat :: y < raster.color.height && x < raster.color.width ==>
                Effect(raster.color.cellBytes, raster.depth != null, cs[0], y, x,
                       old(raster.color.Logical(y, x)), old(DepthAt(y, x)), raster.color.Cell(y, x), DepthAt(y, x))
    {
      for i := 0 to |cs|
        invariant Valid() && Shows(Target().Run(f, cs[..i]))
      {
        assert cs[..i + 1][..i] == cs[..i];
        Execute(cs[i], Target().Run(f, cs[..i]));
      }
      assert cs[..|cs|] == cs;
      if |cs| == 1 {
        assert cs[..0] == [] && Target().Run(f, cs) == Target().Step(f, cs[0]);
        StepEffects(Target(), f, cs[0]);
      }
      raster.color.PrepareTexture(None);
    }
  }
}
