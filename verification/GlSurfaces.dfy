/** What compositing onto a texture with owed clears shows (Composite and prepare_texture in
    swgl/src/gl.cc), on values, and exactly when it shows what it should. */
module GlSurfaces {
  import opened GlBlend
  import opened GlComposite
  import opened GlTexture
  import opened Integers
  import opened Options

  /** A texture as a value: the rows that are owed a clear, its colour, and the storage. */
  datatype Surface = Surface(owed: seq<bool>, clear: nat, cells: Image) {

    predicate Owed(y: int) {
      0 <= y < |owed| && owed[y]
    }

    /** What a reader sees. */
    function Picture(): Image {
      var storage: Image := cells;
      (y: int, x: int) => if Owed(y) then clear else storage(y, x)
    }
  }

  /** A covered row whose owed clear the preparation does not reach: it is handed the unflipped
      rectangle. */
  ghost predicate StillOwed(t: Texture, owed: seq<bool>, skip: IntRect, y: nat)
    requires |owed| == t.height && y < t.height
  {
    owed[y] && !t.Touched(Some(skip), y)
  }

  /** A cell whose owed clear the preparation drops, so that old storage comes up. */
  ghost predicate Surfaces(t: Texture, owed: seq<bool>, skip: IntRect, y: nat, x: nat)
    requires |owed| == t.height && y < t.height
  {
    owed[y] && t.Touched(Some(skip), y) && t.SkipStart(Some(skip)) <= x < t.SkipEnd(Some(skip))
  }

  /** What the loop of a request finds under a pixel. */
  ghost function Found(t: Texture, d: Surface, skip: IntRect): Image
    requires |d.owed| == t.height
  {
    var storage: Image, picture: Image := d.cells, d.Picture();
    (y: int, x: int) =>
      if 0 <= y < t.height && 0 <= x && Surfaces(t, d.owed, skip, y, x) then storage(y, x) else picture(y, x)
  }

  /** What a reader sees after a request, whatever was owed. */
  ghost function Outcome(t: Texture, d: Surface, req: Request, srcHeight: nat, s: Image,
      f: (nat, nat) -> nat): Image
    requires |d.owed| == t.height
  {
    var skip := req.Skip(srcHeight, t.height);
    var found: Image := Over(req, srcHeight, t.height, s, Found(t, d, skip), f);
    (y: int, x: int) => if 0 <= y < t.height && StillOwed(t, d.owed, skip, y) then d.clear else found(y, x)
  }

  /** The same, pixel by pixel. */
  lemma {:induction false} OutcomePixel(t: Texture, d: Surface, req: Request, srcHeight: nat, s: Image,
                                        f: (nat, nat) -> nat, y: nat, x: nat)
    requires |d.owed| == t.height && y < t.height
    ensures var skip := req.Skip(srcHeight, t.height);
            var under := if Surfaces(t, d.owed, skip, y, x) then d.cells(y, x) else d.Picture()(y, x);
            Outcome(t, d, req, srcHeight, s, f)(y, x) ==
              if StillOwed(t, d.owed, skip, y) then d.clear
              else if req.Covers(srcHeight, t.height, y, x)
              then f(s(req.srcY + req.PairOf(t.height, y), req.srcX + x - req.dstX), under)
              else under
  {
    var skip := req.Skip(srcHeight, t.height);
    assert Found(t, d, skip)(y, x) == if Surfaces(t, d.owed, skip, y, x) then d.cells(y, x) else d.Picture()(y, x);
  }

  /** The request shows what it should: the source over what a reader saw before. */
  ghost predicate Faithful(t: Texture, d: Surface, req: Request, srcHeight: nat, s: Image,
      f: (nat, nat) -> nat)
    requires |d.owed| == t.height
  {
    forall y: nat, x: nat :: y < t.height && x < t.width ==>
      Outcome(t, d, req, srcHeight, s, f)(y, x)
        == Over(req, srcHeight, t.height, s, d.Picture(), f)(y, x)
  }

  /** Every covered row that is owed is reached by the preparation. */
  ghost predicate CoveredReached(t: Texture, owed: seq<bool>, req: Request, srcHeight: nat)
    requires |owed| == t.height
  {
    forall y: nat, x: nat :: y < t.height && req.Covers(srcHeight, t.height, y, x) ==>
      !StillOwed(t, owed, req.Skip(srcHeight, t.height), y)
  }

  /** Old storage comes up nowhere but where the request stores. */
  ghost predicate SurfacesCovered(t: Texture, owed: seq<bool>, req: Request, srcHeight: nat)
    requires |owed| == t.height
  {
    forall y: nat, x: nat :: y < t.height && x < t.width && Surfaces(t, owed, req.Skip(srcHeight, t.height), y, x) ==>
      req.Covers(srcHeight, t.height, y, x)
  }

  ghost predicate NoCoveredOwed(t: Texture, owed: seq<bool>, req: Request, srcHeight: nat)
    requires |owed| == t.height
  {
    forall y: nat, x: nat :: y < t.height && req.Covers(srcHeight, t.height, y, x) ==> !owed[y]
  }

  /** What a caller can test before the call: bitmap, rectangle and mode. */
  ghost predicate KeepsAll(t: Texture, owed: seq<bool>, req: Request, srcHeight: nat)
    requires |owed| == t.height
  {
    && CoveredReached(t, owed, req, srcHeight)
    && SurfacesCovered(t, owed, req, srcHeight)
    && (req.overwrite || NoCoveredOwed(t, owed, req, srcHeight))
  }

  /** Every pixel fits in 32 bits. */
  ghost predicate Words(image: Image) {
    forall y: int, x: int :: image(y, x) < 0x1_0000_0000
  }

  ghost predicate AlwaysFaithful(t: Texture, owed: seq<bool>, clear: nat, req: Request, srcHeight: nat,
                                  f: (nat, nat) -> nat)
    requires |owed| == t.height
  {
    forall cells: Image, s: Image :: Words(cells) && Words(s) ==>
      Faithful(t, Surface(owed, clear, cells), req, srcHeight, s, f)
  }

  /** A request shows what it should, whatever the storage and the source hold, exactly when no
      covered row stays owed, no old storage comes up beside the request, and a blending request
      meets no owed row. */
  lemma {:induction false} FaithfulIff(t: Texture, owed: seq<bool>, clear: nat, req: Request, srcWidth: nat,
                                       srcHeight: nat, kind: PackKind)
    requires |owed| == t.height && req.Fits(srcWidth, t.width)
    ensures KeepsAll(t, owed, req, srcHeight) <==>
            AlwaysFaithful(t, owed, clear, req, srcHeight, req.Combine(kind))
  {
    var f := req.Combine(kind);
    if KeepsAll(t, owed, req, srcHeight) {
      Overwrites(req, kind);
      forall cells: Image, s: Image | Words(cells) && Words(s)
        ensures Faithful(t, Surface(owed, clear, cells), req, srcHeight, s, f) {
        KeepsAllFaithful(t, Surface(owed, clear, cells), req, srcHeight, s, f);
      }
    }
    if AlwaysFaithful(t, owed, clear, req, srcHeight, f) {
      var v := OpaqueTells(req, kind, clear);
      NoneStillOwed(t, owed, clear, req, srcHeight, f, v);
      NoneBeside(t, owed, clear, req, srcHeight, f);
      if !req.overwrite {
        var u := TransparentTells(req, kind, clear);
        NoneUnder(t, owed, clear, req, srcWidth, srcHeight, f, u);
      }
    }
  }

  lemma {:induction false} Overwrites(req: Request, kind: PackKind)
    ensures req.overwrite ==> forall s: nat, d: nat :: req.Combine(kind)(s, d) == s
  {
  }

  /** Some source pixel replaces a given colour, in either mode. */
  lemma {:induction false} OpaqueTells(req: Request, kind: PackKind, clear: nat) returns (v: nat)
    ensures v < 0x1_0000_0000 && forall d: nat :: req.Combine(kind)(v, d) != clear
  {
    var low: nat := if clear == 0xFF00_0000 then 1 else 0;
    v := 0xFF00_0000 + low;
    forall d: nat ensures req.Combine(kind)(v, d) != clear {
      OpaqueReplaces(v, d, kind);
    }
  }

  /** A transparent source pixel tells some colour from a given one. */
  lemma {:induction false} TransparentTells(req: Request, kind: PackKind, clear: nat) returns (v: nat)
    requires !req.overwrite
    ensures v < 2 && req.Combine(kind)(0, v) != req.Combine(kind)(0, clear)
  {
    CombineTransparent(req, kind, 0);
    CombineTransparent(req, kind, 1);
    v := TellsApart(req.Combine(kind), clear);
  }

  lemma {:induction false} CombineTransparent(req: Request, kind: PackKind, d: nat)
    requires !req.overwrite && d < 256
    ensures req.Combine(kind)(0, d) == d
  {
    TransparentKeeps(d, kind);
  }

  lemma {:induction false} TellsApart(f: (nat, nat) -> nat, clear: nat) returns (v: nat)
    requires f(0, 0) == 0 && f(0, 1) == 1
    ensures v < 2 && f(0, v) != f(0, clear)
  {
    v := if f(0, clear) == 0 then 1 else 0;
  }

  lemma {:induction false} KeepsAllFaithful(t: Texture, d: Surface, req: Request, srcHeight: nat, s: Image,
                                            f: (nat, nat) -> nat)
    requires |d.owed| == t.height && KeepsAll(t, d.owed, req, srcHeight)
    requires req.overwrite ==> forall a: nat, b: nat :: f(a, b) == a
    ensures Faithful(t, d, req, srcHeight, s, f)
  {
    var skip := req.Skip(srcHeight, t.height);
    forall y: nat, x: nat | y < t.height && x < t.width
      ensures Outcome(t, d, req, srcHeight, s, f)(y, x) == Over(req, srcHeight, t.height, s, d.Picture(), f)(y, x)
    {
      OutcomePixel(t, d, req, srcHeight, s, f, y, x);
      var a, picture := s(req.srcY + req.PairOf(t.height, y), req.srcX + x - req.dstX), d.Picture()(y, x);
      assert d.Owed(y) == d.owed[y];
      if req.Covers(srcHeight, t.height, y, x) {
        assert !StillOwed(t, d.owed, skip, y);
        assert Over(req, srcHeight, t.height, s, d.Picture(), f)(y, x) == f(a, picture);
        if req.overwrite {
          assert f(a, d.cells(y, x)) == f(a, picture);
        } else {
          assert !d.owed[y];
        }
      } else {
        assert !Surfaces(t, d.owed, skip, y, x);
        assert Over(req, srcHeight, t.height, s, d.Picture(), f)(y, x) == picture;
      }
    }
  }

  lemma {:induction false} NoneStillOwed(t: Texture, owed: seq<bool>, clear: nat, req: Request, srcHeight: nat,
                                         f: (nat, nat) -> nat, v: nat)
    requires |owed| == t.height && AlwaysFaithful(t, owed, clear, req, srcHeight, f)
    requires v < 0x1_0000_0000 && forall d: nat :: f(v, d) != clear
    ensures forall y: nat, x: nat :: y < t.height && x < t.width && req.Covers(srcHeight, t.height, y, x) ==>
              !StillOwed(t, owed, req.Skip(srcHeight, t.height), y)
  {
    var s: Image, d := (y: int, x: int) => v, Surface(owed, clear, (y: int, x: int) => 0);
    assert Words(s) && Words(d.cells);
    assert Faithful(t, d, req, srcHeight, s, f);
    forall y: nat, x: nat | y < t.height && x < t.width && req.Covers(srcHeight, t.height, y, x)
      ensures !StillOwed(t, owed, req.Skip(srcHeight, t.height), y)
    {
      OutcomePixel(t, d, req, srcHeight, s, f, y, x);
      assert Outcome(t, d, req, srcHeight, s, f)(y, x) == Over(req, srcHeight, t.height, s, d.Picture(), f)(y, x);
    }
  }

  lemma {:induction false} NoneBeside(t: Texture, owed: seq<bool>, clear: nat, req: Request, srcHeight: nat,
                                      f: (nat, nat) -> nat)
    requires |owed| == t.height && AlwaysFaithful(t, owed, clear, req, srcHeight, f)
    ensures SurfacesCovered(t, owed, req, srcHeight)
  {
    var other: nat := if clear == 0 then 1 else 0;
    var s: Image, d := (y: int, x: int) => 0, Surface(owed, clear, (y: int, x: int) => other);
    assert Words(s) && Words(d.cells);
    assert Faithful(t, d, req, srcHeight, s, f);
    forall y: nat, x: nat | y < t.height && x < t.width && Surfaces(t, owed, req.Skip(srcHeight, t.height), y, x)
      ensures req.Covers(srcHeight, t.height, y, x)
    {
      OutcomePixel(t, d, req, srcHeight, s, f, y, x);
      assert Outcome(t, d, req, srcHeight, s, f)(y, x) == Over(req, srcHeight, t.height, s, d.Picture(), f)(y, x);
    }
  }

  lemma {:induction false} NoneUnder(t: Texture, owed: seq<bool>, clear: nat, req: Request, srcWidth: nat,
                                     srcHeight: nat, f: (nat, nat) -> nat, v: nat)
    requires |owed| == t.height && req.Fits(srcWidth, t.width)
    requires AlwaysFaithful(t, owed, clear, req, srcHeight, f) && CoveredReached(t, owed, req, srcHeight)
    requires v < 2 && f(0, v) != f(0, clear)
    ensures NoCoveredOwed(t, owed, req, srcHeight)
  {
    var s: Image, d := (y: int, x: int) => 0, Surface(owed, clear, (y: int, x: int) => v);
    assert Words(s) && Words(d.cells);
    assert Faithful(t, d, req, srcHeight, s, f);
    forall y: nat, x: nat | y < t.height && req.Covers(srcHeight, t.height, y, x) ensures !owed[y] {
      if owed[y] {
        assert Surfaces(t, owed, req.Skip(srcHeight, t.height), y, x);
        assert Outcome(t, d, req, srcHeight, s, f)(y, x) == Over(req, srcHeight, t.height, s, d.Picture(), f)(y, x);
        OutcomePixel(t, d, req, srcHeight, s, f, y, x);
        assert false;
      }
    }
  }

  /** Exactly when a covered row stays owed: the request is flipped, and no bitmap word of the
      unflipped rectangle holds the row. */
  lemma {:induction false} StillOwedIff(t: Texture, owed: seq<bool>, req: Request, srcHeight: nat, y: nat, x: int)
    requires |owed| == t.height && y < t.height && req.Covers(srcHeight, t.height, y, x)
    ensures var r := req.Clipped(srcHeight, t.height);
            StillOwed(t, owed, req.Skip(srcHeight, t.height), y) <==>
              owed[y] && req.flip && !(r.dst / 32 <= y / 32 <= (r.dst + r.count - 1) / 32)
  {
    ClipRowsExact(srcHeight, t.height, req.srcY, req.dstY, req.height);
    var r := req.Clipped(srcHeight, t.height);
    assert InBoth(srcHeight, t.height, req.srcY, req.dstY, req.height, req.PairOf(t.height, y));
  }

  /** A row beside an unflipped request is owed and shares a bitmap word with it. */
  ghost predicate NeighbourOwed(t: Texture, owed: seq<bool>, rows: Rows)
    requires |owed| == t.height
  {
    exists y: nat :: y < t.height && owed[y] && !(rows.dst <= y < rows.dst + rows.count)
                     && rows.dst / 32 <= y / 32 <= (rows.dst + rows.count - 1) / 32
  }

  ghost predicate RowOwed(t: Texture, owed: seq<bool>, rows: Rows)
    requires |owed| == t.height
  {
    exists y: nat :: y < t.height && owed[y] && rows.dst <= y < rows.dst + rows.count
  }

  /** For a request that is not flipped and covers something: it shows what it should exactly when no
      neighbouring row is owed, and an owed row of its own is overwritten up to the last column that
      the preparation skips. */
  lemma {:induction false} UnflippedKeepsIff(t: Texture, owed: seq<bool>, req: Request, srcWidth: nat, srcHeight: nat)
    requires |owed| == t.height && req.Fits(srcWidth, t.width) && !req.flip
    requires req.width > 0 && req.Clipped(srcHeight, t.height).count > 0
    ensures var r := req.Clipped(srcHeight, t.height);
            KeepsAll(t, owed, req, srcHeight) <==>
              && !NeighbourOwed(t, owed, r)
              && (RowOwed(t, owed, r) ==> req.overwrite && Min(r.dst, t.width) <= req.dstX + req.width)
  {
    ClipRowsExact(srcHeight, t.height, req.srcY, req.dstY, req.height);
    var r, skip := req.Clipped(srcHeight, t.height), req.Skip(srcHeight, t.height);
    forall y: nat, x: nat
      ensures req.Covers(srcHeight, t.height, y, x) <==>
              req.dstX <= x < req.dstX + req.width && r.dst <= y < r.dst + r.count
    {
      assert InBoth(srcHeight, t.height, req.srcY, req.dstY, req.height, y - req.dstY) <==>
        r.src <= req.srcY + (y - req.dstY) < r.src + r.count;
    }
    assert CoveredReached(t, owed, req, srcHeight);
    UnflippedSurfaces(t, owed, req, srcWidth, srcHeight);
    assert NoCoveredOwed(t, owed, req, srcHeight) <==> !RowOwed(t, owed, r) by {
      if RowOwed(t, owed, r) {
        var y: nat :| y < t.height && owed[y] && r.dst <= y < r.dst + r.count;
        assert req.Covers(srcHeight, t.height, y, req.dstX);
      }
    }
  }

  lemma {:induction false} UnflippedSurfaces(t: Texture, owed: seq<bool>, req: Request, srcWidth: nat, srcHeight: nat)
    requires |owed| == t.height && req.Fits(srcWidth, t.width) && req.width > 0
    requires req.Clipped(srcHeight, t.height).count > 0
    requires forall y: nat, x: nat :: req.Covers(srcHeight, t.height, y, x) <==>
               (req.dstX <= x < req.dstX + req.width
                && req.Clipped(srcHeight, t.height).dst <= y
                   < req.Clipped(srcHeight, t.height).dst + req.Clipped(srcHeight, t.height).count)
    requires req.Rows(req.Clipped(srcHeight, t.height), srcHeight, t.height)
    ensures var r := req.Clipped(srcHeight, t.height);
            SurfacesCovered(t, owed, req, srcHeight) <==>
              && !NeighbourOwed(t, owed, r)
              && (RowOwed(t, owed, r) ==> Min(r.dst, t.width) <= req.dstX + req.width)
  {
    var r, skip := req.Clipped(srcHeight, t.height), req.Skip(srcHeight, t.height);
    if SurfacesCovered(t, owed, req, srcHeight) {
      forall y: nat | y < t.height && owed[y] && r.dst / 32 <= y / 32 <= (r.dst + r.count - 1) / 32
        ensures r.dst <= y < r.dst + r.count && Min(r.dst, t.width) <= req.dstX + req.width
      {
        assert Surfaces(t, owed, skip, y, req.dstX);
        assert Min(r.dst, t.width) > req.dstX + req.width ==> Surfaces(t, owed, skip, y, req.dstX + req.width);
      }
    }
  }
}
