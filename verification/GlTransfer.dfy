/** Uploading pixels to a texture and reading them back while clears are still owed
    (swgl/src/gl.cc). Client pixels are 32-bit words, of which a byte texture
    takes the low byte; RGBA data is stored with R and B swapped. */
module GlTransfer {
  import opened Options
  import opened GlTexture
  import opened Integers

  function Swizzle(p: bv32): bv32 {
    var rb := p & 0x00FF00FF;
    (p & 0xFF00FF00) | (rb << 16) | (rb >> 16)
  }

  lemma {:induction false} SwizzleTwice(p: bv32)
    ensures Swizzle(Swizzle(p)) == p
  {
  }

  /** The texture has four bytes for each pixel or, for one channel, one byte. */
  ghost predicate Transferable(t: Texture) {
    t.cellBytes == 4 || t.cellBytes == 1
  }

  /** 32-bit pixels are swizzled unless the client's are BGRA, bytes are copied. */
  function Reordered(p: bv32, cellBytes: nat, bgra: bool): bv32 {
    if cellBytes == 4 && !bgra then Swizzle(p) else p
  }

  /** The cell that holds a pixel of the client's format, and the pixel that a cell holds. */
  function Stored(p: bv32, cellBytes: nat, bgra: bool): nat
    requires CellSize(cellBytes)
  {
    Reordered(p, cellBytes, bgra) as nat % Limit(cellBytes)
  }

  function Fetched(cell: nat, cellBytes: nat, bgra: bool): bv32
    requires CellSize(cellBytes)
  {
    Reordered((cell % Limit(cellBytes)) as bv32, cellBytes, bgra)
  }

  lemma {:induction false} FetchedStored(p: bv32, cellBytes: nat, bgra: bool)
    requires CellSize(cellBytes) && p as nat < Limit(cellBytes)
    ensures Fetched(Stored(p, cellBytes, bgra), cellBytes, bgra) == p
  {
    ReorderedTwice(p, cellBytes, bgra);
    ReadBack(Reordered(p, cellBytes, bgra), Limit(cellBytes));
  }

  lemma {:induction false} ReorderedTwice(p: bv32, cellBytes: nat, bgra: bool)
    requires CellSize(cellBytes) && p as nat < Limit(cellBytes)
    ensures var q := Reordered(p, cellBytes, bgra);
            q as nat < Limit(cellBytes) && Reordered(q, cellBytes, bgra) == p
  {
    SwizzleTwice(p);
    WordFits(Swizzle(p));
  }

  lemma {:induction false} WordFits(q: bv32)
    ensures q as nat < 0x1_0000_0000
  {
  }

  lemma {:induction false} ReadBack(q: bv32, limit: nat)
    requires q as nat < limit <= 0x1_0000_0000
    ensures ((q as nat % limit) % limit) as bv32 == q
  {
    SmallMod(q as nat, limit);
    assert (q as nat) as bv32 == q;
  }

  lemma {:induction false} SmallMod(n: nat, limit: nat)
    requires n < limit
    ensures n % limit == n
  {
  }

  /** Red and blue change places; green and alpha stay. */
  predicate Exchanged(p: bv32, q: bv32) {
    && q & 0xFF == (p >> 16) & 0xFF
    && (q >> 16) & 0xFF == p & 0xFF
    && q & 0xFF00_FF00 == p & 0xFF00_FF00
  }

  /** How a client's pixel and the pixel of a cell correspond. */
  predicate Corresponds(p: bv32, q: bv32, cellBytes: nat, bgra: bool) {
    if cellBytes == 4 && !bgra then Exchanged(p, q) else q == p
  }

  lemma {:induction false} ReorderedBytes(p: bv32, cellBytes: nat, bgra: bool)
    ensures Corresponds(p, Reordered(p, cellBytes, bgra), cellBytes, bgra)
  {
  }

  /** A cell holds a client's pixel that fits: the same word, up to the order of its bytes. */
  ghost predicate HeldBy(p: bv32, cell: nat, cellBytes: nat, bgra: bool)
    requires CellSize(cellBytes)
  {
    p as nat < Limit(cellBytes) ==> exists q: bv32 :: Corresponds(p, q, cellBytes, bgra) && cell == q as nat
  }

  /** A client gets the word of a cell, up to the order of its bytes. */
  ghost predicate GotFrom(p: bv32, cell: nat, cellBytes: nat, bgra: bool)
    requires CellSize(cellBytes)
  {
    forall q: bv32 :: cell == q as nat && q as nat < Limit(cellBytes) ==> Corresponds(q, p, cellBytes, bgra)
  }

  lemma {:induction false} StoredBytes(p: bv32, cellBytes: nat, bgra: bool)
    requires CellSize(cellBytes)
    ensures HeldBy(p, Stored(p, cellBytes, bgra), cellBytes, bgra)
  {
    if p as nat < Limit(cellBytes) {
      ReorderedBytes(p, cellBytes, bgra);
      ReorderedTwice(p, cellBytes, bgra);
      SmallMod(Reordered(p, cellBytes, bgra) as nat, Limit(cellBytes));
    }
  }

  lemma {:induction false} FetchedBytes(cell: nat, cellBytes: nat, bgra: bool)
    requires CellSize(cellBytes)
    ensures GotFrom(Fetched(cell, cellBytes, bgra), cell, cellBytes, bgra)
  {
    forall q: bv32 | cell == q as nat && q as nat < Limit(cellBytes)
      ensures Corresponds(q, Fetched(cell, cellBytes, bgra), cellBytes, bgra)
    {
      FetchedWord(q, cellBytes, bgra);
    }
  }

  lemma {:induction false} FetchedWord(q: bv32, cellBytes: nat, bgra: bool)
    requires CellSize(cellBytes) && q as nat < Limit(cellBytes)
    ensures Corresponds(q, Fetched(q as nat, cellBytes, bgra), cellBytes, bgra)
  {
    SmallMod(q as nat, Limit(cellBytes));
    ReadBack(q, Limit(cellBytes));
    ReorderedBytes(q, cellBytes, bgra);
  }

  /** One row: four pixels at a time, then the tail. */
  method CopyRow<A, B>(dst: array<B>, to: nat, src: seq<A>, from: nat, n: nat, convert: A -> B)
    requires to + n <= dst.Length && from + n <= |src|
    modifies dst
    ensures forall i :: 0 <= i < dst.Length ==>
              dst[i] == if to <= i < to + n then convert(src[from + i - to]) else old(dst[i])
  {
    var done := 0;
    while n - done >= 4
      invariant 0 <= done <= n
      invariant forall i :: 0 <= i < dst.Length ==>
                  dst[i] == if to <= i < to + done then convert(src[from + i - to]) else old(dst[i])
    {
      forall k | 0 <= k < 4 { dst[to + done + k] := convert(src[from + done + k]); }
      done := done + 4;
    }
    while done < n
      invariant 0 <= done <= n
      invariant forall i :: 0 <= i < dst.Length ==>
                  dst[i] == if to <= i < to + done then convert(src[from + i - to]) else old(dst[i])
    {
      dst[to + done] := convert(src[from + done]);
      done := done + 1;
    }
  }

  /** The rectangle lies in the texture. */
  ghost predicate Inside(t: Texture, r: IntRect) {
    0 <= r.x && 0 <= r.width && r.x + r.width <= t.width && 0 <= r.y && 0 <= r.height && r.y + r.height <= t.height
  }

  ghost predicate Holds(r: IntRect, y: int, x: int) {
    r.y <= y < r.y + r.height && r.x <= x < r.x + r.width
  }

  /** One row of an upload, seen as texture cells. */
  method UploadRow(t: Texture, y: nat, x0: nat, n: nat, data: seq<bv32>, from: nat, store: bv32 -> nat)
    requires t.Valid() && y < t.height && x0 + n <= t.width && from + n <= |data|
    modifies t.buf
    ensures forall r: nat, x: nat :: r < t.height && x < t.width ==>
              t.Cell(r, x) == if r == y && x0 <= x < x0 + n then store(data[from + x - x0]) else old(t.Cell(r, x))
  {
    t.RowsFit();
    t.CellsRead();
    ghost var b0 := t.buf[..];
    CopyRow(t.buf, RowAt(t.stride, y) + x0, data, from, n, store);
    t.RowWritten(b0, t.buf[..], y, x0, x0 + n);
    t.CellsRead();
  }

  function RowLength(unpackRowLength: nat, r: IntRect): (n: nat)
    requires r.width >= 0
    ensures n == unpackRowLength || n == r.width
    ensures n == 0 ==> unpackRowLength == 0
    ensures 0 < unpackRowLength != r.width ==> n != r.width
  {
    if unpackRowLength != 0 then unpackRowLength else r.width
  }

  /** The client's pixel for a cell of the rectangle, in rows `rowLength` pixels apart. */
  ghost function ClientPixel(r: IntRect, data: seq<bv32>, rowLength: nat, y: int, x: int): bv32
    requires Holds(r, y, x) && rowLength >= r.width && |data| >= RowAt(rowLength, r.height)
  {
    RowsApart(rowLength, y - r.y, r.height);
    data[RowAt(rowLength, y - r.y) + x - r.x]
  }

  /** Where it lies in the client's memory. */
  lemma {:induction false} ClientPixelAt(r: IntRect, data: seq<bv32>, rowLength: nat, y: int, x: int)
    requires Holds(r, y, x) && rowLength >= r.width && |data| >= RowAt(rowLength, r.height)
    ensures 0 <= rowLength * (y - r.y) + (x - r.x) < |data|
    ensures ClientPixel(r, data, rowLength, y, x) == data[rowLength * (y - r.y) + (x - r.x)]
  {
    RowsApart(rowLength, y - r.y, r.height);
    RowAtIsProduct(rowLength, y - r.y);
  }

  /** Each pixel of the data fits in a cell. */
  ghost predicate Fit(data: seq<bv32>, cellBytes: nat)
    requires CellSize(cellBytes)
  {
    forall i :: 0 <= i < |data| ==> data[i] as nat < Limit(cellBytes)
  }

  lemma {:induction false} PixelFits(r: IntRect, data: seq<bv32>, rowLength: nat, cellBytes: nat, y: int, x: int)
    requires Holds(r, y, x) && rowLength >= r.width && |data| >= RowAt(rowLength, r.height)
    requires CellSize(cellBytes) && Fit(data, cellBytes)
    ensures ClientPixel(r, data, rowLength, y, x) as nat < Limit(cellBytes)
  {
    RowsApart(rowLength, y - r.y, r.height);
  }

  /** Uploads a rectangle. Cells outside it keep what a reader would see, except the stale ones. */
  method TexSubImage2D(t: Texture, r: IntRect, data: seq<bv32>, unpackRowLength: nat, bgra: bool)
    requires t.Valid() && Transferable(t) && Inside(t, r)
    requires unpackRowLength == 0 || unpackRowLength >= r.width
    requires |data| >= RowAt(RowLength(unpackRowLength, r), r.height)
    modifies t`delayClear, t`clearedRows, t.buf
    ensures t.Valid()
    ensures forall y: nat, x: nat :: y < t.height && x < t.width ==>
              t.Logical(y, x) == if Holds(r, y, x)
                                 then Stored(ClientPixel(r, data, RowLength(unpackRowLength, r), y, x), t.cellBytes,
                                             bgra)
                                 else if old(t.Stale(Some(r), y, x)) then old(t.Cell(y, x)) else old(t.Logical(y, x))
    ensures forall y: nat, x: nat :: Holds(r, y, x) ==>
              HeldBy(ClientPixel(r, data, RowLength(unpackRowLength, r), y, x), t.Logical(y, x), t.cellBytes, bgra)
  {
    t.PrepareTexture(Some(r));
    UploadRows(t, r, data, RowLength(unpackRowLength, r), p => Stored(p, t.cellBytes, bgra));
    forall y: nat, x: nat | Holds(r, y, x)
      ensures HeldBy(ClientPixel(r, data, RowLength(unpackRowLength, r), y, x), t.Logical(y, x), t.cellBytes, bgra)
    {
      StoredBytes(ClientPixel(r, data, RowLength(unpackRowLength, r), y, x), t.cellBytes, bgra);
    }
  }

  method UploadRows(t: Texture, r: IntRect, data: seq<bv32>, rowLength: nat, store: bv32 -> nat)
    requires t.Valid() && Inside(t, r) && rowLength >= r.width && |data| >= RowAt(rowLength, r.height)
    modifies t.buf
    ensures forall y: nat, x: nat :: y < t.height && x < t.width ==>
              t.Cell(y, x) == if Holds(r, y, x) then store(ClientPixel(r, data, rowLength, y, x)) else old(t.Cell(y, x))
  {
    var k := 0;
    while k < r.height
      invariant 0 <= k <= r.height
      invariant forall y: nat, x: nat :: y < t.height && x < t.width ==>
                  t.Cell(y, x) == if Holds(r, y, x) && y < r.y + k then store(ClientPixel(r, data, rowLength, y, x))
                                  else old(t.Cell(y, x))
    {
      RowsApart(rowLength, k, r.height);
      assert r.y + k - r.y == k;
      UploadRow(t, r.y + k, r.x, r.width, data, RowAt(rowLength, k), store);
      k := k + 1;
    }
  }

  /** The client's buffer is not part of the texture's storage. */
  ghost predicate Separate(t: Texture, data: array<bv32>) {
    data as object != t.buf as object
  }

  /** Rows of a read-back, into consecutive rows of the client's buffer. */
  method DownloadRows(t: Texture, r: IntRect, data: array<bv32>, fetch: nat -> bv32)
    requires t.Valid() && Inside(t, r) && data.Length >= RowAt(r.width, r.height) && Separate(t, data)
    modifies data
    ensures forall y: nat, x: nat :: Holds(r, y, x) ==>
              ClientPixel(r, data[..], r.width, y, x) == fetch(old(t.Cell(y, x)))
  {
    t.RowsFit();
    t.CellsRead();
    var pixels := t.buf[..];
    var k := 0;
    while k < r.height
      invariant 0 <= k <= r.height && t.buf[..] == pixels
      invariant forall y: nat, x: nat :: Holds(r, y, x) && y < r.y + k ==>
                  ClientPixel(r, data[..], r.width, y, x) == fetch(t.CellIn(pixels, y, x))
    {
      RowsApart(r.width, k, r.height);
      ghost var before := data[..];
      CopyRow(data, RowAt(r.width, k), t.buf[..], RowAt(t.stride, r.y + k) + r.x, r.width, fetch);
      RowPacked(t, r, before, data[..], pixels, k, fetch);
      k := k + 1;
    }
  }

  lemma {:induction false} RowPacked(t: Texture, r: IntRect, b0: seq<bv32>, b1: seq<bv32>, pixels: seq<nat>, k: nat,
      fetch: nat -> bv32)
    requires t.Shape() && |pixels| == t.buf.Length && Inside(t, r) && k < r.height
    requires |b0| == |b1| >= RowAt(r.width, r.height)
    requires RowAt(r.width, k) + r.width <= |b0| && RowAt(t.stride, r.y + k) + t.stride <= |pixels|
    requires forall y: nat, x: nat :: Holds(r, y, x) && y < r.y + k ==>
               ClientPixel(r, b0, r.width, y, x) == fetch(t.CellIn(pixels, y, x))
    requires forall i :: 0 <= i < |b0| ==>
               b1[i] == if RowAt(r.width, k) <= i < RowAt(r.width, k) + r.width
                        then fetch(pixels[RowAt(t.stride, r.y + k) + r.x + i - RowAt(r.width, k)]) else b0[i]
    ensures forall y: nat, x: nat :: Holds(r, y, x) && y < r.y + k + 1 ==>
              ClientPixel(r, b1, r.width, y, x) == fetch(t.CellIn(pixels, y, x))
  {
    forall y: nat, x: nat | Holds(r, y, x) && y < r.y + k + 1
      ensures ClientPixel(r, b1, r.width, y, x) == fetch(t.CellIn(pixels, y, x))
    {
      if y < r.y + k {
        RowsApart(r.width, y - r.y, k);
        assert ClientPixel(r, b0, r.width, y, x) == fetch(t.CellIn(pixels, y, x));
      } else {
        assert y - r.y == k;
      }
    }
  }

  method ReadCells(t: Texture, r: IntRect, data: array<bv32>, fetch: nat -> bv32)
    requires t.Valid() && Inside(t, r) && Separate(t, data) && data.Length >= RowAt(r.width, r.height)
    modifies t`delayClear, t`clearedRows, t.buf, data
    ensures t.Valid()
    ensures forall y: nat, x: nat :: Holds(r, y, x) ==>
              ClientPixel(r, data[..], r.width, y, x) == fetch(old(t.Logical(y, x)))
  {
    t.PrepareTexture(None);
    DownloadRows(t, r, data, fetch);
  }

  function FetchBy(cellBytes: nat, bgra: bool): (f: nat -> bv32)
    requires CellSize(cellBytes)
  {
    (c: nat) => Fetched(c, cellBytes, bgra)
  }

  method ReadPixels(t: Texture, r: IntRect, data: array<bv32>, bgra: bool)
    requires t.Valid() && Transferable(t) && Inside(t, r) && Separate(t, data)
    requires data.Length >= RowAt(r.width, r.height)
    modifies t`delayClear, t`clearedRows, t.buf, data
    ensures t.Valid()
    ensures forall y: nat, x: nat :: Holds(r, y, x) ==>
              ClientPixel(r, data[..], r.width, y, x) == Fetched(old(t.Logical(y, x)), t.cellBytes, bgra)
    ensures forall y: nat, x: nat :: Holds(r, y, x) ==>
              GotFrom(ClientPixel(r, data[..], r.width, y, x), old(t.Logical(y, x)), t.cellBytes, bgra)
  {
    ReadCells(t, r, data, FetchBy(t.cellBytes, bgra));
    AllGot(t.cellBytes, bgra);
  }

  lemma {:induction false} AllGot(cellBytes: nat, bgra: bool)
    requires CellSize(cellBytes)
    ensures forall c: nat :: GotFrom(Fetched(c, cellBytes, bgra), c, cellBytes, bgra)
  {
    forall c: nat ensures GotFrom(Fetched(c, cellBytes, bgra), c, cellBytes, bgra) {
      FetchedBytes(c, cellBytes, bgra);
    }
  }

  /** What was uploaded is read back, whatever clears were owed before. */
  method UploadThenRead(t: Texture, r: IntRect, data: seq<bv32>, unpackRowLength: nat, bgra: bool, out: array<bv32>)
    requires t.Valid() && Transferable(t) && Inside(t, r)
    requires unpackRowLength == 0 || unpackRowLength >= r.width
    requires |data| >= RowAt(RowLength(unpackRowLength, r), r.height)
    requires Fit(data, t.cellBytes)
    requires out.Length >= RowAt(r.width, r.height) && Separate(t, out)
    modifies t`delayClear, t`clearedRows, t.buf, out
    ensures forall y: nat, x: nat :: Holds(r, y, x) ==>
              ClientPixel(r, out[..], r.width, y, x) == ClientPixel(r, data, RowLength(unpackRowLength, r), y, x)
  {
    TexSubImage2D(t, r, data, unpackRowLength, bgra);
    ReadPixels(t, r, out, bgra);
    forall y: nat, x: nat | Holds(r, y, x)
      ensures ClientPixel(r, out[..], r.width, y, x) == ClientPixel(r, data, RowLength(unpackRowLength, r), y, x)
    {
      PixelFits(r, data, RowLength(unpackRowLength, r), t.cellBytes, y, x);
      FetchedStored(ClientPixel(r, data, RowLength(unpackRowLength, r), y, x), t.cellBytes, bgra);
    }
  }

  /** Some cell outside the rectangle goes stale: its owed clear is dropped, and a reader sees what
      the storage holds, which is another value unless that happens to be the clear colour. */
  ghost predicate SpoilsOutside(t: Texture, r: IntRect)
    requires t.Valid()
    reads t
  {
    exists y: nat, x: nat :: y < t.height && x < t.width && t.Stale(Some(r), y, x) && !Holds(r, y, x)
  }

  /** A row outside the rectangle is owed, but shares a bitmap word with it. */
  ghost predicate NeighbourOwed(t: Texture, r: IntRect)
    requires t.Valid()
    reads t
  {
    exists y: nat :: y < t.height && t.Pending(y) && t.Touched(Some(r), y) && !(r.y <= y < r.y + r.height)
  }

  ghost predicate RowOfRectOwed(t: Texture, r: IntRect)
    requires t.Valid()
    reads t
  {
    exists y: nat :: y < t.height && t.Pending(y) && r.y <= y < r.y + r.height
  }

  /** Exactly when an upload makes cells outside its rectangle stale: a neighbouring row is still owed
      while columns are skipped; or the last skipped column, which is clamped from the first row,
      lies beyond the rectangle. */
  lemma {:induction false} UploadSpoilsIff(t: Texture, r: IntRect)
    requires t.Valid() && Inside(t, r)
    ensures SpoilsOutside(t, r) <==>
            || (t.SkipStart(Some(r)) < t.SkipEnd(Some(r)) && NeighbourOwed(t, r))
            || (r.x + r.width < Min(r.y, t.width) && RowOfRectOwed(t, r))
  {
    var ss, se := t.SkipStart(Some(r)), t.SkipEnd(Some(r));
    if SpoilsOutside(t, r) {
      var y: nat, x: nat :| y < t.height && x < t.width && t.Stale(Some(r), y, x) && !Holds(r, y, x);
      assert r.y <= y < r.y + r.height || NeighbourOwed(t, r);
    }
    if ss < se && NeighbourOwed(t, r) {
      var y: nat :| y < t.height && t.Pending(y) && t.Touched(Some(r), y) && !(r.y <= y < r.y + r.height);
      assert t.Stale(Some(r), y, ss) && !Holds(r, y, ss);
    }
    if r.x + r.width < Min(r.y, t.width) && RowOfRectOwed(t, r) {
      var y: nat :| y < t.height && t.Pending(y) && r.y <= y < r.y + r.height;
      assert t.Stale(Some(r), y, r.x + r.width) && !Holds(r, y, r.x + r.width);
    }
  }

  /** Two rows are owed a clear to zero; an upload of the first brings up what the storage of the second
      held before. */
  method UploadBesideCleared(pixel: bv32) returns (ghost before: nat, beside: nat)
    ensures before == 0 && beside == 7
  {
    var t := new Texture(1, 2, 4);
    t.RowsFit();
    t.buf[RowAt(t.stride, 1)] := 7;
    t.EnableDelayedClear(0);
    before := t.Logical(1, 0);
    assert t.Cell(1, 0) == 7 && t.Stale(Some(IntRect(0, 0, 1, 1)), 1, 0);
    TexSubImage2D(t, IntRect(0, 0, 1, 1), [pixel], 0, false);
    assert t.Logical(1, 0) == 7;
    t.PrepareTexture(None);
    t.RowsFit();
    beside := t.buf[RowAt(t.stride, 1)];
    assert beside == t.Cell(1, 0);
  }
}
