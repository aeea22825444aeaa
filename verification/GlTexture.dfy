/** Textures of the software rasteriser: their storage, fills, and delayed clears (swgl/src/gl.cc).
    The storage is an array of cells of 1, 2 or 4 bytes; 32-bit stores cover several cells. */
module GlTexture {
  import opened Options
  import opened GlBits
  import opened Integers

  datatype IntRect = IntRect(x: int, y: int, width: int, height: int)

  /** Rows are padded to a multiple of four bytes. */
  function AlignedStride(rowBytes: nat): (r: nat)
    ensures rowBytes <= r < rowBytes + 4 && r % 4 == 0
  {
    rowBytes + 3 - (rowBytes + 3) % 4
  }

  predicate CellSize(cellBytes: nat) {
    cellBytes == 1 || cellBytes == 2 || cellBytes == 4
  }

  function Limit(cellBytes: nat): nat
    requires CellSize(cellBytes)
  {
    if cellBytes == 1 then 0x100 else if cellBytes == 2 then 0x1_0000 else 0x1_0000_0000
  }

  /** The 32-bit word that holds a value in each of its cells. */
  function Chunk(value: nat, cellBytes: nat): nat
    requires CellSize(cellBytes)
  {
    if cellBytes == 1 then value * 0x0101_0101 else if cellBytes == 2 then value + value * 0x1_0000 else value
  }

  /** Cell `k` of a little-endian 32-bit word. */
  function Lane(word: nat, cellBytes: nat, k: nat): nat
    requires CellSize(cellBytes)
  {
    if k == 0 then word % Limit(cellBytes) else Lane(word / Limit(cellBytes), cellBytes, k - 1)
  }

  lemma {:induction false} LowAndHigh(low: nat, high: nat, limit: nat)
    requires low < limit && (limit == 0x100 || limit == 0x1_0000 || limit == 0x1_0000_0000)
    ensures (low + limit * high) % limit == low && (low + limit * high) / limit == high
  {
  }

  lemma {:induction false} LaneSplit(low: nat, high: nat, cellBytes: nat, k: nat)
    requires CellSize(cellBytes) && low < Limit(cellBytes)
    ensures var word := low + Limit(cellBytes) * high;
            Lane(word, cellBytes, 0) == low && Lane(word, cellBytes, k + 1) == Lane(high, cellBytes, k)
  {
    LowAndHigh(low, high, Limit(cellBytes));
  }

  /** Filling with the chunk fills every cell with the value. */
  lemma {:induction false} LaneOfChunk(value: nat, cellBytes: nat, k: nat)
    requires CellSize(cellBytes) && k < PerWord(cellBytes) && value < Limit(cellBytes)
    ensures Lane(Chunk(value, cellBytes), cellBytes, k) == value
  {
    if cellBytes == 1 {
      LaneOfBytes(value, k, 3);
      BytesOfChunk(value);
    } else if cellBytes == 2 {
      LaneOfHalves(value, k);
    } else {
      LaneOfWhole(value, 4);
    }
  }

  lemma {:induction false} LaneOfWhole(value: nat, cellBytes: nat)
    requires CellSize(cellBytes) && value < Limit(cellBytes)
    ensures Lane(value, cellBytes, 0) == value
  {
  }

  lemma {:induction false} LaneOfHalves(value: nat, k: nat)
    requires value < 0x1_0000 && k < 2
    ensures Lane(value + 0x1_0000 * value, 2, k) == value
  {
    LaneSplit(value, value, 2, 0);
    LaneOfWhole(value, 2);
  }

  /** The byte repeated `n + 1` times. */
  function Bytes(value: nat, n: nat): nat {
    if n == 0 then value else value + 0x100 * Bytes(value, n - 1)
  }

  lemma {:induction false} BytesOfChunk(value: nat)
    ensures Bytes(value, 3) == value * 0x0101_0101
  {
    assert Bytes(value, 1) == value * 0x0101;
    assert Bytes(value, 2) == value + 0x100 * Bytes(value, 1);
    assert Bytes(value, 3) == value + 0x100 * Bytes(value, 2);
  }

  lemma {:induction false} LaneOfBytes(value: nat, k: nat, n: nat)
    requires value < 0x100 && k <= n
    ensures Lane(Bytes(value, n), 1, k) == value
  {
    if n > 0 {
      LaneSplit(value, Bytes(value, n - 1), 1, if k == 0 then 0 else k - 1);
      if k > 0 {
        LaneOfBytes(value, k - 1, n - 1);
      }
    }
  }

  function TotalZeros(words: seq<nat>): nat {
    if words == [] then 0 else Zeros(words[0], 32) + TotalZeros(words[1..])
  }

  lemma {:induction false} TotalZerosUpdate(words: seq<nat>, i: nat, w: nat)
    requires i < |words|
    ensures TotalZeros(words[i := w]) + Zeros(words[i], 32) == TotalZeros(words) + Zeros(w, 32)
  {
    if i == 0 {
      assert words[0 := w][1..] == words[1..];
    } else {
      TotalZerosUpdate(words[1..], i - 1, w);
      assert words[i := w][1..] == words[1..][i - 1 := w];
    }
  }

  lemma {:induction false} TotalZerosNone(words: seq<nat>, i: nat, k: nat)
    requires TotalZeros(words) == 0 && i < |words| && k < 32
    ensures Bit(words[i], k)
  {
    if i == 0 { NoZerosBit(words[0], 32, k); } else { TotalZerosNone(words[1..], i - 1, k); }
  }

  lemma {:induction false} AllBitsSet(words: seq<nat>)
    requires forall i, k: nat :: 0 <= i < |words| && k < 32 ==> Bit(words[i], k)
    ensures TotalZeros(words) == 0
  {
    if words != [] {
      NoZeros(words[0], 32);
      forall i, k: nat | 0 <= i < |words[1..]| && k < 32 ensures Bit(words[1..][i], k) {
        assert Bit(words[i + 1], k);
      }
      AllBitsSet(words[1..]);
    }
  }

  /** A bitmap whose rows are all pending. */
  lemma {:induction false} TotalZerosFresh(words: seq<nat>)
    requires words != [] && forall i :: 0 <= i < |words| - 1 ==> words[i] == 0
    ensures TotalZeros(words) == 32 * (|words| - 1) + Zeros(words[|words| - 1], 32)
  {
    if |words| > 1 {
      ZerosOfZero(32);
      TotalZerosFresh(words[1..]);
    }
  }

  /** What is left of a bitmap word after its lowest `s` bits are shifted out. */
  ghost predicate Shifted(word: nat, mask: nat, s: nat) {
    forall k: nat :: Bit(mask, k) == Bit(word, s + k)
  }

  /** Bits `s` up to `s + c` of a word all equal `b`. */
  ghost predicate RunOf(word: nat, s: nat, c: nat, b: bool) {
    forall k: nat :: s <= k < s + c ==> Bit(word, k) == b
  }

  lemma {:induction false} ShiftMore(word: nat, mask: nat, s: nat, c: nat)
    requires Shifted(word, mask, s)
    ensures Shifted(word, Shr(mask, c), s + c)
  {
    forall k: nat ensures Bit(Shr(mask, c), k) == Bit(word, s + c + k) {
      BitShr(mask, c, k);
    }
  }

  lemma {:induction false} WordBit(word: nat, k: nat)
    requires word <= ALL_ONES && Bit(word, k)
    ensures k < 32
  {
    Pow2Is32();
    if k >= 32 { HighBits(word, 32, k); }
  }

  /** The bits of word `i` that stand for rows at or above the height are set. */
  ghost predicate TopSet(height: nat, i: nat, word: nat) {
    forall k :: 0 <= k < 32 && height <= 32 * i + k ==> Bit(word, k)
  }

  /** The scan finds a run of zeros inside the word: neither the count nor the shift is undefined. */
  lemma {:induction false} ZeroRun(height: nat, i: nat, word: nat, mask: nat, s: nat)
    requires word <= ALL_ONES && TopSet(height, i, word)
    requires Shifted(word, mask, s) && mask != 0 && s <= 32
    ensures var c := Ctz(mask);
            && s + c < 32 && Bit(word, s + c)
            && RunOf(word, s, c, false)
            && Shifted(word, Shr(mask, c), s + c) && 0 < Shr(mask, c) <= mask
            && Zeros(mask, 32 - s) == Zeros(Shr(mask, c), 32 - (s + c)) + c
            && (c > 0 ==> 32 * i + s + c <= height)
  {
    var c := Ctz(mask);
    CtzRun(mask);
    WordBit(word, s + c);
    ShiftMore(word, mask, s, c);
    ShrSmaller(mask, c);
    ZerosShr(mask, c, 32 - s, false);
    assert Bit(Shr(mask, c), 0) == Bit(word, s + c);
    forall k: nat | s <= k < s + c ensures !Bit(word, k) {
      assert Bit(mask, k - s) == Bit(word, s + (k - s));
    }
    assert c > 0 ==> !Bit(word, s + c - 1);
  }

  /** Then a run of ones, which is shifted out by less than the word's width. */
  lemma {:induction false} OneRun(word: nat, mask: nat, s: nat)
    requires word <= ALL_ONES && Shifted(word, mask, s) && s < 32
    requires Bit(word, s) && (word != ALL_ONES || s > 0)
    ensures var c := Ctz(mask + 1);
            && 0 < c < 32 && s + c <= 32
            && RunOf(word, s, c, true)
            && Shifted(word, Shr(mask, c), s + c) && Shr(mask, c) < mask
            && Zeros(mask, 32 - s) == Zeros(Shr(mask, c), 32 - (s + c))
  {
    var c := Ctz(mask + 1);
    CtzOnesRun(mask);
    assert Bit(mask, 0) == Bit(word, s);
    assert c > 0;
    assert Bit(mask, c - 1) == Bit(word, s + (c - 1));
    WordBit(word, s + (c - 1));
    ShiftMore(word, mask, s, c);
    ShrSmaller(mask, c);
    ZerosShr(mask, c, 32 - s, true);
    forall k: nat | s <= k < s + c ensures Bit(word, k) {
      assert Bit(mask, k - s) == Bit(word, s + (k - s));
    }
    if c == 32 {
      Pow2Is32();
      assert s == 0;
      NoZeros(word, 32);
      AllOnesUnique(word, 32);
    }
  }

  lemma {:induction false} LastRun(height: nat, i: nat, word: nat, s: nat)
    requires TopSet(height, i, word) && Shifted(word, 0, s) && s < 32
    ensures 32 * (i + 1) <= height
    ensures RunOf(word, s, 32 - s, false)
  {
    forall k: nat | s <= k < 32 ensures !Bit(word, k) {
      BitsOfZero(k - s);
      assert Bit(0, k - s) == Bit(word, s + (k - s));
    }
    assert !Bit(word, 31);
  }

  lemma {:induction false} FreshBit(height: nat, word: nat, i: nat, k: nat)
    requires k < 32 && i < (height + 31) / 32
    requires word == if height % 32 != 0 && i == height / 32 then TopOnes(height % 32) else 0
    ensures Bit(word, k) == (height <= 32 * i + k)
  {
    if height % 32 != 0 && i == height / 32 { TopOnesBits(32, height % 32, k); } else { BitsOfZero(k); }
  }

  /** Cells in a 32-bit word. */
  function PerWord(cellBytes: nat): (r: nat)
    requires CellSize(cellBytes)
  {
    if cellBytes == 1 then 4 else if cellBytes == 2 then 2 else 1
  }

  /** Cells from one row to the next, for a row of `width` cells. */
  function Stride(width: nat, cellBytes: nat): (r: nat)
    requires CellSize(cellBytes)
    ensures width <= r < width + PerWord(cellBytes)
  {
    if cellBytes == 1 then AlignedStride(width)
    else if cellBytes == 2 then AlignedStride(2 * width) / 2 else AlignedStride(4 * width) / 4
  }

  /** The offset of row `y`; kept as a function so that the proofs about cells stay linear. */
  function RowAt(stride: nat, y: nat): (r: nat) {
    if y == 0 then 0 else RowAt(stride, y - 1) + stride
  }

  /** In bytes, a row is padded to the next multiple of four. */
  lemma {:induction false} StrideBytes(width: nat, cellBytes: nat)
    requires CellSize(cellBytes)
    ensures Stride(width, cellBytes) * cellBytes % 4 == 0
    ensures width * cellBytes <= Stride(width, cellBytes) * cellBytes < width * cellBytes + 4
  {
    if cellBytes == 2 {
      HalvesOf(AlignedStride(2 * width));
    } else if cellBytes == 4 {
      assert AlignedStride(4 * width) == 4 * width;
    }
  }

  lemma {:induction false} HalvesOf(n: nat)
    requires n % 4 == 0
    ensures n / 2 * 2 == n
  {
    var q := n / 4;
    assert n == 4 * q && n / 2 == 2 * q;
  }

  lemma {:induction false} RowAtIsProduct(stride: nat, y: nat)
    ensures RowAt(stride, y) == stride * y
  {
    if y != 0 {
      RowAtIsProduct(stride, y - 1);
      assert stride * y == stride * (y - 1) + stride;
    }
  }

  lemma {:induction false} RowsApart(stride: nat, y: nat, y': nat)
    requires y < y'
    ensures RowAt(stride, y) + stride <= RowAt(stride, y')
  {
    if y + 1 < y' { RowsApart(stride, y, y' - 1); }
  }

  lemma {:induction false} RowAtSum(stride: nat, y: nat, n: nat)
    ensures RowAt(stride, y + n) == RowAt(stride, y) + RowAt(stride, n)
  {
    if n != 0 { RowAtSum(stride, y, n - 1); }
  }

  lemma {:induction false} RowsInWords(height: nat)
    ensures (height + 31) / 32 == height / 32 + (if height % 32 == 0 then 0 else 1)
    ensures height == 32 * (height / 32) + height % 32
  {
  }

  /** The zero bits of the last bitmap word, for `rest` rows in it, or 32. */
  lemma {:induction false} LastWordZeros(word: nat, rest: nat)
    requires rest < 32 && word == if rest != 0 then TopOnes(rest) else 0
    ensures Zeros(word, 32) == if rest != 0 then rest else 32
  {
    if rest != 0 {
      Pow2Is32();
      TopOnesZeros(32, rest);
    } else {
      ZerosOfZero(32);
    }
  }

  class Texture {
    const width: nat
    const height: nat
    const cellBytes: nat
    /** Cells from one row to the next. */
    const stride: nat
    const buf: array<nat>

    var delayClear: int
    var clearVal: nat
    /** One bit for each row: set once the row is materialised. None is the null pointer. */
    var clearedRows: Option<seq<nat>>

    constructor (w: nat, h: nat, bytes: nat)
      requires CellSize(bytes)
      ensures Valid() && fresh(buf) && width == w && height == h && cellBytes == bytes
      ensures clearedRows.None?
    {
      width, height, cellBytes := w, h, bytes;
      stride := Stride(w, bytes);
      buf := new nat[RowAt(Stride(w, bytes), h) + 4 * PerWord(bytes)];
      delayClear, clearVal, clearedRows := 0, 0, None;
    }

    /** Storage for every row, and `sizeof(Float)` bytes more. */
    ghost predicate Shape() {
      && CellSize(cellBytes)
      && stride == Stride(width, cellBytes)
      && buf.Length == RowAt(stride, height) + 4 * PerWord(cellBytes)
    }

    ghost predicate Valid()
      reads this
    {
      && Shape() && clearVal < Limit(cellBytes)
      && match clearedRows
         case None => delayClear == 0
         case Some(words) => BitmapFor(words) && delayClear == TotalZeros(words)
    }

    /** Bits at and above the height stay set. */
    ghost predicate BitmapFor(words: seq<nat>) {
      && |words| == (height + 31) / 32
      && (forall i :: 0 <= i < |words| ==> words[i] <= ALL_ONES)
      && (forall i, k :: 0 <= i < |words| && 0 <= k < 32 && height <= 32 * i + k ==> Bit(words[i], k))
    }

    /** The clear of row `y` is still owed. */
    predicate Pending(y: nat)
      requires clearedRows.Some? ==> y / 32 < |clearedRows.value|
      reads this
    {
      clearedRows.Some? && !Bit(clearedRows.value[y / 32], y % 32)
    }

    ghost function Cell(y: nat, x: nat): nat
      requires Shape() && y < height && x < width
      reads buf
    {
      RowsApart(stride, y, height);
      buf[RowAt(stride, y) + x]
    }

    ghost function CellIn(b: seq<nat>, y: nat, x: nat): nat
      requires Shape() && |b| == buf.Length && y < height && x < width
    {
      RowsApart(stride, y, height);
      b[RowAt(stride, y) + x]
    }

    /** What a reader of the texture must see. */
    ghost function Logical(y: nat, x: nat): nat
      requires Valid() && y < height && x < width
      reads this, buf
    {
      if Pending(y) then clearVal else Cell(y, x)
    }

    method EnableDelayedClear(val: nat)
      requires Valid() && val < Limit(cellBytes)
      modifies `delayClear, `clearVal, `clearedRows
      ensures Valid() && clearVal == val && clearedRows.Some?
      ensures forall y: nat :: y < height ==> Pending(y)
    {
      delayClear, clearVal := height, val;
      var words := seq((height + 31) / 32, _ => 0);
      if height % 32 != 0 {
        words := words[height / 32 := TopOnes(height % 32)];
      }
      clearedRows := Some(words);
      FreshBitmap(words);
      FreshCount(words);
    }

    ghost predicate IsFresh(words: seq<nat>) {
      && |words| == (height + 31) / 32
      && forall i :: 0 <= i < |words| ==>
           words[i] == if height % 32 != 0 && i == height / 32 then TopOnes(height % 32) else 0
    }

    lemma {:induction false} FreshBitmap(words: seq<nat>)
      requires IsFresh(words)
      ensures BitmapFor(words)
      ensures forall y: nat :: y < height ==> !Bit(words[y / 32], y % 32)
    {
      Pow2Is32();
      forall i, k | 0 <= i < |words| && 0 <= k < 32
        ensures Bit(words[i], k) == (height <= 32 * i + k)
      {
        FreshBit(height, words[i], i, k);
      }
      forall y: nat | y < height ensures !Bit(words[y / 32], y % 32) {
        FreshBit(height, words[y / 32], y / 32, y % 32);
      }
    }

    lemma {:induction false} FreshCount(words: seq<nat>)
      requires IsFresh(words)
      ensures TotalZeros(words) == height
    {
      RowsInWords(height);
      if words != [] {
        TotalZerosFresh(words);
        LastWordZeros(words[|words| - 1], height % 32);
      }
    }

    method DisableDelayedClear()
      modifies `delayClear, `clearedRows
      ensures clearedRows.None? && delayClear == if old(clearedRows).Some? then 0 else old(delayClear)
    {
      if clearedRows.Some? {
        clearedRows, delayClear := None, 0;
      }
    }

    /** A 32-bit store at a cell. */
    method StoreWord(pos: nat, word: nat)
      requires CellSize(cellBytes) && pos + PerWord(cellBytes) <= buf.Length
      modifies buf
      ensures forall i :: 0 <= i < buf.Length ==>
                buf[i] == if pos <= i < pos + PerWord(cellBytes) then Lane(word, cellBytes, i - pos) else old(buf[i])
    {
      forall k | 0 <= k < PerWord(cellBytes) {
        buf[pos + k] := Lane(word, cellBytes, k);
      }
    }

    /** Fills `n` cells: whole words first, then the sub-word tail. */
    method FillCells(pos: nat, n: nat, value: nat)
      requires CellSize(cellBytes) && pos + n <= buf.Length && value < Limit(cellBytes)
      modifies buf
      ensures forall i :: 0 <= i < buf.Length ==>
                buf[i] == if pos <= i < pos + n then value else old(buf[i])
    {
      var per := PerWord(cellBytes);
      var chunk := Chunk(value, cellBytes);
      forall k: nat | k < per ensures Lane(chunk, cellBytes, k) == value {
        LaneOfChunk(value, cellBytes, k);
      }
      var filled := 0;
      while n - filled >= per
        invariant 0 <= filled <= n
        invariant forall j :: 0 <= j < buf.Length ==>
                    buf[j] == if pos <= j < pos + filled then value else old(buf[j])
      {
        StoreWord(pos + filled, chunk);
        filled := filled + per;
      }
      while filled < n
        invariant 0 <= filled <= n
        invariant forall j :: 0 <= j < buf.Length ==>
                    buf[j] == if pos <= j < pos + filled then value else old(buf[j])
      {
        buf[pos + filled] := value;
        filled := filled + 1;
      }
    }

    /** One row of a fill: the cells before the skipped ones and those after them. */
    method ClearRow(pos: nat, value: nat, n: nat, skipStart: nat, skipEnd: nat)
      requires CellSize(cellBytes) && pos + n <= buf.Length && value < Limit(cellBytes)
      requires skipStart <= n && skipStart <= skipEnd
      modifies buf
      ensures forall i :: 0 <= i < buf.Length ==>
                buf[i] == if pos <= i < pos + skipStart || pos + skipEnd <= i < pos + n then value else old(buf[i])
    {
      if 0 < skipStart {
        FillCells(pos, skipStart, value);
      }
      if skipEnd < n {
        FillCells(pos + skipEnd, n - skipEnd, value);
      }
    }

    /** Columns [x0, x1) without the skipped ones, of rows [y0, y1). */
    static predicate Fills(x0: int, x1: int, y0: int, y1: int, skipStart: int, skipEnd: int, y: int, x: int) {
      && y0 <= y < y1 && x0 <= x < x1
      && !(Max(skipStart, x0) <= x < Max(skipEnd, Max(skipStart, x0)))
    }

    /** Sets exactly the cells of the rectangle outside the skipped columns. Rows that are filled
        whole are filled in one go, padding included. */
    method ClearBuffer(value: nat, x0: nat, x1: nat, y0: nat, y1: nat, skipStart: int, skipEnd: int)
      requires Shape() && value < Limit(cellBytes)
      requires x0 <= x1 <= width && y0 <= height && y1 <= height && skipStart <= x1
      modifies buf
      ensures forall y: nat, x: nat :: y < height && x < width ==>
                Cell(y, x) == if Fills(x0, x1, y0, y1, skipStart, skipEnd, y, x) then value else old(Cell(y, x))
    {
      var ss := Max(skipStart, x0);
      var se := Max(skipEnd, ss);
      if x1 - x0 == width && y1 - y0 > 1 && ss >= se {
        ClearCollapsed(value, y0, y1, ss);
      } else {
        var y := y0;
        while y < y1
          invariant y0 <= y && (if y0 <= y1 then y <= y1 else y == y0)
          invariant forall r: nat, x: nat :: r < height && x < width ==>
                      Cell(r, x) == if Fills(x0, x1, y0, y, skipStart, skipEnd, r, x) then value else old(Cell(r, x))
        {
          ClearOneRow(value, x0, x1, y, ss, se);
          y := y + 1;
        }
      }
    }

    method ClearOneRow(value: nat, x0: nat, x1: nat, y: nat, skipStart: nat, skipEnd: nat)
      requires Shape() && value < Limit(cellBytes) && y < height
      requires x0 <= skipStart <= x1 <= width && skipStart <= skipEnd
      modifies buf
      ensures forall r: nat, x: nat :: r < height && x < width ==>
                Cell(r, x) == if r == y && (x0 <= x < skipStart || skipEnd <= x < x1) then value else old(Cell(r, x))
    {
      RowsFit();
      RowsDisjoint(y);
      ClearRow(RowAt(stride, y) + x0, value, x1 - x0, skipStart - x0, skipEnd - x0);
      forall r: nat, x: nat | r < height && x < width
        ensures Cell(r, x) == if r == y && (x0 <= x < skipStart || skipEnd <= x < x1) then value else old(Cell(r, x))
      {
        assert Cell(r, x) == buf[RowAt(stride, r) + x];
      }
    }

    /** Whole rows in one go; the skipped range is empty, at column `at`. */
    method ClearCollapsed(value: nat, y0: nat, y1: nat, at: nat)
      requires Shape() && value < Limit(cellBytes) && y0 + 1 < y1 <= height && at <= width
      modifies buf
      ensures forall y: nat, x: nat :: y < height && x < width ==>
                Cell(y, x) == if y0 <= y < y1 then value else old(Cell(y, x))
    {
      RowsFit();
      CollapsedRows(y0, y1);
      ClearRow(RowAt(stride, y0), value, width + RowAt(stride, y1 - y0 - 1), at, at);
      forall y: nat, x: nat | y < height && x < width
        ensures Cell(y, x) == if y0 <= y < y1 then value else old(Cell(y, x))
      {
        assert RowPlace(y0, y1, y);
        assert Cell(y, x) == buf[RowAt(stride, y) + x];
      }
    }

    lemma {:induction false} RowsFit()
      requires Shape()
      ensures forall y: nat :: y < height ==> RowAt(stride, y) + stride <= RowAt(stride, height)
    {
      forall y: nat | y < height ensures RowAt(stride, y) + stride <= RowAt(stride, height) {
        RowsApart(stride, y, height);
      }
    }

    lemma {:induction false} CellsRead()
      requires Shape()
      ensures forall r: nat, x: nat :: r < height && x < width ==> Cell(r, x) == CellIn(buf[..], r, x)
    {
      RowsFit();
    }

    /** Overwriting cells of one row leaves the other cells alone. */
    lemma {:induction false} RowWritten(b0: seq<nat>, b1: seq<nat>, y: nat, startx: nat, endx: nat)
      requires Shape() && y < height && startx <= endx <= width && |b0| == |b1| == buf.Length
      requires forall i :: 0 <= i < |b0| && !(RowAt(stride, y) + startx <= i < RowAt(stride, y) + endx) ==>
            b1[i] == b0[i]
      ensures forall r: nat, x: nat :: r < height && x < width && !(r == y && startx <= x < endx) ==>
                CellIn(b1, r, x) == CellIn(b0, r, x)
    {
      RowsFit();
      RowsDisjoint(y);
    }

    lemma {:induction false} RowsDisjoint(y: nat)
      requires Shape() && y < height
      ensures forall r: nat :: r < height && r != y ==>
                RowAt(stride, r) + stride <= RowAt(stride, y) || RowAt(stride, y) + stride <= RowAt(stride, r)
    {
      forall r: nat | r < height && r != y
        ensures RowAt(stride, r) + stride <= RowAt(stride, y) || RowAt(stride, y) + stride <= RowAt(stride, r)
      {
        RowsApart(stride, Min(r, y), Max(r, y));
      }
    }

    /** A row's clear is owed and the row lies in bitmap word `i`. */
    static ghost predicate OwedInWord(word: nat, i: nat, y: nat) {
      32 * i <= y < 32 * i + 32 && !Bit(word, y - 32 * i)
    }

    /** Materialises the rows whose bit of word `i` is zero, one run of zeros at a time. */
    method ClearWord(i: nat, skipStart: nat, skipEnd: int)
      requires Valid() && clearedRows.Some? && i < |clearedRows.value| && skipStart <= width
      modifies `clearedRows, `delayClear, buf
      ensures Valid() && clearedRows == Some(old(clearedRows).value[i := ALL_ONES])
      ensures forall y: nat, x: nat :: y < height && x < width ==>
                Cell(y, x) == if OwedInWord(old(clearedRows).value[i], i, y) && !(skipStart <= x < skipEnd)
                              then clearVal else old(Cell(y, x))
    {
      var mask := clearedRows.value[i];
      if mask != ALL_ONES {
        clearedRows := Some(clearedRows.value[i := ALL_ONES]);
        CellsRead();
        ScanWord(i, mask, skipStart, skipEnd);
      } else {
        assert clearedRows.value == clearedRows.value[i := ALL_ONES];
      }
      WordDone(old(clearedRows).value, i);
    }

    /** The rows of word `i` below row `upto` are materialised, relative to the cells `b0`. */
    ghost predicate Scanned(b0: seq<nat>, word: nat, i: nat, upto: nat, skipStart: nat, skipEnd: int)
      requires Shape() && |b0| == buf.Length
      reads `clearVal, buf
    {
      forall y: nat, x: nat :: y < height && x < width ==>
        Cell(y, x) == if OwedInWord(word, i, y) && y < upto && !(skipStart <= x < skipEnd)
                      then clearVal else CellIn(b0, y, x)
    }

    /** Fills the rows of one run of zeros. */
    method ClearRun(i: nat, word: nat, start: nat, count: nat, skipStart: nat, skipEnd: int, ghost b0: seq<nat>)
      requires Shape() && clearVal < Limit(cellBytes) && skipStart <= width && |b0| == buf.Length
      requires 32 * i <= start && start + count <= 32 * i + 32 && (count > 0 ==> start + count <= height)
      requires RunOf(word, start - 32 * i, count, false)
      requires Scanned(b0, word, i, start, skipStart, skipEnd)
      modifies buf, `delayClear
      ensures delayClear == old(delayClear) - count
      ensures Scanned(b0, word, i, start + count, skipStart, skipEnd)
    {
      if count > 0 {
        ClearBuffer(clearVal, 0, width, start, start + count, skipStart, skipEnd);
        delayClear := delayClear - count;
      }
    }

    lemma {:induction false} PassRun(i: nat, word: nat, start: nat, count: nat, skipStart: nat, skipEnd: int,
        b0: seq<nat>)
      requires Shape() && |b0| == buf.Length
      requires 32 * i <= start && start + count <= 32 * i + 32
      requires RunOf(word, start - 32 * i, count, true)
      requires Scanned(b0, word, i, start, skipStart, skipEnd)
      ensures Scanned(b0, word, i, start + count, skipStart, skipEnd)
    {
    }

    /** A run of zeros, which is filled, and the run of ones behind it. */
    method ScanRuns(i: nat, word: nat, mask: nat, start: nat, ghost s: nat, skipStart: nat, skipEnd: int,
        ghost b0: seq<nat>)
      returns (mask': nat, start': nat, ghost s': nat)
      requires Shape() && clearVal < Limit(cellBytes) && skipStart <= width && |b0| == buf.Length
      requires word < ALL_ONES && TopSet(height, i, word) && start == i * 32 + s && s <= 32
      requires mask != 0 && Shifted(word, mask, s) && Scanned(b0, word, i, start, skipStart, skipEnd)
      modifies `delayClear, buf
      ensures start' == i * 32 + s' && s' <= 32 && mask' < mask && Shifted(word, mask', s')
      ensures delayClear == old(delayClear) - Zeros(mask, 32 - s) + Zeros(mask', 32 - s')
      ensures Scanned(b0, word, i, start', skipStart, skipEnd)
    {
      var count := Ctz(mask);
      ZeroRun(height, i, word, mask, s);
      ClearRun(i, word, start, count, skipStart, skipEnd, b0);
      mask', start', s' := ScanOnes(i, word, Shr(mask, count), start + count, s + count, skipStart, skipEnd, b0);
    }

    /** The run of ones. */
    method ScanOnes(i: nat, word: nat, mask: nat, start: nat, ghost s: nat, skipStart: nat, skipEnd: int,
        ghost b0: seq<nat>)
      returns (mask': nat, start': nat, ghost s': nat)
      requires Shape() && |b0| == buf.Length && word < ALL_ONES && start == i * 32 + s && s < 32 && Bit(word, s)
      requires Shifted(word, mask, s) && Scanned(b0, word, i, start, skipStart, skipEnd)
      ensures start' == i * 32 + s' && s' <= 32 && mask' < mask && Shifted(word, mask', s')
      ensures Zeros(mask, 32 - s) == Zeros(mask', 32 - s')
      ensures Scanned(b0, word, i, start', skipStart, skipEnd)
    {
      OneRun(word, mask, s);
      var count := Ctz(mask + 1);
      PassRun(i, word, start, count, skipStart, skipEnd, b0);
      mask', start', s' := Shr(mask, count), start + count, s + count;
    }

    /** The scan of one word by runs of zeros and ones. */
    method ScanWord(i: nat, word: nat, skipStart: nat, skipEnd: int)
      requires Shape() && clearVal < Limit(cellBytes) && skipStart <= width
      requires word < ALL_ONES && TopSet(height, i, word)
      modifies `delayClear, buf
      ensures delayClear == old(delayClear) - Zeros(word, 32)
      ensures Scanned(old(buf[..]), word, i, 32 * i + 32, skipStart, skipEnd)
    {
      ghost var b0 := buf[..];
      ScanStart(i, word, skipStart, skipEnd);
      var mask, start := word, i * 32;
      ghost var s, owed := 0, Zeros(word, 32);
      while mask != 0
        invariant start == i * 32 + s && s <= 32
        invariant Shifted(word, mask, s) && owed == Zeros(mask, 32 - s)
        invariant delayClear == old(delayClear) - Zeros(word, 32) + owed
        invariant Scanned(b0, word, i, start, skipStart, skipEnd)
        decreases mask
      {
        mask, start, s := ScanRuns(i, word, mask, start, s, skipStart, skipEnd, b0);
        owed := Zeros(mask, 32 - s);
      }
      ZerosOfZero(32 - s);
      var count := (i + 1) * 32 - start;
      if count > 0 {
        LastRun(height, i, word, s);
      }
      ClearRun(i, word, start, count, skipStart, skipEnd, b0);
    }

    lemma {:induction false} ScanStart(i: nat, word: nat, skipStart: nat, skipEnd: int)
      requires Shape()
      ensures Scanned(buf[..], word, i, 32 * i, skipStart, skipEnd)
    {
      RowsFit();
    }

    lemma {:induction false} WordDone(words: seq<nat>, i: nat)
      requires BitmapFor(words) && i < |words|
      ensures BitmapFor(words[i := ALL_ONES])
      ensures TotalZeros(words[i := ALL_ONES]) == TotalZeros(words) - Zeros(words[i], 32)
      ensures words[i] == ALL_ONES ==> forall y: nat :: !OwedInWord(words[i], i, y)
    {
      Pow2Is32();
      OnesNoZeros(32);
      TotalZerosUpdate(words, i, ALL_ONES);
      forall k: nat | k < 32 ensures Bit(ALL_ONES, k) {
        OnesBits(32, k);
      }
    }

    /** The rows and columns that `ForceClear` derives from the rectangle that its caller is about
        to overwrite. The last column is clamped from the first row, as in the source. */
    ghost function SkipY0(skip: Option<IntRect>): nat {
      if skip.None? then 0 else Min(Max(skip.value.y, 0), height)
    }

    ghost function SkipY1(skip: Option<IntRect>): nat {
      if skip.None? then height else Min(Max(skip.value.y + skip.value.height, SkipY0(skip)), height)
    }

    ghost function SkipStart(skip: Option<IntRect>): nat {
      if skip.None? then 0 else Min(Max(skip.value.x, 0), width)
    }

    ghost function SkipEnd(skip: Option<IntRect>): nat {
      if skip.None? then 0 else Min(Max(skip.value.x + skip.value.width, SkipY0(skip)), width)
    }

    /** Row `y` shares a bitmap word with a row of the rectangle. */
    ghost predicate Touched(skip: Option<IntRect>, y: nat) {
      SkipY0(skip) / 32 <= y / 32 < (SkipY1(skip) + 31) / 32
    }

    /** The cells that lose their clear colour: their row is marked materialised, but not filled. */
    ghost predicate Stale(skip: Option<IntRect>, y: nat, x: nat)
      requires Valid() && y < height
      reads this
    {
      Pending(y) && Touched(skip, y) && SkipStart(skip) <= x < SkipEnd(skip)
    }

    /** Materialises the rows in the bitmap words that the rectangle touches (all rows if there is
        none), except for the columns about to be overwritten. */
    method ForceClear(skip: Option<IntRect>)
      requires Valid()
      modifies `delayClear, `clearedRows, buf
      ensures Valid()
      ensures forall y: nat :: y < height ==> Pending(y) == (old(Pending(y)) && !Touched(skip, y))
      ensures forall y: nat, x: nat :: y < height && x < width ==>
                Cell(y, x) == if old(Pending(y)) && Touched(skip, y) && !old(Stale(skip, y, x))
                              then clearVal else old(Cell(y, x))
      ensures skip.None? && old(delayClear) != 0 ==> clearedRows.None?
    {
      NothingOwed();
      if delayClear == 0 || clearedRows.None? {
        return;
      }
      var y0, y1, skipStart, skipEnd := 0, height, 0, 0;
      if skip.Some? {
        y0 := Min(Max(skip.value.y, 0), height);
        y1 := Min(Max(skip.value.y + skip.value.height, y0), height);
        skipStart := Min(Max(skip.value.x, 0), width);
        skipEnd := Min(Max(skip.value.x + skip.value.width, y0), width);
        if skipStart <= 0 && skipEnd >= width && y0 <= 0 && y1 >= height {
          DisableDelayedClear();
          return;
        }
      }
      ClearWords(y0 / 32, (y1 + 31) / 32, skipStart, skipEnd);
      NothingOwed();
      if delayClear <= 0 {
        DisableDelayedClear();
      }
    }

    /** The words from `first` up to `last`. */
    method ClearWords(first: nat, last: nat, skipStart: nat, skipEnd: int)
      requires Valid() && clearedRows.Some? && last <= |clearedRows.value| && skipStart <= width
      modifies `clearedRows, `delayClear, buf
      ensures Valid() && clearedRows.Some?
      ensures forall y: nat :: y < height ==> Pending(y) == (old(Pending(y)) && !(first <= y / 32 < last))
      ensures forall y: nat, x: nat :: y < height && x < width ==>
                Cell(y, x) == if old(Pending(y)) && first <= y / 32 < last && !(skipStart <= x < skipEnd)
                              then clearVal else old(Cell(y, x))
    {
      ghost var words, b0 := clearedRows.value, buf[..];
      CellsRead();
      Pow2Is32();
      forall k: nat | k < 32 ensures Bit(ALL_ONES, k) { OnesBits(32, k); }
      var i := first;
      while i < last
        invariant first <= i <= Max(first, last)
        invariant Valid() && clearedRows.Some?
        invariant forall j :: 0 <= j < |words| ==>
                    clearedRows.value[j] == if first <= j < i then ALL_ONES else words[j]
        invariant Filled(b0, buf[..], words, first, i, skipStart, skipEnd, clearVal)
      {
        ghost var b1 := buf[..];
        CellsRead();
        ClearWord(i, skipStart, skipEnd);
        CellsRead();
        FilledNext(b0, b1, buf[..], words, first, i, skipStart, skipEnd, clearVal);
        i := i + 1;
      }
      CellsRead();
      forall y: nat | y < height ensures OwedInWord(words[y / 32], y / 32, y) == !Bit(words[y / 32], y % 32) {
        assert y == 32 * (y / 32) + y % 32;
      }
    }

    /** The owed rows of the bitmap words from `first` up to `upto` have been filled. */
    ghost predicate Filled(b0: seq<nat>, b1: seq<nat>, words: seq<nat>, first: nat, upto: nat,
                           skipStart: nat, skipEnd: int, val: nat)
      requires Shape() && |b0| == |b1| == buf.Length && |words| == (height + 31) / 32
    {
      forall y: nat, x: nat :: y < height && x < width ==>
        CellIn(b1, y, x) == if first <= y / 32 < upto && OwedInWord(words[y / 32], y / 32, y)
                               && !(skipStart <= x < skipEnd)
                            then val else CellIn(b0, y, x)
    }

    lemma {:induction false} FilledNext(b0: seq<nat>, b1: seq<nat>, b2: seq<nat>, words: seq<nat>, first: nat, i: nat,
                                        skipStart: nat, skipEnd: int, val: nat)
      requires Shape() && |b0| == |b1| == |b2| == buf.Length && |words| == (height + 31) / 32 && first <= i < |words|
      requires Filled(b0, b1, words, first, i, skipStart, skipEnd, val)
      requires forall y: nat, x: nat :: y < height && x < width ==>
                 CellIn(b2, y, x) == if OwedInWord(words[i], i, y) && !(skipStart <= x < skipEnd)
                                     then val else CellIn(b1, y, x)
      ensures Filled(b0, b2, words, first, i + 1, skipStart, skipEnd, val)
    {
      forall y: nat, x: nat | y < height && x < width
        ensures CellIn(b2, y, x) ==
                  if first <= y / 32 < i + 1 && OwedInWord(words[y / 32], y / 32, y) && !(skipStart <= x < skipEnd)
                  then val else CellIn(b0, y, x)
      {
        var w := y / 32;
        assert 32 * w <= y < 32 * w + 32;
        assert OwedInWord(words[i], i, y) ==> w == i;
        assert CellIn(b1, y, x) == if first <= w < i && OwedInWord(words[w], w, y) && !(skipStart <= x < skipEnd)
                                   then val else CellIn(b0, y, x);
      }
    }

    /** A zero counter means that no row is owed. */
    lemma {:induction false} NothingOwed()
      requires Valid()
      ensures delayClear >= 0
      ensures delayClear == 0 ==> forall y: nat :: y < height ==> !Pending(y)
      ensures (forall y: nat :: y < height ==> !Pending(y)) ==> delayClear == 0
    {
      if delayClear == 0 && clearedRows.Some? {
        forall y: nat | y < height ensures !Pending(y) {
          TotalZerosNone(clearedRows.value, y / 32, y % 32);
        }
      }
      if clearedRows.Some? && forall y: nat :: y < height ==> !Pending(y) {
        var words := clearedRows.value;
        forall i, k: nat | 0 <= i < |words| && k < 32 ensures Bit(words[i], k) {
          var y := 32 * i + k;
          assert y / 32 == i && y % 32 == k;
          assert y < height ==> !Pending(y);
        }
        AllBitsSet(words);
      }
    }

    /** Marks one owed row as materialised; the caller fills it. */
    method MarkRow(y: nat)
      requires Valid() && y < height && Pending(y)
      modifies `delayClear, `clearedRows
      ensures Valid() && clearedRows.Some?
      ensures forall r: nat :: r < height ==> Pending(r) == (old(Pending(r)) && r != y)
    {
      var words, i, k := clearedRows.value, y / 32, y % 32;
      Pow2Is32();
      SetBitBound(words[i], k, 32);
      ZerosSetBit(words[i], k, 32);
      TotalZerosUpdate(words, i, SetBit(words[i], k));
      forall j: nat ensures Bit(SetBit(words[i], k), j) == (j == k || Bit(words[i], j)) {
        BitSetBit(words[i], k, j);
      }
      clearedRows := Some(words[i := SetBit(words[i], k)]);
      delayClear := delayClear - 1;
    }

    method PrepareTexture(skip: Option<IntRect>)
      requires Valid()
      modifies `delayClear, `clearedRows, buf
      ensures Valid()
      ensures forall y: nat :: y < height ==> Pending(y) == (old(Pending(y)) && !Touched(skip, y))
      ensures forall y: nat, x: nat :: y < height && x < width ==>
                Logical(y, x) == if old(Stale(skip, y, x)) then old(Cell(y, x)) else old(Logical(y, x))
      ensures forall y: nat, x: nat :: y < height && x < width && !Pending(y) ==> Cell(y, x) == Logical(y, x)
    {
      if delayClear != 0 {
        ForceClear(skip);
      } else {
        NothingOwed();
      }
    }

    /** The run from the first row to the last covers exactly the image cells of those rows. */
    lemma {:induction false} CollapsedRows(y0: nat, y1: nat)
      requires Shape() && y0 < y1 <= height
      ensures RowAt(stride, y0) + width + RowAt(stride, y1 - y0 - 1) <= buf.Length
      ensures forall y: nat :: y < height ==> RowPlace(y0, y1, y)
    {
      RowAtSum(stride, y0, y1 - y0 - 1);
      RowsApart(stride, y1 - 1, height);
      forall y: nat | y < height ensures RowPlace(y0, y1, y) {
        if y < y0 { RowsApart(stride, y, y0); }
        if y0 < y { RowsApart(stride, y0, y); }
        if y < y1 - 1 { RowsApart(stride, y, y1 - 1); }
        if y1 - 1 < y { RowsApart(stride, y1 - 1, y); }
      }
    }

    /** Where row `y` lies relative to the run of rows [y0, y1). */
    ghost predicate RowPlace(y0: nat, y1: nat, y: nat)
      requires y0 < y1
    {
      var last := RowAt(stride, y0) + RowAt(stride, y1 - y0 - 1);
      if y < y0 then RowAt(stride, y) + stride <= RowAt(stride, y0)
      else if y < y1 then RowAt(stride, y0) <= RowAt(stride, y) <= last
      else last + stride <= RowAt(stride, y)
    }
  }
}
