/**
 * The checkerboard test texture: `w * h` RGBA8 pixels in rows, where each
 * pixel's red and green are 220 or 60 by the parity of its cell, and blue
 * and alpha are 255. The demo library and the test harness carry the same
 * generator.
 */
module Checker {
  import opened Wrappers
  import opened Js
  import opened Bits
  import opened Seqs

  const DEFAULT_SIZE := 256
  const DEFAULT_CELLS := 8
  const LIGHT: bv8 := 220
  const DARK: bv8 := 60
  const OPAQUE: bv8 := 255

  /** Integer division truncating toward zero. */
  function TruncDiv(a: int, b: int): int
    requires b > 0
  {
    if a >= 0 then a / b else -((-a) / b)
  }

  /**
   * `(x * cells / w) | 0`: the cell column (or row) of a pixel; the quotient
   * of integers truncated and wrapped to 32 bits (see `CellIndexIsJs`).
   */
  function CellIndex(x: int, cells: int, w: int): int
    requires w > 0
  {
    WrapInt32(TruncDiv(x * cells, w))
  }

  /** The floor of a quotient of a non-negative integer by a positive one is their integer quotient. */
  lemma FloorOfQuotient(a: int, b: int)
    requires a >= 0 && b > 0
    ensures (a as real / b as real).Floor == a / b
  {
    var q, m := a / b, a % b;
    assert a == q * b + m;
    assert a as real / b as real == q as real + m as real / b as real;
    assert 0.0 <= m as real / b as real < 1.0;
  }

  /** The integer definition agrees with JavaScript's division of the numbers followed by `| 0`. */
  lemma CellIndexIsJs(x: int, cells: int, w: int)
    requires w > 0
    ensures CellIndex(x, cells, w) == ToInt32(Finite((x * cells) as real / w as real))
  {
    var a := x * cells;
    var r := a as real / w as real;
    if a >= 0 {
      FloorOfQuotient(a, w);
      assert r >= 0.0;
    } else {
      FloorOfQuotient(-a, w);
      assert -r == (-a) as real / w as real;
      assert r < 0.0;
    }
  }

  /** The 32-bit two's complement pattern of an `int32`. */
  function Int32Bits(a: int): bv32
    requires -TWO31 <= a < TWO31
  {
    (a % TWO32) as bv32
  }

  /** `((cx ^ cy) & 1) ? 220 : 60`. */
  function Shade(w: int, h: int, cells: int, x: int, y: int): bv8
    requires w > 0 && h > 0
  {
    if (Int32Bits(CellIndex(x, cells, w)) ^ Int32Bits(CellIndex(y, cells, h))) & 1 == 1 then LIGHT else DARK
  }

  /** A shading: the red and green value of each pixel. */
  type Shading = (int, int) -> bv8

  /** The checkerboard's shading. */
  function ShadeFn(w: int, h: int, cells: int): Shading
    requires w > 0 && h > 0
  {
    (x: int, y: int) => Shade(w, h, cells, x, y)
  }

  /** The four bytes of pixel `(x, y)`: red and green shaded, blue and alpha opaque. */
  function PixelAt(shade: Shading, x: int, y: int): (px: seq<bv8>)
    ensures |px| == 4
  {
    [shade(x, y), shade(x, y), OPAQUE, OPAQUE]
  }

  /** The first `x` pixels of row `y`. */
  function Row(shade: Shading, y: int, x: int): (s: seq<bv8>)
    ensures |s| == 4 * Max(0, x)
    decreases x
  {
    if x <= 0 then [] else Row(shade, y, x - 1) + PixelAt(shade, x - 1, y)
  }

  /** The first `y` rows, each of `w` pixels. */
  function Rows(shade: Shading, w: int, y: int): seq<bv8>
    decreases y
  {
    if y <= 0 then [] else Rows(shade, w, y - 1) + Row(shade, y - 1, w)
  }

  /** The whole image: `h` rows of `w` pixels. */
  function Image(w: int, h: int, cells: int): seq<bv8>
    requires w > 0 && h > 0
  {
    Rows(ShadeFn(w, h, cells), w, h)
  }

  /** `y` rows hold `4 * y * w` bytes. */
  lemma {:induction false} RowsLength(shade: Shading, w: int, y: int)
    requires w > 0 && y >= 0
    ensures |Rows(shade, w, y)| == 4 * (y * w)
    decreases y
  {
    if y > 0 {
      RowsLength(shade, w, y - 1);
      assert (y - 1) * w + w == y * w;
    }
  }

  /** Byte `c` of pixel `x` in a row prefix longer than `x`. */
  lemma {:induction false} RowAt(shade: Shading, y: int, n: int, x: int, c: int)
    requires 0 <= x < n && 0 <= c < 4
    ensures Row(shade, y, n)[4 * x + c] == PixelAt(shade, x, y)[c]
    decreases n
  {
    if x < n - 1 {
      RowAt(shade, y, n - 1, x, c);
    }
  }

  /** Byte `c` of pixel `(x, y)` of a prefix of more than `y` rows. */
  lemma {:induction false} RowsAt(shade: Shading, w: int, n: int, x: int, y: int, c: int)
    requires w > 0 && 0 <= x < w && 0 <= y < n && 0 <= c < 4
    ensures 0 <= 4 * (y * w) + 4 * x + c < |Rows(shade, w, n)|
    ensures Rows(shade, w, n)[4 * (y * w) + 4 * x + c] == PixelAt(shade, x, y)[c]
    decreases n
  {
    var k := 4 * (y * w) + 4 * x + c;
    var prev, last := Rows(shade, w, n - 1), Row(shade, n - 1, w);
    assert Rows(shade, w, n) == prev + last;
    RowsLength(shade, w, n - 1);
    if y < n - 1 {
      RowsAt(shade, w, n - 1, x, y, c);
      assert (prev + last)[k] == prev[k];
    } else {
      RowAt(shade, y, w, x, c);
      assert k == |prev| + (4 * x + c);
      assert (prev + last)[k] == last[4 * x + c];
    }
  }

  lemma LowBit(n: int)
    requires 0 <= n < TWO32
    ensures ((n as bv32) & 1 == 1) <==> n % 2 == 1
  {
  }

  /** Reducing modulo 2^32 keeps the parity. */
  lemma ModKeepsParity(a: int)
    ensures (a % TWO32) % 2 == a % 2
  {
    var q, m := a / TWO32, a % TWO32;
    assert a == 2 * (q * TWO31 + m / 2) + m % 2;
    DivModUnique(a, 2, q * TWO31 + m / 2, m % 2);
  }

  /** The low bit of an `int32`'s pattern is its parity. */
  lemma Int32LowBit(a: int)
    requires -TWO31 <= a < TWO31
    ensures (Int32Bits(a) & 1 == 1) <==> a % 2 == 1
  {
    LowBit(a % TWO32);
    ModKeepsParity(a);
  }

  lemma XorOdd(u: bv32, v: bv32)
    ensures ((u ^ v) & 1 == 1) <==> ((u & 1 == 1) != (v & 1 == 1))
  {
  }

  lemma SumOdd(a: int, b: int)
    ensures ((a + b) % 2 == 1) <==> ((a % 2 == 1) != (b % 2 == 1))
  {
  }

  /** The exclusive or of the cell indices is odd iff their sum is. */
  lemma ShadeParity(w: int, h: int, cells: int, x: int, y: int)
    requires w > 0 && h > 0
    ensures var cx, cy := CellIndex(x, cells, w), CellIndex(y, cells, h);
      Shade(w, h, cells, x, y) == (if (cx + cy) % 2 == 1 then LIGHT else DARK)
  {
    var cx, cy := CellIndex(x, cells, w), CellIndex(y, cells, h);
    Int32LowBit(cx);
    Int32LowBit(cy);
    XorOdd(Int32Bits(cx), Int32Bits(cy));
    SumOdd(cx, cy);
  }

  /** For a non-negative cell count the cell index is the floor of `x * cells / w` (below 2^31). */
  lemma CellIndexIsFloor(x: int, cells: int, w: int)
    requires x >= 0 && cells >= 0 && w > 0 && (x * cells) / w < TWO31
    ensures CellIndex(x, cells, w) == (x * cells) / w
  {
    MulMonotone(0, x, cells);
  }

  /** Every pixel of the image lies inside the data. */
  lemma PixelInBounds(w: int, h: int, x: int, y: int)
    requires 0 <= x < w && 0 <= y < h
    ensures 0 <= (y * w + x) * 4 && (y * w + x) * 4 + 4 <= w * h * 4
  {
    MulMonotone(0, y, w);
    MulMonotone(y + 1, h, w);
    assert (y + 1) * w == y * w + w;
  }

  /** Distinct in-image pixels start at distinct indices: every index is written once. */
  lemma PixelIndexInjective(w: int, x1: int, y1: int, x2: int, y2: int)
    requires 0 <= x1 < w && 0 <= x2 < w && 0 <= y1 && 0 <= y2
    requires (y1 * w + x1) * 4 == (y2 * w + x2) * 4
    ensures x1 == x2 && y1 == y2
  {
    DivModUnique(y1 * w + x1, w, y1, x1);
    DivModUnique(y2 * w + x2, w, y2, x2);
  }

  /**
   * `makeCheckerRGBA8(w, h, cells)`; an omitted argument is `None` and takes
   * its default (256, 256, 8).
   */
  method MakeCheckerRGBA8(w0: Option<nat>, h0: Option<nat>, cells0: Option<int>)
    returns (width: nat, height: nat, data: array<bv8>)
    ensures width == (if w0.Some? then w0.value else DEFAULT_SIZE)
    ensures height == (if h0.Some? then h0.value else DEFAULT_SIZE)
    ensures fresh(data) && data.Length == width * height * 4
    ensures width > 0 && height > 0 ==>
              data[..] == Image(width, height, if cells0.Some? then cells0.value else DEFAULT_CELLS)
  {
    var w := if w0.Some? then w0.value else DEFAULT_SIZE;
    var h := if h0.Some? then h0.value else DEFAULT_SIZE;
    var cells := if cells0.Some? then cells0.value else DEFAULT_CELLS;
    data := new bv8[w * h * 4];
    if w > 0 && h > 0 {
      FillPixels(data, w, h, ShadeFn(w, h, cells));
    }
    return w, h, data;
  }

  /** The nested loops of `makeCheckerRGBA8`: row by row, pixel `(x, y)` at `(y * w + x) * 4`. */
  method FillPixels(data: array<bv8>, w: nat, h: nat, shade: Shading)
    requires w > 0 && h > 0 && data.Length == w * h * 4
    modifies data
    ensures data[..] == Rows(shade, w, h)
  {
    ghost var total := w * h;
    ghost var row := 0;
    for y := 0 to h
      invariant row == y * w && row <= total
      invariant data[..row * 4] == Rows(shade, w, y)
    {
      RowFits(w, h, y);
      FillRow(data, w, y, row, shade);
      row := row + w;
      assert row == (y + 1) * w;
    }
    assert data[..] == data[..row * 4];
  }

  /** Row `y` of the texture: the pixels `(y * w + x) * 4` for `x` from 0 to `w - 1`, after the rows above it. */
  method FillRow(data: array<bv8>, w: nat, y: nat, ghost base: nat, shade: Shading)
    requires base == y * w && (base + w) * 4 <= data.Length
    modifies data
    ensures data[..(base + w) * 4] == old(data[..base * 4]) + Row(shade, y, w)
  {
    ghost var done := data[..base * 4];
    for x := 0 to w
      invariant data[..(base + x) * 4] == done + Row(shade, y, x)
    {
      var i := (y * w + x) * 4;
      assert i == (base + x) * 4;
      var c := shade(x, y);
      ghost var before := data[..i];
      data[i + 0] := c;
      data[i + 1] := c;
      data[i + 2] := OPAQUE;
      data[i + 3] := OPAQUE;
      assert data[..i] == before;
      assert data[i..i + 4] == PixelAt(shade, x, y);
      TakeSplit(data[..], i, i + 4);
      AppendAssoc(done, Row(shade, y, x), PixelAt(shade, x, y));
    }
  }

  lemma RowFits(w: int, h: int, y: int)
    requires w > 0 && 0 <= y < h
    ensures y * w + w <= w * h
  {
    MulMonotone(y + 1, h, w);
  }

  /**
   * Pixel `(x, y)` is the four bytes at `(y * w + x) * 4` of the image: red
   * equals green and is 220 iff the cell sum is odd, else 60; blue and alpha
   * are 255.
   */
  lemma ImagePixel(w: int, h: int, cells: int, x: int, y: int)
    requires w > 0 && h > 0 && 0 <= x < w && 0 <= y < h
    ensures var i := (y * w + x) * 4;
      var cx, cy := CellIndex(x, cells, w), CellIndex(y, cells, h);
      var img := Image(w, h, cells);
      && 0 <= i && i + 4 <= |img|
      && img[i] == img[i + 1] == (if (cx + cy) % 2 == 1 then LIGHT else DARK)
      && img[i + 2] == OPAQUE && img[i + 3] == OPAQUE
  {
    var shade := ShadeFn(w, h, cells);
    RowsAt(shade, w, h, x, y, 0);
    RowsAt(shade, w, h, x, y, 1);
    RowsAt(shade, w, h, x, y, 2);
    RowsAt(shade, w, h, x, y, 3);
    ShadeParity(w, h, cells, x, y);
  }

  /** Every byte of the image belongs to exactly one pixel and channel: index `j` is channel `j % 4` of pixel `((j / 4) % w, (j / 4) / w)`. */
  lemma IndexDecodes(w: int, h: int, j: int)
    requires w > 0 && h > 0 && 0 <= j < w * h * 4
    ensures var p := j / 4; var x, y := p % w, p / w;
      0 <= x < w && 0 <= y < h && j == (y * w + x) * 4 + j % 4
  {
    var p := j / 4;
    assert p < w * h;
    assert p == (p / w) * w + p % w;
    if p / w >= h {
      MulMonotone(h, p / w, w);
    }
  }
}
