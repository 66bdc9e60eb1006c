/** The raw scanline builder: one filter byte and 3 bytes a pixel for each row. */
module Raster {
  import opened Crc32

  type Pixels = (nat, nat) -> (int, int, int)

  /** What a byte buffer stores of a number: the number modulo 256. */
  function Stored(n: int): Byte {
    n % 256
  }

  function Pixel(pixel: Pixels, x: nat, y: nat): seq<Byte> {
    var p := pixel(x, y);
    [Stored(p.0), Stored(p.1), Stored(p.2)]
  }

  /** The first `n` pixels of row `y`. */
  function RowPixels(pixel: Pixels, n: nat, y: nat): (r: seq<Byte>)
    ensures |r| == 3 * n
  {
    if n == 0 then [] else RowPixels(pixel, n - 1, y) + Pixel(pixel, n - 1, y)
  }

  /** Filter type 0, then the row. */
  function Scanline(pixel: Pixels, width: nat, y: nat): (r: seq<Byte>)
    ensures |r| == 1 + 3 * width
  {
    [0] + RowPixels(pixel, width, y)
  }

  function Scanlines(pixel: Pixels, width: nat, rows: nat): (r: seq<Byte>)
    ensures |r| == rows * (1 + 3 * width)
  {
    if rows == 0 then [] else Scanlines(pixel, width, rows - 1) + Scanline(pixel, width, rows - 1)
  }

  // ----- where each pixel ends up -----

  lemma {:induction false} PixelInRow(pixel: Pixels, n: nat, y: nat, x: nat)
    requires x < n
    ensures RowPixels(pixel, n, y)[3 * x..3 * x + 3] == Pixel(pixel, x, y)
  {
    if x < n - 1 {
      PixelInRow(pixel, n - 1, y, x);
      var shorter := RowPixels(pixel, n - 1, y);
      assert RowPixels(pixel, n, y)[3 * x..3 * x + 3] == shorter[3 * x..3 * x + 3];
    }
  }

  lemma RowStart(width: nat, y: nat, rows: nat)
    requires y < rows
    ensures 0 <= y * (1 + 3 * width) && (y + 1) * (1 + 3 * width) == y * (1 + 3 * width) + (1 + 3 * width)
    ensures (y + 1) * (1 + 3 * width) <= rows * (1 + 3 * width)
    decreases rows
  {
  }

  lemma {:induction false} RowInImage(pixel: Pixels, width: nat, rows: nat, y: nat, base: nat)
    requires y < rows && base == y * (1 + 3 * width)
    ensures base + 1 + 3 * width <= |Scanlines(pixel, width, rows)|
    ensures Scanlines(pixel, width, rows)[base..base + 1 + 3 * width] == Scanline(pixel, width, y)
  {
    RowStart(width, y, rows);
    if y < rows - 1 {
      RowInImage(pixel, width, rows - 1, y, base);
      var shorter := Scanlines(pixel, width, rows - 1);
      assert Scanlines(pixel, width, rows)[base..base + 1 + 3 * width] == shorter[base..base + 1 + 3 * width];
    }
  }

  /** Row starts hold filter 0, and red, green and blue of pixel (x, y), modulo 256, stand from y·(1+3w)+1+3x on. */
  lemma PixelPosition(pixel: Pixels, width: nat, height: nat, x: nat, y: nat)
    requires x < width && y < height
    ensures var base, raw := y * (1 + 3 * width), Scanlines(pixel, width, height);
            && 0 <= base && base + 1 + 3 * width <= |raw|
            && raw[base] == 0
            && var (red, green, blue) := pixel(x, y);
               raw[base + 1 + 3 * x..base + 1 + 3 * x + 3] == [red % 256, green % 256, blue % 256]
  {
    var base, raw := y * (1 + 3 * width), Scanlines(pixel, width, height);
    var (red, green, blue) := pixel(x, y);
    assert Pixel(pixel, x, y) == [red % 256, green % 256, blue % 256];
    RowInImage(pixel, width, height, y, base);
    PixelInRow(pixel, width, y, x);
    hide Scanlines, Pixel;
    PixelInSlice(raw, base, RowPixels(pixel, width, y), 3 * x);
  }

  lemma PixelInSlice(raw: seq<Byte>, base: int, pixels: seq<Byte>, i: nat)
    requires 0 <= base && base + 1 + |pixels| <= |raw| && raw[base..base + 1 + |pixels|] == [0] + pixels
    requires i + 3 <= |pixels|
    ensures raw[base] == 0 && raw[base + 1 + i..base + 1 + i + 3] == pixels[i..i + 3]
  {
    var row := raw[base..base + 1 + |pixels|];
    assert row[0] == raw[base];
    var at := base + 1 + i;
    assert row[1 + i] == raw[at] && row[2 + i] == raw[at + 1] && row[3 + i] == raw[at + 2];
    assert ([0] + pixels)[1 + i] == pixels[i] && ([0] + pixels)[2 + i] == pixels[i + 1];
    assert ([0] + pixels)[3 + i] == pixels[i + 2];
    assert raw[at..at + 3] == [raw[at], raw[at + 1], raw[at + 2]];
    assert pixels[i..i + 3] == [pixels[i], pixels[i + 1], pixels[i + 2]];
  }

  // ----- the code -----

  /** The indices from `start` on, `n` of them, in order. */
  ghost function Indices(start: nat, n: nat): seq<nat> {
    seq(n, i requires 0 <= i < n => start + i)
  }

  lemma IndicesJoin(start: nat, n: nat, more: nat)
    ensures Indices(start, n) + Indices(start + n, more) == Indices(start, n + more)
  {
  }

  /**
   * Builds the whole image. `written` lists every index assigned after the buffer was allocated: each
   * index of the buffer exactly once, in ascending order.
   */
  method BuildRawRgb(width: nat, height: nat, pixel: Pixels) returns (raw: array<Byte>, ghost written: seq<nat>)
    ensures fresh(raw) && raw[..] == Scanlines(pixel, width, height)
    ensures written == Indices(0, raw.Length)
  {
    var rowLen := 1 + width * 3;
    raw := new Byte[rowLen * height](_ => 0);
    written := [];
    for y := 0 to height
      invariant 0 <= y * rowLen <= raw.Length
      invariant raw[..y * rowLen] == Scanlines(pixel, width, y) && written == Indices(0, y * rowLen)
    {
      hide Scanline, Indices;
      RowStart(width, y, height);
      IndicesJoin(0, y * rowLen, rowLen);
      ghost var row := FillRow(raw, y * rowLen, width, y, pixel);
      written := written + row;
      assert (y + 1) * rowLen == y * rowLen + rowLen;
    }
    assert height * rowLen == raw.Length;
    assert raw[..height * rowLen] == raw[..];
  }

  /** The inner loop: one filter byte and one row of pixels from `base` on. */
  method FillRow(raw: array<Byte>, base: nat, width: nat, y: nat, pixel: Pixels) returns (ghost written: seq<nat>)
    requires base + 1 + 3 * width <= raw.Length
    modifies raw
    ensures raw[..base + 1 + 3 * width] == old(raw[..base]) + Scanline(pixel, width, y)
    ensures written == Indices(base, 1 + 3 * width)
  {
    raw[base] := 0x00;
    written := [base];
    assert raw[..base + 1] == old(raw[..base]) + [0];
    for x := 0 to width
      invariant raw[..base + 1 + x * 3] == old(raw[..base]) + [0] + RowPixels(pixel, x, y)
      invariant written == Indices(base, 1 + x * 3)
    {
      hide Indices, Pixel;
      IndicesJoin(base, 1 + x * 3, 3);
      var more := FillPixel(raw, base + 1 + x * 3, x, y, pixel);
      written := written + more;
    }
  }

  /** The body of the inner loop: three bytes from `o` on. */
  method FillPixel(raw: array<Byte>, o: nat, x: nat, y: nat, pixel: Pixels) returns (ghost written: seq<nat>)
    requires o + 3 <= raw.Length
    modifies raw
    ensures raw[..o + 3] == old(raw[..o]) + Pixel(pixel, x, y)
    ensures written == Indices(o, 3)
  {
    var (r, g, b) := pixel(x, y);
    raw[o] := Stored(r);
    raw[o + 1] := Stored(g);
    raw[o + 2] := Stored(b);
    written := [o, o + 1, o + 2];
  }
}
