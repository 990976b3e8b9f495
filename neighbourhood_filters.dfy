/**
 * The two filters of src/views/ocr/ts/editor-filter.ts that read a pixel's neighbours:
 * sharpen (a 3 by 3 convolution on the interior) and de-shadow (a local minimum over
 * a 7 by 7 window). Both compute into a second buffer and copy it back. Byte `k` of a
 * `width`-pixel-wide buffer belongs to pixel `(Px(k), Py(k))`, channel `Ch(k)`.
 */
module NeighbourhoodFilters {
  import opened PixelFilters

  // ---------------------------------------------------------------------------
  // Buffer layout
  // ---------------------------------------------------------------------------

  /** The index of channel `c` of pixel `(x, y)`: `(y * width + x) * 4 + c`. */
  function Idx(width: int, x: int, y: int, c: int): int {
    4 * (y * width + x) + c
  }

  function Px(width: int, k: int): int requires width > 0 { (k / 4) % width }
  function Py(width: int, k: int): int requires width > 0 { (k / 4) / width }
  function Ch(k: int): int { k % 4 }

  /** A buffer of `width` by `height` pixels. */
  predicate Fits(d: seq<Byte>, width: nat, height: nat) {
    |d| == 4 * (width * height)
  }

  lemma DivMod(a: int, b: int, q: int, r: int)
    requires b > 0 && 0 <= r < b && a == q * b + r
    ensures a / b == q && a % b == r
  {
    var m := q - a / b;
    assert m * b == a % b - r by {
      assert a == (a / b) * b + a % b;
      assert m * b == q * b - (a / b) * b;
    }
    MultipleBound(m, b);
  }

  lemma MultipleBound(m: int, b: int)
    requires b > 0
    ensures m >= 1 ==> m * b >= b
    ensures m <= -1 ==> m * b <= -b
  {
  }

  /** The pixel and channel of an index are the ones it was built from. */
  lemma Recompose(width: int, x: int, y: int, c: int)
    requires width > 0 && 0 <= x < width && y >= 0 && 0 <= c < 4
    ensures Px(width, Idx(width, x, y, c)) == x && Py(width, Idx(width, x, y, c)) == y
    ensures Ch(Idx(width, x, y, c)) == c
  {
    var k := Idx(width, x, y, c);
    DivMod(k, 4, y * width + x, c);
    DivMod(y * width + x, width, y, x);
  }

  /** Every byte of the buffer is a channel of one of its pixels. */
  lemma Decompose(width: nat, height: nat, k: int)
    requires width > 0 && height > 0 && 0 <= k < 4 * (width * height)
    ensures 0 <= Px(width, k) < width && 0 <= Py(width, k) < height && 0 <= Ch(k) < 4
    ensures Idx(width, Px(width, k), Py(width, k), Ch(k)) == k
  {
    var p := k / 4;
    assert k == 4 * p + k % 4;
    assert p == width * (p / width) + p % width;
    assert p < width * height;
  }

  /** Every channel of every pixel is a byte of the buffer. */
  lemma InBuffer(width: nat, height: nat, x: int, y: int, c: int)
    requires 0 <= x < width && 0 <= y < height && 0 <= c < 4
    ensures 0 <= Idx(width, x, y, c) < 4 * (width * height)
  {
    assert y * width <= (height - 1) * width;
  }

  /** A non-empty buffer has a positive width and height. */
  lemma NonEmpty(width: nat, height: nat)
    requires width * height > 0
    ensures width > 0 && height > 0
  {
  }

  function IMin(a: int, b: int): int { if a <= b then a else b }
  function IMax(a: int, b: int): int { if a >= b then a else b }

  // ---------------------------------------------------------------------------
  // Sharpen
  // ---------------------------------------------------------------------------

  /** A colour byte of a pixel not on the image border. */
  predicate Interior(width: nat, height: nat, x: int, y: int, c: int) {
    1 <= x < width - 1 && 1 <= y < height - 1 && 0 <= c < 3
  }

  /**
   * The sharpen kernel `[0 -1 0; -1 5 -1; 0 -1 0]` at an interior byte, clamped to
   * 0..255.
   */
  function SharpenValue(d: seq<Byte>, width: nat, height: nat, x: int, y: int, c: int): Byte
    requires Fits(d, width, height) && Interior(width, height, x, y, c)
  {
    InBuffer(width, height, x, y, c);
    InBuffer(width, height, x, y - 1, c);
    InBuffer(width, height, x, y + 1, c);
    InBuffer(width, height, x - 1, y, c);
    InBuffer(width, height, x + 1, y, c);
    var centre: int := d[Idx(width, x, y, c)];
    var up: int := d[Idx(width, x, y - 1, c)];
    var down: int := d[Idx(width, x, y + 1, c)];
    var left: int := d[Idx(width, x - 1, y, c)];
    var right: int := d[Idx(width, x + 1, y, c)];
    var sum := 5 * centre - up - down - left - right;
    IMax(0, IMin(255, sum))
  }

  /** Byte `k` after sharpening: the kernel on interior colour bytes, unchanged elsewhere. */
  function SharpenAt(d: seq<Byte>, width: nat, height: nat, k: int): Byte
    requires Fits(d, width, height) && 0 <= k < |d|
  {
    NonEmpty(width, height);
    var x := Px(width, k);
    var y := Py(width, k);
    var c := Ch(k);
    if Interior(width, height, x, y, c) then SharpenValue(d, width, height, x, y, c) else d[k]
  }

  /** The sharpened buffer. */
  function Sharpened(d: seq<Byte>, width: nat, height: nat): (e: seq<Byte>)
    requires Fits(d, width, height)
    ensures |e| == |d|
  {
    seq(|d|, k requires 0 <= k < |d| => SharpenAt(d, width, height, k))
  }

  /**
   * Sharpening keeps the border and every alpha byte, leaves images narrower or shorter
   * than three pixels unchanged, and keeps a uniform image unchanged.
   */
  lemma SharpenKeeps(d: seq<Byte>, width: nat, height: nat, x: int, y: int, c: int)
    requires Fits(d, width, height) && 0 <= x < width && 0 <= y < height && 0 <= c < 4
    ensures 0 <= Idx(width, x, y, c) < |d|
    ensures !Interior(width, height, x, y, c) ==> Sharpened(d, width, height)[Idx(width, x, y, c)] == d[Idx(width, x, y, c)]
    ensures (forall k, l :: 0 <= k < |d| && 0 <= l < |d| && Ch(k) == Ch(l) ==> d[k] == d[l]) ==>
      Sharpened(d, width, height)[Idx(width, x, y, c)] == d[Idx(width, x, y, c)]
  {
    InBuffer(width, height, x, y, c);
    Recompose(width, x, y, c);
    if Interior(width, height, x, y, c) {
      InBuffer(width, height, x, y - 1, c);
      InBuffer(width, height, x, y + 1, c);
      InBuffer(width, height, x - 1, y, c);
      InBuffer(width, height, x + 1, y, c);
      Recompose(width, x, y - 1, c);
      Recompose(width, x, y + 1, c);
      Recompose(width, x - 1, y, c);
      Recompose(width, x + 1, y, c);
    }
  }

  /** Pixel `(x', y')` comes before `(x, y)` in row order. */
  predicate PixelBefore(width: nat, k: int, x: int, y: int)
    requires width > 0
  {
    Py(width, k) < y || (Py(width, k) == y && Px(width, k) < x)
  }

  /** Byte `k` comes before channel `c` of pixel `(x, y)` in the loops' order. */
  predicate Before(width: nat, k: int, x: int, y: int, c: int)
    requires width > 0
  {
    PixelBefore(width, k, x, y) || (Py(width, k) == y && Px(width, k) == x && Ch(k) < c)
  }

  /** The bytes the sharpen loops have written so far, in `o`. */
  predicate SharpenProgress(o: seq<Byte>, d: seq<Byte>, width: nat, height: nat, x: int, y: int, c: int)
    requires Fits(d, width, height) && width > 0
  {
    |o| == |d| && forall k :: 0 <= k < |d| ==>
      o[k] == (if Before(width, k, x, y, c) then Sharpened(d, width, height)[k] else d[k])
  }

  /** Writing channel `c` of pixel `(x, y)` advances the progress by one byte. */
  lemma SharpenStep(o: seq<Byte>, d: seq<Byte>, width: nat, height: nat, x: int, y: int, c: int)
    requires Fits(d, width, height) && Interior(width, height, x, y, c)
    requires SharpenProgress(o, d, width, height, x, y, c)
    ensures 0 <= Idx(width, x, y, c) < |o|
    ensures SharpenProgress(o[Idx(width, x, y, c) := SharpenValue(d, width, height, x, y, c)], d, width, height, x, y, c + 1)
  {
    InBuffer(width, height, x, y, c);
    var pos := Idx(width, x, y, c);
    Recompose(width, x, y, c);
    var o' := o[pos := SharpenValue(d, width, height, x, y, c)];
    forall k | 0 <= k < |d|
      ensures o'[k] == (if Before(width, k, x, y, c + 1) then Sharpened(d, width, height)[k] else d[k])
    {
      Decompose(width, height, k);
    }
  }

  /** Skipping an alpha byte, the border column or a border row keeps the progress. */
  lemma SharpenSkip(o: seq<Byte>, d: seq<Byte>, width: nat, height: nat, x: int, y: int, c: int,
                    x': int, y': int, c': int)
    requires Fits(d, width, height) && width > 0
    requires SharpenProgress(o, d, width, height, x, y, c)
    requires forall k :: 0 <= k < |d| && Before(width, k, x', y', c') && !Before(width, k, x, y, c) ==>
      !Interior(width, height, Px(width, k), Py(width, k), Ch(k))
    requires forall k :: 0 <= k < |d| && Before(width, k, x, y, c) ==> Before(width, k, x', y', c')
    ensures SharpenProgress(o, d, width, height, x', y', c')
  {
  }

  /** The first interior byte has only border bytes before it; after the last, only border bytes remain. */
  lemma SharpenEnds(d: seq<Byte>, width: nat, height: nat, y: int)
    requires Fits(d, width, height) && width > 0 && y == IMax(1, height - 1)
    ensures forall k :: 0 <= k < |d| && Before(width, k, 1, 1, 0) ==>
      !Interior(width, height, Px(width, k), Py(width, k), Ch(k))
    ensures forall k :: 0 <= k < |d| && !Before(width, k, 1, y, 0) ==>
      !Interior(width, height, Px(width, k), Py(width, k), Ch(k))
  {
  }

  /** Nothing is written before the first interior byte. */
  lemma SharpenStart(d: seq<Byte>, width: nat, height: nat)
    requires Fits(d, width, height) && width > 0
    ensures SharpenProgress(d, d, width, height, 1, 1, 0)
  {
    SharpenEnds(d, width, height, IMax(1, height - 1));
    SharpenSkip(d, d, width, height, 0, 0, 0, 1, 1, 0);
  }

  /** The end of an interior row moves on to the next row across two border pixels. */
  lemma SharpenNextRow(o: seq<Byte>, d: seq<Byte>, width: nat, height: nat, y: int)
    requires Fits(d, width, height) && width > 0 && 1 <= y < height - 1
    requires SharpenProgress(o, d, width, height, IMax(1, width - 1), y, 0)
    ensures SharpenProgress(o, d, width, height, 1, y + 1, 0)
  {
    SharpenSkip(o, d, width, height, IMax(1, width - 1), y, 0, 1, y + 1, 0);
  }

  /** After the last interior row, every byte is sharpened. */
  lemma SharpenFinish(o: seq<Byte>, d: seq<Byte>, width: nat, height: nat)
    requires Fits(d, width, height) && width > 0
    requires SharpenProgress(o, d, width, height, 1, IMax(1, height - 1), 0)
    ensures o == Sharpened(d, width, height)
  {
    SharpenEnds(d, width, height, IMax(1, height - 1));
    forall k | 0 <= k < |d|
      ensures o[k] == Sharpened(d, width, height)[k]
    {
    }
  }

  /** The channel loop of `applySharpenFilter`: the kernel on the colour bytes of one pixel. */
  method SharpenPixel(data: array<Byte>, output: array<Byte>, width: nat, height: nat, x: nat, y: nat)
    requires data != output && Fits(data[..], width, height)
    requires 1 <= x < width - 1 && 1 <= y < height - 1
    requires SharpenProgress(output[..], data[..], width, height, x, y, 0)
    modifies output
    ensures SharpenProgress(output[..], data[..], width, height, x + 1, y, 0)
  {
    var c := 0;
    while c < 3
      invariant 0 <= c <= 3
      invariant SharpenProgress(output[..], data[..], width, height, x, y, c)
    {
      InBuffer(width, height, x, y, c);
      SharpenStep(output[..], data[..], width, height, x, y, c);
      output[Idx(width, x, y, c)] := SharpenValue(data[..], width, height, x, y, c);
      c := c + 1;
    }
    SharpenSkip(output[..], data[..], width, height, x, y, 3, x + 1, y, 0);
  }

  /** The column loop of `applySharpenFilter`: one interior row. */
  method SharpenRow(data: array<Byte>, output: array<Byte>, width: nat, height: nat, y: nat)
    requires data != output && Fits(data[..], width, height) && width > 0
    requires 1 <= y < height - 1
    requires SharpenProgress(output[..], data[..], width, height, 1, y, 0)
    modifies output
    ensures SharpenProgress(output[..], data[..], width, height, 1, y + 1, 0)
  {
    var x := 1;
    while x < width - 1
      invariant 1 <= x <= IMax(1, width - 1)
      invariant SharpenProgress(output[..], data[..], width, height, x, y, 0)
    {
      SharpenPixel(data, output, width, height, x, y);
      x := x + 1;
    }
    SharpenNextRow(output[..], data[..], width, height, y);
  }

  /**
   * `applySharpenFilter`'s loops: the kernel into a copy of the buffer over the interior
   * pixels, then the copy back into the buffer.
   */
  method Sharpen(data: array<Byte>, width: nat, height: nat)
    requires data.Length == 4 * (width * height)
    modifies data
    ensures data[..] == Sharpened(old(data[..]), width, height)
  {
    ghost var d := data[..];
    var output := new Byte[data.Length](i requires 0 <= i < data.Length reads data => data[i]);
    assert output[..] == d;
    if width > 0 {
      SharpenStart(d, width, height);
      var y := 1;
      while y < height - 1
        invariant 1 <= y <= IMax(1, height - 1)
        invariant data[..] == d
        invariant SharpenProgress(output[..], d, width, height, 1, y, 0)
        modifies output
      {
        SharpenRow(data, output, width, height, y);
        y := y + 1;
      }
      SharpenFinish(output[..], d, width, height);
    }
    CopyBack(data, output);
  }

  // ---------------------------------------------------------------------------
  // De-shadow
  // ---------------------------------------------------------------------------

  /** The de-shadow window's radius: 3 pixels on each side. */
  const Radius := 3

  /** The smaller of `acc` and channel `c` of pixels `x0 .. x1 - 1` of row `ky`, taken in column order. */
  function ColMin(d: seq<Byte>, width: nat, height: nat, c: int, ky: int, x0: int, x1: int, acc: int): (r: int)
    requires Fits(d, width, height) && 0 <= x0 && x1 <= width && 0 <= ky < height && 0 <= c < 4
    ensures 0 <= acc ==> 0 <= r <= acc
    decreases x1 - x0
  {
    if x1 <= x0 then acc
    else
      InBuffer(width, height, x1 - 1, ky, c);
      IMin(ColMin(d, width, height, c, ky, x0, x1 - 1, acc), d[Idx(width, x1 - 1, ky, c)])
  }

  /** The smallest channel `c` over rows `y0 .. y1 - 1` and columns `x0 .. x1 - 1`, starting from 255. */
  function RowsMin(d: seq<Byte>, width: nat, height: nat, c: int, y0: int, y1: int, x0: int, x1: int): (r: int)
    requires Fits(d, width, height) && 0 <= y0 && y1 <= height && 0 <= x0 && x1 <= width && 0 <= c < 4
    ensures 0 <= r <= 255
    decreases y1 - y0
  {
    if y1 <= y0 then 255
    else ColMin(d, width, height, c, y1 - 1, x0, x1, RowsMin(d, width, height, c, y0, y1 - 1, x0, x1))
  }

  /** The smallest channel `c` in the window of radius 3 around `(x, y)`, clipped to the image. */
  function WindowMin(d: seq<Byte>, width: nat, height: nat, x: int, y: int, c: int): (r: Byte)
    requires Fits(d, width, height) && 0 <= x < width && 0 <= y < height && 0 <= c < 4
  {
    RowsMin(d, width, height, c, IMax(0, y - Radius), IMin(height - 1, y + Radius) + 1,
      IMax(0, x - Radius), IMin(width - 1, x + Radius) + 1)
  }

  lemma {:induction false} ColMinAtMost(d: seq<Byte>, width: nat, height: nat, c: int, ky: int, x0: int, x1: int, acc: int, kx: int)
    requires Fits(d, width, height) && 0 <= x0 && x1 <= width && 0 <= ky < height && 0 <= c < 4
    requires x0 <= kx < x1
    ensures 0 <= Idx(width, kx, ky, c) < |d|
    ensures ColMin(d, width, height, c, ky, x0, x1, acc) <= d[Idx(width, kx, ky, c)]
    decreases x1 - x0
  {
    InBuffer(width, height, kx, ky, c);
    if kx < x1 - 1 {
      ColMinAtMost(d, width, height, c, ky, x0, x1 - 1, acc, kx);
    }
  }

  lemma {:induction false} ColMinAtMostAcc(d: seq<Byte>, width: nat, height: nat, c: int, ky: int, x0: int, x1: int, acc: int)
    requires Fits(d, width, height) && 0 <= x0 && x1 <= width && 0 <= ky < height && 0 <= c < 4
    ensures ColMin(d, width, height, c, ky, x0, x1, acc) <= acc
    decreases x1 - x0
  {
    if x0 < x1 {
      ColMinAtMostAcc(d, width, height, c, ky, x0, x1 - 1, acc);
    }
  }

  lemma {:induction false} RowsMinAtMost(d: seq<Byte>, width: nat, height: nat, c: int, y0: int, y1: int, x0: int, x1: int, kx: int, ky: int)
    requires Fits(d, width, height) && 0 <= y0 && y1 <= height && 0 <= x0 && x1 <= width && 0 <= c < 4
    requires x0 <= kx < x1 && y0 <= ky < y1
    ensures 0 <= Idx(width, kx, ky, c) < |d|
    ensures RowsMin(d, width, height, c, y0, y1, x0, x1) <= d[Idx(width, kx, ky, c)]
    decreases y1 - y0
  {
    InBuffer(width, height, kx, ky, c);
    var rest := RowsMin(d, width, height, c, y0, y1 - 1, x0, x1);
    if ky < y1 - 1 {
      RowsMinAtMost(d, width, height, c, y0, y1 - 1, x0, x1, kx, ky);
      ColMinAtMostAcc(d, width, height, c, y1 - 1, x0, x1, rest);
    } else {
      ColMinAtMost(d, width, height, c, y1 - 1, x0, x1, rest, kx);
    }
  }

  /** A pixel lies in its own window, so the window's minimum is at most the pixel's own value. */
  lemma WindowMinAtMostPixel(d: seq<Byte>, width: nat, height: nat, x: int, y: int, c: int)
    requires Fits(d, width, height) && 0 <= x < width && 0 <= y < height && 0 <= c < 4
    ensures 0 <= Idx(width, x, y, c) < |d|
    ensures WindowMin(d, width, height, x, y, c) <= d[Idx(width, x, y, c)]
  {
    RowsMinAtMost(d, width, height, c, IMax(0, y - Radius), IMin(height - 1, y + Radius) + 1,
      IMax(0, x - Radius), IMin(width - 1, x + Radius) + 1, x, y);
  }

  /** A pixel with a red, green or blue byte below 100 is processed; brighter pixels are copied. */
  predicate Dark(d: seq<Byte>, width: nat, height: nat, x: int, y: int)
    requires Fits(d, width, height) && 0 <= x < width && 0 <= y < height
  {
    InBuffer(width, height, x, y, 0);
    InBuffer(width, height, x, y, 1);
    InBuffer(width, height, x, y, 2);
    d[Idx(width, x, y, 0)] < 100 || d[Idx(width, x, y, 1)] < 100 || d[Idx(width, x, y, 2)] < 100
  }

  /**
   * A colour byte `v` of a dark pixel whose window minimum is `m`: `v + (128 - m) / 2`,
   * capped at 255 and stored as a clamped byte.
   */
  function Lift(v: Byte, m: Byte): Byte {
    Store(RMin(255.0, v as real + (128 - m) as real * 0.5))
  }

  /** Byte `k` after de-shadowing. */
  function RemshadAt(d: seq<Byte>, width: nat, height: nat, k: int): Byte
    requires Fits(d, width, height) && 0 <= k < |d|
  {
    NonEmpty(width, height);
    Decompose(width, height, k);
    var x := Px(width, k);
    var y := Py(width, k);
    var c := Ch(k);
    if c < 3 && Dark(d, width, height, x, y) then Lift(d[k], WindowMin(d, width, height, x, y, c)) else d[k]
  }

  /** The de-shadowed buffer. */
  function Remshaded(d: seq<Byte>, width: nat, height: nat): (e: seq<Byte>)
    requires Fits(d, width, height)
    ensures |e| == |d|
  {
    seq(|d|, k requires 0 <= k < |d| => RemshadAt(d, width, height, k))
  }

  /**
   * De-shadowing keeps every alpha byte and every pixel whose red, green and blue are
   * all at least 100, and never darkens a colour byte of at most 128.
   */
  lemma RemshadKeeps(d: seq<Byte>, width: nat, height: nat, x: int, y: int, c: int)
    requires Fits(d, width, height) && 0 <= x < width && 0 <= y < height && 0 <= c < 4
    ensures 0 <= Idx(width, x, y, c) < |d|
    ensures c == 3 || !Dark(d, width, height, x, y) ==>
      Remshaded(d, width, height)[Idx(width, x, y, c)] == d[Idx(width, x, y, c)]
    ensures d[Idx(width, x, y, c)] <= 128 ==>
      Remshaded(d, width, height)[Idx(width, x, y, c)] >= d[Idx(width, x, y, c)]
  {
    InBuffer(width, height, x, y, c);
    Recompose(width, x, y, c);
    var v := d[Idx(width, x, y, c)];
    if c < 3 && Dark(d, width, height, x, y) && v <= 128 {
      WindowMinAtMostPixel(d, width, height, x, y, c);
      LiftRaises(v, WindowMin(d, width, height, x, y, c));
    }
  }

  /** Lifting by a minimum no larger than the byte itself, and at most 128, does not darken it. */
  lemma LiftRaises(v: Byte, m: Byte)
    requires m <= v <= 128
    ensures Lift(v, m) >= v
  {
    StoreBounds(RMin(255.0, v as real + (128 - m) as real * 0.5), v);
  }

  /** The window minima loops of `applyRemshadFilter` for the pixel `(x, y)`. */
  method WindowMins(data: array<Byte>, width: nat, height: nat, x: nat, y: nat) returns (minR: int, minG: int, minB: int)
    requires Fits(data[..], width, height) && x < width && y < height
    ensures minR == WindowMin(data[..], width, height, x, y, 0)
    ensures minG == WindowMin(data[..], width, height, x, y, 1)
    ensures minB == WindowMin(data[..], width, height, x, y, 2)
  {
    ghost var d := data[..];
    var startY := IMax(0, y - Radius);
    var endY := IMin(height - 1, y + Radius);
    var startX := IMax(0, x - Radius);
    var endX := IMin(width - 1, x + Radius);
    minR, minG, minB := 255, 255, 255;
    var ky := startY;
    while ky <= endY
      invariant startY <= ky <= endY + 1
      invariant minR == RowsMin(d, width, height, 0, startY, ky, startX, endX + 1)
      invariant minG == RowsMin(d, width, height, 1, startY, ky, startX, endX + 1)
      invariant minB == RowsMin(d, width, height, 2, startY, ky, startX, endX + 1)
    {
      ghost var r0, g0, b0 := minR, minG, minB;
      var kx := startX;
      while kx <= endX
        invariant startX <= kx <= endX + 1
        invariant minR == ColMin(d, width, height, 0, ky, startX, kx, r0)
        invariant minG == ColMin(d, width, height, 1, ky, startX, kx, g0)
        invariant minB == ColMin(d, width, height, 2, ky, startX, kx, b0)
      {
        var nIdx := Idx(width, kx, ky, 0);
        InBuffer(width, height, kx, ky, 0);
        InBuffer(width, height, kx, ky, 2);
        minR := IMin(minR, data[nIdx]);
        minG := IMin(minG, data[nIdx + 1]);
        minB := IMin(minB, data[nIdx + 2]);
        kx := kx + 1;
      }
      ky := ky + 1;
    }
  }

  /** The pixels the de-shadow loops have written so far, in `o`, are final. */
  predicate RemshadProgress(o: seq<Byte>, d: seq<Byte>, width: nat, height: nat, x: int, y: int)
    requires Fits(d, width, height) && width > 0
  {
    |o| == |d| && forall k :: 0 <= k < |d| && PixelBefore(width, k, x, y) ==>
      o[k] == Remshaded(d, width, height)[k]
  }

  /** Finishing the four bytes of pixel `(x, y)` advances the progress by one pixel. */
  lemma RemshadAdvance(o: seq<Byte>, o': seq<Byte>, d: seq<Byte>, width: nat, height: nat, x: int, y: int)
    requires Fits(d, width, height) && 0 <= x < width && 0 <= y < height
    requires RemshadProgress(o, d, width, height, x, y) && |o'| == |o|
    requires Idx(width, x, y, 3) < |d|
    requires forall k :: 0 <= k < |d| && !(Idx(width, x, y, 0) <= k <= Idx(width, x, y, 3)) ==> o'[k] == o[k]
    requires forall c :: 0 <= c < 4 ==> o'[Idx(width, x, y, c)] == Remshaded(d, width, height)[Idx(width, x, y, c)]
    ensures RemshadProgress(o', d, width, height, x + 1, y)
  {
    forall k | 0 <= k < |d| && PixelBefore(width, k, x + 1, y)
      ensures o'[k] == Remshaded(d, width, height)[k]
    {
      Decompose(width, height, k);
      if Py(width, k) == y && Px(width, k) == x {
        assert k == Idx(width, x, y, Ch(k));
      } else {
        assert !(Idx(width, x, y, 0) <= k <= Idx(width, x, y, 3)) by {
          if Idx(width, x, y, 0) <= k <= Idx(width, x, y, 3) {
            Recompose(width, x, y, k - Idx(width, x, y, 0));
          }
        }
      }
    }
  }

  /** After the last pixel of a row, the progress moves on to the next row. */
  lemma RemshadNextRow(o: seq<Byte>, d: seq<Byte>, width: nat, height: nat, y: int)
    requires Fits(d, width, height) && width > 0
    requires RemshadProgress(o, d, width, height, width, y)
    ensures RemshadProgress(o, d, width, height, 0, y + 1)
  {
    forall k | 0 <= k < |d| && PixelBefore(width, k, 0, y + 1)
      ensures o[k] == Remshaded(d, width, height)[k]
    {
      Decompose(width, height, k);
    }
  }

  /** Before the first row, nothing is required of the output. */
  lemma RemshadStart(o: seq<Byte>, d: seq<Byte>, width: nat, height: nat)
    requires Fits(d, width, height) && width > 0 && |o| == |d|
    ensures RemshadProgress(o, d, width, height, 0, 0)
  {
    forall k | 0 <= k < |d|
      ensures !PixelBefore(width, k, 0, 0)
    {
      Decompose(width, height, k);
    }
  }

  /** After the last row, every byte is final. */
  lemma RemshadFinish(o: seq<Byte>, d: seq<Byte>, width: nat, height: nat)
    requires Fits(d, width, height) && width > 0
    requires RemshadProgress(o, d, width, height, 0, height)
    ensures o == Remshaded(d, width, height)
  {
    forall k | 0 <= k < |d|
      ensures o[k] == Remshaded(d, width, height)[k]
    {
      Decompose(width, height, k);
    }
  }

  /** The four bytes of pixel `(x, y)` of the de-shadowed buffer. */
  lemma RemshadBytes(d: seq<Byte>, width: nat, height: nat, x: int, y: int)
    requires Fits(d, width, height) && 0 <= x < width && 0 <= y < height
    ensures Idx(width, x, y, 3) < |d|
    ensures forall c :: 0 <= c < 4 ==>
      Remshaded(d, width, height)[Idx(width, x, y, c)] ==
        if c < 3 && Dark(d, width, height, x, y)
        then Lift(d[Idx(width, x, y, c)], WindowMin(d, width, height, x, y, c))
        else d[Idx(width, x, y, c)]
  {
    InBuffer(width, height, x, y, 3);
    forall c | 0 <= c < 4
      ensures Remshaded(d, width, height)[Idx(width, x, y, c)] ==
        if c < 3 && Dark(d, width, height, x, y)
        then Lift(d[Idx(width, x, y, c)], WindowMin(d, width, height, x, y, c))
        else d[Idx(width, x, y, c)]
    {
      InBuffer(width, height, x, y, c);
      Recompose(width, x, y, c);
    }
  }

  /** Writes the four bytes of the pixel starting at byte `idx`. */
  method WritePixel(output: array<Byte>, idx: nat, r: Byte, g: Byte, b: Byte, a: Byte)
    requires idx + 4 <= output.Length
    modifies output
    ensures output[idx] == r && output[idx + 1] == g && output[idx + 2] == b && output[idx + 3] == a
    ensures forall k :: 0 <= k < output.Length && !(idx <= k <= idx + 3) ==> output[k] == old(output[k])
  {
    output[idx] := r;
    output[idx + 1] := g;
    output[idx + 2] := b;
    output[idx + 3] := a;
  }

  /** The body of `applyRemshadFilter`'s pixel loop for `(x, y)`. */
  method RemshadPixel(data: array<Byte>, output: array<Byte>, width: nat, height: nat, x: nat, y: nat)
    requires data != output && Fits(data[..], width, height) && x < width && y < height
    requires RemshadProgress(output[..], data[..], width, height, x, y)
    modifies output
    ensures RemshadProgress(output[..], data[..], width, height, x + 1, y)
  {
    ghost var d := data[..];
    ghost var o := output[..];
    RemshadBytes(d, width, height, x, y);
    var idx := Idx(width, x, y, 0);
    assert Idx(width, x, y, 1) == idx + 1 && Idx(width, x, y, 2) == idx + 2 && Idx(width, x, y, 3) == idx + 3;
    var r, g, b := data[idx], data[idx + 1], data[idx + 2];
    if data[idx] < 100 || data[idx + 1] < 100 || data[idx + 2] < 100 {
      var minR, minG, minB := WindowMins(data, width, height, x, y);
      r, g, b := Lift(r, minR), Lift(g, minG), Lift(b, minB);
    }
    WritePixel(output, idx, r, g, b, data[idx + 3]);
    RemshadAdvance(o, output[..], d, width, height, x, y);
  }

  /** The column loop of `applyRemshadFilter`: one row. */
  method RemshadRow(data: array<Byte>, output: array<Byte>, width: nat, height: nat, y: nat)
    requires data != output && Fits(data[..], width, height) && width > 0 && y < height
    requires RemshadProgress(output[..], data[..], width, height, 0, y)
    modifies output
    ensures RemshadProgress(output[..], data[..], width, height, 0, y + 1)
  {
    var x := 0;
    while x < width
      invariant 0 <= x <= width
      invariant RemshadProgress(output[..], data[..], width, height, x, y)
    {
      RemshadPixel(data, output, width, height, x, y);
      x := x + 1;
    }
    RemshadNextRow(output[..], data[..], width, height, y);
  }

  /**
   * `applyRemshadFilter`'s loops: every pixel into a new buffer, then the buffer
   * back into the image data.
   */
  method Remshad(data: array<Byte>, width: nat, height: nat)
    requires data.Length == 4 * (width * height)
    modifies data
    ensures data[..] == Remshaded(old(data[..]), width, height)
  {
    var output := new Byte[data.Length](_ => 0);
    if width > 0 {
      RemshadRows(data, output, width, height);
    }
    CopyBack(data, output);
  }

  /** The row loop of `applyRemshadFilter`: every pixel into `output`. */
  method RemshadRows(data: array<Byte>, output: array<Byte>, width: nat, height: nat)
    requires data != output && Fits(data[..], width, height) && width > 0
    requires output.Length == data.Length
    modifies output
    ensures output[..] == Remshaded(data[..], width, height)
  {
    ghost var d := data[..];
    RemshadStart(output[..], d, width, height);
    var y := 0;
    while y < height
      invariant 0 <= y <= height
      invariant data[..] == d
      invariant RemshadProgress(output[..], d, width, height, 0, y)
    {
      RemshadRow(data, output, width, height, y);
      y := y + 1;
    }
    RemshadFinish(output[..], d, width, height);
  }

  /** The final loop of both filters: the computed buffer replaces the image data. */
  method CopyBack(data: array<Byte>, output: array<Byte>)
    requires data != output && data.Length == output.Length
    modifies data
    ensures data[..] == output[..]
  {
    var i := 0;
    while i < data.Length
      invariant 0 <= i <= data.Length
      invariant data[..i] == output[..i]
    {
      data[i] := output[i];
      i := i + 1;
    }
  }
}
