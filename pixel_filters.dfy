/**
 * The per-pixel loops of the image filters in src/views/ocr/ts/editor-filter.ts. The
 * canvas pixel buffer (`ImageData.data`, a `Uint8ClampedArray`) is an array of bytes
 * in RGBA order, four bytes per pixel, row after row. Arithmetic is on reals; a value
 * stored into the buffer is clamped to 0..255 and rounded half to even, as a
 * `Uint8ClampedArray` does.
 */
module PixelFilters {

  /** One byte of the pixel buffer. */
  type Byte = x: int | 0 <= x < 256

  function RMin(a: real, b: real): real { if a <= b then a else b }
  function RMax(a: real, b: real): real { if a >= b then a else b }

  /**
   * The value a `Uint8ClampedArray` stores for `v`: 0 below 0, 255 above 255, and
   * otherwise the nearest integer, ties going to the even one.
   */
  function Store(v: real): (b: Byte)
    ensures v <= 0.0 ==> b == 0
    ensures v >= 255.0 ==> b == 255
    ensures 0.0 <= v <= 255.0 ==> v - 0.5 <= b as real <= v + 0.5
  {
    if v <= 0.0 then 0
    else if v >= 255.0 then 255
    else
      var f := v.Floor;
      var frac := v - f as real;
      if frac < 0.5 then f
      else if frac > 0.5 then f + 1
      else if f % 2 == 0 then f else f + 1
  }

  /** Storing a whole number of the byte range keeps it. */
  lemma StoreByte(b: Byte)
    ensures Store(b as real) == b
  {
  }

  /** Storing a value at most (at least) a byte gives at most (at least) that byte. */
  lemma StoreBounds(v: real, b: Byte)
    ensures v <= b as real ==> Store(v) <= b
    ensures v >= b as real ==> Store(v) >= b
  {
  }

  // ---------------------------------------------------------------------------
  // Pixel-wise filters
  // ---------------------------------------------------------------------------

  /** The new colour of one pixel. */
  datatype Rgb = Rgb(r: Byte, g: Byte, b: Byte)

  /** Pixel `p` of `d` with its colour recoloured by `f` and its alpha kept. */
  function PixelOut(f: Rgb -> Rgb, d: seq<Byte>, p: nat): (px: seq<Byte>)
    requires 4 * p + 4 <= |d|
    ensures |px| == 4 && px[3] == d[4 * p + 3]
  {
    var c := f(Rgb(d[4 * p], d[4 * p + 1], d[4 * p + 2]));
    [c.r, c.g, c.b, d[4 * p + 3]]
  }

  /** Byte `j` of the buffer `d` after recolouring by `f`. */
  function OutByte(f: Rgb -> Rgb, d: seq<Byte>, j: nat): Byte
    requires 4 * (j / 4) + 4 <= |d|
  {
    PixelOut(f, d, j / 4)[j % 4]
  }

  /** The first `n` pixels of `d`, each recoloured by `f`. */
  function Recoloured(f: Rgb -> Rgb, d: seq<Byte>, n: nat): (r: seq<Byte>)
    requires 4 * n <= |d|
    ensures |r| == 4 * n
  {
    seq(4 * n, j requires 0 <= j < 4 * n => OutByte(f, d, j))
  }

  /** Pixel `p` of the result is pixel `p` of the input recoloured. */
  lemma RecolouredAt(f: Rgb -> Rgb, d: seq<Byte>, n: nat, p: nat)
    requires 4 * n <= |d| && p < n
    ensures Recoloured(f, d, n)[4 * p .. 4 * p + 4] == PixelOut(f, d, p)
  {
    var r := Recoloured(f, d, n);
    forall j | 0 <= j < 4
      ensures r[4 * p + j] == PixelOut(f, d, p)[j]
    {
      assert (4 * p + j) / 4 == p && (4 * p + j) % 4 == j;
    }
  }

  /** The four bytes of pixel `p` of the result: its colour recoloured, its alpha kept. */
  lemma RecolouredBytes(f: Rgb -> Rgb, d: seq<Byte>, n: nat, p: nat)
    requires 4 * n <= |d| && p < n
    ensures var r, c := Recoloured(f, d, n), f(Rgb(d[4 * p], d[4 * p + 1], d[4 * p + 2]));
      r[4 * p] == c.r && r[4 * p + 1] == c.g && r[4 * p + 2] == c.b && r[4 * p + 3] == d[4 * p + 3]
  {
    var r := Recoloured(f, d, n);
    RecolouredAt(f, d, n, p);
    assert r[4 * p] == r[4 * p .. 4 * p + 4][0];
    assert r[4 * p + 1] == r[4 * p .. 4 * p + 4][1];
    assert r[4 * p + 2] == r[4 * p .. 4 * p + 4][2];
    assert r[4 * p + 3] == r[4 * p .. 4 * p + 4][3];
  }

  /** The result depends on the first `n` pixels only. */
  lemma RecolouredPrefix(f: Rgb -> Rgb, d: seq<Byte>, e: seq<Byte>, n: nat)
    requires 4 * n <= |d| && 4 * n <= |e| && d[..4 * n] == e[..4 * n]
    ensures Recoloured(f, d, n) == Recoloured(f, e, n)
  {
    forall j | 0 <= j < 4 * n
      ensures OutByte(f, d, j) == OutByte(f, e, j)
    {
      var p := j / 4;
      assert d[4 * p] == d[..4 * n][4 * p] == e[4 * p];
      assert d[4 * p + 1] == d[..4 * n][4 * p + 1] == e[4 * p + 1];
      assert d[4 * p + 2] == d[..4 * n][4 * p + 2] == e[4 * p + 2];
      assert d[4 * p + 3] == d[..4 * n][4 * p + 3] == e[4 * p + 3];
    }
  }

  /** A recolouring that is idempotent on colours is idempotent on buffers. */
  lemma RecolouredIdempotent(f: Rgb -> Rgb, d: seq<Byte>, n: nat)
    requires 4 * n <= |d|
    requires forall c: Rgb :: f(f(c)) == f(c)
    ensures Recoloured(f, Recoloured(f, d, n), n) == Recoloured(f, d, n)
  {
    var e := Recoloured(f, d, n);
    forall j | 0 <= j < 4 * n
      ensures OutByte(f, e, j) == e[j]
    {
      var p := j / 4;
      RecolouredAt(f, d, n, p);
      assert e[4 * p] == PixelOut(f, d, p)[0];
      assert e[4 * p + 1] == PixelOut(f, d, p)[1];
      assert e[4 * p + 2] == PixelOut(f, d, p)[2];
      assert e[4 * p + 3] == PixelOut(f, d, p)[3];
    }
  }

  /** The pixel loop shared by the enhance, mono and scan filters: recolours `data` in place. */
  method RecolourPixels(data: array<Byte>, f: Rgb -> Rgb)
    requires data.Length % 4 == 0
    modifies data
    ensures data[..] == Recoloured(f, old(data[..]), data.Length / 4)
  {
    ghost var d := data[..];
    var len := data.Length;
    var i := 0;
    while i < len
      invariant 0 <= i <= len && i % 4 == 0
      invariant forall j :: 0 <= j < i ==> data[j] == OutByte(f, d, j)
      invariant forall j :: i <= j < len ==> data[j] == d[j]
    {
      RecolourPixel(data, f, i, d);
      i := i + 4;
    }
  }

  /** One pass of the pixel loop: recolours the pixel at byte `i`. */
  method RecolourPixel(data: array<Byte>, f: Rgb -> Rgb, i: nat, ghost d: seq<Byte>)
    requires |d| == data.Length && i % 4 == 0 && i + 4 <= data.Length
    requires forall j :: 0 <= j < i ==> data[j] == OutByte(f, d, j)
    requires forall j :: i <= j < data.Length ==> data[j] == d[j]
    modifies data
    ensures forall j :: 0 <= j < i + 4 ==> data[j] == OutByte(f, d, j)
    ensures forall j :: i + 4 <= j < data.Length ==> data[j] == d[j]
  {
    var c := f(Rgb(data[i], data[i + 1], data[i + 2]));
    data[i] := c.r;
    data[i + 1] := c.g;
    data[i + 2] := c.b;
    assert (i + 1) / 4 == i / 4 && (i + 2) / 4 == i / 4 && (i + 3) / 4 == i / 4;
    assert (i + 1) % 4 == 1 && (i + 2) % 4 == 2 && (i + 3) % 4 == 3;
  }

  // ---------------------------------------------------------------------------
  // Enhance
  // ---------------------------------------------------------------------------

  /** The enhance filter on one colour byte: contrast 1.2 about 128, capped at 255. */
  function EnhanceChannel(c: Byte): Byte {
    Store(RMin(255.0, (c as real - 128.0) * 1.2 + 128.0))
  }

  /**
   * The enhance filter stretches contrast: bytes below 128 get no brighter, bytes above
   * get no darker, 128 stays, and the order of bytes is kept.
   */
  lemma EnhanceStretches(c: Byte, d: Byte)
    ensures c <= 128 ==> EnhanceChannel(c) <= c
    ensures c >= 128 ==> EnhanceChannel(c) >= c
    ensures c == 128 ==> EnhanceChannel(c) == 128
    ensures c <= d ==> EnhanceChannel(c) <= EnhanceChannel(d)
  {
    var v := RMin(255.0, (c as real - 128.0) * 1.2 + 128.0);
    StoreBounds(v, c);
    if c <= d {
      var w := RMin(255.0, (d as real - 128.0) * 1.2 + 128.0);
      assert v <= w;
      StoreMonotone(v, w);
    }
  }

  /** `Store` keeps the order of its arguments. */
  lemma StoreMonotone(v: real, w: real)
    requires v <= w
    ensures Store(v) <= Store(w)
  {
    if 0.0 < v && w < 255.0 && v.Floor == w.Floor {
      var f := v.Floor;
      assert v - f as real <= w - f as real;
    } else if 0.0 < v && w < 255.0 {
      assert v.Floor < w.Floor;
      assert Store(v) <= v.Floor + 1 <= w.Floor <= Store(w);
    }
  }

  /** The enhance filter on a pixel's colour. */
  function Enhance(c: Rgb): Rgb {
    Rgb(EnhanceChannel(c.r), EnhanceChannel(c.g), EnhanceChannel(c.b))
  }

  /** `applyEnhanceFilter`'s loop over the pixels. */
  method EnhanceFilter(data: array<Byte>)
    requires data.Length % 4 == 0
    modifies data
    ensures data[..] == Recoloured(Enhance, old(data[..]), data.Length / 4)
  {
    RecolourPixels(data, Enhance);
  }

  // ---------------------------------------------------------------------------
  // Mono
  // ---------------------------------------------------------------------------

  /** The luma of a colour, `0.299 R + 0.587 G + 0.114 B`. */
  function Luma(c: Rgb): (l: real)
    ensures 0.0 <= l <= 255.0
  {
    0.299 * c.r as real + 0.587 * c.g as real + 0.114 * c.b as real
  }

  /** `Math.round`: the nearest integer, ties going up. */
  function Round(v: real): int {
    (v + 0.5).Floor
  }

  /** The mono filter on a pixel's colour: its luma rounded, on all three channels. */
  function Mono(c: Rgb): (m: Rgb)
    ensures m.r == m.g == m.b
    ensures Luma(c) - 0.5 < m.r as real <= Luma(c) + 0.5
  {
    var gray: Byte := Round(Luma(c));
    Rgb(gray, gray, gray)
  }

  /** A grey colour keeps its level, so mono is idempotent. */
  lemma MonoIdempotent(c: Rgb)
    ensures Mono(Mono(c)) == Mono(c)
  {
    var m := Mono(c);
    assert Luma(m) == m.r as real;
  }

  /** `applyMonoFilter`'s loop over the pixels. */
  method MonoFilter(data: array<Byte>)
    requires data.Length % 4 == 0
    modifies data
    ensures data[..] == Recoloured(Mono, old(data[..]), data.Length / 4)
  {
    RecolourPixels(data, Mono);
  }

  // ---------------------------------------------------------------------------
  // Scan
  // ---------------------------------------------------------------------------

  /**
   * The scan filter on a pixel's colour: luma, contrast 1.8 about 128 clamped to
   * 0..255, then white above 100 and black otherwise.
   */
  function Scan(c: Rgb): (s: Rgb)
    ensures s.r == s.g == s.b && (s.r == 0 || s.r == 255)
  {
    var enhancedGray := RMax(0.0, RMin(255.0, (Luma(c) - 128.0) * 1.8 + 128.0));
    var binaryGray: Byte := if enhancedGray > 100.0 then 255 else 0;
    Rgb(binaryGray, binaryGray, binaryGray)
  }

  /** A colour scans white exactly when its luma exceeds `1012 / 9` (about 112.4). */
  lemma ScanThreshold(c: Rgb)
    ensures Scan(c).r == 255 <==> Luma(c) > 1012.0 / 9.0
  {
  }

  /** Black and white scan to themselves, so scan is idempotent. */
  lemma ScanIdempotent(c: Rgb)
    ensures Scan(Scan(c)) == Scan(c)
  {
    var s := Scan(c);
    assert Luma(s) == s.r as real;
  }

  /** `applyScanFilter`'s loop over the pixels. */
  method ScanFilter(data: array<Byte>)
    requires data.Length % 4 == 0
    modifies data
    ensures data[..] == Recoloured(Scan, old(data[..]), data.Length / 4)
  {
    RecolourPixels(data, Scan);
  }

  /**
   * What the three filters promise of a buffer: alpha is kept everywhere; mono and scan
   * make every pixel grey, scan black or white; mono and scan are idempotent.
   */
  lemma RecolouredProperties(d: seq<Byte>, n: nat, p: nat)
    requires 4 * n <= |d| && p < n
    ensures var e := Recoloured(Enhance, d, n);
      e[4 * p + 3] == d[4 * p + 3] && e[4 * p] == EnhanceChannel(d[4 * p])
    ensures var m := Recoloured(Mono, d, n);
      m[4 * p + 3] == d[4 * p + 3] && m[4 * p] == m[4 * p + 1] == m[4 * p + 2]
    ensures var s := Recoloured(Scan, d, n);
      s[4 * p + 3] == d[4 * p + 3] && s[4 * p] == s[4 * p + 1] == s[4 * p + 2]
      && (s[4 * p] == 0 || s[4 * p] == 255)
    ensures Recoloured(Mono, Recoloured(Mono, d, n), n) == Recoloured(Mono, d, n)
    ensures Recoloured(Scan, Recoloured(Scan, d, n), n) == Recoloured(Scan, d, n)
  {
    RecolouredBytes(Enhance, d, n, p);
    RecolouredBytes(Mono, d, n, p);
    RecolouredBytes(Scan, d, n, p);
    forall c: Rgb
      ensures Mono(Mono(c)) == Mono(c) && Scan(Scan(c)) == Scan(c)
    {
      MonoIdempotent(c);
      ScanIdempotent(c);
    }
    RecolouredIdempotent(Mono, d, n);
    RecolouredIdempotent(Scan, d, n);
  }
}
