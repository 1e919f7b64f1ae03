/**
 * Specification of the host-side post-process `applyDitheringAndAberration`:
 * luminance extraction, binary Floyd-Steinberg error diffusion in raster
 * order, and composition of the RGBA output with an optional horizontal
 * red/blue channel shift. Float32 values are modelled as exact reals.
 */
module DitherSpec {

  /** One 8-bit channel of a Uint8Array. */
  type byte = x: int | 0 <= x < 256

  /** Diffused values at or above this constant quantise to 255. */
  const DitherThreshold: real := 256.0
  /** Luminance is the channel sum times one third. */
  const LumScale: real := 1.0 / 3.0

  /** The four Floyd-Steinberg kernel weights. */
  const E7: real := 7.0 / 16.0
  const E3: real := 3.0 / 16.0
  const E5: real := 5.0 / 16.0
  const E1: real := 1.0 / 16.0

  /** The smaller of two integers. */
  function Min(a: int, b: int): (m: int)
  {
    if a <= b then a else b
  }

  /** The larger of two integers. */
  function Max(a: int, b: int): (m: int)
  {
    if a >= b then a else b
  }

  // ---------------------------------------------------------------------
  // Row/column arithmetic of a row-major image of width w
  // ---------------------------------------------------------------------

  /** A multiple of w strictly between -w and w is 0. */
  lemma ZeroMultiple(a: int, w: int)
    requires w > 0 && -w < a * w < w
    ensures a == 0
  {
  }

  /** Multiplying by a non-negative width keeps the order. */
  lemma MulMono(a: nat, b: nat, w: nat)
    requires a <= b
    ensures a * w <= b * w
  {
    assert b * w == a * w + (b - a) * w;
  }

  /** Euclidean division by w recovers row and column of y*w + x. */
  lemma DivRowCol(i: int, y: int, x: int, w: int)
    requires 0 <= x < w && i == y * w + x
    ensures i / w == y && i % w == x
  {
    assert i == (i / w) * w + i % w;
    assert (i / w - y) * w == x - i % w;
    ZeroMultiple(i / w - y, w);
  }

  /** Row-major index arithmetic: pixel (x, y) lives at y*w + x. */
  lemma RowCol(y: nat, x: nat, w: nat, h: nat)
    requires x < w && y < h
    ensures (y * w + x) / w == y && (y * w + x) % w == x
    ensures y * w + x < w * h
    ensures y * w + w <= w * h
  {
    DivRowCol(y * w + x, y, x, w);
    MulMono(y + 1, h, w);
    assert y * w + w == (y + 1) * w;
  }

  /** Row y ends at (y+1)*w, which does not pass the end of the image. */
  lemma RowEnd(y: nat, w: nat, h: nat)
    requires y < h
    ensures y * w + w == (y + 1) * w <= w * h
  {
  }

  /** After the last row, y*w pixels are all w*h of them. */
  lemma RowsDone(y: nat, w: nat, h: nat)
    requires y == h
    ensures y * w == w * h
  {
  }

  /** The row and column of a pixel index are inside the image. */
  lemma IndexInImage(i: nat, w: nat, h: nat)
    requires i < w * h
    ensures w > 0 && i / w < h && i % w < w
    ensures i == (i / w) * w + i % w
  {
  }

  /** The row of pixel i, and the row below it when there is one, lie wholly inside the image. */
  lemma NextRowInImage(i: nat, w: nat, h: nat)
    requires i < w * h
    ensures i - i % w + w <= w * h
    ensures i / w + 1 < h ==> i - i % w + 2 * w <= w * h
  {
    IndexInImage(i, w, h);
    var y := i / w;
    assert i - i % w == y * w;
    assert h * w == w * h;
    MulMono(y + 1, h, w);
    assert (y + 1) * w == y * w + w;
    if y + 1 < h {
      MulMono(y + 2, h, w);
      assert (y + 2) * w == y * w + 2 * w;
    }
  }

  // ---------------------------------------------------------------------
  // Step 1: luminance
  // ---------------------------------------------------------------------

  /** Mean of the R, G and B channels of pixel i of an RGBA buffer. */
  function LumOf(p: seq<byte>, i: nat): (v: real)
    requires 4 * i + 2 < |p|
    ensures 0.0 <= v <= 255.0
    ensures p[4 * i] == p[4 * i + 1] == p[4 * i + 2] ==> v == p[4 * i] as real
  {
    (p[4 * i] as int + p[4 * i + 1] + p[4 * i + 2]) as real * LumScale
  }

  /** The luminance field of the first n pixels of an RGBA buffer. */
  function Luminance(p: seq<byte>, n: nat): (lum: seq<real>)
    requires 4 * n <= |p|
    ensures |lum| == n
    ensures forall i :: 0 <= i < n ==> 0.0 <= lum[i] <= 255.0
  {
    seq(n, i requires 0 <= i < n => LumOf(p, i))
  }

  // ---------------------------------------------------------------------
  // Step 2: binary error diffusion
  // ---------------------------------------------------------------------

  /** The two-level quantiser applied to a diffused value. */
  function Quantize(v: real): (q: byte)
    ensures q == 0 || q == 255
  {
    if v == 0.0 then 0 else if v < DitherThreshold then 0 else 255
  }

  /** The explicit zero case is subsumed by the threshold test. */
  lemma QuantizeIsThreshold(v: real)
    ensures Quantize(v) == 0 <==> v < 256.0
    ensures Quantize(v) == 255 <==> v >= 256.0
  {
  }

  /** The residual a pixel hands on to its neighbours. */
  function Residual(v: real): (err: real)
    ensures v < 256.0 ==> err == v
    ensures v >= 256.0 ==> err == v - 255.0
  {
    v - Quantize(v) as real
  }

  /**
   * The share of pixel i's residual that index j receives: 7/16 to the
   * right, 3/16 below-left, 5/16 below, 1/16 below-right, each only when
   * that neighbour exists (no wrap-around), 0 everywhere else.
   */
  function Weight(w: nat, h: nat, i: nat, j: int): (r: real)
    requires i < w * h
    ensures 0.0 <= r <= E7
    ensures r != 0.0 ==> i < j < w * h
  {
    IndexInImage(i, w, h);
    NextRowInImage(i, w, h);
    var x, y := i % w, i / w;
    if x + 1 < w && j == i + 1 then E7
    else if y + 1 < h && x > 0 && j == i + w - 1 then E3
    else if y + 1 < h && j == i + w then E5
    else if y + 1 < h && x + 1 < w && j == i + w + 1 then E1
    else 0.0
  }

  /**
   * The `+=` updates of one visit, in the order the routine performs them,
   * for the pixel at index i in column x, with `below` telling whether a row
   * follows: right, bottom-left, bottom, bottom-right.
   */
  function Spread(s: seq<real>, w: nat, i: nat, x: nat, below: bool): (r: seq<real>)
    requires x < w && x <= i && i - x + w <= |s|
    requires below ==> i - x + 2 * w <= |s|
    ensures |r| == |s|
  {
    var err := s[i] - Quantize(s[i]) as real;
    var s1 := if x + 1 < w then s[i + 1 := s[i + 1] + err * E7] else s;
    var s2 := if below && x > 0 then s1[i + w - 1 := s1[i + w - 1] + err * E3] else s1;
    var s3 := if below then s2[i + w := s2[i + w] + err * E5] else s2;
    if below && x + 1 < w then s3[i + w + 1 := s3[i + w + 1] + err * E1] else s3
  }

  /** Visiting pixel i. DiffuseAtShares gives its effect on every index through Weight. */
  function DiffuseAt(s: seq<real>, w: nat, h: nat, i: nat): (r: seq<real>)
    requires i < w * h <= |s|
    ensures |r| == |s|
  {
    IndexInImage(i, w, h);
    NextRowInImage(i, w, h);
    Spread(s, w, i, i % w, i / w + 1 < h)
  }

  /** Visiting pixel i adds to every index j exactly its Weight times the residual of pixel i. */
  lemma DiffuseAtShares(s: seq<real>, w: nat, h: nat, i: nat)
    requires i < w * h <= |s|
    ensures forall j :: 0 <= j < |s| ==> DiffuseAt(s, w, h, i)[j] == s[j] + Weight(w, h, i, j) * Residual(s[i])
  {
    IndexInImage(i, w, h);
    NextRowInImage(i, w, h);
  }

  /** The working array after the first k pixels in raster order have been visited. */
  function Diffused(s: seq<real>, w: nat, h: nat, k: nat): (r: seq<real>)
    requires k <= w * h <= |s|
    ensures |r| == |s|
    decreases k
  {
    if k == 0 then s
    else
      var prev := Diffused(s, w, h, k - 1);
      IndexInImage(k - 1, w, h);
      DiffuseAt(prev, w, h, k - 1)
  }

  /** One more pixel visited is one more DiffuseAt. */
  lemma DiffusedStep(s: seq<real>, w: nat, h: nat, k: nat)
    requires k < w * h <= |s|
    ensures Diffused(s, w, h, k + 1) == DiffuseAt(Diffused(s, w, h, k), w, h, k)
  {
  }

  /** The raster pass leaves every index past w*h as it was. */
  lemma {:induction false} DiffusedKeepsTail(s: seq<real>, w: nat, h: nat, k: nat, j: nat)
    requires k <= w * h <= j < |s|
    ensures Diffused(s, w, h, k)[j] == s[j]
  {
    if k > 0 {
      DiffusedKeepsTail(s, w, h, k - 1, j);
      OnlyUnvisitedReceive(Diffused(s, w, h, k - 1), w, h, k - 1, j);
    }
  }

  /** After the whole pass, everything past w*h is exactly the input's tail. */
  lemma {:induction false} DiffusedTail(s: seq<real>, w: nat, h: nat)
    requires w * h <= |s|
    ensures Diffused(s, w, h, w * h)[w * h..] == s[w * h..]
  {
    var r := Diffused(s, w, h, w * h);
    forall j | w * h <= j < |s|
      ensures r[j] == s[j]
    {
      DiffusedKeepsTail(s, w, h, w * h, j);
    }
    SameFrom(r, s, w * h);
  }

  /** Two sequences of one length that agree from index n on have equal tails from n. */
  lemma {:induction false} SameFrom<T>(a: seq<T>, b: seq<T>, n: nat)
    requires |a| == |b| && n <= |a|
    requires forall j :: n <= j < |a| ==> a[j] == b[j]
    ensures a[n..] == b[n..]
  {
  }

  /**
   * A visit neither reads nor writes past w*h: on the image part of a longer
   * array it is the same visit as on the image alone.
   */
  lemma {:induction false} DiffuseAtPrefix(s: seq<real>, w: nat, h: nat, i: nat)
    requires i < w * h <= |s|
    ensures DiffuseAt(s, w, h, i)[..w * h] == DiffuseAt(s[..w * h], w, h, i)
  {
    var a, b := DiffuseAt(s, w, h, i), DiffuseAt(s[..w * h], w, h, i);
    forall j | 0 <= j < w * h
      ensures a[j] == b[j]
    {
      DiffuseAtPrefixAt(s, w, h, i, j);
    }
    SameUpTo(a, b, w * h);
  }

  /** DiffuseAtPrefix at one index j of the image. */
  lemma {:induction false} DiffuseAtPrefixAt(s: seq<real>, w: nat, h: nat, i: nat, j: nat)
    requires i < w * h <= |s| && j < w * h
    ensures DiffuseAt(s, w, h, i)[j] == DiffuseAt(s[..w * h], w, h, i)[j]
  {
    var t := s[..w * h];
    DiffuseAtShares(s, w, h, i);
    DiffuseAtShares(t, w, h, i);
    assert s[i] == t[i] && s[j] == t[j];
  }

  /** A sequence whose first n entries are those of b, with |b| == n, has b as its prefix. */
  lemma {:induction false} SameUpTo<T>(a: seq<T>, b: seq<T>, n: nat)
    requires n <= |a| && |b| == n
    requires forall j :: 0 <= j < n ==> a[j] == b[j]
    ensures a[..n] == b
  {
  }

  /**
   * Stale entries past w*h (left by an earlier, larger frame) never reach
   * the image: the pass over a longer array agrees on its first w*h entries
   * with the pass over those entries alone.
   */
  lemma {:induction false} DiffusedPrefix(s: seq<real>, w: nat, h: nat, k: nat)
    requires k <= w * h <= |s|
    ensures Diffused(s, w, h, k)[..w * h] == Diffused(s[..w * h], w, h, k)
  {
    if k > 0 {
      DiffusedPrefix(s, w, h, k - 1);
      DiffuseAtPrefix(Diffused(s, w, h, k - 1), w, h, k - 1);
    }
  }

  /** The quantised level of every pixel: each is judged on its value when visited. */
  function Levels(lum: seq<real>, w: nat, h: nat): (lv: seq<byte>)
    requires w * h <= |lum|
    ensures |lv| == w * h
    ensures forall i :: 0 <= i < |lv| ==> lv[i] == 0 || lv[i] == 255
  {
    seq(w * h, i requires 0 <= i < w * h => Quantize(Diffused(lum, w, h, i)[i]))
  }

  /** The levels depend only on the first w*h working values. */
  lemma {:induction false} LevelsPrefix(s: seq<real>, w: nat, h: nat)
    requires w * h <= |s|
    ensures Levels(s, w, h) == Levels(s[..w * h], w, h)
  {
    forall i | 0 <= i < w * h
      ensures Levels(s, w, h)[i] == Levels(s[..w * h], w, h)[i]
    {
      DiffusedPrefix(s, w, h, i);
      assert Diffused(s, w, h, i)[i] == Diffused(s, w, h, i)[..w * h][i];
    }
  }

  // ---------------------------------------------------------------------
  // Properties of the diffusion
  // ---------------------------------------------------------------------

  /** Error only flows forward: no pixel already visited, and no index outside [0, w*h), is written. */
  lemma {:induction false} OnlyUnvisitedReceive(s: seq<real>, w: nat, h: nat, i: nat, j: nat)
    requires i < w * h <= |s| && j < |s|
    requires j <= i || j >= w * h
    ensures DiffuseAt(s, w, h, i)[j] == s[j]
  {
    DiffuseAtShares(s, w, h, i);
    assert Weight(w, h, i, j) == 0.0;
  }

  /**
   * Energy conservation for an interior pixel: what its four neighbours gain
   * adds up to exactly oldVal - newVal.
   */
  lemma InteriorConservesError(s: seq<real>, w: nat, h: nat, i: nat)
    requires i < w * h <= |s|
    requires 0 < i % w && i % w + 1 < w && i / w + 1 < h
    ensures var r := DiffuseAt(s, w, h, i);
      i + w + 1 < |s| &&
      (r[i + 1] - s[i + 1]) + (r[i + w - 1] - s[i + w - 1]) + (r[i + w] - s[i + w]) + (r[i + w + 1] - s[i + w + 1])
        == s[i] - Quantize(s[i]) as real
  {
    RowCol(i / w + 1, i % w + 1, w, h);
    IndexInImage(i, w, h);
    DiffuseAtShares(s, w, h, i);
    var e := Residual(s[i]);
    assert Weight(w, h, i, i + 1) == E7;
    assert Weight(w, h, i, i + w - 1) == E3;
    assert Weight(w, h, i, i + w) == E5;
    assert Weight(w, h, i, i + w + 1) == E1;
    assert E7 * e + E3 * e + E5 * e + E1 * e == e;
  }

  /** A pixel in the last column sends nothing right or below-right: only below-left and below. */
  lemma LastColumnTargets(w: nat, h: nat, i: nat, j: int)
    requires i < w * h && i % w + 1 == w
    requires Weight(w, h, i, j) != 0.0
    ensures j == i + w - 1 || j == i + w
    ensures i / w + 1 < h
  {
  }

  /**
   * A pixel in the first column sends nothing below-left: its error stays
   * off the end of the current row, reaching only right, below and
   * below-right.
   */
  lemma FirstColumnTargets(w: nat, h: nat, i: nat, j: int)
    requires i < w * h && i % w == 0
    requires Weight(w, h, i, j) != 0.0
    ensures j == i + 1 || j == i + w || j == i + w + 1
  {
  }

  /** A pixel in the last row sends error only to its right neighbour, and only if that exists. */
  lemma LastRowTargets(w: nat, h: nat, i: nat, j: int)
    requires i < w * h && i / w + 1 == h
    requires Weight(w, h, i, j) != 0.0
    ensures j == i + 1 && i % w + 1 < w
  {
  }

  /**
   * Once visited, a pixel's working value never changes again; so every
   * level equals the quantised FINAL working value.
   */
  lemma {:induction false} VisitedIsFrozen(s: seq<real>, w: nat, h: nat, j: nat, k: nat)
    requires j <= k <= w * h <= |s| && j < w * h
    ensures Diffused(s, w, h, k)[j] == Diffused(s, w, h, j)[j]
    decreases k
  {
    if k > j {
      VisitedIsFrozen(s, w, h, j, k - 1);
      OnlyUnvisitedReceive(Diffused(s, w, h, k - 1), w, h, k - 1, j);
    }
  }

  /** The levels are the quantised working array after the whole raster pass. */
  lemma LevelsOfFinal(lum: seq<real>, w: nat, h: nat)
    requires w * h <= |lum|
    ensures forall i :: 0 <= i < w * h ==>
      Levels(lum, w, h)[i] == Quantize(Diffused(lum, w, h, w * h)[i])
  {
    forall i | 0 <= i < w * h
      ensures Levels(lum, w, h)[i] == Quantize(Diffused(lum, w, h, w * h)[i])
    {
      VisitedIsFrozen(lum, w, h, i, w * h);
    }
  }

  /** A pixel that is still exactly 0 when visited stays black. */
  lemma ZeroStaysBlack(lum: seq<real>, w: nat, h: nat, i: nat)
    requires i < w * h <= |lum|
    requires Diffused(lum, w, h, i)[i] == 0.0
    ensures Levels(lum, w, h)[i] == 0
  {
  }

  // ---------------------------------------------------------------------
  // Step 3: composition
  // ---------------------------------------------------------------------

  /** `clampX`: a column index forced into [0, w). */
  function ClampX(x: int, w: nat): (r: int)
    ensures w > 0 ==> 0 <= r < w
    ensures w > 0 ==> r == Max(0, Min(w - 1, x))
  {
    if x < 0 then 0 else if x >= w then w - 1 else x
  }

  /** Truncation of a real toward zero. */
  function Trunc(v: real): (t: int)
    ensures v >= 0.0 ==> t as real <= v < t as real + 1.0
    ensures v < 0.0 ==> t as real - 1.0 < v <= t as real
  {
    if v >= 0.0 then v.Floor else -((-v).Floor)
  }

  /** JavaScript's `v | 0` on a finite number: truncate toward zero, then wrap to a signed 32-bit integer. */
  function ToInt32(v: real): (r: int)
    ensures -0x8000_0000 <= r < 0x8000_0000
    ensures (r - Trunc(v)) % 0x1_0000_0000 == 0
    ensures -0x8000_0000 <= Trunc(v) < 0x8000_0000 ==> r == Trunc(v)
  {
    var m := Trunc(v) % 0x1_0000_0000;
    if m >= 0x8000_0000 then m - 0x1_0000_0000 else m
  }

  /** `Math.max(0, aberrationOff | 0)`. */
  function EffectiveOffset(aberrationOff: real): (off: nat)
    ensures -0x8000_0000 as real <= aberrationOff < 1.0 ==> off == 0
    ensures 0.0 <= aberrationOff < 0x8000_0000 as real ==> off == aberrationOff.Floor
  {
    Max(0, ToInt32(aberrationOff))
  }

  /**
   * The four output bytes of pixel i, given its quantised level. A black
   * pixel is opaque black. A lit pixel is opaque and takes red from column
   * min(w-1, x+off), green from column x and blue from column max(0, x-off),
   * all on its own row of the ORIGINAL buffer.
   */
  function ComposedPixel(p: seq<byte>, w: nat, h: nat, i: nat, level: byte, off: nat): (rgba: seq<byte>)
    requires i < w * h && 4 * (w * h) <= |p|
    ensures |rgba| == 4 && rgba[3] == 255
    ensures level == 0 ==> rgba[0] == rgba[1] == rgba[2] == 0
    ensures level != 0 ==>
      var x, rowStart := i % w, i - i % w;
      0 <= rowStart + Min(w - 1, x + off) < w * h && 0 <= rowStart + Max(0, x - off) < w * h &&
      rgba[0] == p[4 * (rowStart + Min(w - 1, x + off))] &&
      rgba[1] == p[4 * i + 1] &&
      rgba[2] == p[4 * (rowStart + Max(0, x - off)) + 2]
  {
    IndexInImage(i, w, h);
    var y, x := i / w, i % w;
    var red, blue := ClampX(x + off, w), ClampX(x - off, w);
    SampleInRow(i, w, h, red);
    SampleInRow(i, w, h, blue);
    SampleInRow(i, w, h, x);
    if level == 0 then [0, 0, 0, 255]
    else if off > 0 then
      var row := y * (w * 4);
      [p[row + red * 4], p[row + x * 4 + 1], p[row + blue * 4 + 2], 255]
    else
      var oi := i * 4;
      [p[oi], p[oi + 1], p[oi + 2], 255]
  }

  /** Byte offset of a row: y * (4w) == 4 * (y * w). */
  lemma ByteRow(y: int, w: int)
    ensures y * (w * 4) == 4 * (y * w)
  {
  }

  /** Column c of pixel i's row, addressed as the routine does, is a byte index inside the buffer. */
  lemma SampleInRow(i: nat, w: nat, h: nat, c: int)
    requires i < w * h && 0 <= c < w
    ensures (i / w) * (w * 4) + c * 4 == 4 * (i - i % w + c)
    ensures 0 <= (i / w) * (w * 4) + c * 4 && (i / w) * (w * 4) + c * 4 + 3 < 4 * (w * h)
  {
    IndexInImage(i, w, h);
    RowCol(i / w, c, w, h);
    ByteRow(i / w, w);
  }

  /** With offset 0 a lit pixel is a verbatim copy of the original RGB, made opaque. */
  lemma ZeroOffsetCopies(p: seq<byte>, w: nat, h: nat, i: nat, level: byte)
    requires i < w * h && 4 * (w * h) <= |p| && level != 0
    ensures ComposedPixel(p, w, h, i, level, 0) == [p[4 * i], p[4 * i + 1], p[4 * i + 2], 255]
  {
  }

  /** Channel k of the composed output buffer. */
  function ComposedChannel(p: seq<byte>, w: nat, h: nat, lv: seq<byte>, off: nat, k: nat): (b: byte)
    requires k < 4 * (w * h) && 4 * (w * h) <= |p| && w * h <= |lv|
  {
    ComposedPixel(p, w, h, k / 4, lv[k / 4], off)[k % 4]
  }

  /** The first 4*w*h bytes of the output buffer. */
  function Composed(p: seq<byte>, w: nat, h: nat, lv: seq<byte>, off: nat): (out: seq<byte>)
    requires 4 * (w * h) <= |p| && w * h <= |lv|
    ensures |out| == 4 * (w * h)
    ensures forall k :: 0 <= k < |out| && k % 4 == 3 ==> out[k] == 255
    ensures forall k :: 0 <= k < |out| && k % 4 < 3 && lv[k / 4] == 0 ==> out[k] == 0
  {
    seq(4 * (w * h), k requires 0 <= k < 4 * (w * h) => ComposedChannel(p, w, h, lv, off, k))
  }

  /** The composed output reads only the first w*h levels. */
  lemma {:induction false} ComposedPrefix(p: seq<byte>, w: nat, h: nat, lv: seq<byte>, off: nat)
    requires 4 * (w * h) <= |p| && w * h <= |lv|
    ensures Composed(p, w, h, lv, off) == Composed(p, w, h, lv[..w * h], off)
  {
    forall k | 0 <= k < 4 * (w * h)
      ensures Composed(p, w, h, lv, off)[k] == Composed(p, w, h, lv[..w * h], off)[k]
    {
      assert lv[k / 4] == lv[..w * h][k / 4];
    }
  }
}
