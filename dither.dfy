/**
 * `applyDitheringAndAberration` as it runs: the four module-level working
 * buffers (`ditherLum`, `ditherWork`, `ditherOut`, `ditherOutput`) are the
 * fields of one object, reallocated only when missing or too short, and the
 * routine fills them in place. Each step is proved against DitherSpec.
 */
module Dither {
  import opened DitherSpec

  class DitherBuffers {
    /** `ditherLum`: the luminance snapshot of the input. */
    var lum: array?<real>
    /** `ditherWork`: the luminance plus the error diffused so far. */
    var work: array?<real>
    /** `ditherOut`: the quantised level (0 or 255) of every pixel. */
    var levels: array?<byte>
    /** `ditherOutput`: the RGBA result, returned to the caller. */
    var output: array?<byte>

    /** All four buffers exist together, sized for the same pixel capacity, and are distinct. */
    ghost predicate Valid()
      reads this
    {
      && (lum == null <==> work == null)
      && (lum == null <==> levels == null)
      && (lum == null <==> output == null)
      && (lum != null ==>
            && work.Length == lum.Length
            && levels.Length == lum.Length
            && output.Length == 4 * lum.Length
            && work != lum
            && levels != output)
    }

    /** Before the first frame no buffer has been allocated. */
    constructor ()
      ensures Valid() && lum == null
    {
      lum, work, levels, output := null, null, null, null;
    }

    /**
     * Processes the first width*height RGBA pixels of `pixels` and returns the
     * output buffer. The input is only read; luminance is taken from it
     * before diffusion; buffers are reused unless missing or shorter than
     * width*height. The result on the image depends only on the pixels, the
     * size and the offset, whatever a reused buffer held before; luminance,
     * level and output entries past the image keep their old values.
     */
    method Apply(pixels: array<byte>, width: nat, height: nat, aberrationOff: real) returns (out: array<byte>)
      requires Valid()
      requires 4 * (width * height) <= pixels.Length
      requires pixels != levels && pixels != output
      modifies this, lum, work, levels, output
      ensures Valid() && out == output && lum != null
      ensures var n := width * height;
        if old(lum) == null || old(lum).Length < n then
          fresh(lum) && fresh(work) && fresh(levels) && fresh(output) && lum.Length == n
        else
          lum == old(lum) && work == old(work) && levels == old(levels) && output == old(output)
      ensures pixels[..] == old(pixels[..])
      ensures width * height <= lum.Length
      ensures lum[..width * height] == Luminance(pixels[..], width * height)
      ensures work.Length == lum.Length
      ensures work[..width * height] == Diffused(Luminance(pixels[..], width * height), width, height, width * height)
      ensures work[width * height..] == lum[width * height..]
      ensures levels[..width * height] == Levels(Luminance(pixels[..], width * height), width, height)
      ensures output[..4 * (width * height)] ==
        Composed(pixels[..], width, height, Levels(Luminance(pixels[..], width * height), width, height),
                 EffectiveOffset(aberrationOff))
      ensures old(lum) != null && width * height <= old(lum).Length ==>
        && lum[width * height..] == old(lum[..])[width * height..]
        && levels[width * height..] == old(levels[..])[width * height..]
        && output[4 * (width * height)..] == old(output[..])[4 * (width * height)..]
    {
      var n := width * height;
      Reserve(n);
      Run(pixels, lum, work, levels, output, width, height, n, EffectiveOffset(aberrationOff));
      out := output;
    }

    /** Reallocates all four buffers when they are missing or shorter than n pixels. */
    method Reserve(n: nat)
      requires Valid()
      modifies this
      ensures Valid() && lum != null && n <= lum.Length
      ensures if old(lum) == null || old(lum).Length < n then
          fresh(lum) && fresh(work) && fresh(levels) && fresh(output) && lum.Length == n
        else
          lum == old(lum) && work == old(work) && levels == old(levels) && output == old(output)
    {
      if lum == null || lum.Length < n {
        lum := new real[n](_ => 0.0);
        work := new real[n](_ => 0.0);
        levels := new byte[n](_ => 0);
        output := new byte[n * 4](_ => 0);
      }
    }
  }

  /** The three steps of the routine on buffers with room for the first n = w*h pixels. */
  method Run(pixels: array<byte>, lum: array<real>, work: array<real>, levels: array<byte>, out: array<byte>,
             w: nat, h: nat, n: nat, off: nat)
    requires n == w * h && n <= lum.Length == work.Length == levels.Length && out.Length == 4 * lum.Length
    requires 4 * n <= pixels.Length
    requires work != lum && levels != out && pixels != levels && pixels != out
    modifies lum, work, levels, out
    ensures lum[..n] == Luminance(pixels[..], n) && lum[n..] == old(lum[n..])
    ensures work[..n] == Diffused(Luminance(pixels[..], n), w, h, n) && work[n..] == lum[n..]
    ensures levels[..n] == Levels(Luminance(pixels[..], n), w, h) && levels[n..] == old(levels[n..])
    ensures out[..4 * n] == Composed(pixels[..], w, h, Levels(Luminance(pixels[..], n), w, h), off)
    ensures out[4 * n..] == old(out[4 * n..])
  {
    FillLuminance(pixels, lum, n);
    CopyInto(lum, work);
    DiffuseInPlace(work, levels, w, h);
    Compose(pixels, levels, out, w, h, off);
    // Entries of lum past n may be stale; none of them reaches the image.
    DiffusedPrefix(lum[..], w, h, n);
    DiffusedTail(lum[..], w, h);
    LevelsPrefix(lum[..], w, h);
    ComposedPrefix(pixels[..], w, h, levels[..], off);
    assert lum[..][..n] == lum[..n];
    assert levels[..][..n] == levels[..n];
  }

  /** `ditherWork.set(ditherLum)`: the working values start as the luminance. */
  method CopyInto(src: array<real>, dst: array<real>)
    requires src.Length == dst.Length && src != dst
    modifies dst
    ensures dst[..] == src[..]
  {
    forall k | 0 <= k < dst.Length {
      dst[k] := src[k];
    }
  }

  /** Step 1: the luminance of the first n pixels, read from the input buffer. */
  method FillLuminance(pixels: array<byte>, lum: array<real>, n: nat)
    requires 4 * n <= pixels.Length && n <= lum.Length
    modifies lum
    ensures lum[..n] == Luminance(pixels[..], n)
    ensures lum[n..] == old(lum[n..])
  {
    var i := 0;
    while i < n
      invariant 0 <= i <= n
      invariant forall j :: 0 <= j < i ==> lum[j] == LumOf(pixels[..], j)
      invariant lum[n..] == old(lum[n..])
    {
      var i4 := i * 4;
      lum[i] := (pixels[i4] as int + pixels[i4 + 1] + pixels[i4 + 2]) as real * LumScale;
      i := i + 1;
    }
  }

  /**
   * One visit of the raster pass: quantise pixel (x, y) and add its residual
   * to the neighbours that exist and are not yet visited.
   */
  method VisitPixel(work: array<real>, levels: array<byte>, w: nat, h: nat, y: nat, rowBase: nat, x: nat)
    requires x < w && y < h && rowBase == y * w && w * h <= work.Length && w * h <= levels.Length
    modifies work, levels
    ensures rowBase + x < w * h
    ensures work[..] == DiffuseAt(old(work[..]), w, h, rowBase + x)
    ensures levels[..] == old(levels[..])[rowBase + x := Quantize(old(work[..])[rowBase + x])]
  {
    RowCol(y, x, w, h);
    var i := rowBase + x;
    NextRowInImage(i, w, h);
    Spread1(work, levels, w, i, x, y + 1 < h);
  }

  /** The body of one visit, on a pixel given by its index and column. */
  method Spread1(work: array<real>, levels: array<byte>, w: nat, i: nat, x: nat, below: bool)
    requires x < w && x <= i && i - x + w <= work.Length && i < levels.Length
    requires below ==> i - x + 2 * w <= work.Length
    modifies work, levels
    ensures work[..] == Spread(old(work[..]), w, i, x, below)
    ensures levels[..] == old(levels[..])[i := Quantize(old(work[i]))]
  {
    var oldVal := work[i];
    var newVal := Quantize(oldVal);
    var err := oldVal - newVal as real;
    levels[i] := newVal;
    if x + 1 < w {
      work[i + 1] := work[i + 1] + err * E7;
    }
    if below {
      if x > 0 {
        work[i + w - 1] := work[i + w - 1] + err * E3;
      }
      work[i + w] := work[i + w] + err * E5;
      if x + 1 < w {
        work[i + w + 1] := work[i + w + 1] + err * E1;
      }
    }
  }

  /** The first k pixels of the raster pass are done: `work` and the first k levels are as specified. */
  ghost predicate PassedUpTo(work: seq<real>, levels: seq<byte>, start: seq<real>, tail: seq<byte>, w: nat, h: nat, k: nat)
  {
    && k <= w * h <= |start|
    && w * h <= |levels|
    && levels[w * h..] == tail
    && work == Diffused(start, w, h, k)
    && forall j :: 0 <= j < k ==> levels[j] == Levels(start, w, h)[j]
  }

  /** One VisitPixel advances the pass by one pixel. */
  lemma PassStep(work: seq<real>, levels: seq<byte>, start: seq<real>, tail: seq<byte>, w: nat, h: nat, k: nat)
    requires PassedUpTo(work, levels, start, tail, w, h, k) && k < w * h
    ensures PassedUpTo(DiffuseAt(work, w, h, k), levels[k := Quantize(work[k])], start, tail, w, h, k + 1)
  {
    DiffusedStep(start, w, h, k);
    var levels' := levels[k := Quantize(work[k])];
    UpdateBeforeTail(levels, k, Quantize(work[k]), w * h);
    forall j | 0 <= j < k + 1
      ensures levels'[j] == Levels(start, w, h)[j]
    {
      if j < k {
        assert levels'[j] == levels[j];
      }
    }
  }

  /** Writing below index m leaves the suffix from m alone. */
  lemma UpdateBeforeTail<T>(s: seq<T>, k: nat, v: T, m: nat)
    requires k < m <= |s|
    ensures s[k := v][m..] == s[m..]
  {
  }

  /** Step 2: the whole raster pass, in place on `work`, writing the levels. */
  method DiffuseInPlace(work: array<real>, levels: array<byte>, w: nat, h: nat)
    requires w * h <= work.Length && w * h <= levels.Length
    modifies work, levels
    ensures work[..] == Diffused(old(work[..]), w, h, w * h)
    ensures levels[..w * h] == Levels(old(work[..]), w, h)
    ensures levels[w * h..] == old(levels[w * h..])
  {
    ghost var start, tail := work[..], levels[w * h..];
    var y := 0;
    while y < h
      invariant 0 <= y <= h
      invariant PassedUpTo(work[..], levels[..], start, tail, w, h, y * w)
    {
      VisitRow(work, levels, w, h, y, start, tail);
      RowEnd(y, w, h);
      y := y + 1;
    }
    RowsDone(y, w, h);
    assert PassedUpTo(work[..], levels[..], start, tail, w, h, w * h);
    assert levels[..w * h] == Levels(start, w, h);
  }

  /** One iteration of the y loop: the x loop over row y. */
  method VisitRow(work: array<real>, levels: array<byte>, w: nat, h: nat, y: nat, ghost start: seq<real>, ghost tail: seq<byte>)
    requires y < h && w * h <= work.Length
    requires PassedUpTo(work[..], levels[..], start, tail, w, h, y * w)
    modifies work, levels
    ensures PassedUpTo(work[..], levels[..], start, tail, w, h, y * w + w)
  {
    var rowBase: nat := y * w;
    RowEnd(y, w, h);
    var x := 0;
    while x < w
      invariant 0 <= x <= w
      invariant rowBase + w <= w * h
      invariant PassedUpTo(work[..], levels[..], start, tail, w, h, rowBase + x)
    {
      PassPixel(work, levels, w, h, y, rowBase, x, start, tail);
      x := x + 1;
    }
  }

  /** One iteration of the x loop, which advances the pass by one pixel. */
  method PassPixel(work: array<real>, levels: array<byte>, w: nat, h: nat, y: nat, rowBase: nat, x: nat,
                   ghost start: seq<real>, ghost tail: seq<byte>)
    requires x < w && y < h && rowBase == y * w && rowBase + w <= w * h
    requires PassedUpTo(work[..], levels[..], start, tail, w, h, rowBase + x)
    modifies work, levels
    ensures PassedUpTo(work[..], levels[..], start, tail, w, h, rowBase + x + 1)
  {
    PassStep(work[..], levels[..], start, tail, w, h, rowBase + x);
    VisitPixel(work, levels, w, h, y, rowBase, x);
  }

  /** The first i pixels of the output are composed. */
  ghost predicate ComposedUpTo(out: seq<byte>, tail: seq<byte>, p: seq<byte>, w: nat, h: nat, lv: seq<byte>, off: nat, i: nat)
  {
    && i <= w * h
    && 4 * (w * h) <= |p| && w * h <= |lv| && 4 * (w * h) <= |out|
    && out[4 * (w * h)..] == tail
    && forall k :: 0 <= k < 4 * i ==> out[k] == ComposedChannel(p, w, h, lv, off, k)
  }

  /** Writing pixel i's four bytes, and nothing else, composes one more pixel. */
  lemma ComposeStep(before: seq<byte>, after: seq<byte>, tail: seq<byte>, p: seq<byte>, w: nat, h: nat, lv: seq<byte>, off: nat, i: nat)
    requires ComposedUpTo(before, tail, p, w, h, lv, off, i) && i < w * h
    requires |after| == |before|
    requires forall k :: 0 <= k < |after| && !(4 * i <= k < 4 * i + 4) ==> after[k] == before[k]
    requires after[4 * i..4 * i + 4] == ComposedPixel(p, w, h, i, lv[i], off)
    ensures ComposedUpTo(after, tail, p, w, h, lv, off, i + 1)
  {
    assert after[4 * (w * h)..] == before[4 * (w * h)..];
    forall k | 0 <= k < 4 * (i + 1)
      ensures after[k] == ComposedChannel(p, w, h, lv, off, k)
    {
      if k < 4 * i {
        assert after[k] == before[k];
      } else {
        assert k / 4 == i && after[k] == after[4 * i..4 * i + 4][k - 4 * i];
      }
    }
  }

  /** The three colour bytes of pixel i, read from the input as the routine addresses it. */
  method SamplePixel(pixels: array<byte>, level: byte, w: nat, h: nat, off: nat, i: nat)
    returns (red: byte, green: byte, blue: byte)
    requires i < w * h && 4 * (w * h) <= pixels.Length
    ensures [red, green, blue, 255] == ComposedPixel(pixels[..], w, h, i, level, off)
  {
    IndexInImage(i, w, h);
    var w4 := w * 4;
    var y := i / w;
    var x := i % w;
    var oi := i * 4;
    if level == 0 {
      red, green, blue := 0, 0, 0;
    } else if off > 0 {
      var row := y * w4;
      var rx, bx := ClampX(x + off, w), ClampX(x - off, w);
      SampleInRow(i, w, h, rx);
      SampleInRow(i, w, h, x);
      SampleInRow(i, w, h, bx);
      red, green, blue := pixels[row + rx * 4], pixels[row + x * 4 + 1], pixels[row + bx * 4 + 2];
    } else {
      red, green, blue := pixels[oi], pixels[oi + 1], pixels[oi + 2];
    }
  }

  /** One pixel of the composition loop: writes out[4i..4i+4] and nothing else. */
  method WritePixel(pixels: array<byte>, levels: array<byte>, out: array<byte>, w: nat, h: nat, off: nat, i: nat)
    requires i < w * h
    requires 4 * (w * h) <= pixels.Length && w * h <= levels.Length && 4 * (w * h) <= out.Length
    requires out != pixels && out != levels
    modifies out
    ensures forall k :: 0 <= k < out.Length && !(4 * i <= k < 4 * i + 4) ==> out[k] == old(out[k])
    ensures out[4 * i..4 * i + 4] == ComposedPixel(pixels[..], w, h, i, levels[i], off)
  {
    var red, green, blue := SamplePixel(pixels, levels[i], w, h, off, i);
    var oi := i * 4;
    out[oi + 3] := 255;
    out[oi], out[oi + 1], out[oi + 2] := red, green, blue;
    assert out[4 * i..4 * i + 4] == [red, green, blue, 255];
  }

  /** Step 3: the RGBA output, from the levels and the ORIGINAL input buffer. */
  method Compose(pixels: array<byte>, levels: array<byte>, out: array<byte>, w: nat, h: nat, off: nat)
    requires 4 * (w * h) <= pixels.Length && w * h <= levels.Length && 4 * (w * h) <= out.Length
    requires out != pixels && out != levels
    modifies out
    ensures out[..4 * (w * h)] == Composed(pixels[..], w, h, levels[..], off)
    ensures out[4 * (w * h)..] == old(out[4 * (w * h)..])
  {
    var n := w * h;
    ghost var p, lv, tail := pixels[..], levels[..], out[4 * n..];
    var i := 0;
    while i < n
      invariant 0 <= i <= n
      invariant ComposedUpTo(out[..], tail, p, w, h, lv, off, i)
    {
      ghost var before := out[..];
      WritePixel(pixels, levels, out, w, h, off, i);
      ComposeStep(before, out[..], tail, p, w, h, lv, off, i);
      i := i + 1;
    }
    assert ComposedUpTo(out[..], tail, p, w, h, lv, off, n);
  }
}
