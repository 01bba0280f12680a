/**
 * `scoreImage`: a sharpness score for one extracted frame. The frame's
 * Laplacian-filtered RGBA bitmap is reduced to one luminance value per
 * pixel; the score is the variance of those values, plus a fixed bonus of
 * 500 when the average luminance of the unfiltered bitmap lies strictly
 * between 80 and 220 (a well-exposed frame).
 *
 * Arithmetic is exact (`real`), not IEEE double precision. The image
 * decoding and the convolution belong to the imaging library, so both
 * bitmaps are inputs.
 */
module FrameScoring {

  /** One channel value of an RGBA bitmap (a `Uint8Array` element). */
  type Byte = x: int | 0 <= x < 256

  /** The bonus added to the variance of a well-exposed frame. */
  const ExposureBonus: real := 500.0

  /** Standard (Rec. 709) luminance of one pixel; it stays within the channel range. */
  function Luminance(r: Byte, g: Byte, b: Byte): (l: real)
    ensures 0.0 <= l <= 255.0
    ensures r == g == b ==> l == r as real
  {
    0.2126 * r as real + 0.7152 * g as real + 0.0722 * b as real
  }

  /**
   * The luminance values of a bitmap, one per RGBA quad, in pixel order.
   * Bitmaps hold width * height * 4 bytes.
   */
  function Lums(data: seq<Byte>): (ls: seq<real>)
    requires |data| % 4 == 0
    ensures |ls| == |data| / 4
    decreases |data|
  {
    if |data| == 0 then []
    else
      var n := |data|;
      Lums(data[..n - 4]) + [Luminance(data[n - 4], data[n - 3], data[n - 2])]
  }

  /** Pixel `k`'s luminance is read from bytes 4k, 4k+1 and 4k+2; the alpha byte is never used. */
  lemma {:induction false} LumsPerQuad(data: seq<Byte>, k: nat)
    requires |data| % 4 == 0 && k < |data| / 4
    ensures Lums(data)[k] == Luminance(data[4 * k], data[4 * k + 1], data[4 * k + 2])
    decreases |data|
  {
    var n := |data|;
    var p := 4 * k;
    if p == n - 4 {
    } else {
      assert p < n - 4;
      LumsPerQuad(data[..n - 4], k);
    }
  }

  /** Overwriting the alpha byte of any pixel leaves every luminance value unchanged. */
  lemma {:induction false} AlphaIgnored(data: seq<Byte>, k: nat, v: Byte)
    requires |data| % 4 == 0 && k < |data| / 4
    ensures Lums(data[4 * k + 3 := v]) == Lums(data)
    decreases |data|
  {
    var n := |data|;
    var p := 4 * k + 3;
    var d := data[p := v];
    if p == n - 1 {
      assert d[..n - 4] == data[..n - 4];
    } else {
      assert p < n - 4;
      assert d[..n - 4] == data[..n - 4][p := v];
      AlphaIgnored(data[..n - 4], k, v);
    }
  }

  /** `xs.reduce((a, b) => a + b, 0)`: a left fold, so the last element is added last. */
  function Sum(xs: seq<real>): real {
    if |xs| == 0 then 0.0 else Sum(xs[..|xs| - 1]) + xs[|xs| - 1]
  }

  /** The arithmetic mean of a non-empty list. */
  function Mean(xs: seq<real>): real
    requires |xs| > 0
  {
    Sum(xs) / |xs| as real
  }

  /** `xs.reduce((a, b) => a + (b - m) ** 2, 0)`. */
  function SumSqDev(xs: seq<real>, m: real): real {
    if |xs| == 0 then 0.0
    else
      var d := xs[|xs| - 1] - m;
      SumSqDev(xs[..|xs| - 1], m) + d * d
  }

  /** The population variance of a non-empty list. */
  function Variance(xs: seq<real>): real
    requires |xs| > 0
  {
    SumSqDev(xs, Mean(xs)) / |xs| as real
  }

  /** The average luminance of the unfiltered bitmap; 0 when it has no pixels. */
  function Brightness(orig: seq<Byte>): real
    requires |orig| % 4 == 0
  {
    if |orig| == 0 then 0.0 else Mean(Lums(orig))
  }

  /** The exposure window: strictly between 80 and 220. */
  predicate WellExposed(avg: real) {
    80.0 < avg < 220.0
  }

  /** The score `scoreImage` returns for a Laplacian bitmap `lap` of the unfiltered bitmap `orig`. */
  function ScoreSpec(lap: seq<Byte>, orig: seq<Byte>): real
    requires |lap| % 4 == 0 && |orig| % 4 == 0
  {
    if |lap| == 0 then 0.0
    else Variance(Lums(lap)) + (if WellExposed(Brightness(orig)) then ExposureBonus else 0.0)
  }

  /** Pixel `p`'s RGBA quad adds its luminance at the end. */
  lemma LumsExtend(data: seq<Byte>, p: nat)
    requires 4 * p + 4 <= |data|
    ensures Lums(data[..4 * p + 4]) == Lums(data[..4 * p]) + [Luminance(data[4 * p], data[4 * p + 1], data[4 * p + 2])]
  {
    assert data[..4 * p + 4][..4 * p] == data[..4 * p];
  }

  /** The left fold over one more element adds it. */
  lemma SumAppend(xs: seq<real>, x: real)
    ensures Sum(xs + [x]) == Sum(xs) + x
  {
    assert (xs + [x])[..|xs|] == xs;
  }

  /** The first loop: one luminance value per RGBA quad of the Laplacian bitmap. */
  method LuminanceValues(data: array<Byte>) returns (pixels: seq<real>)
    requires data.Length % 4 == 0
    ensures pixels == Lums(data[..])
  {
    pixels := [];
    var n := data.Length / 4;
    var p := 0;
    while p < n
      invariant 0 <= p <= n
      invariant pixels == Lums(data[..4 * p])
    {
      var i := 4 * p;
      var lum := Luminance(data[i], data[i + 1], data[i + 2]);
      LumsExtend(data[..], p);
      pixels := pixels + [lum];
      p := p + 1;
    }
    assert data[..] == data[..4 * p];
  }

  /** The second loop: the running sum and pixel count over the unfiltered bitmap. */
  method SumLuminance(orig: array<Byte>) returns (sum: real, count: nat)
    requires orig.Length % 4 == 0
    ensures sum == Sum(Lums(orig[..]))
    ensures count == |Lums(orig[..])|
  {
    sum := 0.0;
    count := 0;
    var n := orig.Length / 4;
    ghost var seen: seq<real> := [];
    while count < n
      invariant 0 <= count <= n
      invariant seen == Lums(orig[..4 * count])
      invariant sum == Sum(seen)
    {
      var i := 4 * count;
      var lum := Luminance(orig[i], orig[i + 1], orig[i + 2]);
      LumsExtend(orig[..], count);
      SumAppend(seen, lum);
      seen := seen + [lum];
      sum := sum + lum;
      count := count + 1;
    }
    assert orig[..] == orig[..4 * count];
  }

  /** The average brightness: the sum over the pixel count, 0 for an empty bitmap. */
  method AverageBrightness(orig: array<Byte>) returns (avg: real)
    requires orig.Length % 4 == 0
    ensures avg == Brightness(orig[..])
  {
    var sum, count := SumLuminance(orig);
    avg := if count != 0 then sum / count as real else 0.0;
  }

  /** `scoreImage` on the two bitmaps. */
  method ScoreImage(lap: array<Byte>, orig: array<Byte>) returns (score: real)
    requires lap.Length % 4 == 0 && orig.Length % 4 == 0
    ensures score == ScoreSpec(lap[..], orig[..])
  {
    var pixels := LuminanceValues(lap);
    if |pixels| == 0 {
      return 0.0;
    }
    score := Variance(pixels);
    var avg := AverageBrightness(orig);
    if avg > 80.0 && avg < 220.0 {
      score := score + ExposureBonus;
    }
  }

  lemma {:induction false} SumSqDevNonNegative(xs: seq<real>, m: real)
    ensures SumSqDev(xs, m) >= 0.0
    decreases |xs|
  {
    if |xs| > 0 {
      SumSqDevNonNegative(xs[..|xs| - 1], m);
      var d := xs[|xs| - 1] - m;
      assert d * d >= 0.0;
    }
  }

  /** The variance term is never negative. */
  lemma VarianceNonNegative(xs: seq<real>)
    requires |xs| > 0
    ensures Variance(xs) >= 0.0
  {
    SumSqDevNonNegative(xs, Mean(xs));
  }

  lemma {:induction false} SumConstant(xs: seq<real>, c: real)
    requires forall i :: 0 <= i < |xs| ==> xs[i] == c
    ensures Sum(xs) == |xs| as real * c
    decreases |xs|
  {
    if |xs| > 0 {
      SumConstant(xs[..|xs| - 1], c);
    }
  }

  lemma {:induction false} SumSqDevConstant(xs: seq<real>, c: real)
    requires forall i :: 0 <= i < |xs| ==> xs[i] == c
    ensures SumSqDev(xs, c) == 0.0
    decreases |xs|
  {
    if |xs| > 0 {
      SumSqDevConstant(xs[..|xs| - 1], c);
    }
  }

  /** A list of equal values has mean equal to that value and variance 0. */
  lemma ConstantVariance(xs: seq<real>)
    requires |xs| > 0
    requires forall i :: 0 <= i < |xs| ==> xs[i] == xs[0]
    ensures Mean(xs) == xs[0]
    ensures Variance(xs) == 0.0
  {
    var n := |xs| as real;
    SumConstant(xs, xs[0]);
    assert Sum(xs) / n == xs[0];
    SumSqDevConstant(xs, xs[0]);
  }

  /** A Laplacian bitmap whose pixels all have one luminance contributes no sharpness. */
  lemma ConstantLaplacianNoSharpness(lap: seq<Byte>, orig: seq<Byte>)
    requires |lap| > 0 && |lap| % 4 == 0 && |orig| % 4 == 0
    requires forall i :: 0 <= i < |Lums(lap)| ==> Lums(lap)[i] == Lums(lap)[0]
    ensures ScoreSpec(lap, orig) == (if WellExposed(Brightness(orig)) then ExposureBonus else 0.0)
  {
    ConstantVariance(Lums(lap));
  }

  lemma {:induction false} SumBounds(xs: seq<real>, lo: real, hi: real)
    requires forall i :: 0 <= i < |xs| ==> lo <= xs[i] <= hi
    ensures |xs| as real * lo <= Sum(xs) <= |xs| as real * hi
    decreases |xs|
  {
    if |xs| > 0 {
      SumBounds(xs[..|xs| - 1], lo, hi);
      var m := (|xs| - 1) as real;
      assert m + 1.0 == |xs| as real;
      assert (m + 1.0) * lo == m * lo + lo;
      assert (m + 1.0) * hi == m * hi + hi;
    }
  }

  lemma {:induction false} LumsInRange(data: seq<Byte>)
    requires |data| % 4 == 0
    ensures forall i :: 0 <= i < |Lums(data)| ==> 0.0 <= Lums(data)[i] <= 255.0
    decreases |data|
  {
    if |data| > 0 {
      LumsInRange(data[..|data| - 4]);
    }
  }

  /** The mean of values within [lo, hi] is within [lo, hi]. */
  lemma MeanBounds(xs: seq<real>, lo: real, hi: real)
    requires |xs| > 0
    requires forall i :: 0 <= i < |xs| ==> lo <= xs[i] <= hi
    ensures lo <= Mean(xs) <= hi
  {
    SumBounds(xs, lo, hi);
    var n := |xs| as real;
    assert Sum(xs) / n <= (n * hi) / n;
    assert (n * lo) / n <= Sum(xs) / n;
  }

  /** Every pixel's luminance lies in [0, 255], and so does the average brightness. */
  lemma BrightnessInRange(orig: seq<Byte>)
    requires |orig| % 4 == 0
    ensures forall i :: 0 <= i < |Lums(orig)| ==> 0.0 <= Lums(orig)[i] <= 255.0
    ensures 0.0 <= Brightness(orig) <= 255.0
  {
    LumsInRange(orig);
    if |orig| > 0 {
      MeanBounds(Lums(orig), 0.0, 255.0);
    }
  }

  /**
   * The score rule: 0 for an empty Laplacian bitmap; otherwise a non-negative
   * variance, plus exactly 500 iff the unfiltered bitmap is well exposed.
   * An empty unfiltered bitmap has brightness 0 and so never earns the bonus.
   */
  lemma ScoreRule(lap: seq<Byte>, orig: seq<Byte>)
    requires |lap| % 4 == 0 && |orig| % 4 == 0
    ensures |lap| == 0 ==> ScoreSpec(lap, orig) == 0.0
    ensures |lap| > 0 ==>
      var v := Variance(Lums(lap));
      v >= 0.0 &&
      (ScoreSpec(lap, orig) == v || ScoreSpec(lap, orig) == v + ExposureBonus) &&
      (ScoreSpec(lap, orig) == v + ExposureBonus <==> WellExposed(Brightness(orig)))
    ensures |orig| == 0 && |lap| > 0 ==> ScoreSpec(lap, orig) == Variance(Lums(lap))
    ensures ScoreSpec(lap, orig) >= 0.0
  {
    if |lap| > 0 {
      VarianceNonNegative(Lums(lap));
    }
  }
}
