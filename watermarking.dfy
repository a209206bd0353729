/** The watermarking tool: a visible watermark made of the mark's Canny
    edges added onto the main image, an invisible one embedded in the
    Fourier spectrum of each channel, and the two extractions (spectral
    difference and edge difference). */
module Watermarking {
  import opened Raster
  import opened OpenCv

  // ---------------------------------------------------------------------
  // 8-bit arithmetic of cv2.addWeighted and cv2.subtract
  // ---------------------------------------------------------------------

  /** cvRound: the nearest integer, ties to the even one. */
  function RoundHalfEven(x: real): (n: int)
    ensures x - 0.5 <= n as real <= x + 0.5
    ensures (n as real == x + 0.5 || n as real == x - 0.5) ==> n % 2 == 0
  {
    var f := x.Floor;
    var d := x - f as real;
    if d < 0.5 then f
    else if d > 0.5 then f + 1
    else if f % 2 == 0 then f
    else f + 1
  }

  lemma RoundOfInteger(k: int)
    ensures RoundHalfEven(k as real) == k
  {
  }

  /** saturate_cast<uchar>: clamp an integer to [0, 255]. */
  function SaturateByte(x: int): (v: int)
    ensures IsByte(v)
    ensures IsByte(x) ==> v == x
    ensures x < 0 ==> v == 0
    ensures x > 255 ==> v == 255
  {
    if x < 0 then 0 else if x > 255 then 255 else x
  }

  // ---------------------------------------------------------------------
  // Visible watermark
  // ---------------------------------------------------------------------

  /** edge_opacity on the 0..100 scale as the addWeighted weight. */
  function OpacityWeight(opacity: real): (alpha: real)
    ensures 0.0 <= opacity <= 100.0 ==> 0.0 <= alpha <= 1.0
    ensures alpha * 100.0 == opacity
  {
    opacity / 100.0
  }

  lemma OpacityWeightMonotone(o1: real, o2: real)
    requires o1 <= o2
    ensures OpacityWeight(o1) <= OpacityWeight(o2)
  {
  }

  /** cv2.addWeighted(main, 1.0, edges, alpha, 0) at one sample. */
  function AddWeightedSample(x: int, e: int, alpha: real): int
  {
    SaturateByte(RoundHalfEven(x as real * 1.0 + e as real * alpha + 0.0))
  }

  function AddWeightedPlane(main: Plane, edges: Plane, alpha: real, height: nat, width: nat): (q: Plane)
    ensures IsBytePlane(q, height, width)
    ensures forall r, c :: 0 <= r < height && 0 <= c < width ==> q[r][c] == AddWeightedSample(SampleAt(main, r, c), SampleAt(edges, r, c), alpha)
  {
    seq(height, r requires 0 <= r < height => seq(width, c requires 0 <= c < width =>
      AddWeightedSample(SampleAt(main, r, c), SampleAt(edges, r, c), alpha)))
  }

  /** A zero weight or a zero edge leaves the sample as it is. */
  lemma AddWeightedKeeps(x: int, e: int, alpha: real)
    requires IsByte(x)
    ensures AddWeightedSample(x, e, 0.0) == x
    ensures AddWeightedSample(x, 0, alpha) == x
  {
    RoundOfInteger(x);
  }

  /** With a non-negative weight the watermark only brightens. */
  lemma AddWeightedBrightens(x: int, e: int, alpha: real)
    requires IsByte(x) && e >= 0 && alpha >= 0.0
    ensures x <= AddWeightedSample(x, e, alpha)
  {
    MulNonNegative(e as real, alpha);
  }

  lemma MulNonNegative(x: real, y: real)
    requires x >= 0.0 && y >= 0.0
    ensures x * y >= 0.0
  {
  }

  /** The Canny edges of the mark resized to the main image, added onto it:
      the same edge plane goes into B, G and R. */
  function VisibleImage(cv: Cv, main: Image, mark: Image, opacity: real): (out: Image)
    ensures out.height == main.height && out.width == main.width
    ensures main.height > 0 && main.width > 0 ==> out.Valid()
  {
    var edges := cv.canny(cv.toGray(cv.resize(mark, main.height, main.width)), 50, 150);
    var alpha := OpacityWeight(opacity);
    var h, w := main.height, main.width;
    Image(h, w, AddWeightedPlane(main.b, edges, alpha, h, w), AddWeightedPlane(main.g, edges, alpha, h, w),
          AddWeightedPlane(main.r, edges, alpha, h, w))
  }

  /** visible_watermark: None when an image did not load. */
  function VisibleWatermark(cv: Cv, main: Option<Image>, mark: Option<Image>, opacity: real,
                            outputPath: Option<string>, timestamp: string): (result: Option<Saved>)
    ensures result.Some? <==> main.Some? && mark.Some?
    ensures result.Some? ==>
      result.value.path == OutputPath(outputPath, DefaultPath("watermarked_images", "visible_watermark", timestamp)) &&
      result.value.image.height == main.value.height && result.value.image.width == main.value.width
  {
    if main.None? || mark.None? then None
    else Some(Saved(OutputPath(outputPath, DefaultPath("watermarked_images", "visible_watermark", timestamp)),
                    VisibleImage(cv, main.value, mark.value, opacity)))
  }

  /** With weight 0 a plane comes back unchanged. */
  lemma AddWeightedPlaneAtZero(p: Plane, edges: Plane, height: nat, width: nat)
    requires IsBytePlane(p, height, width)
    ensures AddWeightedPlane(p, edges, 0.0, height, width) == p
  {
    var q := AddWeightedPlane(p, edges, 0.0, height, width);
    forall r | 0 <= r < height
      ensures q[r] == p[r]
    {
      forall c | 0 <= c < width
        ensures q[r][c] == p[r][c]
      {
        AddWeightedKeeps(p[r][c], SampleAt(edges, r, c), 0.0);
      }
    }
  }

  /** Opacity 0 leaves the main image unchanged; for a non-negative opacity
      every sample is at least the main image's. */
  lemma VisibleWatermarkEffect(cv: Cv, main: Image, mark: Image, opacity: real, outputPath: Option<string>, timestamp: string)
    requires CannySound(cv) && main.Valid()
    ensures var out := VisibleWatermark(cv, Some(main), Some(mark), opacity, outputPath, timestamp).value.image;
      opacity == 0.0 ==> out == main
    ensures var out := VisibleWatermark(cv, Some(main), Some(mark), opacity, outputPath, timestamp).value.image;
      forall r, c :: 0 <= r < main.height && 0 <= c < main.width && opacity >= 0.0 ==>
        main.b[r][c] <= out.b[r][c] && main.g[r][c] <= out.g[r][c] && main.r[r][c] <= out.r[r][c]
  {
    var out := VisibleImage(cv, main, mark, opacity);
    var edges := cv.canny(cv.toGray(cv.resize(mark, main.height, main.width)), 50, 150);
    if opacity == 0.0 {
      AddWeightedPlaneAtZero(main.b, edges, main.height, main.width);
      AddWeightedPlaneAtZero(main.g, edges, main.height, main.width);
      AddWeightedPlaneAtZero(main.r, edges, main.height, main.width);
    }
    forall r, c | 0 <= r < main.height && 0 <= c < main.width && opacity >= 0.0
      ensures main.b[r][c] <= out.b[r][c] && main.g[r][c] <= out.g[r][c] && main.r[r][c] <= out.r[r][c]
    {
      var e := SampleAt(edges, r, c);
      assert e >= 0;
      AddWeightedBrightens(main.b[r][c], e, OpacityWeight(opacity));
      AddWeightedBrightens(main.g[r][c], e, OpacityWeight(opacity));
      AddWeightedBrightens(main.r[r][c], e, OpacityWeight(opacity));
    }
  }

  // ---------------------------------------------------------------------
  // Spectral embed and extract
  // ---------------------------------------------------------------------

  /** One channel of the spectral operation: real(ifft2(fft2(a) + k * fft2(b))),
      clipped to [0, 255] and truncated. The embed uses k = alpha with the
      main and mark channels; the extraction uses k = -1 with the
      watermarked and original channels. */
  function Spectral(cv: Cv, a: Plane, k: real, b: Plane): Plane
  {
    ToBytePlane(RealPart(cv.ifft2(SCombine(cv.fft2(AsReal(a)), k, cv.fft2(AsReal(b))))))
  }

  lemma RealPartOfAsComplex(a: RealPlane)
    ensures RealPart(AsComplex(a)) == a
  {
    var x := RealPart(AsComplex(a));
    forall r | 0 <= r < |a|
      ensures x[r] == a[r]
    {
    }
  }

  /** q is the 8-bit plane of a + k * b, clipped and truncated sample by sample. */
  predicate IsClippedCombination(q: Plane, a: Plane, k: real, b: Plane, height: nat, width: nat)
  {
    && IsBytePlane(q, height, width) && IsGrid(a, height, width) && IsGrid(b, height, width)
    && forall r, c :: 0 <= r < height && 0 <= c < width ==> q[r][c] == ToByte(a[r][c] as real + k * b[r][c] as real)
  }

  /** Under the transform laws the spectral operation is the clipped
      pixel-wise a + k * b. */
  lemma SpectralIsPixelwise(cv: Cv, a: Plane, k: real, b: Plane, height: nat, width: nat)
    requires FourierLaws(cv) && IsGrid(a, height, width) && IsGrid(b, height, width)
    ensures IsClippedCombination(Spectral(cv, a, k, b), a, k, b, height, width)
  {
    var ra, rb := AsReal(a), AsReal(b);
    assert SameShape(ra, rb);
    var sum := Combine(ra, k, rb);
    assert cv.fft2(sum) == SCombine(cv.fft2(ra), k, cv.fft2(rb));
    assert cv.ifft2(cv.fft2(sum)) == AsComplex(sum);
    RealPartOfAsComplex(sum);
    assert Spectral(cv, a, k, b) == ToBytePlane(sum);
  }

  /** The invisible watermark: each channel of the main image embedded with
      the matching channel of the mark resized to the main image. */
  function InvisibleImage(cv: Cv, main: Image, mark: Image, alpha: real): (out: Image)
    ensures out.height == main.height && out.width == main.width
  {
    var m := cv.resize(mark, main.height, main.width);
    Image(main.height, main.width, Spectral(cv, main.b, alpha, m.b), Spectral(cv, main.g, alpha, m.g), Spectral(cv, main.r, alpha, m.r))
  }

  /** invisible_watermark: None when an image did not load. */
  function InvisibleWatermark(cv: Cv, main: Option<Image>, mark: Option<Image>, alpha: real,
                              outputPath: Option<string>, timestamp: string): (result: Option<Saved>)
    ensures result.Some? <==> main.Some? && mark.Some?
    ensures result.Some? ==>
      result.value.path == OutputPath(outputPath, DefaultPath("watermarked_images", "invisible_watermark", timestamp)) &&
      result.value.image.height == main.value.height && result.value.image.width == main.value.width
  {
    if main.None? || mark.None? then None
    else Some(Saved(OutputPath(outputPath, DefaultPath("watermarked_images", "invisible_watermark", timestamp)),
                    InvisibleImage(cv, main.value, mark.value, alpha)))
  }

  /** Each embedded sample is main + alpha * mark clipped to [0, 255], the
      mark taken at the main image's size, and the result is an 8-bit image
      of the main image's size. */
  lemma InvisibleEmbedIsPixelwise(cv: Cv, main: Image, mark: Image, alpha: real)
    requires ResizeSound(cv) && FourierLaws(cv) && main.Valid() && mark.Valid()
    ensures var out, m, h, w := InvisibleImage(cv, main, mark, alpha), cv.resize(mark, main.height, main.width), main.height, main.width;
      && out.Valid()
      && IsClippedCombination(out.b, main.b, alpha, m.b, h, w)
      && IsClippedCombination(out.g, main.g, alpha, m.g, h, w)
      && IsClippedCombination(out.r, main.r, alpha, m.r, h, w)
  {
    var m := cv.resize(mark, main.height, main.width);
    assert m.Valid();
    SpectralIsPixelwise(cv, main.b, alpha, m.b, main.height, main.width);
    SpectralIsPixelwise(cv, main.g, alpha, m.g, main.height, main.width);
    SpectralIsPixelwise(cv, main.r, alpha, m.r, main.height, main.width);
  }

  /** With alpha 0 the invisible watermark leaves the main image as it is. */
  lemma InvisibleZeroAlpha(cv: Cv, main: Image, mark: Image)
    requires ResizeSound(cv) && FourierLaws(cv) && main.Valid() && mark.Valid()
    ensures InvisibleImage(cv, main, mark, 0.0) == main
  {
    var m := cv.resize(mark, main.height, main.width);
    assert m.Valid();
    SpectralAtZero(cv, main.b, m.b, main.height, main.width);
    SpectralAtZero(cv, main.g, m.g, main.height, main.width);
    SpectralAtZero(cv, main.r, m.r, main.height, main.width);
  }

  lemma SpectralAtZero(cv: Cv, a: Plane, b: Plane, height: nat, width: nat)
    requires FourierLaws(cv) && IsBytePlane(a, height, width) && IsGrid(b, height, width)
    ensures Spectral(cv, a, 0.0, b) == a
  {
    SpectralIsPixelwise(cv, a, 0.0, b, height, width);
    var q := Spectral(cv, a, 0.0, b);
    forall r | 0 <= r < height
      ensures q[r] == a[r]
    {
      forall c | 0 <= c < width
        ensures q[r][c] == a[r][c]
      {
        ToByteOfByte(a[r][c]);
      }
    }
  }

  predicate SameSize(a: Image, b: Image)
  {
    a.height == b.height && a.width == b.width
  }

  /** _extract_fourier_watermark's image: per channel, the spectrum of the
      watermarked image minus that of the original, transformed back. */
  function FourierExtracted(cv: Cv, original: Image, watermarked: Image): (out: Image)
    ensures out.height == watermarked.height && out.width == watermarked.width
  {
    Image(watermarked.height, watermarked.width,
          Spectral(cv, watermarked.b, -1.0, original.b),
          Spectral(cv, watermarked.g, -1.0, original.g),
          Spectral(cv, watermarked.r, -1.0, original.r))
  }

  /** _extract_fourier_watermark: None when an image did not load or the
      two spectra cannot be subtracted (different sizes). */
  function ExtractFourier(cv: Cv, original: Option<Image>, watermarked: Option<Image>,
                          outputPath: Option<string>, timestamp: string): (result: Option<Saved>)
    ensures result.Some? <==> original.Some? && watermarked.Some? && SameSize(original.value, watermarked.value)
    ensures result.Some? ==> result.value.path == OutputPath(outputPath, DefaultPath("results", "extracted_watermark_fourier", timestamp))
  {
    if original.None? || watermarked.None? || !SameSize(original.value, watermarked.value) then None
    else Some(Saved(OutputPath(outputPath, DefaultPath("results", "extracted_watermark_fourier", timestamp)),
                    FourierExtracted(cv, original.value, watermarked.value)))
  }

  /** q is x - y with the difference clamped to [0, 255], sample by sample. */
  predicate IsSaturatedDifference(q: Plane, x: Plane, y: Plane, height: nat, width: nat)
  {
    && IsBytePlane(q, height, width) && IsGrid(x, height, width) && IsGrid(y, height, width)
    && forall r, c :: 0 <= r < height && 0 <= c < width ==> q[r][c] == SaturateByte(x[r][c] - y[r][c])
  }

  lemma ClippedDifference(q: Plane, x: Plane, y: Plane, height: nat, width: nat)
    requires IsClippedCombination(q, x, -1.0, y, height, width)
    ensures IsSaturatedDifference(q, x, y, height, width)
  {
    forall r, c | 0 <= r < height && 0 <= c < width
      ensures q[r][c] == SaturateByte(x[r][c] - y[r][c])
    {
      assert x[r][c] as real + -1.0 * y[r][c] as real == (x[r][c] - y[r][c]) as real;
    }
  }

  /** Each extracted sample is watermarked - original clamped to [0, 255]:
      0 wherever the watermarked sample is not above the original. */
  lemma FourierExtractionIsDifference(cv: Cv, original: Image, watermarked: Image)
    requires FourierLaws(cv) && original.Valid() && watermarked.Valid() && SameSize(original, watermarked)
    ensures var out, h, w := FourierExtracted(cv, original, watermarked), original.height, original.width;
      && out.Valid()
      && IsSaturatedDifference(out.b, watermarked.b, original.b, h, w)
      && IsSaturatedDifference(out.g, watermarked.g, original.g, h, w)
      && IsSaturatedDifference(out.r, watermarked.r, original.r, h, w)
  {
    var out, h, w := FourierExtracted(cv, original, watermarked), original.height, original.width;
    SpectralIsPixelwise(cv, watermarked.b, -1.0, original.b, h, w);
    ClippedDifference(out.b, watermarked.b, original.b, h, w);
    SpectralIsPixelwise(cv, watermarked.g, -1.0, original.g, h, w);
    ClippedDifference(out.g, watermarked.g, original.g, h, w);
    SpectralIsPixelwise(cv, watermarked.r, -1.0, original.r, h, w);
    ClippedDifference(out.r, watermarked.r, original.r, h, w);
  }

  /** Embedding a mark and extracting against the same main image gives back
      floor(alpha * mark) wherever the embed did not clip. */
  lemma EmbedThenExtract(cv: Cv, a: Plane, b: Plane, alpha: real, height: nat, width: nat)
    requires FourierLaws(cv) && IsBytePlane(a, height, width) && IsBytePlane(b, height, width)
    requires forall r, c :: 0 <= r < height && 0 <= c < width ==>
      0.0 <= alpha * b[r][c] as real && a[r][c] as real + alpha * b[r][c] as real <= 255.0
    ensures var out := Spectral(cv, Spectral(cv, a, alpha, b), -1.0, a);
      IsGrid(out, height, width) &&
      forall r, c :: 0 <= r < height && 0 <= c < width ==> out[r][c] == (alpha * b[r][c] as real).Floor
  {
    SpectralIsPixelwise(cv, a, alpha, b, height, width);
    var embedded := Spectral(cv, a, alpha, b);
    SpectralIsPixelwise(cv, embedded, -1.0, a, height, width);
    forall r, c | 0 <= r < height && 0 <= c < width
      ensures Spectral(cv, embedded, -1.0, a)[r][c] == (alpha * b[r][c] as real).Floor
    {
      FloorShift(a[r][c], alpha * b[r][c] as real);
    }
  }

  /** For a sample x and 0 <= d with x + d <= 255, truncating x + d and
      taking x away again leaves floor(d). */
  lemma FloorShift(x: int, d: real)
    requires IsByte(x) && 0.0 <= d && x as real + d <= 255.0
    ensures ToByte(ToByte(x as real + d) as real + -1.0 * x as real) == d.Floor
  {
    var v := ToByte(x as real + d);
    assert v == (x as real + d).Floor;
    assert v - x == d.Floor;
    assert v as real + -1.0 * x as real == (v - x) as real;
  }

  // ---------------------------------------------------------------------
  // Edge extraction
  // ---------------------------------------------------------------------

  /** cv2.subtract(water_edges, orig_edges): saturating and pixel-wise. */
  function EdgeDifference(waterEdges: Plane, origEdges: Plane): (d: Plane)
    requires SameShape(waterEdges, origEdges)
    ensures SameShape(d, waterEdges)
    ensures forall r, c :: 0 <= r < |d| && 0 <= c < |d[r]| ==> d[r][c] == SaturateByte(waterEdges[r][c] - origEdges[r][c])
  {
    seq(|waterEdges|, r requires 0 <= r < |waterEdges| => seq(|waterEdges[r]|, c requires 0 <= c < |waterEdges[r]| =>
      SaturateByte(waterEdges[r][c] - origEdges[r][c])))
  }

  /** The Canny edge maps _extract_edge_watermark compares. */
  function EdgeMap(cv: Cv, img: Image): Plane
  {
    cv.canny(cv.toGray(img), 50, 150)
  }

  /** _extract_edge_watermark: None when an image did not load or the two
      edge maps differ in size; the single-channel result is kept as an
      image whose three planes are equal. */
  function ExtractEdge(cv: Cv, original: Option<Image>, watermarked: Option<Image>,
                       outputPath: Option<string>, timestamp: string): (result: Option<Saved>)
    ensures result.Some? <==>
      original.Some? && watermarked.Some? && SameShape(EdgeMap(cv, watermarked.value), EdgeMap(cv, original.value))
    ensures result.Some? ==>
      result.value.path == OutputPath(outputPath, DefaultPath("results", "extracted_watermark_edge", timestamp)) &&
      result.value.image.b == result.value.image.g == result.value.image.r
  {
    if original.None? || watermarked.None? then None
    else
      var oe, we := EdgeMap(cv, original.value), EdgeMap(cv, watermarked.value);
      if !SameShape(we, oe) then None
      else Some(Saved(OutputPath(outputPath, DefaultPath("results", "extracted_watermark_edge", timestamp)), GrayToBgr(EdgeDifference(we, oe))))
  }

  /** Every extracted edge value is an 8-bit value, 0 wherever the
      watermarked edge is not above the original's, and the plain difference
      elsewhere. */
  lemma ExtractEdgeIsSaturatedDifference(cv: Cv, original: Image, watermarked: Image,
                                         outputPath: Option<string>, timestamp: string)
    requires CannySound(cv)
    requires SameShape(EdgeMap(cv, watermarked), EdgeMap(cv, original))
    ensures var out, we, oe := ExtractEdge(cv, Some(original), Some(watermarked), outputPath, timestamp).value.image,
                               EdgeMap(cv, watermarked), EdgeMap(cv, original);
      && SameShape(out.b, we)
      && forall r, c :: 0 <= r < |we| && 0 <= c < |we[r]| ==>
        && IsByte(out.b[r][c])
        && (we[r][c] <= oe[r][c] ==> out.b[r][c] == 0)
        && (we[r][c] > oe[r][c] ==> out.b[r][c] == we[r][c] - oe[r][c])
  {
    var we, oe := EdgeMap(cv, watermarked), EdgeMap(cv, original);
    forall r, c | 0 <= r < |we| && 0 <= c < |we[r]|
      ensures IsByte(we[r][c]) && IsByte(oe[r][c])
    {
    }
  }

  // ---------------------------------------------------------------------
  // Dispatch
  // ---------------------------------------------------------------------

  const ExtractionMethods: seq<string> := ["fourier", "edge"]

  /** extract_watermark: 'fourier' and 'edge' pick their extraction; any
      other method raises inside and gives None. */
  function ExtractWatermark(cv: Cv, original: Option<Image>, watermarked: Option<Image>, algorithm: string,
                            outputPath: Option<string>, timestamp: string): (result: Option<Saved>)
    ensures algorithm !in ExtractionMethods ==> result.None?
    ensures algorithm == "fourier" ==> result == ExtractFourier(cv, original, watermarked, outputPath, timestamp)
    ensures algorithm == "edge" ==> result == ExtractEdge(cv, original, watermarked, outputPath, timestamp)
    ensures result.Some? ==> original.Some? && watermarked.Some?
  {
    if algorithm == "fourier" then ExtractFourier(cv, original, watermarked, outputPath, timestamp)
    else if algorithm == "edge" then ExtractEdge(cv, original, watermarked, outputPath, timestamp)
    else None
  }
}
