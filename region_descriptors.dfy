/** extract_region_descriptors and its helpers _calculate_entropy,
    _calculate_skewness and _calculate_kurtosis: which contours are described,
    how the three feature lists grow, and the values used for degenerate data. */
module RegionDescriptors {
  import opened Raster
  import opened OpenCv
  import opened Histogram

  // ---------------------------------------------------------------------
  // Sums and means
  // ---------------------------------------------------------------------

  function RSum(s: seq<real>): real
  {
    if s == [] then 0.0 else RSum(s[..|s| - 1]) + s[|s| - 1]
  }

  /** np.mean of integer samples. */
  function Mean(s: seq<int>): real
    requires |s| > 0
  {
    Sum(s) as real / |s| as real
  }

  function RMean(s: seq<real>): real
    requires |s| > 0
  {
    RSum(s) / |s| as real
  }

  lemma {:induction false} RSumNonNegative(s: seq<real>)
    requires forall i :: 0 <= i < |s| ==> s[i] >= 0.0
    ensures RSum(s) >= 0.0
  {
    if s != [] {
      RSumNonNegative(s[..|s| - 1]);
    }
  }

  lemma {:induction false} RSumZero(s: seq<real>)
    requires forall i :: 0 <= i < |s| ==> s[i] == 0.0
    ensures RSum(s) == 0.0
  {
    if s != [] {
      RSumZero(s[..|s| - 1]);
    }
  }

  lemma {:induction false} SumOfConstant(s: seq<int>, v: int)
    requires forall i :: 0 <= i < |s| ==> s[i] == v
    ensures Sum(s) == |s| * v
  {
    if s != [] {
      SumOfConstant(s[..|s| - 1], v);
    }
  }

  // ---------------------------------------------------------------------
  // Skewness and kurtosis
  // ---------------------------------------------------------------------

  /** The population variance np.std squares to. */
  function Variance(s: seq<int>): real
    requires |s| > 0
  {
    var m := Mean(s);
    RMean(seq(|s|, i requires 0 <= i < |s| => (s[i] as real - m) * (s[i] as real - m)))
  }

  /** np.std is the non-negative square root of the population variance. */
  ghost predicate StdSound(cv: Cv)
  {
    forall s: seq<int> {:trigger cv.std(s)} :: |s| > 0 ==> cv.std(s) >= 0.0 && cv.std(s) * cv.std(s) == Variance(s)
  }

  /** The standardised samples (x - mean) / std. */
  function Standardised(s: seq<int>, m: real, sd: real): (z: seq<real>)
    requires sd != 0.0
    ensures |z| == |s| && forall i :: 0 <= i < |s| ==> z[i] == (s[i] as real - m) / sd
  {
    seq(|s|, i requires 0 <= i < |s| => (s[i] as real - m) / sd)
  }

  function Cubes(z: seq<real>): (c: seq<real>)
    ensures |c| == |z| && forall i :: 0 <= i < |z| ==> c[i] == z[i] * z[i] * z[i]
  {
    seq(|z|, i requires 0 <= i < |z| => z[i] * z[i] * z[i])
  }

  function FourthPowers(z: seq<real>): (q: seq<real>)
    ensures |q| == |z| && forall i :: 0 <= i < |z| ==> q[i] == (z[i] * z[i]) * (z[i] * z[i])
  {
    seq(|z|, i requires 0 <= i < |z| => (z[i] * z[i]) * (z[i] * z[i]))
  }

  /** _calculate_skewness: 0 for no data or zero spread, else the mean cube
      of the standardised samples. */
  function Skewness(cv: Cv, data: seq<int>): real
  {
    if |data| == 0 then 0.0
    else
      var sd := cv.std(data);
      if sd == 0.0 then 0.0 else RMean(Cubes(Standardised(data, Mean(data), sd)))
  }

  /** _calculate_kurtosis: 0 for no data or zero spread, else the mean
      fourth power of the standardised samples minus 3. */
  function Kurtosis(cv: Cv, data: seq<int>): real
  {
    if |data| == 0 then 0.0
    else
      var sd := cv.std(data);
      if sd == 0.0 then 0.0 else RMean(FourthPowers(Standardised(data, Mean(data), sd))) - 3.0
  }

  /** Samples that are all equal have no spread, so both moments take their
      degenerate value 0. */
  lemma ConstantDataMoments(cv: Cv, data: seq<int>, v: int)
    requires StdSound(cv)
    requires forall i :: 0 <= i < |data| ==> data[i] == v
    ensures Skewness(cv, data) == 0.0 && Kurtosis(cv, data) == 0.0
  {
    if |data| > 0 {
      SumOfConstant(data, v);
      assert (|data| * v) as real == |data| as real * v as real;
      var m := Mean(data);
      assert m == v as real;
      var sq := seq(|data|, i requires 0 <= i < |data| => (data[i] as real - m) * (data[i] as real - m));
      RSumZero(sq);
      assert Variance(data) == 0.0;
      var sd := cv.std(data);
      ZeroProduct(sd, sd);
    }
  }

  lemma ZeroProduct(a: real, b: real)
    requires a >= 0.0 && b >= 0.0 && a * b == 0.0
    ensures a == 0.0 || b == 0.0
  {
  }

  /** Kurtosis is never below -3: the mean fourth power is non-negative. */
  lemma KurtosisAtLeastMinusThree(cv: Cv, data: seq<int>)
    ensures Kurtosis(cv, data) >= -3.0
  {
    if |data| > 0 && cv.std(data) != 0.0 {
      var q := FourthPowers(Standardised(data, Mean(data), cv.std(data)));
      assert forall i :: 0 <= i < |q| ==> q[i] >= 0.0;
      RSumNonNegative(q);
    }
  }

  // ---------------------------------------------------------------------
  // Entropy
  // ---------------------------------------------------------------------

  /** The sum of p * log2(p) over the first n bins with a non-zero count,
      p being the bin's share of the total. */
  function PLogP(cv: Cv, h: seq<int>, total: int, n: nat): real
    requires n <= |h|
  {
    if n == 0 then 0.0
    else
      var p := if total > 0 then h[n - 1] as real / total as real else 0.0;
      PLogP(cv, h, total, n - 1) + (if h[n - 1] > 0 then p * cv.log2(p) else 0.0)
  }

  /** _calculate_entropy on the pixels under the mask: 0 when there are
      none, else -sum p log2 p over the occupied bins of the 256-bin histogram. */
  function Entropy(cv: Cv, pixels: seq<int>): real
  {
    if |pixels| == 0 then 0.0
    else
      var h := HistogramOf(pixels);
      -PLogP(cv, h, Sum(h), 256)
  }

  /** log2 is 0 at 1 and not positive on (0, 1]. */
  ghost predicate Log2Sound(cv: Cv)
  {
    cv.log2(1.0) == 0.0 && forall p: real {:trigger cv.log2(p)} :: 0.0 < p <= 1.0 ==> cv.log2(p) <= 0.0
  }

  lemma {:induction false} SumAtLeastEach(h: seq<int>, n: nat, v: nat)
    requires forall i :: 0 <= i < |h| ==> h[i] >= 0
    requires v < n <= |h|
    ensures h[v] <= Sum(h[..n])
  {
    assert h[..n][..n - 1] == h[..n - 1];
    if v < n - 1 {
      SumAtLeastEach(h, n - 1, v);
      SumNonNegative(h[..n - 1]);
    } else {
      SumNonNegative(h[..n - 1]);
    }
  }

  lemma {:induction false} SumNonNegative(h: seq<int>)
    requires forall i :: 0 <= i < |h| ==> h[i] >= 0
    ensures Sum(h) >= 0
  {
    if h != [] {
      SumNonNegative(h[..|h| - 1]);
    }
  }

  lemma {:induction false} PLogPNonPositive(cv: Cv, h: seq<int>, total: int, n: nat)
    requires Log2Sound(cv) && n <= |h|
    requires forall i :: 0 <= i < |h| ==> 0 <= h[i] <= total
    ensures PLogP(cv, h, total, n) <= 0.0
  {
    if n > 0 {
      PLogPNonPositive(cv, h, total, n - 1);
      if h[n - 1] > 0 && total > 0 {
        var p := h[n - 1] as real / total as real;
        assert 0.0 < p <= 1.0;
        assert cv.log2(p) <= 0.0;
        assert p * cv.log2(p) <= 0.0;
      }
    }
  }

  /** The entropy is never negative. */
  lemma EntropyNonNegative(cv: Cv, pixels: seq<int>)
    requires Log2Sound(cv)
    ensures Entropy(cv, pixels) >= 0.0
  {
    if |pixels| > 0 {
      var h := HistogramOf(pixels);
      forall v | 0 <= v < 256
        ensures h[v] <= Sum(h)
      {
        SumAtLeastEach(h, 256, v);
        assert h[..256] == h;
      }
      PLogPNonPositive(cv, h, Sum(h), 256);
    }
  }

  lemma {:induction false} CountOfConstant(s: seq<int>, v: int, u: int)
    requires forall i :: 0 <= i < |s| ==> s[i] == v
    ensures Count(s, u) == if u == v then |s| else 0
  {
    if s != [] {
      CountOfConstant(s[..|s| - 1], v, u);
    }
  }

  lemma {:induction false} PLogPSingleBin(cv: Cv, h: seq<int>, total: int, n: nat, v: nat)
    requires n <= |h| && v < |h| && total > 0 && h[v] == total
    requires cv.log2(1.0) == 0.0
    requires forall i :: 0 <= i < |h| && i != v ==> h[i] == 0
    ensures PLogP(cv, h, total, n) == 0.0
  {
    if n > 0 {
      PLogPSingleBin(cv, h, total, n - 1, v);
      if n - 1 == v {
        assert h[n - 1] as real / total as real == 1.0;
      }
    }
  }

  /** A region of one intensity carries no information: entropy 0. */
  lemma SingleLevelEntropy(cv: Cv, pixels: seq<int>, v: int)
    requires |pixels| > 0 && IsByte(v) && cv.log2(1.0) == 0.0
    requires forall i :: 0 <= i < |pixels| ==> pixels[i] == v
    ensures Entropy(cv, pixels) == 0.0
  {
    var h := HistogramOf(pixels);
    forall u | 0 <= u < 256
      ensures h[u] == if u == v then |pixels| else 0
    {
      CountOfConstant(pixels, v, u);
    }
    assert AllBytes(pixels);
    HistogramTotal(pixels);
    PLogPSingleBin(cv, h, Sum(h), 256, v);
  }

  // ---------------------------------------------------------------------
  // Energy
  // ---------------------------------------------------------------------

  /** np.sum(gray[mask > 0] ** 2) as written: the square is taken on uint8
      samples and wraps modulo 256 before the sum. */
  function EnergyAsWritten(pixels: seq<int>): int
  {
    if pixels == [] then 0
    else EnergyAsWritten(pixels[..|pixels| - 1]) + (pixels[|pixels| - 1] * pixels[|pixels| - 1]) % 256
  }

  /** The sum of squared intensities, the texture energy the code means. */
  function Energy(pixels: seq<int>): int
  {
    if pixels == [] then 0
    else Energy(pixels[..|pixels| - 1]) + pixels[|pixels| - 1] * pixels[|pixels| - 1]
  }

  /** A single pixel of intensity 16 has energy 256, but the uint8 square
      wraps to 0. */
  lemma EnergyWrapsAt16()
    ensures EnergyAsWritten([16]) == 0
    ensures Energy([16]) == 256
  {
    assert [16][..0] == [];
  }

  /** The two agree while every intensity is at most 15. */
  lemma {:induction false} EnergyAgreesBelow16(pixels: seq<int>)
    requires forall i :: 0 <= i < |pixels| ==> 0 <= pixels[i] <= 15
    ensures EnergyAsWritten(pixels) == Energy(pixels)
  {
    if pixels != [] {
      EnergyAgreesBelow16(pixels[..|pixels| - 1]);
      var p := pixels[|pixels| - 1];
      assert p * p <= 225;
    }
  }

  /** The energy bounds every pixel's square, and is 0 exactly for an all-black region. */
  lemma {:induction false} EnergyFacts(pixels: seq<int>)
    ensures Energy(pixels) >= 0
    ensures forall i :: 0 <= i < |pixels| ==> Energy(pixels) >= pixels[i] * pixels[i]
    ensures Energy(pixels) == 0 <==> forall i :: 0 <= i < |pixels| ==> pixels[i] == 0
  {
    if pixels != [] {
      var init := pixels[..|pixels| - 1];
      EnergyFacts(init);
      assert forall i :: 0 <= i < |init| ==> pixels[i] == init[i];
    }
  }

  // ---------------------------------------------------------------------
  // The descriptor loop
  // ---------------------------------------------------------------------

  datatype ShapeFeatures = ShapeFeatures(contourId: nat, area: real, perimeter: real,
                                         aspectRatio: real, solidity: real, huMoments: seq<real>)

  datatype TextureFeatures = TextureFeatures(contourId: nat, meanIntensity: real, stdIntensity: real,
                                             energy: int, entropy: real)

  datatype StatisticalFeatures = StatisticalFeatures(contourId: nat, mean: real, std: real, min: int, max: int,
                                                     median: real, skewness: real, kurtosis: real)

  datatype Descriptors = Descriptors(shape: seq<ShapeFeatures>, texture: seq<TextureFeatures>,
                                     statistical: seq<StatisticalFeatures>)

  /** Contours with an area below this are skipped. */
  const MinRegionArea: real := 100.0

  /** area / hull_area, or 0 when the hull has no area. */
  function Solidity(area: real, hullArea: real): (s: real)
    ensures hullArea <= 0.0 ==> s == 0.0
    ensures hullArea > 0.0 ==> s * hullArea == area
  {
    if hullArea > 0.0 then area / hullArea else 0.0
  }

  /** The two gates a contour must pass to be described. */
  predicate PassesGates(cv: Cv, c: Contour)
  {
    cv.contourArea(c) >= MinRegionArea && cv.arcLength(c) != 0.0
  }

  function ShapeOf(cv: Cv, c: Contour, i: nat): ShapeFeatures
    requires cv.boundingRect(c).h != 0
  {
    var rect := cv.boundingRect(c);
    ShapeFeatures(i, cv.contourArea(c), cv.arcLength(c), rect.w as real / rect.h as real,
                  Solidity(cv.contourArea(c), cv.hullArea(c)), cv.huMoments(c))
  }

  function TextureOf(cv: Cv, gray: Plane, c: Contour, i: nat): TextureFeatures
  {
    var pixels := cv.maskPixels(gray, c);
    TextureFeatures(i, cv.maskedMean(gray, c), cv.maskedStd(gray, c), Energy(pixels), Entropy(cv, pixels))
  }

  function StatisticsOf(cv: Cv, pixels: seq<int>, i: nat): StatisticalFeatures
    requires |pixels| > 0
  {
    StatisticalFeatures(i, Mean(pixels), cv.std(pixels), Min(pixels), Max(pixels), cv.median(pixels),
                        Skewness(cv, pixels), Kurtosis(cv, pixels))
  }

  /** The descriptors of the first n contours; None once a described
      contour has a zero-height bounding box (the aspect ratio divides by zero). */
  function Describe(cv: Cv, gray: Plane, contours: seq<Contour>, n: nat): Option<Descriptors>
    requires n <= |contours|
  {
    if n == 0 then Some(Descriptors([], [], []))
    else
      match Describe(cv, gray, contours, n - 1)
      case None => None
      case Some(d) =>
        var c := contours[n - 1];
        if !PassesGates(cv, c) then Some(d)
        else if cv.boundingRect(c).h == 0 then None
        else
          var pixels := cv.maskPixels(gray, c);
          Some(Descriptors(d.shape + [ShapeOf(cv, c, n - 1)], d.texture + [TextureOf(cv, gray, c, n - 1)],
                           if |pixels| > 0 then d.statistical + [StatisticsOf(cv, pixels, n - 1)] else d.statistical))
  }

  lemma {:induction false} FailureSticks(cv: Cv, gray: Plane, contours: seq<Contour>, i: nat, n: nat)
    requires i <= n <= |contours| && Describe(cv, gray, contours, i).None?
    ensures Describe(cv, gray, contours, n).None?
  {
    if n > i {
      FailureSticks(cv, gray, contours, i, n - 1);
    }
  }

  /** extract_region_descriptors: the contours of the grey image thresholded
      at 127 are visited in order, the gates skip a contour, and each
      described contour adds one shape and one texture record, and a
      statistical record when the filled contour covers any pixel. */
  method ExtractRegionDescriptors(cv: Cv, img: Option<Image>) returns (result: Option<Descriptors>)
    ensures img.None? ==> result.None?
    ensures img.Some? ==>
      var gray := cv.toGray(img.value);
      var contours := cv.findContours(cv.threshold(gray, 127));
      result == Describe(cv, gray, contours, |contours|)
  {
    if img.None? {
      return None;
    }
    var gray := cv.toGray(img.value);
    var contours := cv.findContours(cv.threshold(gray, 127));
    var shape: seq<ShapeFeatures> := [];
    var texture: seq<TextureFeatures> := [];
    var statistical: seq<StatisticalFeatures> := [];
    for i := 0 to |contours|
      invariant Describe(cv, gray, contours, i) == Some(Descriptors(shape, texture, statistical))
    {
      var contour := contours[i];
      if cv.contourArea(contour) < MinRegionArea {
        continue;
      }
      var area := cv.contourArea(contour);
      var perimeter := cv.arcLength(contour);
      if perimeter == 0.0 {
        continue;
      }
      var rect := cv.boundingRect(contour);
      if rect.h == 0 {
        FailureSticks(cv, gray, contours, i + 1, |contours|);
        return None;
      }
      var hullArea := cv.hullArea(contour);
      var solidity := if hullArea > 0.0 then area / hullArea else 0.0;
      shape := shape + [ShapeFeatures(i, area, perimeter, rect.w as real / rect.h as real, solidity, cv.huMoments(contour))];
      var pixels := cv.maskPixels(gray, contour);
      texture := texture + [TextureFeatures(i, cv.maskedMean(gray, contour), cv.maskedStd(gray, contour),
                                            Energy(pixels), Entropy(cv, pixels))];
      if |pixels| > 0 {
        statistical := statistical + [StatisticsOf(cv, pixels, i)];
      }
    }
    return Some(Descriptors(shape, texture, statistical));
  }

  /** Shape and texture records grow together, one per described contour,
      in contour order; statistical records are no more numerous and come
      only from described contours that cover pixels. */
  lemma {:induction false} DescriptorListsAligned(cv: Cv, gray: Plane, contours: seq<Contour>, n: nat)
    requires n <= |contours| && Describe(cv, gray, contours, n).Some?
    ensures var d := Describe(cv, gray, contours, n).value;
      && |d.statistical| <= |d.shape| == |d.texture|
      && (forall k :: 0 <= k < |d.shape| ==> d.texture[k].contourId == d.shape[k].contourId)
      && (forall k :: 0 <= k < |d.shape| ==> DescribedAt(cv, contours, d.shape[k].contourId, n))
      && (forall k :: 0 <= k < |d.statistical| ==>
            DescribedAt(cv, contours, d.statistical[k].contourId, n) &&
            |cv.maskPixels(gray, contours[d.statistical[k].contourId])| > 0)
  {
    if n > 0 {
      FailureSticksContra(cv, gray, contours, n);
      DescriptorListsAligned(cv, gray, contours, n - 1);
      var d := Describe(cv, gray, contours, n - 1).value;
      var c := contours[n - 1];
      if PassesGates(cv, c) {
        var e := Describe(cv, gray, contours, n).value;
        assert forall k :: 0 <= k < |d.shape| ==> e.shape[k] == d.shape[k] && e.texture[k] == d.texture[k];
        assert forall k :: 0 <= k < |d.statistical| ==> e.statistical[k] == d.statistical[k];
      }
    }
  }

  /** One step of Describe: a contour that fails a gate adds nothing; one
      that passes appends its records. */
  lemma DescribeStep(cv: Cv, gray: Plane, contours: seq<Contour>, n: nat)
    requires 0 < n <= |contours| && Describe(cv, gray, contours, n).Some?
    ensures Describe(cv, gray, contours, n - 1).Some?
    ensures var d, e, c := Describe(cv, gray, contours, n - 1).value, Describe(cv, gray, contours, n).value, contours[n - 1];
      && (!PassesGates(cv, c) ==> e == d)
      && (PassesGates(cv, c) ==>
            && cv.boundingRect(c).h != 0
            && e.shape == d.shape + [ShapeOf(cv, c, n - 1)]
            && e.texture == d.texture + [TextureOf(cv, gray, c, n - 1)]
            && e.statistical == d.statistical +
                 (if |cv.maskPixels(gray, c)| > 0 then [StatisticsOf(cv, cv.maskPixels(gray, c), n - 1)] else []))
  {
  }

  /** The converse of DescriptorListsAligned for shapes and textures: every
      contour before n that passes both gates has a shape and a texture record. */
  lemma {:induction false} DescriptorRecordsComplete(cv: Cv, gray: Plane, contours: seq<Contour>, n: nat, i: nat)
    requires i < n <= |contours| && Describe(cv, gray, contours, n).Some?
    requires PassesGates(cv, contours[i])
    ensures var d := Describe(cv, gray, contours, n).value;
      exists k :: 0 <= k < |d.shape| && k < |d.texture| && d.shape[k].contourId == i && d.texture[k].contourId == i
  {
    DescribeStep(cv, gray, contours, n);
    var d := Describe(cv, gray, contours, n - 1).value;
    var e := Describe(cv, gray, contours, n).value;
    if i == n - 1 {
      DescriptorListsAligned(cv, gray, contours, n - 1);
      assert e.shape[|d.shape|].contourId == i && e.texture[|d.shape|].contourId == i;
    } else {
      DescriptorRecordsComplete(cv, gray, contours, n - 1, i);
      var k :| 0 <= k < |d.shape| && k < |d.texture| && d.shape[k].contourId == i && d.texture[k].contourId == i;
      assert e.shape[k] == d.shape[k] && e.texture[k] == d.texture[k];
    }
  }

  /** ... and every such contour whose filled region covers any pixel has a
      statistical record. */
  lemma {:induction false} StatisticalRecordsComplete(cv: Cv, gray: Plane, contours: seq<Contour>, n: nat, i: nat)
    requires i < n <= |contours| && Describe(cv, gray, contours, n).Some?
    requires PassesGates(cv, contours[i]) && |cv.maskPixels(gray, contours[i])| > 0
    ensures var d := Describe(cv, gray, contours, n).value;
      exists k :: 0 <= k < |d.statistical| && d.statistical[k].contourId == i
  {
    DescribeStep(cv, gray, contours, n);
    var d := Describe(cv, gray, contours, n - 1).value;
    var e := Describe(cv, gray, contours, n).value;
    if i == n - 1 {
      assert e.statistical[|d.statistical|].contourId == i;
    } else {
      StatisticalRecordsComplete(cv, gray, contours, n - 1, i);
      var k :| 0 <= k < |d.statistical| && d.statistical[k].contourId == i;
      assert e.statistical[k] == d.statistical[k];
    }
  }

  /** Records come in contour order: the ids in the shape list and in the
      statistical list are below n and strictly increase. */
  lemma {:induction false} DescriptorRecordsOrdered(cv: Cv, gray: Plane, contours: seq<Contour>, n: nat)
    requires n <= |contours| && Describe(cv, gray, contours, n).Some?
    ensures var d := Describe(cv, gray, contours, n).value;
      && (forall k :: 0 <= k < |d.shape| ==> d.shape[k].contourId < n)
      && (forall k :: 0 <= k < |d.statistical| ==> d.statistical[k].contourId < n)
      && (forall j, k :: 0 <= j < k < |d.shape| ==> d.shape[j].contourId < d.shape[k].contourId)
      && (forall j, k :: 0 <= j < k < |d.statistical| ==> d.statistical[j].contourId < d.statistical[k].contourId)
  {
    if n > 0 {
      FailureSticksContra(cv, gray, contours, n);
      DescriptorRecordsOrdered(cv, gray, contours, n - 1);
      var d := Describe(cv, gray, contours, n - 1).value;
      var e := Describe(cv, gray, contours, n).value;
      if PassesGates(cv, contours[n - 1]) {
        assert forall k :: 0 <= k < |d.shape| ==> e.shape[k] == d.shape[k];
        assert forall k :: 0 <= k < |d.statistical| ==> e.statistical[k] == d.statistical[k];
      }
    }
  }

  /** Contour i, among the first n, passed both gates. */
  predicate DescribedAt(cv: Cv, contours: seq<Contour>, i: nat, n: nat)
  {
    i < n && i < |contours| && PassesGates(cv, contours[i])
  }

  lemma FailureSticksContra(cv: Cv, gray: Plane, contours: seq<Contour>, n: nat)
    requires 0 < n <= |contours| && Describe(cv, gray, contours, n).Some?
    ensures Describe(cv, gray, contours, n - 1).Some?
  {
  }
}
