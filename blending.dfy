/** The blending tool: gradient masks written into a zeroed height x width
    array, the advanced (linear, sigmoid, cosine) masks, point-wise custom
    masks, and the two-image composite img1 * (1 - m) + img2 * m. */
module Blending {
  import opened Raster
  import opened OpenCv

  // ---------------------------------------------------------------------
  // Gradient masks
  // ---------------------------------------------------------------------

  /** The ramp divides by width - 1, height - 1 or height + width - 2; with
      integer operands Python raises ZeroDivisionError at the first cell
      when that is 0. */
  predicate DividesByZero(height: nat, width: nat, direction: string)
  {
    || (direction == "horizontal" && width == 1)
    || (direction == "vertical" && height == 1)
    || (direction == "diagonal" && height == 1 && width == 1)
  }

  /** The mask value before the alpha scaling. */
  function Ramp(height: nat, width: nat, direction: string, r: nat, c: nat): real
    requires r < height && c < width && !DividesByZero(height, width, direction)
  {
    if direction == "horizontal" then c as real / (width - 1) as real
    else if direction == "vertical" then r as real / (height - 1) as real
    else if direction == "diagonal" then (r + c) as real / (height + width - 2) as real
    else 0.0
  }

  /** create_gradient_mask's value at (r, c). */
  function GradientValue(height: nat, width: nat, direction: string, alpha: real, r: nat, c: nat): real
    requires r < height && c < width && !DividesByZero(height, width, direction)
  {
    Ramp(height, width, direction, r, c) * alpha
  }

  /** The whole gradient mask as a plane. */
  function GradientPlane(height: nat, width: nat, direction: string, alpha: real): (m: RealPlane)
    requires !DividesByZero(height, width, direction)
    ensures IsGrid(m, height, width)
    ensures forall r, c :: 0 <= r < height && 0 <= c < width ==> m[r][c] == GradientValue(height, width, direction, alpha, r, c)
  {
    seq(height, r requires 0 <= r < height => seq(width, c requires 0 <= c < width => GradientValue(height, width, direction, alpha, r, c)))
  }

  /** Multiplies every cell by alpha (mask = mask * alpha). */
  method ScaleMask(m: array2<real>, alpha: real)
    modifies m
    ensures forall r, c :: 0 <= r < m.Length0 && 0 <= c < m.Length1 ==> m[r, c] == old(m[r, c]) * alpha
  {
    for i := 0 to m.Length0
      invariant forall r, c :: 0 <= r < m.Length0 && 0 <= c < m.Length1 ==>
        m[r, c] == if r < i then old(m[r, c]) * alpha else old(m[r, c])
    {
      for j := 0 to m.Length1
        invariant forall r, c :: 0 <= r < m.Length0 && 0 <= c < m.Length1 ==>
          m[r, c] == if r < i || (r == i && c < j) then old(m[r, c]) * alpha else old(m[r, c])
      {
        m[i, j] := m[i, j] * alpha;
      }
    }
  }

  /** Writes i / (width - 1) into every cell, column by column. */
  method FillHorizontal(m: array2<real>)
    requires m.Length1 != 1
    modifies m
    ensures forall r, c :: 0 <= r < m.Length0 && 0 <= c < m.Length1 ==>
      m[r, c] == Ramp(m.Length0, m.Length1, "horizontal", r, c)
  {
    for i := 0 to m.Length1
      invariant forall r, c :: 0 <= r < m.Length0 && 0 <= c < i ==>
        m[r, c] == Ramp(m.Length0, m.Length1, "horizontal", r, c)
    {
      for k := 0 to m.Length0
        invariant forall r, c :: 0 <= r < m.Length0 && 0 <= c < m.Length1 && (c < i || (c == i && r < k)) ==>
          m[r, c] == Ramp(m.Length0, m.Length1, "horizontal", r, c)
      {
        m[k, i] := i as real / (m.Length1 - 1) as real;
      }
    }
  }

  /** Writes i / (height - 1) into every cell, row by row. */
  method FillVertical(m: array2<real>)
    requires m.Length0 != 1
    modifies m
    ensures forall r, c :: 0 <= r < m.Length0 && 0 <= c < m.Length1 ==>
      m[r, c] == Ramp(m.Length0, m.Length1, "vertical", r, c)
  {
    for i := 0 to m.Length0
      invariant forall r, c :: 0 <= r < i && 0 <= c < m.Length1 ==>
        m[r, c] == Ramp(m.Length0, m.Length1, "vertical", r, c)
    {
      for k := 0 to m.Length1
        invariant forall r, c :: 0 <= r < m.Length0 && 0 <= c < m.Length1 && (r < i || (r == i && c < k)) ==>
          m[r, c] == Ramp(m.Length0, m.Length1, "vertical", r, c)
      {
        m[i, k] := i as real / (m.Length0 - 1) as real;
      }
    }
  }

  /** Writes (i + j) / (height + width - 2) into every cell, row by row. */
  method FillDiagonal(m: array2<real>)
    requires !(m.Length0 == 1 && m.Length1 == 1)
    modifies m
    ensures forall r, c :: 0 <= r < m.Length0 && 0 <= c < m.Length1 ==>
      m[r, c] == Ramp(m.Length0, m.Length1, "diagonal", r, c)
  {
    for i := 0 to m.Length0
      invariant forall r, c :: 0 <= r < i && 0 <= c < m.Length1 ==>
        m[r, c] == Ramp(m.Length0, m.Length1, "diagonal", r, c)
    {
      for j := 0 to m.Length1
        invariant forall r, c :: 0 <= r < m.Length0 && 0 <= c < m.Length1 && (r < i || (r == i && c < j)) ==>
          m[r, c] == Ramp(m.Length0, m.Length1, "diagonal", r, c)
      {
        m[i, j] := (i + j) as real / (m.Length0 + m.Length1 - 2) as real;
      }
    }
  }

  /** create_gradient_mask: a zeroed height x width mask filled column by
      column (horizontal), row by row (vertical) or cell by cell (diagonal),
      then scaled by alpha; null when the ramp divides by zero. An unknown
      direction leaves the zero mask. */
  method CreateGradientMask(height: nat, width: nat, direction: string, alpha: real) returns (mask: array2?<real>)
    ensures mask == null <==> DividesByZero(height, width, direction)
    ensures mask != null ==> fresh(mask) && mask.Length0 == height && mask.Length1 == width
    ensures mask != null ==> forall r, c :: 0 <= r < height && 0 <= c < width ==>
      mask[r, c] == GradientValue(height, width, direction, alpha, r, c)
  {
    if DividesByZero(height, width, direction) {
      return null;
    }
    var m := new real[height, width]((_, _) => 0.0);
    if direction == "horizontal" {
      FillHorizontal(m);
    } else if direction == "vertical" {
      FillVertical(m);
    } else if direction == "diagonal" {
      FillDiagonal(m);
    }
    ScaleMask(m, alpha);
    return m;
  }

  /** A ratio n / d with 0 <= n <= d lies in [0, 1]. */
  lemma RatioInUnit(n: nat, d: nat)
    requires n <= d && d > 0
    ensures 0.0 <= n as real / d as real <= 1.0
  {
    assert n as real / d as real <= d as real / d as real;
  }

  /** The ramp before scaling lies in [0, 1]. */
  lemma RampInUnit(height: nat, width: nat, direction: string, r: nat, c: nat)
    requires r < height && c < width && !DividesByZero(height, width, direction)
    ensures 0.0 <= Ramp(height, width, direction, r, c) <= 1.0
  {
    if direction == "horizontal" {
      RatioInUnit(c, width - 1);
    } else if direction == "vertical" {
      RatioInUnit(r, height - 1);
    } else if direction == "diagonal" {
      RatioInUnit(r + c, height + width - 2);
    }
  }

  /** For 0 <= alpha <= 1 every mask value lies in [0, alpha]. */
  lemma GradientValueRange(height: nat, width: nat, direction: string, alpha: real, r: nat, c: nat)
    requires r < height && c < width && !DividesByZero(height, width, direction)
    requires 0.0 <= alpha <= 1.0
    ensures 0.0 <= GradientValue(height, width, direction, alpha, r, c) <= alpha
  {
    var t := Ramp(height, width, direction, r, c);
    RampInUnit(height, width, direction, r, c);
    MulNonNegative(t, alpha);
    MulNonNegative(1.0 - t, alpha);
    assert (1.0 - t) * alpha == alpha - t * alpha;
  }

  /** The horizontal mask runs from 0 in the first column to alpha in the last. */
  lemma HorizontalEnds(height: nat, width: nat, alpha: real, r: nat)
    requires r < height && width >= 2
    ensures GradientValue(height, width, "horizontal", alpha, r, 0) == 0.0
    ensures GradientValue(height, width, "horizontal", alpha, r, width - 1) == alpha
  {
  }

  /** Horizontal values depend on the column only, vertical on the row only. */
  lemma RampAxes(height: nat, width: nat, alpha: real, r1: nat, r2: nat, c1: nat, c2: nat)
    requires r1 < height && r2 < height && c1 < width && c2 < width
    ensures width != 1 ==> GradientValue(height, width, "horizontal", alpha, r1, c1) == GradientValue(height, width, "horizontal", alpha, r2, c1)
    ensures height != 1 ==> GradientValue(height, width, "vertical", alpha, r1, c1) == GradientValue(height, width, "vertical", alpha, r1, c2)
  {
  }

  /** An unknown direction gives the zero mask. */
  lemma UnknownDirectionIsZero(height: nat, width: nat, direction: string, alpha: real, r: nat, c: nat)
    requires r < height && c < width
    requires direction != "horizontal" && direction != "vertical" && direction != "diagonal"
    ensures GradientValue(height, width, direction, alpha, r, c) == 0.0
  {
  }

  // ---------------------------------------------------------------------
  // Advanced masks
  // ---------------------------------------------------------------------

  /** The advanced ramp divides by width - 1 for every known type. */
  predicate AdvancedDividesByZero(width: nat, blendType: string)
  {
    width == 1 && (blendType == "linear" || blendType == "sigmoid" || blendType == "cosine")
  }

  /** _create_advanced_mask's value at column c before the alpha scaling.
      sigmoid(x) stands for 1 / (1 + np.exp(-x)) and cosPi(t) for
      np.cos(np.pi * t). */
  function AdvancedRamp(width: nat, blendType: string, sigmoid: real -> real, cosPi: real -> real, c: nat): real
    requires c < width && !AdvancedDividesByZero(width, blendType)
  {
    if blendType == "linear" then c as real / (width - 1) as real
    else if blendType == "sigmoid" then sigmoid((c as real / (width - 1) as real) * 10.0 - 5.0)
    else if blendType == "cosine" then (1.0 - cosPi(c as real / (width - 1) as real)) / 2.0
    else 0.0
  }

  /** _create_advanced_mask: every column filled with its ramp value, then
      scaled by alpha; null when the ramp divides by zero. */
  method CreateAdvancedMask(height: nat, width: nat, blendType: string, alpha: real,
                            sigmoid: real -> real, cosPi: real -> real) returns (mask: array2?<real>)
    ensures mask == null <==> AdvancedDividesByZero(width, blendType)
    ensures mask != null ==> fresh(mask) && mask.Length0 == height && mask.Length1 == width
    ensures mask != null ==> forall r, c :: 0 <= r < height && 0 <= c < width ==>
      mask[r, c] == AdvancedRamp(width, blendType, sigmoid, cosPi, c) * alpha
  {
    if AdvancedDividesByZero(width, blendType) {
      return null;
    }
    var m := new real[height, width]((_, _) => 0.0);
    if blendType == "linear" || blendType == "sigmoid" || blendType == "cosine" {
      for i := 0 to width
        invariant forall r, c :: 0 <= r < height && 0 <= c < width ==>
          m[r, c] == if c < i then AdvancedRamp(width, blendType, sigmoid, cosPi, c) else 0.0
      {
        var value := AdvancedRamp(width, blendType, sigmoid, cosPi, i);
        for k := 0 to height
          invariant forall r, c :: 0 <= r < height && 0 <= c < width ==>
            m[r, c] == if c < i || (c == i && r < k) then AdvancedRamp(width, blendType, sigmoid, cosPi, c) else 0.0
        {
          m[k, i] := value;
        }
      }
    }
    ScaleMask(m, alpha);
    return m;
  }

  /** The 'linear' advanced mask is the horizontal gradient mask. */
  lemma LinearIsHorizontal(height: nat, width: nat, alpha: real, sigmoid: real -> real, cosPi: real -> real, r: nat, c: nat)
    requires r < height && c < width && width != 1
    ensures AdvancedRamp(width, "linear", sigmoid, cosPi, c) * alpha == GradientValue(height, width, "horizontal", alpha, r, c)
  {
  }

  // ---------------------------------------------------------------------
  // Custom masks
  // ---------------------------------------------------------------------

  /** Whether point p = (x, y, value) lies on the mask and lands on cell (r, c). */
  predicate Hits(p: (int, int, real), height: nat, width: nat, r: int, c: int)
  {
    0 <= p.0 < width && 0 <= p.1 < height && p.1 == r && p.0 == c
  }

  /** The value the first n points leave in cell (r, c): that of the last
      one landing there, or 0. */
  function LastWrite(points: seq<(int, int, real)>, n: nat, height: nat, width: nat, r: int, c: int): real
    requires n <= |points|
  {
    if n == 0 then 0.0
    else if Hits(points[n - 1], height, width, r, c) then points[n - 1].2
    else LastWrite(points, n - 1, height, width, r, c)
  }

  /** create_custom_mask: a zeroed mask, then every in-bounds point
      (x, y, value) written at mask[y][x]; the mask and the output path. */
  method CreateCustomMask(height: nat, width: nat, points: seq<(int, int, real)>,
                          outputPath: Option<string>, timestamp: string) returns (mask: array2<real>, path: string)
    ensures fresh(mask) && mask.Length0 == height && mask.Length1 == width
    ensures forall r, c :: 0 <= r < height && 0 <= c < width ==> mask[r, c] == LastWrite(points, |points|, height, width, r, c)
    ensures path == OutputPath(outputPath, "results/custom_mask_" + timestamp + ".jpg")
  {
    mask := new real[height, width]((_, _) => 0.0);
    for k := 0 to |points|
      invariant forall r, c :: 0 <= r < height && 0 <= c < width ==> mask[r, c] == LastWrite(points, k, height, width, r, c)
    {
      var (x, y, value) := points[k];
      if 0 <= x < width && 0 <= y < height {
        mask[y, x] := value;
      }
    }
    path := OutputPath(outputPath, "results/custom_mask_" + timestamp + ".jpg");
  }

  /** A cell no in-bounds point lands on stays 0. */
  lemma {:induction false} UntouchedCellsStayZero(points: seq<(int, int, real)>, n: nat, height: nat, width: nat, r: int, c: int)
    requires n <= |points|
    requires forall k :: 0 <= k < n ==> !Hits(points[k], height, width, r, c)
    ensures LastWrite(points, n, height, width, r, c) == 0.0
  {
    if n > 0 {
      UntouchedCellsStayZero(points, n - 1, height, width, r, c);
    }
  }

  /** The cell holds the value of the last point landing on it. */
  lemma {:induction false} LastPointWins(points: seq<(int, int, real)>, n: nat, height: nat, width: nat, r: int, c: int, k: nat)
    requires k < n <= |points| && Hits(points[k], height, width, r, c)
    requires forall j :: k < j < n ==> !Hits(points[j], height, width, r, c)
    ensures LastWrite(points, n, height, width, r, c) == points[k].2
  {
    if n - 1 > k {
      LastPointWins(points, n - 1, height, width, r, c, k);
    }
  }

  /** Points off the mask change nothing. */
  lemma {:induction false} OffMaskPointsIgnored(points: seq<(int, int, real)>, p: (int, int, real), height: nat, width: nat, r: int, c: int)
    requires !(0 <= p.0 < width && 0 <= p.1 < height)
    ensures LastWrite(points + [p], |points| + 1, height, width, r, c) == LastWrite(points, |points|, height, width, r, c)
  {
    SameWritesOnPrefix(points, [p], |points|, height, width, r, c);
  }

  lemma {:induction false} SameWritesOnPrefix(points: seq<(int, int, real)>, more: seq<(int, int, real)>, n: nat, height: nat, width: nat, r: int, c: int)
    requires n <= |points|
    ensures LastWrite(points + more, n, height, width, r, c) == LastWrite(points, n, height, width, r, c)
  {
    if n > 0 {
      assert (points + more)[n - 1] == points[n - 1];
      SameWritesOnPrefix(points, more, n - 1, height, width, r, c);
    }
  }

  // ---------------------------------------------------------------------
  // Compositing
  // ---------------------------------------------------------------------

  function WeightAt(m: RealPlane, r: nat, c: nat): real
  {
    if r < |m| && c < |m[r]| then m[r][c] else 0.0
  }

  /** a * (1 - m) + b * m */
  function Mix(a: real, b: real, m: real): real
  {
    a * (1.0 - m) + b * m
  }

  /** One blended sample: x1 * (1 - m) + x2 * m, clipped to [0, 255] and truncated. */
  function BlendSample(x1: int, x2: int, m: real): int
  {
    ToByte(Mix(x1 as real, x2 as real, m))
  }

  function BlendPlane(p1: Plane, p2: Plane, m: RealPlane, height: nat, width: nat): (q: Plane)
    ensures IsBytePlane(q, height, width)
  {
    seq(height, r requires 0 <= r < height => seq(width, c requires 0 <= c < width =>
      BlendSample(SampleAt(p1, r, c), SampleAt(p2, r, c), WeightAt(m, r, c))))
  }

  /** The mask replicated over B, G and R, applied to two images of the
      same size; the result has the first image's size. */
  function Composite(img1: Image, img2: Image, m: RealPlane): (out: Image)
    ensures out.height == img1.height && out.width == img1.width
    ensures img1.height > 0 && img1.width > 0 ==> out.Valid()
  {
    var h, w := img1.height, img1.width;
    Image(h, w, BlendPlane(img1.b, img2.b, m, h, w), BlendPlane(img1.g, img2.g, m, h, w), BlendPlane(img1.r, img2.r, m, h, w))
  }

  function Min(a: nat, b: nat): nat
  {
    if a <= b then a else b
  }

  /** The blend of blend_images: both images resized to the smaller height
      and the smaller width, then composited under the gradient mask. */
  function BlendedImage(cv: Cv, img1: Image, img2: Image, direction: string, alpha: real): Image
    requires !DividesByZero(Min(img1.height, img2.height), Min(img1.width, img2.width), direction)
  {
    var th, tw := Min(img1.height, img2.height), Min(img1.width, img2.width);
    Composite(cv.resize(img1, th, tw), cv.resize(img2, th, tw), GradientPlane(th, tw, direction, alpha))
  }

  /** The contents of a 2-D mask array as rows of weights. */
  function PlaneOf(m: array2<real>): (p: RealPlane)
    reads m
    ensures IsGrid(p, m.Length0, m.Length1)
    ensures forall r, c :: 0 <= r < m.Length0 && 0 <= c < m.Length1 ==> p[r][c] == m[r, c]
  {
    seq(m.Length0, r requires 0 <= r < m.Length0 reads m =>
      seq(m.Length1, c requires 0 <= c < m.Length1 reads m => m[r, c]))
  }

  /** blend_images; None when an image did not load or the mask divides by zero. */
  method BlendImages(cv: Cv, img1: Option<Image>, img2: Option<Image>, direction: string, alpha: real,
                     outputPath: Option<string>, timestamp: string) returns (result: Option<Saved>)
    ensures result.None? <==>
      img1.None? || img2.None? ||
      DividesByZero(Min(img1.value.height, img2.value.height), Min(img1.value.width, img2.value.width), direction)
    ensures result.Some? ==>
      result.value.path == OutputPath(outputPath, DefaultPath("blended_images", "blended_" + direction, timestamp)) &&
      result.value.image == BlendedImage(cv, img1.value, img2.value, direction, alpha)
  {
    if img1.None? || img2.None? {
      return None;
    }
    var a, b := img1.value, img2.value;
    var targetHeight := Min(a.height, b.height);
    var targetWidth := Min(a.width, b.width);
    var r1 := cv.resize(a, targetHeight, targetWidth);
    var r2 := cv.resize(b, targetHeight, targetWidth);
    var mask := CreateGradientMask(targetHeight, targetWidth, direction, alpha);
    if mask == null {
      return None;
    }
    var weights := PlaneOf(mask);
    var gradient := GradientPlane(targetHeight, targetWidth, direction, alpha);
    assert forall r :: 0 <= r < targetHeight ==> weights[r] == gradient[r];
    assert weights == gradient;
    var blended := Composite(r1, r2, weights);
    var path := OutputPath(outputPath, DefaultPath("blended_images", "blended_" + direction, timestamp));
    return Some(Saved(path, blended));
  }

  /** The blend has the smaller height and the smaller width, and 8-bit samples. */
  lemma BlendedSize(cv: Cv, img1: Image, img2: Image, direction: string, alpha: real)
    requires ResizeSound(cv) && img1.Valid() && img2.Valid()
    requires !DividesByZero(Min(img1.height, img2.height), Min(img1.width, img2.width), direction)
    ensures var out := BlendedImage(cv, img1, img2, direction, alpha);
      out.height == Min(img1.height, img2.height) && out.width == Min(img1.width, img2.width) && out.Valid()
  {
    var th, tw := Min(img1.height, img2.height), Min(img1.width, img2.width);
    assert cv.resize(img1, th, tw).height == th && cv.resize(img1, th, tw).width == tw;
  }

  /** A blended sample lies between the two input samples when the weight
      is in [0, 1], so the clip never changes it and the result is the
      blend truncated. */
  lemma BlendSampleBetween(x1: int, x2: int, m: real)
    requires IsByte(x1) && IsByte(x2) && 0.0 <= m <= 1.0
    ensures var v := Mix(x1 as real, x2 as real, m);
      && (x1 <= x2 ==> x1 as real <= v <= x2 as real)
      && (x2 <= x1 ==> x2 as real <= v <= x1 as real)
      && BlendSample(x1, x2, m) == v.Floor
  {
    WeightedBetween(x1 as real, x2 as real, m);
    var v := Mix(x1 as real, x2 as real, m);
    assert 0.0 <= v <= 255.0;
  }

  /** Mix(a, b, m) lies between a and b for a weight m in [0, 1]. */
  lemma WeightedBetween(a: real, b: real, m: real)
    requires 0.0 <= m <= 1.0
    ensures a <= b ==> a <= Mix(a, b, m) <= b
    ensures b <= a ==> b <= Mix(a, b, m) <= a
  {
    var v := a * (1.0 - m) + b * m;
    assert v == a + (b - a) * m;
    assert v == b + (a - b) * (1.0 - m);
    if a <= b {
      MulNonNegative(b - a, m);
      MulNonNegative(b - a, 1.0 - m);
    } else {
      MulNonNegative(a - b, m);
      MulNonNegative(a - b, 1.0 - m);
    }
  }

  lemma MulNonNegative(x: real, y: real)
    requires x >= 0.0 && y >= 0.0
    ensures x * y >= 0.0
  {
  }

  /** With weight 0 a sample is the first image's. */
  lemma BlendSampleWeightZero(x1: int, x2: int)
    requires IsByte(x1)
    ensures BlendSample(x1, x2, 0.0) == x1
  {
    ToByteOfByte(x1);
  }

  /** With alpha 0 the blend is the first image at the common size. */
  lemma AlphaZeroKeepsFirstImage(cv: Cv, img1: Image, img2: Image, direction: string)
    requires ResizeSound(cv) && img1.Valid() && img2.Valid()
    requires !DividesByZero(Min(img1.height, img2.height), Min(img1.width, img2.width), direction)
    ensures BlendedImage(cv, img1, img2, direction, 0.0) == cv.resize(img1, Min(img1.height, img2.height), Min(img1.width, img2.width))
  {
    var th, tw := Min(img1.height, img2.height), Min(img1.width, img2.width);
    var r1 := cv.resize(img1, th, tw);
    var m := GradientPlane(th, tw, direction, 0.0);
    assert r1.Valid();
    PlaneUnchangedAtZero(r1.b, cv.resize(img2, th, tw).b, m, th, tw);
    PlaneUnchangedAtZero(r1.g, cv.resize(img2, th, tw).g, m, th, tw);
    PlaneUnchangedAtZero(r1.r, cv.resize(img2, th, tw).r, m, th, tw);
  }

  lemma PlaneUnchangedAtZero(p1: Plane, p2: Plane, m: RealPlane, height: nat, width: nat)
    requires IsBytePlane(p1, height, width) && IsGrid(m, height, width)
    requires forall r, c :: 0 <= r < height && 0 <= c < width ==> m[r][c] == 0.0
    ensures BlendPlane(p1, p2, m, height, width) == p1
  {
    var q := BlendPlane(p1, p2, m, height, width);
    forall r | 0 <= r < height
      ensures q[r] == p1[r]
    {
      forall c | 0 <= c < width
        ensures q[r][c] == p1[r][c]
      {
        BlendSampleWeightZero(p1[r][c], SampleAt(p2, r, c));
      }
    }
  }
}
