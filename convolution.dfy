/** apply_convolution_filter and its kernel table: six named kernels, the
    odd kernel-size rule, and which filters run per colour channel and which
    on the grey image. */
module Convolution {
  import opened Raster
  import opened OpenCv

  const FilterNames: seq<string> := ["gaussian", "sobel_x", "sobel_y", "laplacian", "sharpen", "edge_detect"]

  /** The filters filter2D applies to all three colour channels directly. */
  const ColourFilters: seq<string> := ["gaussian", "sharpen", "edge_detect"]

  /** "Ensure kernel size is odd": an even size is incremented, an odd one kept. */
  function OddKernelSize(k: int): (r: int)
    ensures r % 2 == 1
    ensures r == k || r == k + 1
  {
    if k % 2 == 0 then k + 1 else k
  }

  /** An even size and the odd size after it select the same kernel size. */
  lemma EvenSizeActsAsNextOdd(k: int)
    requires k % 2 == 0
    ensures OddKernelSize(k) == OddKernelSize(k + 1) == k + 1
  {
  }

  const SobelX: Kernel := [[-1.0, 0.0, 1.0], [-2.0, 0.0, 2.0], [-1.0, 0.0, 1.0]]
  const SobelY: Kernel := [[-1.0, -2.0, -1.0], [0.0, 0.0, 0.0], [1.0, 2.0, 1.0]]
  const Laplacian: Kernel := [[0.0, -1.0, 0.0], [-1.0, 4.0, -1.0], [0.0, -1.0, 0.0]]
  const Sharpen: Kernel := [[0.0, -1.0, 0.0], [-1.0, 5.0, -1.0], [0.0, -1.0, 0.0]]
  const EdgeDetect: Kernel := [[-1.0, -1.0, -1.0], [-1.0, 8.0, -1.0], [-1.0, -1.0, -1.0]]

  /** np.outer(v, v). */
  function Outer(v: seq<real>): (m: Kernel)
    ensures IsGrid(m, |v|, |v|)
  {
    seq(|v|, i requires 0 <= i < |v| => seq(|v|, j requires 0 <= j < |v| => v[i] * v[j]))
  }

  /** _get_convolution_kernels: the Gaussian kernel is the outer product of
      cv2.getGaussianKernel(k, 0) with itself; the other five are fixed. */
  function KernelTable(cv: Cv, k: int): map<string, Kernel>
  {
    map["gaussian" := Outer(cv.gaussianKernel(k)), "sobel_x" := SobelX, "sobel_y" := SobelY,
        "laplacian" := Laplacian, "sharpen" := Sharpen, "edge_detect" := EdgeDetect]
  }

  function Transpose(m: Kernel): Kernel
    requires IsGrid(m, |m|, |m|)
  {
    seq(|m|, i requires 0 <= i < |m| => seq(|m|, j requires 0 <= j < |m| => m[j][i]))
  }

  function RowSum(row: seq<real>): real
  {
    if row == [] then 0.0 else RowSum(row[..|row| - 1]) + row[|row| - 1]
  }

  function KernelSum(m: Kernel): real
  {
    if m == [] then 0.0 else KernelSum(m[..|m| - 1]) + RowSum(m[|m| - 1])
  }

  lemma RowSumOfThree(row: seq<real>)
    requires |row| == 3
    ensures RowSum(row) == row[0] + row[1] + row[2]
  {
    assert row[..2][..1] == row[..1] && row[..1][..0] == [];
    assert RowSum(row[..1]) == row[0];
    assert RowSum(row[..2]) == row[0] + row[1];
  }

  lemma KernelSumOfThree(m: Kernel)
    requires IsGrid(m, 3, 3)
    ensures KernelSum(m) == RowSum(m[0]) + RowSum(m[1]) + RowSum(m[2])
  {
    assert m[..2][..1] == m[..1] && m[..1][..0] == [];
    assert KernelSum(m[..1]) == RowSum(m[0]);
    assert KernelSum(m[..2]) == RowSum(m[0]) + RowSum(m[1]);
  }

  /** The kernel table holds exactly the six filter names, and only the
      Gaussian entry depends on the kernel size. */
  lemma KernelTableShape(cv: Cv, k1: int, k2: int)
    ensures KernelTable(cv, k1).Keys == set f | f in FilterNames
    ensures forall f :: f in FilterNames && f != "gaussian" ==> KernelTable(cv, k1)[f] == KernelTable(cv, k2)[f]
  {
  }

  /** The fixed kernels: sobel_y is sobel_x transposed, sharpen is the
      Laplacian plus one at the centre, the four edge kernels sum to 0 and
      sharpen sums to 1. */
  lemma FixedKernelFacts()
    ensures SobelY == Transpose(SobelX)
    ensures forall i, j :: 0 <= i < 3 && 0 <= j < 3 ==>
      Sharpen[i][j] == Laplacian[i][j] + (if i == 1 && j == 1 then 1.0 else 0.0)
    ensures KernelSum(SobelX) == 0.0 && KernelSum(SobelY) == 0.0
    ensures KernelSum(Laplacian) == 0.0 && KernelSum(EdgeDetect) == 0.0
    ensures KernelSum(Sharpen) == 1.0
  {
    forall i | 0 <= i < 3
      ensures Transpose(SobelX)[i] == SobelY[i]
    {
      assert forall j :: 0 <= j < 3 ==> Transpose(SobelX)[i][j] == SobelX[j][i];
    }
    var fixed := [SobelX, SobelY, Laplacian, Sharpen, EdgeDetect];
    forall m | m in fixed
      ensures KernelSum(m) == m[0][0] + m[0][1] + m[0][2] + m[1][0] + m[1][1] + m[1][2] + m[2][0] + m[2][1] + m[2][2]
    {
      KernelSumOfThree(m);
      RowSumOfThree(m[0]);
      RowSumOfThree(m[1]);
      RowSumOfThree(m[2]);
    }
  }

  /** The Gaussian kernel is a square, symmetric k x k matrix when
      getGaussianKernel returns its k weights. */
  lemma GaussianKernelSymmetric(cv: Cv, k: int)
    requires |cv.gaussianKernel(k)| == k
    ensures var m := KernelTable(cv, k)["gaussian"]; IsGrid(m, k, k) && Transpose(m) == m
  {
    var v := cv.gaussianKernel(k);
    var m := Outer(v);
    forall i | 0 <= i < k
      ensures Transpose(m)[i] == m[i]
    {
      assert forall j :: 0 <= j < k ==> Transpose(m)[i][j] == v[j] * v[i] == m[i][j];
    }
  }

  /** How apply_convolution_filter runs a kernel: filter2D on each colour
      channel for gaussian, sharpen and edge_detect; otherwise on the grey
      image, and the result copied back into three channels. */
  function Convolve(cv: Cv, img: Image, filterType: string, kernel: Kernel): Image
  {
    if filterType in ColourFilters then
      Image(img.height, img.width, cv.filter2D(img.b, kernel), cv.filter2D(img.g, kernel), cv.filter2D(img.r, kernel))
    else
      GrayToBgr(cv.filter2D(cv.toGray(img), kernel))
  }

  /** apply_convolution_filter. The image is the decoded input (None when
      cv2.imread failed); an unknown filter name raises and yields None. */
  method ApplyConvolutionFilter(cv: Cv, img: Option<Image>, filterType: string, kernelSize: int,
                                outputPath: Option<string>, timestamp: string) returns (result: Option<Saved>)
    ensures result.None? <==> img.None? || filterType !in FilterNames
    ensures result.Some? ==>
      result.value.path == OutputPath(outputPath, DefaultPath("results", "convolution_" + filterType, timestamp))
    ensures result.Some? ==>
      result.value.image == Convolve(cv, img.value, filterType, KernelTable(cv, OddKernelSize(kernelSize))[filterType])
  {
    if img.None? {
      return None;
    }
    var size := kernelSize;
    if size % 2 == 0 {
      size := size + 1;
    }
    var kernels := KernelTable(cv, size);
    if filterType !in kernels {
      return None;
    }
    var filtered := Convolve(cv, img.value, filterType, kernels[filterType]);
    var path := OutputPath(outputPath, DefaultPath("results", "convolution_" + filterType, timestamp));
    return Some(Saved(path, filtered));
  }

  /** Every filter keeps the image's height and width and 8-bit samples, and
      the grey filters give three identical channels. */
  lemma ConvolvePreservesShape(cv: Cv, img: Image, filterType: string, kernel: Kernel)
    requires ShapeSound(cv) && img.Valid()
    ensures var out := Convolve(cv, img, filterType, kernel);
      out.Valid() && out.height == img.height && out.width == img.width &&
      (filterType !in ColourFilters ==> out.b == out.g == out.r)
  {
    assert IsGrid(img.b, img.height, img.width) && IsGrid(img.g, img.height, img.width) && IsGrid(img.r, img.height, img.width);
    if filterType !in ColourFilters {
      var gray := cv.toGray(img);
      assert IsBytePlane(gray, img.height, img.width);
      assert IsGrid(gray, img.height, img.width);
      var f := cv.filter2D(gray, kernel);
      assert IsBytePlane(f, img.height, img.width);
      assert |f[0]| == img.width;
    }
  }
}
