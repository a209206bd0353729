/** The OpenCV and numpy primitives the tools call, as opaque collaborators.
    Each field of Cv stands for one library routine; the model never looks
    inside them and proves only the tools' own logic around them. */
module OpenCv {
  import opened Raster

  datatype Complex = Complex(re: real, im: real)

  /** A complex plane (numpy fft2 output, or the two-channel cv2.dft output). */
  type Spectrum = seq<seq<Complex>>

  /** A contour as cv2.findContours returns it: its boundary points (x, y). */
  datatype Contour = Contour(points: seq<(int, int)>)

  /** cv2.boundingRect: x, y, width, height. */
  datatype Rect = Rect(x: int, y: int, w: int, h: int)

  /** A square floating-point convolution kernel, row-major. */
  type Kernel = seq<seq<real>>

  datatype Cv = Cv(
    toGray: Image -> Plane,                  // cvtColor(img, COLOR_BGR2GRAY)
    filter2D: (Plane, Kernel) -> Plane,      // filter2D(channel, -1, kernel), one channel
    gaussianKernel: int -> seq<real>,        // getGaussianKernel(k, 0), a k x 1 column
    canny: (Plane, int, int) -> Plane,       // Canny(gray, low, high)
    threshold: (Plane, int) -> Plane,        // threshold(gray, t, 255, THRESH_BINARY)
    otsu: Plane -> Plane,                    // threshold(gray, 0, 255, THRESH_BINARY + THRESH_OTSU)
    adaptiveGaussian: (Plane, int, int) -> Plane, // adaptiveThreshold(gray, 255, GAUSSIAN_C, BINARY, block, c)
    resize: (Image, nat, nat) -> Image,      // resize(img, (width, height)); arguments here are (img, height, width)
    findContours: Plane -> seq<Contour>,     // findContours(thresh, RETR_EXTERNAL, CHAIN_APPROX_SIMPLE)
    contourArea: Contour -> real,
    arcLength: Contour -> real,              // arcLength(contour, True)
    huMoments: Contour -> seq<real>,         // HuMoments(moments(contour)).flatten()
    boundingRect: Contour -> Rect,
    hullArea: Contour -> real,               // contourArea(convexHull(contour))
    maskPixels: (Plane, Contour) -> seq<int>, // gray[mask > 0] for the filled contour mask
    maskedMean: (Plane, Contour) -> real,    // cv2.mean(gray, mask)[0]
    maskedStd: (Plane, Contour) -> real,     // cv2.meanStdDev(gray, mask)[1][0][0]
    std: seq<int> -> real,                   // np.std (population standard deviation)
    median: seq<int> -> real,                // np.median
    log2: real -> real,                      // np.log2
    centredDft: Plane -> Spectrum,           // fftshift(dft(float32(gray), DFT_COMPLEX_OUTPUT))
    magnitudeImage: Spectrum -> Plane,       // ifftshift, idft, magnitude, normalize to 8 bits
    fft2: RealPlane -> Spectrum,             // np.fft.fft2
    ifft2: Spectrum -> Spectrum              // np.fft.ifft2
  )

  /** cv2.resize returns exactly the requested size, and 8-bit samples for a non-empty size. */
  ghost predicate ResizeSound(cv: Cv)
  {
    forall img: Image, h: nat, w: nat {:trigger cv.resize(img, h, w)} ::
      cv.resize(img, h, w).height == h && cv.resize(img, h, w).width == w &&
      (img.Valid() && h > 0 && w > 0 ==> cv.resize(img, h, w).Valid())
  }

  /** Greyscale conversion and single-channel filtering keep the spatial size. */
  ghost predicate ShapeSound(cv: Cv)
  {
    && (forall img: Image {:trigger cv.toGray(img)} ::
          img.Valid() ==> IsBytePlane(cv.toGray(img), img.height, img.width))
    && (forall p: Plane, k: Kernel, h: nat, w: nat {:trigger cv.filter2D(p, k), IsGrid(p, h, w)} ::
          IsBytePlane(p, h, w) ==> IsBytePlane(cv.filter2D(p, k), h, w))
  }

  /** Canny returns an edge map of 8-bit samples (0 or 255). */
  ghost predicate CannySound(cv: Cv)
  {
    forall p: Plane, low: int, high: int {:trigger cv.canny(p, low, high)} ::
      forall r, c :: 0 <= r < |cv.canny(p, low, high)| && 0 <= c < |cv.canny(p, low, high)[r]| ==>
        IsByte(cv.canny(p, low, high)[r][c])
  }

  /** Pointwise complex arithmetic. */
  function CAdd(x: Complex, y: Complex): Complex
  {
    Complex(x.re + y.re, x.im + y.im)
  }

  function CScale(k: real, x: Complex): Complex
  {
    Complex(k * x.re, k * x.im)
  }

  /** a + k*b on real planes, read at a's shape (a sample b does not have counts as 0). */
  function Combine(a: RealPlane, k: real, b: RealPlane): (s: RealPlane)
    ensures |s| == |a| && forall r :: 0 <= r < |a| ==> |s[r]| == |a[r]|
  {
    seq(|a|, r requires 0 <= r < |a| =>
      seq(|a[r]|, c requires 0 <= c < |a[r]| =>
        a[r][c] + k * (if r < |b| && c < |b[r]| then b[r][c] else 0.0)))
  }

  /** x + k*y on complex planes, read at x's shape. */
  function SCombine(x: Spectrum, k: real, y: Spectrum): (s: Spectrum)
    ensures |s| == |x| && forall r :: 0 <= r < |x| ==> |s[r]| == |x[r]|
  {
    seq(|x|, r requires 0 <= r < |x| =>
      seq(|x[r]|, c requires 0 <= c < |x[r]| =>
        CAdd(x[r][c], CScale(k, if r < |y| && c < |y[r]| then y[r][c] else Complex(0.0, 0.0)))))
  }

  /** A real plane seen as a complex one with zero imaginary part. */
  function AsComplex(a: RealPlane): Spectrum
  {
    seq(|a|, r requires 0 <= r < |a| => seq(|a[r]|, c requires 0 <= c < |a[r]| => Complex(a[r][c], 0.0)))
  }

  /** np.real */
  function RealPart(x: Spectrum): RealPlane
  {
    seq(|x|, r requires 0 <= r < |x| => seq(|x[r]|, c requires 0 <= c < |x[r]| => x[r][c].re))
  }

  predicate SameShape<S, T>(a: seq<seq<S>>, b: seq<seq<T>>)
  {
    |a| == |b| && forall r :: 0 <= r < |a| ==> |a[r]| == |b[r]|
  }

  /** The two laws of the discrete Fourier transform pair the spectral
      watermark relies on: fft2 is linear over real planes of one shape,
      and ifft2 undoes it. */
  ghost predicate FourierLaws(cv: Cv)
  {
    && (forall a: RealPlane, k: real, b: RealPlane {:trigger cv.fft2(Combine(a, k, b))} ::
          SameShape(a, b) ==> cv.fft2(Combine(a, k, b)) == SCombine(cv.fft2(a), k, cv.fft2(b)))
    && (forall a: RealPlane {:trigger cv.fft2(a)} :: cv.ifft2(cv.fft2(a)) == AsComplex(a))
  }
}
