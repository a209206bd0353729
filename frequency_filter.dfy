/** apply_frequency_filter: radial masks around the centre of the shifted
    spectrum. The source compares the Euclidean distance sqrt(dx^2 + dy^2)
    with an integer cutoff; the model compares the integer squared distance,
    and SqrtComparisons shows the two agree. */
module FrequencyFilter {
  import opened Raster
  import opened OpenCv

  /** Squared distance of bin (y, x) from the centre (rows // 2, cols // 2). */
  function SquaredDistance(rows: nat, cols: nat, y: int, x: int): nat
  {
    var dy, dx := y - rows / 2, x - cols / 2;
    dy * dy + dx * dx
  }

  /** sqrt(d2) <= c */
  predicate WithinRadius(d2: nat, c: int)
  {
    c >= 0 && d2 <= c * c
  }

  /** sqrt(d2) >= c */
  predicate AtLeastRadius(d2: nat, c: int)
  {
    c <= 0 || d2 >= c * c
  }

  lemma SquareStrict(a: real, b: real)
    requires 0.0 <= b < a
    ensures b * b < a * a
  {
    var d := a - b;
    assert a * a == b * b + d * (a + b);
    assert d * (a + b) > 0.0;
  }

  /** For the true root r of d2, the integer tests say what the source's
      real comparisons say. */
  lemma SqrtComparisons(d2: nat, r: real, c: int)
    requires r >= 0.0 && r * r == d2 as real
    ensures r <= c as real <==> WithinRadius(d2, c)
    ensures r > c as real <==> !WithinRadius(d2, c)
    ensures r >= c as real <==> AtLeastRadius(d2, c)
  {
    var cr := c as real;
    assert (c * c) as real == cr * cr;
    if c >= 0 {
      if r <= cr {
        if r < cr { SquareStrict(cr, r); }
      } else {
        SquareStrict(r, cr);
      }
      if r < cr {
        SquareStrict(cr, r);
      } else if r > cr {
        SquareStrict(r, cr);
      }
    }
  }

  /** One bin of the stacked mask: whether the real and the imaginary plane keep it. */
  datatype MaskBin = MaskBin(keepRe: bool, keepIm: bool)

  const FilterTypes: seq<string> := ["lowpass", "highpass", "bandpass"]

  /** Whether a filter type keeps the bin at squared distance d2; an unknown
      type keeps nothing (the zero mask it starts from). */
  function Keeps(filterType: string, cutoff: int, d2: nat): bool
  {
    if filterType == "lowpass" then WithinRadius(d2, cutoff)
    else if filterType == "highpass" then !WithinRadius(d2, cutoff)
    else if filterType == "bandpass" then AtLeastRadius(d2, cutoff - 10) && WithinRadius(d2, cutoff + 10)
    else false
  }

  /** The rows x cols x 2 mask: the one boolean mask stacked for both planes. */
  function BuildMask(filterType: string, cutoff: int, rows: nat, cols: nat): (m: seq<seq<MaskBin>>)
    ensures IsGrid(m, rows, cols)
    ensures forall y, x :: 0 <= y < rows && 0 <= x < cols ==>
      m[y][x].keepRe == m[y][x].keepIm == Keeps(filterType, cutoff, SquaredDistance(rows, cols, y, x))
  {
    seq(rows, y requires 0 <= y < rows => seq(cols, x requires 0 <= x < cols =>
      var k := Keeps(filterType, cutoff, SquaredDistance(rows, cols, y, x)); MaskBin(k, k)))
  }

  /** dft_shift * mask; a bin outside the mask counts as masked out. */
  function ApplyMask(dft: Spectrum, mask: seq<seq<MaskBin>>): (f: Spectrum)
    ensures SameShape(f, dft)
  {
    seq(|dft|, y requires 0 <= y < |dft| => seq(|dft[y]|, x requires 0 <= x < |dft[y]| =>
      var b := if y < |mask| && x < |mask[y]| then mask[y][x] else MaskBin(false, false);
      Complex(if b.keepRe then dft[y][x].re else 0.0, if b.keepIm then dft[y][x].im else 0.0)))
  }

  /** Low-pass and high-pass with the same cutoff split every bin between
      them: each bin is kept by exactly one, so the two filtered spectra add
      up to the original. */
  lemma LowAndHighPartition(dft: Spectrum, cutoff: int)
    requires IsGrid(dft, |dft|, Width(dft))
    ensures var rows, cols := |dft|, Width(dft);
      forall y, x :: 0 <= y < rows && 0 <= x < cols ==>
        Keeps("lowpass", cutoff, SquaredDistance(rows, cols, y, x)) != Keeps("highpass", cutoff, SquaredDistance(rows, cols, y, x))
    ensures var rows, cols := |dft|, Width(dft);
      var low := ApplyMask(dft, BuildMask("lowpass", cutoff, rows, cols));
      var high := ApplyMask(dft, BuildMask("highpass", cutoff, rows, cols));
      forall y, x :: 0 <= y < rows && 0 <= x < cols ==> CAdd(low[y][x], high[y][x]) == dft[y][x]
  {
  }

  /** For a cutoff of at least 10 the band-pass keeps exactly the ring
      (c - 10)^2 <= d2 <= (c + 10)^2. */
  lemma BandpassRing(cutoff: int, d2: nat)
    requires cutoff >= 10
    ensures Keeps("bandpass", cutoff, d2) <==> (cutoff - 10) * (cutoff - 10) <= d2 <= (cutoff + 10) * (cutoff + 10)
  {
  }

  /** An unrecognised filter type removes every bin. */
  lemma UnknownTypeRemovesAll(dft: Spectrum, filterType: string, cutoff: int, rows: nat, cols: nat)
    requires filterType !in FilterTypes
    ensures var f := ApplyMask(dft, BuildMask(filterType, cutoff, rows, cols));
      forall y, x :: 0 <= y < |f| && 0 <= x < |f[y]| ==> f[y][x] == Complex(0.0, 0.0)
  {
  }

  /** apply_frequency_filter: grey image, centred spectrum, mask, inverse
      transform and 8-bit normalisation, replicated into three channels;
      None when the image did not load. */
  function ApplyFrequencyFilter(cv: Cv, img: Option<Image>, filterType: string, cutoff: int,
                                outputPath: Option<string>, timestamp: string): (r: Option<Saved>)
    ensures r.Some? <==> img.Some?
    ensures r.Some? ==> r.value.image.b == r.value.image.g == r.value.image.r
    ensures r.Some? ==> r.value.path == OutputPath(outputPath, DefaultPath("results", "frequency_filtered_" + filterType, timestamp))
  {
    if img.None? then None
    else
      var gray := cv.toGray(img.value);
      var dft := cv.centredDft(gray);
      var mask := BuildMask(filterType, cutoff, Height(gray), Width(gray));
      var back := cv.magnitudeImage(ApplyMask(dft, mask));
      Some(Saved(OutputPath(outputPath, DefaultPath("results", "frequency_filtered_" + filterType, timestamp)), GrayToBgr(back)))
  }
}
