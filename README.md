# Image watermarking and blending: a verified model of the processing core

The application is a desktop image tool. Its core is four Python files:

- `watermarking.py`: visible and invisible watermarks, and watermark extraction.
- `blending.py`: gradient masks and two-image blending.
- `advanced_processing.py`: convolution filters, segmentation, contours, histogram matching and statistics, frequency-domain filtering, and region descriptors.
- `app_utils.py`: path, string and parameter helpers.

This project models that core in Dafny and proves what each operation computes.

OpenCV and numpy routines are not modelled inside. Canny, filter2D, resize, findContours, the FFT and the rest are fields of a collaborator record, `OpenCv.Cv`. A few laws about them are stated as predicates and assumed by the lemmas that need them:

- `ResizeSound`: resize returns the requested size.
- `ShapeSound`: grey conversion and filtering keep the size.
- `CannySound`: Canny returns 8-bit edge maps.
- `FourierLaws`: fft2 is linear, and ifft2 undoes it.
- `StdSound`: the standard deviation is the square root of the variance.
- `Log2Sound`: log2 is non-positive on (0, 1].

Images are values (`Raster.Image`: three planes B, G, R, each 8-bit samples). Loading is an `Option<Image>`; `None` stands for `cv2.imread` returning None.

Every operation that catches its exceptions and returns None has that None in the model, under the same conditions (one exception for convolution is listed under "## Left out"):

- a missing image;
- an unknown filter type;
- an unknown segmentation method;
- a gradient ramp that divides by zero;
- spectra or edge maps of different sizes;
- an unknown extraction method.

Output paths are `Raster.OutputPath(given, default)`. The timestamp is a parameter.

Modules follow the source:

- `Raster` (`raster.dfy`): pixel planes, images, 8-bit conversion, result paths.
- `OpenCv` (`opencv.dfy`): the collaborator record and its laws.
- `PathRules` (`path_rules.dfy`): `validate_image` (shared) and `os.path.splitext`.
- `AppUtils` (`app_utils.dfy`): `app_utils.py`.
- `Convolution` (`convolution.dfy`): `advanced_processing.py`: convolution filters.
- `Segmentation` (`segmentation.dfy`): `advanced_processing.py`: segmentation and contours.
- `Histogram` (`histogram.dfy`): `advanced_processing.py`: channel histogram matching and statistics.
- `FrequencyFilter` (`frequency_filter.dfy`): `advanced_processing.py`: frequency masks.
- `RegionDescriptors` (`region_descriptors.dfy`): `advanced_processing.py`: region descriptors and moment guards.
- `Blending` (`blending.dfy`): `blending.py`.
- `Watermarking` (`watermarking.dfy`): `watermarking.py`.

The style follows the source's style:

- Loops that update state are methods with loop invariants, proved against specification functions:
  - `create_gradient_mask` and `create_custom_mask` fill a 2-D array;
  - the histogram `mapping` is an array filled by a loop;
  - the descriptor and contour loops append to lists;
  - `format_file_size`, `safe_filename` and `validate_parameters` each loop over their input.
- Expression-only code is functions.

`validate_image` appears three times in the source with identical bodies: `advanced_processing.py:533-550`, `blending.py:180-197` and `watermarking.py:211-227`. It is modelled once, as `PathRules.ValidateImage`.

Where the code and its design description disagree, the model follows the code. The one exception is the source bug recorded under "## Findings", where the operation uses the corrected definition. The description treats an unknown convolution `filter_type` as leaving the result unbound. The code instead raises at `advanced_processing.py:32-33`, before any filtering, and the caller returns None. `Convolution.ApplyConvolutionFilter` models that.

## Model

| member | source | states |
|---|---|---|
| `Raster.ToByte` | blending.py:68 | clip to [0, 255] then truncate: an 8-bit value, 0 at or below 0, 255 at or above 255, and the floor in between |
| `Raster.ToByteOfByte` | blending.py:68 | clipping and truncating an 8-bit value returns it unchanged |
| `Raster.GrayToBgr` | advanced_processing.py:44 | GRAY2BGR copies the grey plane into all three channels, and gives a valid image for a non-empty 8-bit plane |
| `PathRules.RFind` | advanced_processing.py:539 | the last index of the character, or -1 when it does not occur |
| `PathRules.SplitExt` | advanced_processing.py:539 | the two parts concatenate back to the path, and the extension is empty or one dot followed by no dot or separator |
| `PathRules.SplitExtOfSuffix` | advanced_processing.py:539 | a named last component followed by a one-dot extension splits exactly at that extension |
| `PathRules.ExtensionCaseInsensitive` | advanced_processing.py:539-540 | the extension test gives the same answer for a path and its lower-cased form |
| `PathRules.SupportedSuffixAccepted` | advanced_processing.py:539-540 | any named file ending in one of the five extensions, in any ASCII case, passes the extension test |
| `PathRules.ValidateImage` | advanced_processing.py:533-550 | valid iff the file exists, has a supported extension and decodes; each failure has its own message, checked in this order |
| `PathRules.UnsupportedNeverDecoded` | blending.py:186-188 | an unsupported extension is rejected whatever the decoder would do |
| `AppUtils.ValidateImagePath` | app_utils.py:31-46 | an empty path, a missing file and an unsupported extension each fail with their message; otherwise "Valid image" |
| `AppUtils.ValidatePathAgreesWithValidateImage` | app_utils.py:36-44 | whatever validate_image accepts, validate_image_path accepts; a path it rejects is rejected by validate_image with the same message |
| `AppUtils.FormatFileSize` | app_utils.py:54-65 | "0 B" exactly for size 0; otherwise the unit is the largest of B, KB, MB, GB that the loop reaches, and value * 1024^unit is the size |
| `AppUtils.ScaledValueRange` | app_utils.py:59-63 | for a size of at least 1 byte the scaled value lies in [1, 1024), except that GB takes any larger value |
| `AppUtils.SafeFilename` | app_utils.py:88-93 | the loop over the nine invalid characters yields the sanitised name |
| `AppUtils.SanitizedSpec` | app_utils.py:90-92 | same length, no invalid character left, other characters kept, each invalid character replaced by '_' |
| `AppUtils.SanitizedIdempotent` | app_utils.py:88-93 | sanitising twice is sanitising once |
| `AppUtils.ValidateParameters` | app_utils.py:112-119 | ok iff no value is None or a blank string; on failure the message names the first offending parameter |
| `AppUtils.TruncateText` | app_utils.py:132-136 | short text is unchanged; long text ends in "..." after a prefix of the text, and is exactly max_length long when max_length >= 3 |
| `AppUtils.TruncateBelowThree` | app_utils.py:136 | for max_length below 3, Python's negative slice makes the result longer than max_length |
| `AppUtils.CreateResultFilename` | app_utils.py:157-162 | the name ends in ".jpg"; for a timestamp (or, when none is given, the current time) without '/', it splits into "<operation>_<timestamp>" and ".jpg" and so passes the extension test |
| `AppUtils.ValidateParameterRange` | app_utils.py:192-201 | valid iff the value parses and lies in [min, max]; the parse failure and the out-of-range failure have their own messages |
| `AppUtils.DefaultsWithinRanges` | app_utils.py:180-213 | the defaults and the ranges have the same six keys, and every default lies in its range |
| `Convolution.OddKernelSize` | advanced_processing.py:26-27 | the kernel size used is odd, and is k or k + 1 |
| `Convolution.EvenSizeActsAsNextOdd` | advanced_processing.py:26-27 | an even size k behaves as k + 1 |
| `Convolution.KernelTableShape` | advanced_processing.py:65-86 | the table has exactly the six filter names, and only the Gaussian kernel depends on the size |
| `Convolution.FixedKernelFacts` | advanced_processing.py:74-84 | sobel_y is the transpose of sobel_x; sharpen is laplacian plus 1 at the centre; sobel_x, sobel_y, laplacian and edge_detect sum to 0, and sharpen to 1 |
| `Convolution.GaussianKernelSymmetric` | advanced_processing.py:70-71 | the outer product of the Gaussian column is a symmetric k x k kernel |
| `Convolution.ApplyConvolutionFilter` | advanced_processing.py:17-63 | None iff the image did not load or the filter is unknown; otherwise the default path and the per-channel or grey filtering with the normalised size |
| `Convolution.ConvolvePreservesShape` | advanced_processing.py:38-49 | the result has the input's size, and the grey filters give three equal channels |
| `Segmentation.Binarize` | advanced_processing.py:101-119 | a segmented plane exactly for the four known methods; any other method gives none |
| `Segmentation.SegmentImage` | advanced_processing.py:90-133 | a result iff the image loaded and the method is known; three equal channels; the default path names the method |
| `Segmentation.ThresholdValueOnlyForThreshold` | advanced_processing.py:106-108 | threshold_value matters only to the "threshold" method |
| `Segmentation.ContourTable` | advanced_processing.py:165-175 | the loop builds the table of contours with area above 100 |
| `Segmentation.ContourRecordsSound` | advanced_processing.py:169-175 | every row carries the index, area, perimeter and point count of a contour before the bound whose area is above 100 |
| `Segmentation.ContourRecordsComplete` | advanced_processing.py:169 | every contour with area above 100 has a row |
| `Segmentation.ContourRecordsOrdered` | advanced_processing.py:166-170 | row indices strictly increase |
| `Segmentation.FindContours` | advanced_processing.py:135-182 | None iff the image did not load; otherwise the default path and the table of the contours of the grey image thresholded at 127 |
| `Histogram.HistogramOf` | advanced_processing.py:266-267 | 256 bins, bin v counting the samples equal to v |
| `Histogram.CumSumCountsAtMost` | advanced_processing.py:270-271 | the cumulative histogram at v counts the samples at most v |
| `Histogram.CdfAt` | advanced_processing.py:274-275 | the normalised CDF at v is the fraction of samples at most v |
| `Histogram.CdfFacts` | advanced_processing.py:274-275 | the normalised CDF never decreases and ends at 1 |
| `Histogram.FirstArgMin` | advanced_processing.py:282 | argmin: a least element, and the first of them |
| `Histogram.ClosestLevel` | advanced_processing.py:281-282 | the chosen reference level minimises the CDF distance, the first such level on ties |
| `Histogram.MatchingTable` | advanced_processing.py:278-282 | the mapping has 256 entries, every one an 8-bit level |
| `Histogram.ApplyTable` | advanced_processing.py:285 | mapping[source] keeps the shape and looks every sample up in the table |
| `Histogram.MatchChannelHistogram` | advanced_processing.py:263-285 | the loop fills the 256-entry mapping that the matching table specifies, and returns the source mapped through it |
| `Histogram.SelfMatchFixesOccurringLevels` | advanced_processing.py:278-282 | matched against itself, every level that occurs maps to itself |
| `Histogram.SelfMatchIsIdentity` | advanced_processing.py:263-285 | matching a channel against itself returns the channel unchanged |
| `Histogram.CalculateHistogram` | advanced_processing.py:287-315 | a result iff the image loaded |
| `Histogram.CalculateHistogramFacts` | advanced_processing.py:299-309 | each channel's bins sum to height * width, and 0 <= min <= mean <= max <= 255 |
| `Histogram.HistogramTotal` | advanced_processing.py:300-301 | the bins of 8-bit samples add up to the sample count |
| `FrequencyFilter.SqrtComparisons` | advanced_processing.py:344-357 | the integer squared-distance tests agree with comparing the Euclidean distance with the cutoff |
| `FrequencyFilter.BuildMask` | advanced_processing.py:339-358 | the rows x cols x 2 mask keeps a bin in both planes exactly when the filter type keeps its distance |
| `FrequencyFilter.ApplyMask` | advanced_processing.py:361 | masking keeps the spectrum's shape |
| `FrequencyFilter.LowAndHighPartition` | advanced_processing.py:341-351 | low-pass and high-pass with one cutoff keep complementary bins, and their outputs add up to the spectrum |
| `FrequencyFilter.BandpassRing` | advanced_processing.py:353-357 | for a cutoff of at least 10, band-pass keeps exactly the ring between cutoff - 10 and cutoff + 10 |
| `FrequencyFilter.UnknownTypeRemovesAll` | advanced_processing.py:339 | an unknown filter type keeps the zero mask and removes every bin |
| `FrequencyFilter.ApplyFrequencyFilter` | advanced_processing.py:319-386 | a result iff the image loaded; three equal channels; the default path names the filter |
| `RegionDescriptors.Solidity` | advanced_processing.py:431-433 | solidity is area / hull area for a positive hull area, else 0 |
| `RegionDescriptors.ConstantDataMoments` | advanced_processing.py:511-529 | constant data has skewness and kurtosis 0, through the zero-deviation guard |
| `RegionDescriptors.KurtosisAtLeastMinusThree` | advanced_processing.py:521-529 | kurtosis is at least -3 |
| `RegionDescriptors.EntropyNonNegative` | advanced_processing.py:500-509 | entropy is never negative |
| `RegionDescriptors.SingleLevelEntropy` | advanced_processing.py:500-509 | a region of one grey level has entropy 0 |
| `RegionDescriptors.EnergyWrapsAt16` | advanced_processing.py:458 | the 8-bit squares as written give 0 for a single sample 16, whose energy is 256 |
| `RegionDescriptors.EnergyAgreesBelow16` | advanced_processing.py:458 | for samples below 16 the 8-bit squares and the true squares agree |
| `RegionDescriptors.EnergyFacts` | advanced_processing.py:458 | energy is non-negative, at least each sample's square, and 0 iff every sample is 0 |
| `RegionDescriptors.FailureSticks` | advanced_processing.py:427-428 | once a prefix of the contours fails (an aspect ratio dividing by zero), every longer prefix fails too, so the whole extraction returns None |
| `RegionDescriptors.ExtractRegionDescriptors` | advanced_processing.py:390-498 | None when the image did not load; otherwise the loop over the contours of the grey image thresholded at 127 yields what the gated descriptor recursion yields, which is None when an aspect ratio divides by zero |
| `RegionDescriptors.DescriptorListsAligned` | advanced_processing.py:412-476 | shape and texture lists have equal length and matching ids; every entry names a contour that passes both gates; each statistical entry names such a contour with a non-empty region, and there are no more of them than shape entries |
| `RegionDescriptors.DescriptorRecordsComplete` | advanced_processing.py:412-462 | every contour that passes both gates has a shape record and a texture record with its id |
| `RegionDescriptors.StatisticalRecordsComplete` | advanced_processing.py:464-476 | every contour that passes both gates and whose region covers a pixel has a statistical record with its id |
| `RegionDescriptors.DescriptorRecordsOrdered` | advanced_processing.py:412-476 | shape and statistical ids lie below the number of contours visited and strictly increase |
| `Blending.FillHorizontal` | blending.py:16-19 | every cell of column i holds i / (width - 1) |
| `Blending.FillVertical` | blending.py:21-24 | every cell of row i holds i / (height - 1) |
| `Blending.FillDiagonal` | blending.py:26-30 | cell (i, j) holds (i + j) / (height + width - 2) |
| `Blending.ScaleMask` | blending.py:33 | every cell is multiplied by alpha and the shape is kept |
| `Blending.CreateGradientMask` | blending.py:12-35 | null exactly when the ramp divides by zero; otherwise a fresh height x width mask holding the ramp times alpha, or 0 for an unknown direction |
| `Blending.GradientPlane` | blending.py:14-33 | the mask as a height x width grid holding, cell by cell, the ramp times alpha |
| `Blending.GradientValueRange` | blending.py:16-33 | for alpha in [0, 1] every mask value lies in [0, alpha] |
| `Blending.HorizontalEnds` | blending.py:18-19 | the horizontal mask is 0 in the first column and alpha in the last |
| `Blending.RampAxes` | blending.py:16-24 | horizontal values depend only on the column, vertical ones only on the row |
| `Blending.UnknownDirectionIsZero` | blending.py:14 | an unknown direction leaves the zero mask |
| `Blending.CreateAdvancedMask` | blending.py:130-152 | null exactly when a known type divides by width - 1; otherwise each column holds its linear, sigmoid or cosine ramp times alpha |
| `Blending.LinearIsHorizontal` | blending.py:133-136 | the linear advanced mask equals the horizontal gradient mask |
| `Blending.CreateCustomMask` | blending.py:154-178 | each cell holds the value of the last in-bounds point on it, or 0; the default path is results/custom_mask_<timestamp>.jpg |
| `Blending.UntouchedCellsStayZero` | blending.py:158-163 | a cell no in-bounds point lands on stays 0 |
| `Blending.LastPointWins` | blending.py:161-163 | a cell holds the value of the last point that lands on it |
| `Blending.OffMaskPointsIgnored` | blending.py:162 | a point outside the mask changes nothing |
| `Blending.Composite` | blending.py:61-68 | the blend keeps the first image's size, with 8-bit samples |
| `Blending.BlendImages` | blending.py:37-82 | None iff an image did not load or the mask divides by zero; otherwise the default path and the blend at the smaller height and width |
| `Blending.BlendedSize` | blending.py:48-55 | the blend has the smaller height and the smaller width, and is a valid image |
| `Blending.BlendSampleBetween` | blending.py:65-68 | for a weight in [0, 1] each blended value lies between the two inputs, so the clip never acts and the result is the truncated blend |
| `Blending.WeightedBetween` | blending.py:65 | img1 * (1 - mask) + img2 * mask with a mask value in [0, 1] lies between the two samples |
| `Blending.BlendSampleWeightZero` | blending.py:65-68 | a zero mask value returns the first sample |
| `Blending.PlaneUnchangedAtZero` | blending.py:65-68 | a zero mask keeps the first plane |
| `Blending.AlphaZeroKeepsFirstImage` | blending.py:33-65 | with alpha 0 the blend is the first image at the common size |
| `Watermarking.RoundHalfEven` | watermarking.py:39 | addWeighted's rounding: within 1/2 of the value, ties to the even integer |
| `Watermarking.SaturateByte` | watermarking.py:199 | the 8-bit saturation: in-range values kept, below 0 gives 0, above 255 gives 255 |
| `Watermarking.OpacityWeight` | watermarking.py:36 | edge_opacity / 100 maps 0..100 onto 0..1 |
| `Watermarking.OpacityWeightMonotone` | watermarking.py:36 | a higher opacity never gives a lower weight |
| `Watermarking.RoundOfInteger` | watermarking.py:39 | rounding leaves integers unchanged |
| `Watermarking.AddWeightedPlane` | watermarking.py:39 | addWeighted(main, 1, edges, alpha, 0) as an 8-bit plane, sample by sample |
| `Watermarking.AddWeightedKeeps` | watermarking.py:39 | a zero weight or a zero edge leaves the sample unchanged |
| `Watermarking.AddWeightedBrightens` | watermarking.py:39 | with a non-negative weight the edges only brighten a sample |
| `Watermarking.VisibleWatermark` | watermarking.py:13-53 | a result iff both images loaded; the main image's size; the default path |
| `Watermarking.VisibleWatermarkEffect` | watermarking.py:24-39 | opacity 0 leaves the main image unchanged; a non-negative opacity never darkens a sample |
| `Watermarking.SpectralIsPixelwise` | watermarking.py:73-99 | under the transform laws, real(ifft2(fft2(a) + k * fft2(b))) clipped to 8 bits is a + k * b clipped, sample by sample |
| `Watermarking.InvisibleWatermark` | watermarking.py:55-113 | a result iff both images loaded; the main image's size; the default path |
| `Watermarking.InvisibleEmbedIsPixelwise` | watermarking.py:66-99 | each embedded sample is main + alpha * mark clipped to [0, 255], with the mark resized to the main image |
| `Watermarking.InvisibleZeroAlpha` | watermarking.py:86-88 | alpha 0 leaves the main image unchanged |
| `Watermarking.SpectralAtZero` | watermarking.py:86-99 | a zero strength makes the transform round trip return the plane unchanged |
| `Watermarking.ExtractFourier` | watermarking.py:129-179 | a result iff both images loaded and have one size; the default path |
| `Watermarking.FourierExtractionIsDifference` | watermarking.py:143-169 | each extracted sample is watermarked - original clamped to [0, 255] |
| `Watermarking.EmbedThenExtract` | watermarking.py:156-169 | extracting against the main image returns floor(alpha * mark) wherever the embed did not clip |
| `Watermarking.EdgeDifference` | watermarking.py:199 | cv2.subtract keeps the shape and saturates each difference |
| `Watermarking.ExtractEdge` | watermarking.py:181-209 | a result iff both images loaded and their edge maps have one size; channels are equal; the default path |
| `Watermarking.ExtractEdgeIsSaturatedDifference` | watermarking.py:193-199 | every extracted edge value is 8-bit, 0 where the watermarked edge is not above the original's, and the difference elsewhere |
| `Watermarking.ExtractWatermark` | watermarking.py:115-127 | 'fourier' and 'edge' select their extraction; any other method gives None |

## Left out

- The GUI, event handlers, `main.py` and `file_manager.py` (widgets, threads and file copies) are not part of this model.
- Logging, `print`, `cv2.imwrite` and `datetime.now` are left out. The written image and path are returned as a `Raster.Saved` value, and the timestamp is a parameter.
- OpenCV and numpy internals are collaborator functions. They cover filtering and its borders, Canny, thresholds, contours, moments, hulls, resizing, DFT and normalisation.
- Floating point is modelled exactly with `real`. float32 rounding in masks, blends and FFTs is not modelled, and neither is the `%.1f` text of `format_file_size`.
- The sigmoid and cosine ramps of `_create_advanced_mask` use `np.exp` and `np.cos`. These are parameters of `Blending.CreateAdvancedMask`. `advanced_blend` itself (`blending.py:84-128`) repeats `blend_images` with that mask and is not modelled separately.
- `equalize_histogram` and the colour-space wrapper of `match_histogram` (`advanced_processing.py:186-261`) are not part of this model. Only the per-channel matcher is.
- Drawing (`drawContours`, `putText`) and the saved visualisation images of `find_contours` and `extract_region_descriptors` are left out.
- Lower-casing covers ASCII letters only. Windows path separators are not modelled (`os.path.splitext` is modelled as `posixpath`).
- `Histogram.NormCdf`: an empty channel would divide by zero in numpy (nan). The model returns 0 there, and `Histogram.MatchChannelHistogram` requires non-empty channels, as every decoded image has.
- `Histogram.CalculateHistogram`: the samples are read channel after channel rather than interleaved. The mean, min, max and standard deviation do not depend on the order.
- `Convolution.GaussianKernelSymmetric`: `getGaussianKernel`'s output for sizes it rejects is not modelled. The lemma assumes a kernel of length k.
- `Watermarking.ExtractFourier`: differently sized images fail in the model. numpy's broadcasting would accept sizes where one dimension is 1.
- `Watermarking.VisibleWatermark`: `edge_opacity` comes from an integer field in the GUI. The model takes any real.
- `Blending.CreateCustomMask`: the saved `(mask * 255)` uint8 image is not modelled, and the points are typed, so the error path of the Python `except` cannot arise.
- `RegionDescriptors.ExtractRegionDescriptors`: texture records carry the true sum of squares (`RegionDescriptors.Energy`), not the uint8-wrapped value that `advanced_processing.py:458` computes. That line is the source bug under "## Findings". For samples up to 15 the two agree (`RegionDescriptors.EnergyAgreesBelow16`).
- `Convolution.ApplyConvolutionFilter`: the Gaussian kernel is built for every filter type (`advanced_processing.py:30`, `70`), and OpenCV rejects a non-positive size there. So a `kernel_size` of -1 or less makes every filter return None in the source, while the model returns a result. The GUI keeps the size within 3..15.
- `Blending.BlendImages`: cv2.resize raising on an empty target size is not modelled. Decoded images always have positive sizes.

## Findings

| source | as written | input that shows it | evidently intended | confidence | as-written member | corrected member |
|---|---|---|---|---|---|---|
| advanced_processing.py:458 | `np.sum(gray[mask > 0] ** 2)` squares uint8 samples in uint8, so each square wraps modulo 256 | a region whose only sample is 16: energy 0 instead of 256 | the sum of the true squares of the samples | not executed | `RegionDescriptors.EnergyWrapsAt16` | `RegionDescriptors.EnergyFacts` |
