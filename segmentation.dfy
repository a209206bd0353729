/** segment_image's method dispatch and find_contours' contour table. */
module Segmentation {
  import opened Raster
  import opened OpenCv

  const SegmentationMethods: seq<string> := ["edge", "threshold", "otsu", "adaptive"]

  /** The binary plane each method produces from the grey image, or None for
      a method name the dispatch does not know (the result variable is then
      never bound and the save raises). */
  function Binarize(cv: Cv, gray: Plane, algorithm: string, thresholdValue: int): (p: Option<Plane>)
    ensures p.Some? <==> algorithm in SegmentationMethods
  {
    if algorithm == "edge" then Some(cv.canny(gray, 50, 150))
    else if algorithm == "threshold" then Some(cv.threshold(gray, thresholdValue))
    else if algorithm == "otsu" then Some(cv.otsu(gray))
    else if algorithm == "adaptive" then Some(cv.adaptiveGaussian(gray, 11, 2))
    else None
  }

  /** segment_image: the binary plane replicated into three channels, saved
      under "results/segmentation_<method>_<timestamp>.jpg" by default. */
  function SegmentImage(cv: Cv, img: Option<Image>, algorithm: string, thresholdValue: int,
                        outputPath: Option<string>, timestamp: string): (r: Option<Saved>)
    ensures r.Some? <==> img.Some? && algorithm in SegmentationMethods
    ensures r.Some? ==> r.value.image.b == r.value.image.g == r.value.image.r
    ensures r.Some? ==> r.value.path == OutputPath(outputPath, DefaultPath("results", "segmentation_" + algorithm, timestamp))
  {
    if img.None? then None
    else
      match Binarize(cv, cv.toGray(img.value), algorithm, thresholdValue)
      case None => None
      case Some(p) => Some(Saved(OutputPath(outputPath, DefaultPath("results", "segmentation_" + algorithm, timestamp)), GrayToBgr(p)))
  }

  /** Only the "threshold" method reads threshold_value. */
  lemma ThresholdValueOnlyForThreshold(cv: Cv, img: Option<Image>, algorithm: string, t1: int, t2: int,
                                       outputPath: Option<string>, timestamp: string)
    requires algorithm != "threshold"
    ensures SegmentImage(cv, img, algorithm, t1, outputPath, timestamp) == SegmentImage(cv, img, algorithm, t2, outputPath, timestamp)
  {
  }

  /** One row of find_contours' contour_data. */
  datatype ContourRecord = ContourRecord(id: nat, area: real, perimeter: real, points: nat)

  /** Contours with an area of at most this are dropped from the table. */
  const MinContourArea: real := 100.0

  function RecordOf(cv: Cv, contours: seq<Contour>, i: nat): ContourRecord
    requires i < |contours|
  {
    ContourRecord(i, cv.contourArea(contours[i]), cv.arcLength(contours[i]), |contours[i].points|)
  }

  /** The table built from the first n contours. */
  function ContourRecords(cv: Cv, contours: seq<Contour>, n: nat): seq<ContourRecord>
    requires n <= |contours|
  {
    if n == 0 then []
    else
      var rest := ContourRecords(cv, contours, n - 1);
      if cv.contourArea(contours[n - 1]) > MinContourArea then rest + [RecordOf(cv, contours, n - 1)] else rest
  }

  /** The table loop of find_contours. */
  method ContourTable(cv: Cv, contours: seq<Contour>) returns (data: seq<ContourRecord>)
    ensures data == ContourRecords(cv, contours, |contours|)
  {
    data := [];
    var i := 0;
    while i < |contours|
      invariant 0 <= i <= |contours|
      invariant data == ContourRecords(cv, contours, i)
    {
      var area := cv.contourArea(contours[i]);
      var perimeter := cv.arcLength(contours[i]);
      if area > MinContourArea {
        data := data + [ContourRecord(i, area, perimeter, |contours[i].points|)];
      }
      i := i + 1;
    }
  }

  /** A row that records a contour of area above 100 under its own index. */
  predicate IsLargeContourRow(cv: Cv, contours: seq<Contour>, row: ContourRecord)
  {
    row.id < |contours| && cv.contourArea(contours[row.id]) > MinContourArea && row == RecordOf(cv, contours, row.id)
  }

  /** Every row of the table is the record of a contour of area above 100,
      under that contour's own index. */
  lemma {:induction false} ContourRecordsSound(cv: Cv, contours: seq<Contour>, n: nat)
    requires n <= |contours|
    ensures forall row :: row in ContourRecords(cv, contours, n) ==> row.id < n && IsLargeContourRow(cv, contours, row)
  {
    if n > 0 {
      ContourRecordsSound(cv, contours, n - 1);
      var rest := ContourRecords(cv, contours, n - 1);
      if cv.contourArea(contours[n - 1]) > MinContourArea {
        var t := rest + [RecordOf(cv, contours, n - 1)];
        assert ContourRecords(cv, contours, n) == t;
        assert t[|rest|].id == n - 1;
        assert forall row :: row in t ==> row in rest || row == t[|rest|];
      }
    }
  }

  /** Every contour of area above 100 has a row. */
  lemma {:induction false} ContourRecordsComplete(cv: Cv, contours: seq<Contour>, n: nat, i: nat)
    requires i < n <= |contours|
    requires cv.contourArea(contours[i]) > MinContourArea
    ensures var t := ContourRecords(cv, contours, n);
      exists k :: 0 <= k < |t| && t[k].id == i
  {
    var rest := ContourRecords(cv, contours, n - 1);
    if i == n - 1 {
      assert ContourRecords(cv, contours, n)[|rest|].id == i;
    } else {
      ContourRecordsComplete(cv, contours, n - 1, i);
      var k :| 0 <= k < |rest| && rest[k].id == i;
      assert ContourRecords(cv, contours, n)[k] == rest[k];
    }
  }

  predicate IdsIncrease(t: seq<ContourRecord>)
  {
    forall k1, k2 :: 0 <= k1 < k2 < |t| ==> t[k1].id < t[k2].id
  }

  /** The rows keep the contours' order: their indices strictly increase. */
  lemma {:induction false} ContourRecordsOrdered(cv: Cv, contours: seq<Contour>, n: nat)
    requires n <= |contours|
    ensures IdsIncrease(ContourRecords(cv, contours, n))
  {
    if n > 0 {
      ContourRecordsOrdered(cv, contours, n - 1);
      ContourRecordsSound(cv, contours, n - 1);
      var rest := ContourRecords(cv, contours, n - 1);
      if cv.contourArea(contours[n - 1]) > MinContourArea {
        var t := rest + [RecordOf(cv, contours, n - 1)];
        assert ContourRecords(cv, contours, n) == t;
        assert t[|rest|].id == n - 1;
        forall k1, k2 | 0 <= k1 < k2 < |t|
          ensures t[k1].id < t[k2].id
        {
          assert t[k1] == rest[k1] && rest[k1] in rest;
          if k2 < |rest| {
            assert t[k2] == rest[k2];
          }
        }
      }
    }
  }

  /** find_contours: the binary image is the grey image thresholded at 127;
      the result is the output path and the contour table, or None when the
      image did not load. */
  method FindContours(cv: Cv, img: Option<Image>, outputPath: Option<string>, timestamp: string)
    returns (result: Option<(string, seq<ContourRecord>)>)
    ensures result.None? <==> img.None?
    ensures result.Some? ==> result.value.0 == OutputPath(outputPath, DefaultPath("results", "contours", timestamp))
    ensures result.Some? ==>
      var contours := cv.findContours(cv.threshold(cv.toGray(img.value), 127));
      result.value.1 == ContourRecords(cv, contours, |contours|)
  {
    if img.None? {
      return None;
    }
    var gray := cv.toGray(img.value);
    var contours := cv.findContours(cv.threshold(gray, 127));
    var path := OutputPath(outputPath, DefaultPath("results", "contours", timestamp));
    var data := ContourTable(cv, contours);
    return Some((path, data));
  }
}
