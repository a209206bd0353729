/** Histogram matching of one channel (_match_channel_histogram) and the
    per-channel counts and statistics of calculate_histogram. Counts, sums
    and cumulative distributions are exact. */
module Histogram {
  import opened Raster
  import opened OpenCv

  /** The samples of a plane in row-major order (ndarray.flatten). */
  function Flatten(p: Plane): seq<int>
  {
    if p == [] then [] else Flatten(p[..|p| - 1]) + p[|p| - 1]
  }

  lemma {:induction false} FlattenOfBytePlane(p: Plane, h: nat, w: nat)
    requires IsBytePlane(p, h, w)
    ensures |Flatten(p)| == h * w
    ensures forall i :: 0 <= i < |Flatten(p)| ==> IsByte(Flatten(p)[i])
  {
    if h > 0 {
      FlattenOfBytePlane(p[..h - 1], h - 1, w);
      assert p[h - 1] == p[|p| - 1];
      var f := Flatten(p[..h - 1]);
      assert Flatten(p) == f + p[h - 1];
      forall i | 0 <= i < |Flatten(p)|
        ensures IsByte(Flatten(p)[i])
      {
        if i >= |f| {
          assert Flatten(p)[i] == p[h - 1][i - |f|];
        }
      }
    }
  }

  /** Every sample of the plane occurs in its flattening. */
  lemma {:induction false} FlattenHas(p: Plane, r: nat, c: nat)
    requires r < |p| && c < |p[r]|
    ensures p[r][c] in Flatten(p)
  {
    if r < |p| - 1 {
      FlattenHas(p[..|p| - 1], r, c);
    } else {
      assert Flatten(p)[|Flatten(p[..|p| - 1])| + c] == p[r][c];
    }
  }

  predicate AllBytes(s: seq<int>)
  {
    forall i :: 0 <= i < |s| ==> IsByte(s[i])
  }

  /** How many samples equal v. */
  function Count(s: seq<int>, v: int): nat
  {
    if s == [] then 0 else Count(s[..|s| - 1], v) + (if s[|s| - 1] == v then 1 else 0)
  }

  /** How many samples are at most v. */
  function AtMost(s: seq<int>, v: int): nat
  {
    if s == [] then 0 else AtMost(s[..|s| - 1], v) + (if s[|s| - 1] <= v then 1 else 0)
  }

  lemma {:induction false} CountPositive(s: seq<int>, v: int)
    requires v in s
    ensures Count(s, v) > 0
  {
    if s[|s| - 1] != v {
      assert v in s[..|s| - 1];
      CountPositive(s[..|s| - 1], v);
    }
  }

  lemma {:induction false} AtMostStep(s: seq<int>, v: int)
    ensures AtMost(s, v) == AtMost(s, v - 1) + Count(s, v)
  {
    if s != [] {
      AtMostStep(s[..|s| - 1], v);
    }
  }

  lemma {:induction false} AtMostMonotone(s: seq<int>, u: int, v: int)
    requires u <= v
    ensures AtMost(s, u) <= AtMost(s, v)
  {
    if s != [] {
      AtMostMonotone(s[..|s| - 1], u, v);
    }
  }

  lemma {:induction false} AtMostBounds(s: seq<int>)
    requires AllBytes(s)
    ensures AtMost(s, -1) == 0 && AtMost(s, 255) == |s|
  {
    if s != [] {
      AtMostBounds(s[..|s| - 1]);
    }
  }

  /** np.histogram(s, 256, [0, 256]): the count of every intensity. */
  function HistogramOf(s: seq<int>): (h: seq<nat>)
    ensures |h| == 256 && forall v :: 0 <= v < 256 ==> h[v] == Count(s, v)
  {
    seq(256, v requires 0 <= v < 256 => Count(s, v))
  }

  function Sum(h: seq<int>): int
  {
    if h == [] then 0 else Sum(h[..|h| - 1]) + h[|h| - 1]
  }

  /** ndarray.cumsum. */
  function CumSum(h: seq<int>): (c: seq<int>)
    ensures |c| == |h|
  {
    seq(|h|, i requires 0 <= i < |h| => Sum(h[..i + 1]))
  }

  /** The cumulative histogram at v counts the samples at most v. */
  lemma {:induction false} CumSumCountsAtMost(s: seq<int>, v: nat)
    requires AllBytes(s) && v < 256
    ensures CumSum(HistogramOf(s))[v] == AtMost(s, v)
  {
    var h := HistogramOf(s);
    AtMostStep(s, v);
    assert h[..v + 1][..v] == h[..v];
    assert Sum(h[..v + 1]) == Sum(h[..v]) + h[v];
    assert CumSum(h)[v] == Sum(h[..v + 1]);
    if v == 0 {
      AtMostBounds(s);
      assert h[..v] == [];
    } else {
      CumSumCountsAtMost(s, v - 1);
      assert CumSum(h)[v - 1] == Sum(h[..v]);
    }
  }

  /** cdf / cdf[-1]: the normalised cumulative distribution. A channel with
      no samples has cdf[-1] == 0, which no caller produces. */
  function NormCdf(s: seq<int>): (cdf: seq<real>)
    ensures |cdf| == 256
  {
    var c := CumSum(HistogramOf(s));
    seq(256, v requires 0 <= v < 256 => if c[255] == 0 then 0.0 else c[v] as real / c[255] as real)
  }

  /** The normalised CDF of a non-empty channel at level v is the fraction
      of samples at most v. */
  lemma CdfAt(s: seq<int>, v: nat)
    requires AllBytes(s) && |s| > 0 && v < 256
    ensures NormCdf(s)[v] == AtMost(s, v) as real / |s| as real
  {
    AtMostBounds(s);
    CumSumCountsAtMost(s, v);
    CumSumCountsAtMost(s, 255);
    var c := CumSum(HistogramOf(s));
    assert c[255] == |s|;
    assert NormCdf(s)[v] == c[v] as real / c[255] as real;
  }

  /** The normalised CDF never decreases and ends at exactly 1. */
  lemma CdfFacts(s: seq<int>)
    requires AllBytes(s) && |s| > 0
    ensures forall u, v :: 0 <= u <= v < 256 ==> NormCdf(s)[u] <= NormCdf(s)[v]
    ensures NormCdf(s)[255] == 1.0
  {
    AtMostBounds(s);
    CdfAt(s, 255);
    forall u, v | 0 <= u <= v < 256
      ensures NormCdf(s)[u] <= NormCdf(s)[v]
    {
      CdfAt(s, u);
      CdfAt(s, v);
      AtMostMonotone(s, u, v);
      DivMonotone(AtMost(s, u), AtMost(s, v), |s|);
    }
  }

  lemma DivMonotone(a: nat, b: nat, n: nat)
    requires a <= b && n > 0
    ensures a as real / n as real <= b as real / n as real
  {
  }

  function Abs(x: real): real
  {
    if x < 0.0 then -x else x
  }

  /** np.argmin over the first n entries: the first index of a least value. */
  function FirstArgMin(d: seq<real>, n: nat): (k: nat)
    requires 0 < n <= |d|
    ensures k < n
    ensures forall j :: 0 <= j < n ==> d[k] <= d[j]
    ensures forall j :: 0 <= j < k ==> d[j] > d[k]
  {
    if n == 1 then 0
    else
      var m := FirstArgMin(d, n - 1);
      if d[n - 1] < d[m] then n - 1 else m
  }

  /** The distances |refCdf[j] - x| the lookup searches. */
  function Distances(refCdf: seq<real>, x: real): (d: seq<real>)
    ensures |d| == |refCdf| && forall j :: 0 <= j < |refCdf| ==> d[j] == Abs(refCdf[j] - x)
  {
    seq(|refCdf|, j requires 0 <= j < |refCdf| => Abs(refCdf[j] - x))
  }

  /** The reference level whose CDF value is closest to x; ties go to the lowest level. */
  function ClosestLevel(refCdf: seq<real>, x: real): (j: nat)
    requires |refCdf| == 256
    ensures j < 256
    ensures forall i :: 0 <= i < 256 ==> Abs(refCdf[j] - x) <= Abs(refCdf[i] - x)
    ensures forall i :: 0 <= i < j ==> Abs(refCdf[i] - x) > Abs(refCdf[j] - x)
  {
    FirstArgMin(Distances(refCdf, x), 256)
  }

  /** The 256-entry lookup table the matching builds. */
  function MatchingTable(source: Plane, reference: Plane): (table: seq<int>)
    ensures |table| == 256 && forall i :: 0 <= i < 256 ==> IsByte(table[i])
  {
    var srcCdf := NormCdf(Flatten(source));
    var refCdf := NormCdf(Flatten(reference));
    seq(256, i requires 0 <= i < 256 => ClosestLevel(refCdf, srcCdf[i]))
  }

  predicate HasByteSamples(p: Plane)
  {
    forall r, c :: 0 <= r < |p| && 0 <= c < |p[r]| ==> IsByte(p[r][c])
  }

  /** mapping[source]: every sample replaced by its table entry. */
  function ApplyTable(table: seq<int>, p: Plane): (q: Plane)
    requires |table| == 256 && HasByteSamples(p)
    ensures SameShape(q, p)
    ensures forall r, c :: 0 <= r < |p| && 0 <= c < |p[r]| ==> q[r][c] == table[p[r][c]]
  {
    seq(|p|, r requires 0 <= r < |p| => seq(|p[r]|, c requires 0 <= c < |p[r]| => table[p[r][c]]))
  }

  /** A decoded channel: a non-empty grid of 8-bit samples. */
  predicate IsChannel(p: Plane)
  {
    |p| > 0 && Width(p) > 0 && IsBytePlane(p, |p|, Width(p))
  }

  /** _match_channel_histogram: fills the lookup table level by level, then
      maps every source sample through it. */
  method MatchChannelHistogram(source: Plane, reference: Plane) returns (matched: Plane)
    requires IsChannel(source) && IsChannel(reference)
    ensures matched == ApplyTable(MatchingTable(source, reference), source)
  {
    var srcCdf := NormCdf(Flatten(source));
    var refCdf := NormCdf(Flatten(reference));
    var mapping := new int[256];
    for i := 0 to 256
      invariant forall v :: 0 <= v < i ==> mapping[v] == ClosestLevel(refCdf, srcCdf[v])
    {
      mapping[i] := ClosestLevel(refCdf, srcCdf[i]);
    }
    assert mapping[..] == MatchingTable(source, reference);
    matched := ApplyTable(mapping[..], source);
  }

  /** Matching against itself: every level that occurs in the channel maps
      to itself, since its CDF rises at that level and the search takes the
      first closest level. */
  lemma SelfMatchFixesOccurringLevels(p: Plane, v: nat)
    requires IsChannel(p) && v < 256 && v in Flatten(p)
    ensures MatchingTable(p, p)[v] == v
  {
    var s := Flatten(p);
    FlattenOfBytePlane(p, |p|, Width(p));
    var cdf := NormCdf(s);
    var j := MatchingTable(p, p)[v];
    assert j == ClosestLevel(cdf, cdf[v]);
    if j < v {
      EarlierLevelHasSmallerCdf(s, j, v);
      assert false;
    }
  }

  /** A level that occurs lifts the CDF above every lower level's value. */
  lemma EarlierLevelHasSmallerCdf(s: seq<int>, j: nat, v: nat)
    requires AllBytes(s) && |s| > 0 && j < v < 256 && v in s
    ensures NormCdf(s)[j] < NormCdf(s)[v]
  {
    CountPositive(s, v);
    AtMostStep(s, v);
    AtMostMonotone(s, j, v - 1);
    CdfAt(s, j);
    CdfAt(s, v);
    StrictDivMonotone(AtMost(s, j), AtMost(s, v), |s|);
  }

  lemma StrictDivMonotone(a: nat, b: nat, n: nat)
    requires a < b && n > 0
    ensures a as real / n as real < b as real / n as real
  {
  }

  /** Hence matching a channel against itself gives the channel back. */
  lemma SelfMatchIsIdentity(p: Plane)
    requires IsChannel(p)
    ensures ApplyTable(MatchingTable(p, p), p) == p
  {
    var q := ApplyTable(MatchingTable(p, p), p);
    forall r | 0 <= r < |p|
      ensures q[r] == p[r]
    {
      forall c | 0 <= c < |p[r]|
        ensures q[r][c] == p[r][c]
      {
        FlattenHas(p, r, c);
        SelfMatchFixesOccurringLevels(p, p[r][c]);
      }
    }
  }

  /** The statistics block of calculate_histogram, over all samples of all channels. */
  datatype Statistics = Statistics(mean: real, std: real, min: int, max: int)

  /** calculate_histogram's result: one 256-bin count per channel, then the statistics. */
  datatype HistogramData = HistogramData(blue: seq<nat>, green: seq<nat>, red: seq<nat>, statistics: Statistics)

  function Min(s: seq<int>): (m: int)
    requires |s| > 0
    ensures m in s && forall i :: 0 <= i < |s| ==> m <= s[i]
  {
    if |s| == 1 then s[0]
    else
      var m := Min(s[..|s| - 1]);
      assert forall i :: 0 <= i < |s| - 1 ==> s[i] == s[..|s| - 1][i];
      if s[|s| - 1] < m then s[|s| - 1] else m
  }

  function Max(s: seq<int>): (m: int)
    requires |s| > 0
    ensures m in s && forall i :: 0 <= i < |s| ==> s[i] <= m
  {
    if |s| == 1 then s[0]
    else
      var m := Max(s[..|s| - 1]);
      assert forall i :: 0 <= i < |s| - 1 ==> s[i] == s[..|s| - 1][i];
      if s[|s| - 1] > m then s[|s| - 1] else m
  }

  /** Every sample of the image, channel after channel. */
  function AllSamples(img: Image): seq<int>
  {
    Flatten(img.b) + Flatten(img.g) + Flatten(img.r)
  }

  /** calculate_histogram; None when the image did not load. */
  function CalculateHistogram(cv: Cv, img: Option<Image>): (r: Option<HistogramData>)
    requires img.Some? ==> img.value.Valid()
    ensures r.Some? <==> img.Some?
  {
    if img.None? then None
    else
      var all := AllSamples(img.value);
      LengthOfAllSamples(img.value);
      Some(HistogramData(HistogramOf(Flatten(img.value.b)), HistogramOf(Flatten(img.value.g)), HistogramOf(Flatten(img.value.r)),
                         Statistics(Sum(all) as real / |all| as real, cv.std(all), Min(all), Max(all))))
  }

  lemma LengthOfAllSamples(img: Image)
    requires img.Valid()
    ensures |AllSamples(img)| == 3 * img.height * img.width > 0
    ensures AllBytes(AllSamples(img))
  {
    FlattenOfBytePlane(img.b, img.height, img.width);
    FlattenOfBytePlane(img.g, img.height, img.width);
    FlattenOfBytePlane(img.r, img.height, img.width);
    var all := AllSamples(img);
    var nb, ng := |Flatten(img.b)|, |Flatten(img.g)|;
    forall i | 0 <= i < |all|
      ensures IsByte(all[i])
    {
      if i < nb {
        assert all[i] == Flatten(img.b)[i];
      } else if i < nb + ng {
        assert all[i] == Flatten(img.g)[i - nb];
      } else {
        assert all[i] == Flatten(img.r)[i - nb - ng];
      }
    }
  }

  /** The counts of a channel add up to its number of pixels. */
  lemma {:induction false} HistogramTotal(s: seq<int>)
    requires AllBytes(s)
    ensures Sum(HistogramOf(s)) == |s|
  {
    var h := HistogramOf(s);
    CumSumCountsAtMost(s, 255);
    AtMostBounds(s);
    assert h[..256] == h;
  }

  lemma {:induction false} SumBounds(s: seq<int>, lo: int, hi: int)
    requires forall i :: 0 <= i < |s| ==> lo <= s[i] <= hi
    ensures |s| * lo <= Sum(s) <= |s| * hi
  {
    if s != [] {
      SumBounds(s[..|s| - 1], lo, hi);
    }
  }

  /** calculate_histogram's numbers: every channel's bins sum to height x
      width, and the statistics satisfy 0 <= min <= mean <= max <= 255. */
  lemma CalculateHistogramFacts(cv: Cv, img: Image)
    requires img.Valid()
    ensures var d := CalculateHistogram(cv, Some(img)).value;
      && Sum(d.blue) == img.height * img.width && Sum(d.green) == img.height * img.width
      && Sum(d.red) == img.height * img.width
      && 0 <= d.statistics.min <= d.statistics.max <= 255
      && d.statistics.min as real <= d.statistics.mean <= d.statistics.max as real
  {
    FlattenOfBytePlane(img.b, img.height, img.width);
    FlattenOfBytePlane(img.g, img.height, img.width);
    FlattenOfBytePlane(img.r, img.height, img.width);
    HistogramTotal(Flatten(img.b));
    HistogramTotal(Flatten(img.g));
    HistogramTotal(Flatten(img.r));
    LengthOfAllSamples(img);
    var all := AllSamples(img);
    var lo, hi := Min(all), Max(all);
    SumBounds(all, lo, hi);
    MeanBetween(Sum(all), |all|, lo, hi);
  }

  lemma MeanBetween(total: int, n: nat, lo: int, hi: int)
    requires n > 0 && n * lo <= total <= n * hi
    ensures lo as real <= total as real / n as real <= hi as real
  {
    assert (n * lo) as real == n as real * lo as real;
    assert (n * hi) as real == n as real * hi as real;
  }
}
