/** Pixel matrices as the image tools see them after cv2.imread: an 8-bit,
    three-channel (B, G, R) image kept as three planes, plus the small
    helpers every component shares (optional values, 8-bit conversion,
    grey-to-colour replication, default output paths). */
module Raster {

  datatype Option<T> = None | Some(value: T)

  /** One channel, row-major: p[r][c]. */
  type Plane = seq<seq<int>>

  /** A floating-point channel (numpy float32/float64 arrays, kept exact). */
  type RealPlane = seq<seq<real>>

  predicate IsGrid<T>(p: seq<seq<T>>, h: nat, w: nat)
  {
    |p| == h && forall r :: 0 <= r < h ==> |p[r]| == w
  }

  predicate IsByte(x: int)
  {
    0 <= x <= 255
  }

  predicate IsBytePlane(p: Plane, h: nat, w: nat)
  {
    IsGrid(p, h, w) && forall r, c :: 0 <= r < h && 0 <= c < w ==> IsByte(p[r][c])
  }

  /** A decoded colour image: height x width x 3, channel order B, G, R.
      cv2.imread never yields an image with no rows or no columns. */
  datatype Image = Image(height: nat, width: nat, b: Plane, g: Plane, r: Plane)
  {
    predicate Valid()
    {
      height > 0 && width > 0 &&
      IsBytePlane(b, height, width) && IsBytePlane(g, height, width) && IsBytePlane(r, height, width)
    }
  }

  function Height<T>(p: seq<seq<T>>): nat
  {
    |p|
  }

  function Width<T>(p: seq<seq<T>>): nat
  {
    if |p| == 0 then 0 else |p[0]|
  }

  /** cv2.cvtColor(p, COLOR_GRAY2BGR): the grey plane copied into all three channels. */
  function GrayToBgr(p: Plane): (img: Image)
    ensures img.b == img.g == img.r == p
    ensures IsBytePlane(p, Height(p), Width(p)) && |p| > 0 && Width(p) > 0 ==> img.Valid()
  {
    Image(Height(p), Width(p), p, p, p)
  }

  /** np.clip(x, 0, 255).astype(np.uint8): clip to [0, 255], then truncate toward zero. */
  function ToByte(x: real): (v: int)
    ensures IsByte(v)
    ensures x <= 0.0 ==> v == 0
    ensures x >= 255.0 ==> v == 255
    ensures 0.0 <= x <= 255.0 ==> v as real <= x < v as real + 1.0
  {
    if x < 0.0 then 0 else if x > 255.0 then 255 else x.Floor
  }

  /** An integer sample that is already in range passes through the 8-bit conversion unchanged. */
  lemma ToByteOfByte(x: int)
    requires IsByte(x)
    ensures ToByte(x as real) == x
  {
  }

  /** p[r][c], with a sample the plane does not have read as 0. */
  function SampleAt(p: Plane, r: nat, c: nat): int
  {
    if r < |p| && c < |p[r]| then p[r][c] else 0
  }

  function AsReal(p: Plane): RealPlane
  {
    seq(|p|, r requires 0 <= r < |p| => seq(|p[r]|, c requires 0 <= c < |p[r]| => p[r][c] as real))
  }

  function ToBytePlane(p: RealPlane): (q: Plane)
    ensures IsBytePlane(q, Height(p), Width(p)) || !IsGrid(p, Height(p), Width(p))
  {
    seq(|p|, r requires 0 <= r < |p| => seq(|p[r]|, c requires 0 <= c < |p[r]| => ToByte(p[r][c])))
  }

  /** What an operation writes with cv2.imwrite and returns: the path and the image. */
  datatype Saved = Saved(path: string, image: Image)

  /** `if output_path is None: output_path = <default>`. */
  function OutputPath(given: Option<string>, default: string): string
  {
    if given.Some? then given.value else default
  }

  /** The default result name "<dir>/<stem>_<timestamp>.jpg" the operations build. */
  function DefaultPath(dir: string, stem: string, timestamp: string): string
  {
    dir + "/" + stem + "_" + timestamp + ".jpg"
  }
}
