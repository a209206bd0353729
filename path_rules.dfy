/** Path checks shared by the tools: lower-casing, os.path.splitext on a
    POSIX path, the five supported image extensions, and the validate_image
    routine that the watermarking, blending and analysis classes each carry
    an identical copy of. File existence and decodability are collaborators. */
module PathRules {

  const SupportedFormats: seq<string> := [".jpg", ".jpeg", ".png", ".bmp", ".tiff"]

  /** str.lower on the ASCII letters. */
  function LowerChar(ch: char): char
  {
    if 'A' <= ch <= 'Z' then (ch as int + 32) as char else ch
  }

  function Lower(s: string): (t: string)
    ensures |t| == |s| && forall i :: 0 <= i < |s| ==> t[i] == LowerChar(s[i])
  {
    seq(|s|, i requires 0 <= i < |s| => LowerChar(s[i]))
  }

  lemma LowerConcat(a: string, b: string)
    ensures Lower(a + b) == Lower(a) + Lower(b)
  {
    assert forall i :: 0 <= i < |a + b| ==> Lower(a + b)[i] == (Lower(a) + Lower(b))[i];
  }

  /** str.rfind(ch): the last index holding ch, or -1 when there is none. */
  function RFind(s: string, ch: char): (k: int)
    ensures -1 <= k < |s|
    ensures k >= 0 ==> s[k] == ch
    ensures forall j :: k < j < |s| ==> s[j] != ch
  {
    if |s| == 0 then -1
    else if s[|s| - 1] == ch then |s| - 1
    else RFind(s[..|s| - 1], ch)
  }

  /** Any index characterised by the contract of RFind is RFind's answer. */
  lemma RFindUnique(s: string, ch: char, k: int)
    requires -1 <= k < |s|
    requires k >= 0 ==> s[k] == ch
    requires forall j :: k < j < |s| ==> s[j] != ch
    ensures RFind(s, ch) == k
  {
  }

  predicate HasNonDot(s: string, lo: int, hi: int)
    requires 0 <= lo <= hi <= |s|
  {
    exists k :: lo <= k < hi && s[k] != '.'
  }

  /** os.path.splitext (posixpath): the extension starts at the last '.'
      of the final path component, unless everything before that dot in the
      component is dots (".bashrc" has no extension). */
  function SplitExt(p: string): (pair: (string, string))
    ensures pair.0 + pair.1 == p
    ensures pair.1 == [] || (pair.1[0] == '.' && forall j :: 0 < j < |pair.1| ==> pair.1[j] != '.' && pair.1[j] != '/')
  {
    var sep := RFind(p, '/');
    var dot := RFind(p, '.');
    if dot > sep && HasNonDot(p, sep + 1, dot) then (p[..dot], p[dot..]) else (p, [])
  }

  /** A final component with a non-dot character, followed by a one-dot
      extension, splits exactly there. */
  lemma {:induction false} SplitExtOfSuffix(stem: string, ext: string)
    requires OneDotExtension(ext)
    requires HasNonDot(stem, RFind(stem, '/') + 1, |stem|)
    ensures SplitExt(stem + ext) == (stem, ext)
  {
    var p := stem + ext;
    var s0 := RFind(stem, '/');
    RFindUnique(p, '/', s0);
    RFindUnique(p, '.', |stem|);
    var k :| s0 + 1 <= k < |stem| && stem[k] != '.';
    assert p[k] == stem[k];
    assert HasNonDot(p, s0 + 1, |stem|);
    assert p[..|stem|] == stem && p[|stem|..] == ext;
  }

  /** An extension with exactly one dot, at its start, and no separator. */
  predicate OneDotExtension(e: string)
  {
    |e| >= 1 && e[0] == '.' && forall j :: 0 < j < |e| ==> e[j] != '.' && e[j] != '/'
  }

  lemma FormatsAreOneDot(e: string)
    requires e in SupportedFormats
    ensures OneDotExtension(e)
  {
  }

  predicate HasSupportedExtension(path: string)
  {
    SplitExt(Lower(path)).1 in SupportedFormats
  }

  /** The extension test ignores ASCII case: a path and its lower-cased form agree. */
  lemma ExtensionCaseInsensitive(path: string)
    ensures HasSupportedExtension(path) == HasSupportedExtension(Lower(path))
  {
    assert Lower(Lower(path)) == Lower(path);
  }

  /** Lower-casing moves no separator and keeps a non-dot character a non-dot. */
  lemma LowerKeepsName(stem: string)
    requires HasNonDot(stem, RFind(stem, '/') + 1, |stem|)
    ensures RFind(Lower(stem), '/') == RFind(stem, '/')
    ensures HasNonDot(Lower(stem), RFind(Lower(stem), '/') + 1, |stem|)
  {
    var ls := Lower(stem);
    var s0 := RFind(stem, '/');
    forall j | s0 < j < |ls|
      ensures ls[j] != '/'
    {
      assert ls[j] == LowerChar(stem[j]);
    }
    RFindUnique(ls, '/', s0);
    var k :| s0 + 1 <= k < |stem| && stem[k] != '.';
    assert ls[k] == LowerChar(stem[k]);
  }

  /** Lower-casing keeps a one-dot extension where it was. */
  lemma LoweredSplit(stem: string, ext: string)
    requires OneDotExtension(Lower(ext))
    requires HasNonDot(stem, RFind(stem, '/') + 1, |stem|)
    ensures SplitExt(Lower(stem + ext)).1 == Lower(ext)
  {
    LowerKeepsName(stem);
    SplitExtOfSuffix(Lower(stem), Lower(ext));
    LowerConcat(stem, ext);
  }

  /** Any path whose last component has a name and ends in one of the five
      extensions, in any ASCII case (".JPG", ".Tiff"), passes the extension test. */
  lemma SupportedSuffixAccepted(stem: string, ext: string)
    requires Lower(ext) in SupportedFormats
    requires HasNonDot(stem, RFind(stem, '/') + 1, |stem|)
    ensures HasSupportedExtension(stem + ext)
  {
    FormatsAreOneDot(Lower(ext));
    LoweredSplit(stem, ext);
  }

  /** What cv2.imread does with an existing file: decodes it, returns None, or raises. */
  datatype LoadOutcome = Decoded | NotDecoded | Raised(error: string)

  /** The (bool, message) pair the validators return. */
  datatype Verdict = Verdict(ok: bool, message: string)

  const MissingMessage: string := "File does not exist"
  const UnsupportedMessage: string := "Unsupported format. Supported: ['.jpg', '.jpeg', '.png', '.bmp', '.tiff']"
  const NotDecodedMessage: string := "Could not load image"
  const ValidMessage: string := "Valid image"

  /** validate_image: existence first, then the lower-cased extension, then decoding. */
  function ValidateImage(path: string, fileExists: string -> bool, load: string -> LoadOutcome): (v: Verdict)
    ensures v.ok <==> fileExists(path) && HasSupportedExtension(path) && load(path).Decoded?
    ensures v.ok ==> v.message == ValidMessage
    ensures !fileExists(path) ==> v.message == MissingMessage
    ensures fileExists(path) && !HasSupportedExtension(path) ==> v.message == UnsupportedMessage
    ensures fileExists(path) && HasSupportedExtension(path) ==>
      (load(path).NotDecoded? ==> v.message == NotDecodedMessage) &&
      (load(path).Raised? ==> v.message == "Error loading image: " + load(path).error)
  {
    if !fileExists(path) then Verdict(false, MissingMessage)
    else if !HasSupportedExtension(path) then Verdict(false, UnsupportedMessage)
    else match load(path)
      case Decoded => Verdict(true, ValidMessage)
      case NotDecoded => Verdict(false, NotDecodedMessage)
      case Raised(e) => Verdict(false, "Error loading image: " + e)
  }

  /** A file with an unsupported extension is rejected before any decode is
      attempted: the decoder's behaviour cannot change the verdict. */
  lemma UnsupportedNeverDecoded(path: string, fileExists: string -> bool, load1: string -> LoadOutcome, load2: string -> LoadOutcome)
    requires !HasSupportedExtension(path)
    ensures ValidateImage(path, fileExists, load1) == ValidateImage(path, fileExists, load2)
    ensures !ValidateImage(path, fileExists, load1).ok
  {
  }
}
