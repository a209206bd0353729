/** The string and parameter helpers of AppUtils: image-path validation,
    human-readable file sizes, safe file names, parameter checks, text
    truncation, result file names and the default parameter table. */
module AppUtils {
  import opened Raster
  import opened PathRules

  // ---------------------------------------------------------------- validate_image_path

  const NoPathMessage: string := "No image path provided"

  /** validate_image_path: a missing or empty path first, then existence,
      then the lower-cased extension. The file is not decoded. */
  function ValidateImagePath(imagePath: Option<string>, fileExists: string -> bool): (v: Verdict)
    ensures imagePath.None? || imagePath == Some("") ==> v == Verdict(false, NoPathMessage)
    ensures imagePath.Some? && imagePath.value != "" ==>
      v.ok == (fileExists(imagePath.value) && HasSupportedExtension(imagePath.value))
    ensures imagePath.Some? && imagePath.value != "" && !fileExists(imagePath.value) ==>
      v.message == MissingMessage
    ensures imagePath.Some? && imagePath.value != "" && fileExists(imagePath.value) ==>
      v.message == (if HasSupportedExtension(imagePath.value) then ValidMessage else UnsupportedMessage)
  {
    if imagePath.None? || imagePath.value == "" then Verdict(false, NoPathMessage)
    else if !fileExists(imagePath.value) then Verdict(false, MissingMessage)
    else if !HasSupportedExtension(imagePath.value) then Verdict(false, UnsupportedMessage)
    else Verdict(true, ValidMessage)
  }

  /** On a path it accepts, validate_image_path agrees with validate_image up
      to decoding: both demand existence and a supported extension. */
  lemma ValidatePathAgreesWithValidateImage(path: string, fileExists: string -> bool, load: string -> LoadOutcome)
    requires path != ""
    ensures ValidateImage(path, fileExists, load).ok ==> ValidateImagePath(Some(path), fileExists).ok
    ensures !ValidateImagePath(Some(path), fileExists).ok ==>
      ValidateImage(path, fileExists, load) == ValidateImagePath(Some(path), fileExists)
  {
  }

  // ---------------------------------------------------------------- format_file_size

  const SizeNames: seq<string> := ["B", "KB", "MB", "GB"]

  /** 1024 to the power i, for the four units. */
  function UnitScale(i: nat): (s: real)
    requires i < |SizeNames|
    ensures s >= 1.0
  {
    if i == 0 then 1.0 else if i == 1 then 1024.0 else if i == 2 then 1048576.0 else 1073741824.0
  }

  /** The unit format_file_size settles on: the largest of B, KB, MB, GB whose scale the size reaches. */
  function UnitFor(size: real): (i: nat)
    ensures i < |SizeNames|
  {
    if size < 1024.0 then 0 else if size < 1048576.0 then 1 else if size < 1073741824.0 then 2 else 3
  }

  /** The result of format_file_size before "%.1f" rendering: the special
      "0 B" text, or a scaled value and an index into SizeNames. */
  datatype SizeLabel = ZeroBytes | Scaled(value: real, unit: nat)

  /** format_file_size: divide by 1024 while the value is at least 1024 and a larger unit remains. */
  method FormatFileSize(sizeBytes: real) returns (size: SizeLabel)
    ensures size == ZeroBytes <==> sizeBytes == 0.0
    ensures size.Scaled? ==> size.unit == UnitFor(sizeBytes) && size.unit < |SizeNames|
    ensures size.Scaled? ==> size.value * UnitScale(size.unit) == sizeBytes
  {
    if sizeBytes == 0.0 {
      return ZeroBytes;
    }
    var value := sizeBytes;
    var i: nat := 0;
    while value >= 1024.0 && i < |SizeNames| - 1
      invariant i < |SizeNames|
      invariant value * UnitScale(i) == sizeBytes
      invariant i <= UnitFor(sizeBytes)
    {
      assert sizeBytes >= 1024.0 * UnitScale(i);
      value := value / 1024.0;
      i := i + 1;
    }
    size := Scaled(value, i);
  }

  /** Below GB the shown value is in [1, 1024); a positive size never shows a value below 1 except in bytes. */
  lemma ScaledValueRange(sizeBytes: real)
    requires sizeBytes >= 1.0
    ensures var u := UnitFor(sizeBytes);
      1.0 <= sizeBytes / UnitScale(u) && (u < 3 ==> sizeBytes / UnitScale(u) < 1024.0)
  {
  }

  // ---------------------------------------------------------------- safe_filename

  /** The characters safe_filename replaces, in the order it replaces them. */
  const InvalidChars: string := "<>:\"/\\|?*"

  /** str.replace(a, b) for single characters. */
  function ReplaceChar(s: string, a: char, b: char): (t: string)
    ensures |t| == |s|
    ensures forall i :: 0 <= i < |s| ==> t[i] == (if s[i] == a then b else s[i])
  {
    seq(|s|, i requires 0 <= i < |s| => if s[i] == a then b else s[i])
  }

  /** Every invalid character replaced by '_', every other one kept. */
  function Sanitized(s: string): string
  {
    seq(|s|, i requires 0 <= i < |s| => if s[i] in InvalidChars then '_' else s[i])
  }

  /** safe_filename: one replace pass per invalid character. */
  method SafeFilename(filename: string) returns (safe: string)
    ensures safe == Sanitized(filename)
  {
    safe := filename;
    for k := 0 to |InvalidChars|
      invariant |safe| == |filename|
      invariant forall i :: 0 <= i < |safe| ==>
        safe[i] == (if filename[i] in InvalidChars[..k] then '_' else filename[i])
    {
      safe := ReplaceChar(safe, InvalidChars[k], '_');
    }
    assert InvalidChars[..|InvalidChars|] == InvalidChars;
  }

  /** A safe name has the original's length, none of the nine characters, and
      keeps every other character where it was. */
  lemma SanitizedSpec(s: string)
    ensures |Sanitized(s)| == |s|
    ensures forall i :: 0 <= i < |s| ==> Sanitized(s)[i] !in InvalidChars
    ensures forall i :: 0 <= i < |s| && s[i] !in InvalidChars ==> Sanitized(s)[i] == s[i]
    ensures forall i :: 0 <= i < |s| && s[i] in InvalidChars ==> Sanitized(s)[i] == '_'
  {
  }

  /** Sanitising a safe name changes nothing. */
  lemma SanitizedIdempotent(s: string)
    ensures Sanitized(Sanitized(s)) == Sanitized(s)
  {
  }

  // ---------------------------------------------------------------- validate_parameters

  /** A parameter value as validate_parameters distinguishes them. */
  datatype ParamValue = NoneValue | Text(s: string) | Other

  /** The characters Python's str.strip() removes (str.isspace). */
  predicate IsSpace(c: char)
  {
    c == ' ' || ('\t' <= c <= '\r') || ('\U{1C}' <= c <= '\U{1F}') || c == '\U{85}' || c == '\U{A0}' ||
    c == '\U{1680}' || ('\U{2000}' <= c <= '\U{200A}') || c == '\U{2028}' || c == '\U{2029}' ||
    c == '\U{202F}' || c == '\U{205F}' || c == '\U{3000}'
  }

  /** None, or a string that strips to "". */
  predicate IsBlank(v: ParamValue)
  {
    v.NoneValue? || (v.Text? && forall i :: 0 <= i < |v.s| ==> IsSpace(v.s[i]))
  }

  function BlankMessage(name: string, v: ParamValue): string
  {
    if v.NoneValue? then "Parameter " + name + " is None" else "Parameter " + name + " is empty"
  }

  const AllValidMessage: string := "All parameters valid"

  /** validate_parameters: scan the parameters in order and report the first blank one. */
  method ValidateParameters(params: seq<(string, ParamValue)>) returns (ok: bool, message: string)
    ensures ok <==> forall k :: 0 <= k < |params| ==> !IsBlank(params[k].1)
    ensures ok ==> message == AllValidMessage
    ensures !ok ==> (exists k :: 0 <= k < |params| && IsBlank(params[k].1) &&
                      (forall j :: 0 <= j < k ==> !IsBlank(params[j].1)) &&
                      message == BlankMessage(params[k].0, params[k].1))
  {
    var i := 0;
    while i < |params|
      invariant 0 <= i <= |params|
      invariant forall j :: 0 <= j < i ==> !IsBlank(params[j].1)
    {
      var (name, value) := params[i];
      if value.NoneValue? {
        return false, "Parameter " + name + " is None";
      }
      if value.Text? && forall c :: 0 <= c < |value.s| ==> IsSpace(value.s[c]) {
        return false, "Parameter " + name + " is empty";
      }
      i := i + 1;
    }
    return true, AllValidMessage;
  }

  // ---------------------------------------------------------------- truncate_text

  /** Python's s[:stop]: a negative stop counts from the end. */
  function PyPrefix(s: string, stop: int): (t: string)
    ensures t <= s
  {
    if stop >= 0 then s[..if stop < |s| then stop else |s|]
    else s[..if |s| + stop > 0 then |s| + stop else 0]
  }

  /** truncate_text: short text is returned as is; longer text keeps its
      first max_length - 3 characters and gains "...". */
  function TruncateText(text: string, maxLength: int): (r: string)
    ensures |text| <= maxLength ==> r == text
    ensures |text| > maxLength ==> |r| >= 3 && r[|r| - 3..] == "..." && r[..|r| - 3] <= text
    ensures |text| > maxLength && maxLength >= 3 ==> |r| == maxLength && r == text[..maxLength - 3] + "..."
  {
    if |text| <= maxLength then text else PyPrefix(text, maxLength - 3) + "..."
  }

  /** A limit below 3 makes the slice stop negative, so Python counts it from
      the end: the result is then longer than the limit. */
  lemma TruncateBelowThree(text: string, maxLength: int)
    requires 0 <= maxLength < 3 && |text| > maxLength
    ensures |TruncateText(text, maxLength)| == (if |text| + maxLength - 3 > 0 then |text| + maxLength - 3 else 0) + 3
    ensures |TruncateText(text, maxLength)| > maxLength
  {
  }

  // ---------------------------------------------------------------- create_result_filename

  /** create_result_filename: "{operation_type}_{timestamp}.jpg"; without a
      timestamp the current time `now` is used. The name ends in ".jpg", and
      as long as the timestamp holds no '/' it splits into
      "{operation_type}_{timestamp}" and ".jpg", so it passes the extension test. */
  function CreateResultFilename(operationType: string, timestamp: Option<string>, now: string): (name: string)
    ensures |name| >= 4 && name[|name| - 4..] == ".jpg"
    ensures var t := if timestamp.Some? then timestamp.value else now;
      (forall i :: 0 <= i < |t| ==> t[i] != '/') ==>
        SplitExt(name) == (operationType + "_" + t, ".jpg") && HasSupportedExtension(name)
  {
    var t := if timestamp.Some? then timestamp.value else now;
    ResultNameSplits(operationType, t);
    operationType + "_" + t + ".jpg"
  }

  /** A name "{operation}_{t}.jpg" with no '/' in t splits at ".jpg". */
  lemma ResultNameSplits(operationType: string, t: string)
    ensures (forall i :: 0 <= i < |t| ==> t[i] != '/') ==>
      SplitExt(operationType + "_" + t + ".jpg") == (operationType + "_" + t, ".jpg") &&
      HasSupportedExtension(operationType + "_" + t + ".jpg")
  {
    if forall i :: 0 <= i < |t| ==> t[i] != '/' {
      var stem := operationType + "_" + t;
      var k := RFind(stem, '/');
      assert stem[|operationType|] == '_';
      assert HasNonDot(stem, k + 1, |stem|);
      assert Lower(".jpg") == ".jpg";
      SplitExtOfSuffix(stem, ".jpg");
      SupportedSuffixAccepted(stem, ".jpg");
    }
  }

  // ---------------------------------------------------------------- parameter defaults and ranges

  /** A number together with the text Python's str() gives it in a message. */
  datatype Number = Number(value: real, text: string)

  function DefaultParameters(): map<string, real>
  {
    map["edge_opacity" := 50.0, "watermark_alpha" := 0.1, "blend_alpha" := 0.5,
        "kernel_size" := 5.0, "cutoff_freq" := 30.0, "threshold_value" := 127.0]
  }

  function ParameterRanges(): map<string, (Number, Number)>
  {
    map["edge_opacity" := (Number(0.0, "0"), Number(100.0, "100")),
        "watermark_alpha" := (Number(0.0, "0.0"), Number(1.0, "1.0")),
        "blend_alpha" := (Number(0.0, "0.0"), Number(1.0, "1.0")),
        "kernel_size" := (Number(3.0, "3"), Number(15.0, "15")),
        "cutoff_freq" := (Number(10.0, "10"), Number(100.0, "100")),
        "threshold_value" := (Number(0.0, "0"), Number(255.0, "255"))]
  }

  /** validate_parameter_range. `parsed` is float(value), None when float() raises. */
  function ValidateParameterRange(parsed: Option<real>, minVal: Number, maxVal: Number, paramName: string): (v: Verdict)
    ensures v.ok <==> parsed.Some? && minVal.value <= parsed.value <= maxVal.value
    ensures v.ok ==> v.message == "Valid"
    ensures parsed.None? ==> v.message == paramName + " must be a number"
    ensures parsed.Some? && !v.ok ==>
      v.message == paramName + " must be between " + minVal.text + " and " + maxVal.text
  {
    if parsed.None? then Verdict(false, paramName + " must be a number")
    else if minVal.value <= parsed.value <= maxVal.value then Verdict(true, "Valid")
    else Verdict(false, paramName + " must be between " + minVal.text + " and " + maxVal.text)
  }

  /** Every parameter with a default has a range, and the range accepts the default. */
  lemma DefaultsWithinRanges()
    ensures DefaultParameters().Keys == ParameterRanges().Keys
    ensures forall name :: name in DefaultParameters() ==>
      ValidateParameterRange(Some(DefaultParameters()[name]), ParameterRanges()[name].0,
                             ParameterRanges()[name].1, name).ok
  {
  }
}
