/**
 * The upload rules of the HTTP front end: which file names are accepted,
 * how an output name is formed, and which answer `seg_file` gives to an
 * upload request. Routing, multipart parsing and streaming the answer back
 * are not modelled; a request is the map from its file-part names to the
 * names of the uploaded files.
 */
module Server {
  import opened Wrappers

  /** `ALLOWED_EXTENSION`. */
  const AllowedExtension: string := "nii"

  /** `UPLOAD_FILENAME`: the name every accepted upload is given before prediction. */
  const UploadFilename: string := "seg_CT.nii"

  /** What `format_output_filename` appends to the prefix. */
  const OutputSuffix: string := "__niftynet_out.nii.gz"

  /** `str.lower` restricted to ASCII letters. */
  function LowerChar(c: char): char
  {
    if 'A' <= c <= 'Z' then (c as int - 'A' as int + 'a' as int) as char else c
  }

  function Lower(s: string): (r: string)
    ensures |r| == |s|
    ensures forall i :: 0 <= i < |s| ==> r[i] == LowerChar(s[i])
    ensures forall i :: 0 <= i < |r| ==> !('A' <= r[i] <= 'Z')
    ensures forall i :: 0 <= i < |s| && !('A' <= s[i] <= 'Z') ==> r[i] == s[i]
  {
    seq(|s|, i requires 0 <= i < |s| => LowerChar(s[i]))
  }

  /**
   * The extension as the upload filter sees it, when `f` has a dot: the text after the last dot,
   * which is a suffix of `f` preceded by a dot and holding none.
   */
  function AfterLastDot(f: string): (r: Option<string>)
    ensures r.None? <==> '.' !in f
    ensures r.Some? ==>
      (|r.value| < |f| && f[|f| - |r.value| - 1] == '.' &&
       f[|f| - |r.value|..] == r.value && '.' !in r.value)
    decreases |f|
  {
    if f == [] then None
    else if f[|f| - 1] == '.' then Some([])
    else
      var init := f[..|f| - 1];
      assert f == init + [f[|f| - 1]];
      match AfterLastDot(init)
      case None => None
      case Some(ext) => Some(ext + [f[|f| - 1]])
  }

  /** `file_format_is_allowed`. */
  function FileFormatIsAllowed(f: string): (r: bool)
    ensures r ==> |f| >= 4 && f[|f| - 4] == '.' && Lower(f[|f| - 3..]) == AllowedExtension
  {
    '.' in f && Lower(AfterLastDot(f).value) == AllowedExtension
  }

  /**
   * A name is allowed exactly when it has a dot and the text after its last
   * dot, lower-cased, is `nii`.
   */
  lemma AllowedIff(f: string)
    ensures FileFormatIsAllowed(f) <==>
      exists i :: 0 <= i < |f| && f[i] == '.' && '.' !in f[i + 1..] && Lower(f[i + 1..]) == AllowedExtension
  {
    if FileFormatIsAllowed(f) {
      var ext := AfterLastDot(f).value;
      var i := |f| - |ext| - 1;
      assert f[i] == '.' && f[i + 1..] == ext;
    }
    if i :| 0 <= i < |f| && f[i] == '.' && '.' !in f[i + 1..] && Lower(f[i + 1..]) == AllowedExtension {
      var ext := AfterLastDot(f).value;
      assert f[i + 1..] == ext;
    }
  }

  /** Lower-casing keeps the dots where they are. */
  lemma LowerKeepsDots(f: string, i: nat)
    requires i < |f|
    ensures (f[i] == '.') == (Lower(f)[i] == '.')
    ensures ('.' in f[i + 1..]) == ('.' in Lower(f)[i + 1..])
    ensures Lower(f[i + 1..]) == Lower(f)[i + 1..]
  {
    if '.' in f[i + 1..] {
      var k :| 0 <= k < |f[i + 1..]| && f[i + 1..][k] == '.';
      assert Lower(f)[i + 1..][k] == '.';
    }
    if '.' in Lower(f)[i + 1..] {
      var k :| 0 <= k < |Lower(f)[i + 1..]| && Lower(f)[i + 1..][k] == '.';
      assert LowerChar(f[i + 1 + k]) == '.';
      assert f[i + 1..][k] == '.';
    }
  }

  /**
   * The check is case-insensitive: two names that differ only in the case
   * of their letters are both allowed or both refused.
   */
  lemma AllowedIgnoresCase(f: string, g: string)
    requires Lower(f) == Lower(g)
    ensures FileFormatIsAllowed(f) == FileFormatIsAllowed(g)
  {
    AllowedIff(f);
    AllowedIff(g);
    if FileFormatIsAllowed(f) {
      var i :| 0 <= i < |f| && f[i] == '.' && '.' !in f[i + 1..] && Lower(f[i + 1..]) == AllowedExtension;
      LowerKeepsDots(f, i);
      LowerKeepsDots(g, i);
    }
    if FileFormatIsAllowed(g) {
      var i :| 0 <= i < |g| && g[i] == '.' && '.' !in g[i + 1..] && Lower(g[i + 1..]) == AllowedExtension;
      LowerKeepsDots(f, i);
      LowerKeepsDots(g, i);
    }
  }

  /** An upper-case extension is accepted. */
  lemma UpperCaseExtensionAllowed()
    ensures FileFormatIsAllowed("a.NII")
  {
    assert "a.NII"[..4] == "a.NI";
    assert "a.NI"[..3] == "a.N";
    assert "a.N"[..2] == "a.";
  }

  /** The name uploads are renamed to is itself accepted. */
  lemma UploadFilenameAllowed()
    ensures FileFormatIsAllowed(UploadFilename)
  {
    assert UploadFilename[..9] == "seg_CT.ni";
    assert "seg_CT.ni"[..8] == "seg_CT.n";
    assert "seg_CT.n"[..7] == "seg_CT.";
  }

  /** Only the last extension counts: a compressed NIfTI name is refused. */
  lemma CompressedNameRefused()
    ensures !FileFormatIsAllowed("a.nii.gz")
  {
    assert "a.nii.gz"[..7] == "a.nii.g";
    assert "a.nii.g"[..6] == "a.nii.";
  }

  /** A name without a dot is refused, even if it spells the extension. */
  lemma BareExtensionRefused()
    ensures !FileFormatIsAllowed("nii")
  {
    assert "nii"[0] != '.' && "nii"[1] != '.' && "nii"[2] != '.';
  }

  /** The text before the first underscore, or all of the name if it has none. */
  function BeforeFirstUnderscore(f: string): (p: string)
    ensures |p| <= |f| && p == f[..|p|]
    ensures '_' !in p
    ensures |p| < |f| ==> f[|p|] == '_'
  {
    if f == [] || f[0] == '_' then []
    else [f[0]] + BeforeFirstUnderscore(f[1..])
  }

  /**
   * `format_output_filename`: the result ends with the fixed suffix, and
   * what comes before it is the longest underscore-free prefix of the name.
   */
  function FormatOutputFilename(f: string): (r: string)
    ensures |r| >= |OutputSuffix| && r[|r| - |OutputSuffix|..] == OutputSuffix
    ensures var p := r[..|r| - |OutputSuffix|];
      |p| <= |f| && p == f[..|p|] && '_' !in p && (|p| < |f| ==> f[|p|] == '_')
  {
    var p := BeforeFirstUnderscore(f);
    assert (p + OutputSuffix)[..|p|] == p;
    p + OutputSuffix
  }

  /** The prefix is determined by where the first underscore is. */
  lemma PrefixBeforeUnderscore(p: string, s: string)
    requires '_' !in p && |s| > 0 && s[0] == '_'
    ensures BeforeFirstUnderscore(p + s) == p
  {
    var q := BeforeFirstUnderscore(p + s);
    assert q == (p + s)[..|p|] == p;
  }

  /** Formatting an output name that is already formatted changes nothing. */
  lemma FormatOutputFilenameIdempotent(f: string)
    ensures FormatOutputFilename(FormatOutputFilename(f)) == FormatOutputFilename(f)
  {
    var p := BeforeFirstUnderscore(f);
    PrefixBeforeUnderscore(p, OutputSuffix);
  }

  /** The answers of `seg_file`. */
  datatype Response =
    | Reject(message: string, status: int) // a client error, returned before prediction
    | Predict(upload: string)              // `abdominal_model.predict` is called on the upload, named `upload`
    | NoReturn                             // the view falls off its end and returns nothing

  /**
   * `seg_file` on a request whose file parts are `files`. The checks come in
   * a fixed order: a missing "file" part, then an empty file name, then the
   * extension. An upload that passes is renamed to `UploadFilename` before
   * prediction (the source assigns `file.filename`; here the new name is
   * returned). The `file and ...` test is true for every upload with a
   * non-empty name, which is all that reach it.
   */
  function SegFile(files: map<string, string>): (r: Response)
    ensures r.Reject? ==> r.status == 400
    ensures r == Reject("No file in the request", 400) <==> "file" !in files
    ensures r == Reject("No selected file", 400) <==> "file" in files && files["file"] == ""
    ensures r.Predict? <==> "file" in files && files["file"] != "" && FileFormatIsAllowed(files["file"])
    ensures r.NoReturn? <==> "file" in files && files["file"] != "" && !FileFormatIsAllowed(files["file"])
    ensures r.Predict? ==> r.upload == UploadFilename
  {
    if "file" !in files then Reject("No file in the request", 400)
    else
      var upload := files["file"];
      if upload == "" then Reject("No selected file", 400)
      else if FileFormatIsAllowed(upload) then
        Predict(if upload != UploadFilename then UploadFilename else upload)
      else NoReturn
  }

  /** The renamed upload still passes the extension check. */
  lemma PredictedUploadIsAllowed(files: map<string, string>)
    requires SegFile(files).Predict?
    ensures FileFormatIsAllowed(SegFile(files).upload)
  {
    UploadFilenameAllowed();
  }
}
