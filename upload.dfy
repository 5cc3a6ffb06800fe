/** /upload_image (app.py): the file-name whitelist `allowed_file` and the
    checks the handler makes before it analyses an image. */
module Upload {
  import opened Text
  import opened Json

  const AllowedExtensions: set<string> := {"png", "jpg", "jpeg", "gif"}

  /** `allowed_file`: the text after the last '.', lower-cased, is an
      allowed extension. */
  function AllowedFile(filename: string): (ok: bool)
    ensures ok ==> '.' in filename && 3 <= |filename| - 1 - LastIndexOf(filename, '.') <= 4
  {
    var dot := LastIndexOf(filename, '.');
    dot >= 0 && Lower(filename[dot + 1..]) in AllowedExtensions
  }

  /** A name is allowed exactly when it holds a '.' and the text after its
      last '.', lower-cased, is one of the allowed extensions. */
  lemma AllowedFileSpec(filename: string)
    ensures AllowedFile(filename) <==> exists i :: LastDotAt(filename, i) && Lower(filename[i + 1..]) in AllowedExtensions
  {
    var dot := LastIndexOf(filename, '.');
    if dot >= 0 {
      assert LastDotAt(filename, dot);
      forall i | LastDotAt(filename, i) ensures i == dot { LastDotUnique(filename, i, dot); }
    }
  }

  /** Position i holds the last '.' of the name. */
  predicate LastDotAt(filename: string, i: int)
  {
    0 <= i < |filename| && filename[i] == '.' && '.' !in filename[i + 1..]
  }

  lemma LastDotUnique(filename: string, i: int, j: int)
    requires LastDotAt(filename, i) && LastDotAt(filename, j)
    ensures i == j
  {
  }

  /** Lower-casing the name does not change the verdict: the extension is
      compared case-insensitively. */
  lemma AllowedFileIgnoresCase(filename: string)
    ensures AllowedFile(Lower(filename)) == AllowedFile(filename)
  {
    var low, dot := Lower(filename), LastIndexOf(filename, '.');
    LowerKeepsLastDot(filename);
    if dot >= 0 {
      var ext := filename[dot + 1..];
      LowerSuffix(filename, dot + 1);
      LowerIdempotent(ext);
    }
    SameExtensionSameVerdict(low, filename);
  }

  /** Two names with the last '.' at the same place and the same
      extension up to case get the same verdict. */
  lemma SameExtensionSameVerdict(a: string, b: string)
    requires LastIndexOf(a, '.') == LastIndexOf(b, '.')
    requires var dot := LastIndexOf(b, '.');
      dot >= 0 ==> Lower(a[dot + 1..]) == Lower(b[dot + 1..])
    ensures AllowedFile(a) == AllowedFile(b)
  {
  }

  lemma LowerKeepsLastDot(filename: string)
    ensures LastIndexOf(Lower(filename), '.') == LastIndexOf(filename, '.')
  {
    var low := Lower(filename);
    var dot, lowDot := LastIndexOf(filename, '.'), LastIndexOf(low, '.');
    if dot >= 0 {
      assert LastDotAt(low, dot);
      assert LastDotAt(low, lowDot);
      LastDotUnique(low, lowDot, dot);
    }
  }

  lemma LowerSuffix(s: string, k: nat)
    requires k <= |s|
    ensures Lower(s)[k..] == Lower(s[k..])
  {
  }

  /** A bare extension has no '.', so it is refused. */
  lemma BareExtensionRefused()
    ensures !AllowedFile("png")
  {
  }

  /** Only the last extension counts. */
  lemma DoubleExtensionRefused()
    ensures !AllowedFile("a.tar.gz")
  {
    assert LastIndexOf("a.tar.gz", '.') == 5;
    assert Lower("gz") == "gz";
  }

  /** An upper-case extension is accepted. */
  lemma UpperCaseExtensionAccepted()
    ensures AllowedFile("x.PNG")
  {
    assert LastIndexOf("x.PNG", '.') == 1;
    assert Lower("PNG") == "png";
  }

  const AnalysedStyle := "classic"

  /** What /upload_image answers: the analysed style, a 400 with an error,
      or a 500 when saving or analysing the file raises. */
  datatype UploadResult = Style(style: string) | Refused(error: string) | ServerError

  /** /upload_image for a request whose file part is `file` (None when the
      request has none). `analysed` says whether saving the file and the
      cv2 steps of `analyze_image` finish without raising: `cv2.imread`
      gives None for content that is not a decodable image, and
      `cv2.cvtColor` then raises. When they finish, the analysis answers
      the constant "classic". */
  function UploadImage(file: Option<string>, analysed: bool): (r: UploadResult)
    ensures r.Style? <==> file.Some? && AllowedFile(file.value) && analysed
    ensures r.Style? ==> r.style == AnalysedStyle
    ensures r.ServerError? <==> file.Some? && AllowedFile(file.value) && !analysed
    ensures file.None? ==> r == Refused("No file part")
    ensures file == Some("") ==> r == Refused("No selected file")
    ensures file.Some? && file.value != "" && !AllowedFile(file.value) ==> r == Refused("File type not allowed")
  {
    match file
    case None => Refused("No file part")
    case Some(name) =>
      if name == "" then Refused("No selected file")
      else if AllowedFile(name) then (if analysed then Style(AnalysedStyle) else ServerError)
      else Refused("File type not allowed")
  }
}
