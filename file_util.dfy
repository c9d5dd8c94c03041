/**
 * File-name helpers shared by every endpoint: the pathlib `name`, `suffix`
 * and `stem` of a path, the lower-cased extension, the MIME table, the
 * generated upload names, and the three upload validators, which answer
 * HTTP 400 with a fixed message.
 */
module FileUtil {
  import opened Wrappers
  import opened PyBuiltins

  datatype HttpError = HttpError(status: int, detail: string)

  /** The right-most index of `c` in `s` (`str.rfind`), `None` for Python's `-1`. */
  function RFind(s: string, c: char): (r: Option<nat>)
    ensures r.Some? ==> r.value < |s| && s[r.value] == c && c !in s[r.value + 1..]
    ensures r.None? ==> c !in s
  {
    if s == [] then None
    else if s[|s| - 1] == c then Some(|s| - 1)
    else RFind(s[..|s| - 1], c)
  }

  lemma {:induction false} RFindAfter(a: string, c: char, b: string)
    requires c !in b
    ensures RFind(a + [c] + b, c) == Some(|a|)
    decreases |b|
  {
    var s := a + [c] + b;
    if b != [] {
      assert s[..|s| - 1] == a + [c] + b[..|b| - 1];
      RFindAfter(a, c, b[..|b| - 1]);
    }
  }

  /**
   * `PurePath(p).name` on POSIX paths: the last component, where empty
   * components (repeated or trailing slashes) and `.` components do not
   * count; `""` when no component is left.
   */
  function Name(p: string): (n: string)
    ensures '/' !in n && n != "."
    decreases |p|
  {
    if p != [] && p[|p| - 1] == '/' then Name(p[..|p| - 1])
    else
      match RFind(p, '/')
      case None => if p == "." then "" else p
      case Some(i) =>
        var last := p[i + 1..];
        if last == "." then Name(p[..i + 1]) else last
  }

  /** `PurePath(p).suffix`: from the last dot of the name, unless that dot is its first or last character. */
  function Suffix(p: string): string {
    var n := Name(p);
    match RFind(n, '.')
    case Some(i) => if 0 < i < |n| - 1 then n[i..] else ""
    case None => ""
  }

  /** `PurePath(p).stem`: the name without its suffix. */
  function Stem(p: string): string {
    var n := Name(p);
    match RFind(n, '.')
    case Some(i) => if 0 < i < |n| - 1 then n[..i] else n
    case None => n
  }

  /** An extension as pathlib reports one: a dot and at least one further character, no other dot, no slash. */
  predicate IsSuffixShape(e: string) {
    |e| >= 2 && e[0] == '.' && '.' !in e[1..] && '/' !in e
  }

  /** The stem and the suffix split the name, and a non-empty suffix has an extension's shape. */
  lemma StemSuffixSplitName(p: string)
    ensures Stem(p) + Suffix(p) == Name(p)
    ensures Suffix(p) == [] || IsSuffixShape(Suffix(p))
    ensures '/' !in Stem(p)
  {
    var n := Name(p);
    match RFind(n, '.')
    case Some(i) =>
      if 0 < i < |n| - 1 {
        assert n[..i] + n[i..] == n;
        assert n[i..][1..] == n[i + 1..];
      }
    case None =>
  }

  /** `get_file_extension`: the suffix of the file name, lower-cased. */
  function GetFileExtension(filename: string): (e: string)
    ensures e == [] || IsSuffixShape(e)
    ensures HasNoUpper(e)
  {
    StemSuffixSplitName(filename);
    Lower(Suffix(filename))
  }

  /** The name of a path whose text after its last slash is a proper file name. */
  lemma NameOfFileIn(dir: string, file: string)
    requires file != [] && '/' !in file && file != "."
    ensures Name(dir + "/" + file) == file
    ensures Name(file) == file
  {
    RFindAfter(dir, '/', file);
    assert (dir + "/" + file)[|dir| + 1..] == file;
  }

  /** A file name ending in an extension reports that extension, lower-cased, whatever directory holds it. */
  lemma ExtensionOfFileIn(dir: string, base: string, ext: string)
    requires base != [] && '/' !in base && IsSuffixShape(ext)
    ensures GetFileExtension(dir + "/" + base + ext) == Lower(ext)
    ensures GetFileExtension(base + ext) == Lower(ext)
  {
    var file := base + ext;
    NameOfFileIn(dir, file);
    assert dir + "/" + base + ext == dir + "/" + file;
    assert file == base + ['.'] + ext[1..];
    RFindAfter(base, '.', ext[1..]);
    assert file[|base|..] == ext;
  }

  // ---------------------------------------------------------------- MIME types

  const OctetStream := "application/octet-stream"

  const MimeTypes: map<string, string> := map[
    ".pdf" := "application/pdf",
    ".docx" := "application/vnd.openxmlformats-officedocument.wordprocessingml.document",
    ".xlsx" := "application/vnd.openxmlformats-officedocument.spreadsheetml.sheet",
    ".pptx" := "application/vnd.openxmlformats-officedocument.presentationml.presentation",
    ".png" := "image/png",
    ".jpg" := "image/jpeg",
    ".jpeg" := "image/jpeg",
    ".webp" := "image/webp",
    ".gif" := "image/gif",
    ".bmp" := "image/bmp",
    ".tiff" := "image/tiff",
    ".zip" := "application/zip"
  ]

  /**
   * `get_mime_type`: looked up case-insensitively; the generic binary type
   * is answered exactly for the extensions the table does not know.
   */
  function GetMimeType(extension: string): (m: string)
    ensures m == OctetStream <==> Lower(extension) !in MimeTypes
    ensures Lower(extension) in MimeTypes ==> m == MimeTypes[Lower(extension)]
  {
    var key := Lower(extension);
    if key in MimeTypes then MimeTypes[key] else OctetStream
  }

  /** Every accepted image extension is served with an `image/` type. */
  lemma ImageExtensionsHaveImageTypes(ext: string)
    requires ext in ImageExtensions
    ensures |GetMimeType(ext)| > 6 && GetMimeType(ext)[..6] == "image/"
  {
    LowerOfLowercase(ext);
  }

  // ---------------------------------------------------------------- generated names

  /**
   * `generate_filename`: `{stem}_{timestamp}_{id}{ext}`, where `id` is the
   * first 8 characters of the random hex id and `ext` the requested
   * extension, or the original suffix when none (or `""`) is requested.
   * The clock and the random id are parameters.
   */
  function GenerateFilename(originalName: string, extension: Option<string>, timestamp: int, uuidHex: string): string {
    var ext := if StrTruthy(extension) then extension.value else Suffix(originalName);
    GeneratedBase(originalName, timestamp, uuidHex) + ext
  }

  predicate IsLowerHex(s: string) {
    forall i :: 0 <= i < |s| ==> '0' <= s[i] <= '9' || 'a' <= s[i] <= 'f'
  }

  /** The generated name keeps the extension asked for, and starts with the original stem. */
  lemma {:induction false} GeneratedNameKeepsExtension(originalName: string, ext: string, timestamp: int, uuidHex: string)
    requires IsSuffixShape(ext) && IsLowerHex(uuidHex)
    ensures GetFileExtension(GenerateFilename(originalName, Some(ext), timestamp, uuidHex)) == Lower(ext)
    ensures Stem(originalName) + "_" <= GenerateFilename(originalName, Some(ext), timestamp, uuidHex)
  {
    var base := GeneratedBase(originalName, timestamp, uuidHex);
    GeneratedBaseHasNoSlash(originalName, timestamp, uuidHex);
    assert GenerateFilename(originalName, Some(ext), timestamp, uuidHex) == base + ext;
    ExtensionOfFileIn("", base, ext);
  }

  /** The generated name without its extension. */
  function GeneratedBase(originalName: string, timestamp: int, uuidHex: string): string {
    Stem(originalName) + "_" + IntToStr(timestamp) + "_" + Take(uuidHex, 8)
  }

  lemma GeneratedBaseHasNoSlash(originalName: string, timestamp: int, uuidHex: string)
    requires IsLowerHex(uuidHex)
    ensures var base := GeneratedBase(originalName, timestamp, uuidHex); base != [] && '/' !in base
  {
    StemSuffixSplitName(originalName);
    var digits, id := IntToStr(timestamp), Take(uuidHex, 8);
    assert '/' !in digits;
    assert '/' !in id;
    NoSlashConcat(Stem(originalName) + "_", digits);
    NoSlashConcat(Stem(originalName) + "_" + digits + "_", id);
  }

  lemma NoSlashConcat(a: string, b: string)
    requires '/' !in a && '/' !in b
    ensures '/' !in a + b && '/' !in a + "_" + b
  {
  }

  /** With no extension asked for, the generated name keeps the original file's extension. */
  lemma GeneratedNameKeepsOriginalExtension(originalName: string, timestamp: int, uuidHex: string)
    requires Suffix(originalName) != [] && IsLowerHex(uuidHex)
    ensures GetFileExtension(GenerateFilename(originalName, None, timestamp, uuidHex)) == GetFileExtension(originalName)
  {
    StemSuffixSplitName(originalName);
    GeneratedNameKeepsExtension(originalName, Suffix(originalName), timestamp, uuidHex);
  }

  // ---------------------------------------------------------------- validators

  const NoFilename := HttpError(400, "No filename provided")

  const ImageExtensions: seq<string> := [".png", ".jpg", ".jpeg", ".webp", ".gif", ".bmp", ".tiff"]

  /** `validate_pdf_file`: the upload must have a name whose extension is `.pdf`, in any case. */
  function ValidatePdfFile(filename: Option<string>): (r: Result<(), HttpError>)
    ensures r.Ok? <==> StrTruthy(filename) && GetFileExtension(filename.value) == ".pdf"
    ensures !StrTruthy(filename) ==> r == Err(NoFilename)
    ensures StrTruthy(filename) && r.Err? ==> r == Err(HttpError(400, "File must be a PDF"))
  {
    if !StrTruthy(filename) then Err(NoFilename)
    else if GetFileExtension(filename.value) != ".pdf" then Err(HttpError(400, "File must be a PDF"))
    else Ok(())
  }

  /** `validate_document_file`: the extension must be one of `allowed`. */
  function ValidateDocumentFile(filename: Option<string>, allowed: seq<string>): (r: Result<(), HttpError>)
    ensures r.Ok? <==> StrTruthy(filename) && GetFileExtension(filename.value) in allowed
    ensures !StrTruthy(filename) ==> r == Err(NoFilename)
    ensures StrTruthy(filename) && r.Err? ==> r.error == HttpError(400, "Invalid file format. Supported: " + JoinStr(allowed, ", "))
  {
    if !StrTruthy(filename) then Err(NoFilename)
    else if GetFileExtension(filename.value) !in allowed then
      Err(HttpError(400, "Invalid file format. Supported: " + JoinStr(allowed, ", ")))
    else Ok(())
  }

  /** `validate_image_file`: the extension must be one of the seven image extensions. */
  function ValidateImageFile(filename: Option<string>): (r: Result<(), HttpError>)
    ensures r.Ok? <==> StrTruthy(filename) && GetFileExtension(filename.value) in ImageExtensions
    ensures !StrTruthy(filename) ==> r == Err(NoFilename)
    ensures StrTruthy(filename) && r.Err? ==> r.error == HttpError(400, "Invalid image format. Supported: " + JoinStr(ImageExtensions, ", "))
  {
    if !StrTruthy(filename) then Err(NoFilename)
    else if GetFileExtension(filename.value) !in ImageExtensions then
      Err(HttpError(400, "Invalid image format. Supported: " + JoinStr(ImageExtensions, ", ")))
    else Ok(())
  }

  /** The PDF validator accepts exactly what the document validator accepts for `[".pdf"]`; only the message differs. */
  lemma PdfValidatorIsDocumentValidator(filename: Option<string>)
    ensures ValidatePdfFile(filename).Ok? <==> ValidateDocumentFile(filename, [".pdf"]).Ok?
  {
  }

  /** A name with an upper-case `.PDF` extension is accepted: the comparison is case-insensitive. */
  lemma UpperCasePdfAccepted(dir: string, base: string)
    requires base != [] && '/' !in base
    ensures ValidatePdfFile(Some(dir + "/" + base + ".PDF")).Ok?
  {
    var name := dir + "/" + base + ".PDF";
    assert IsSuffixShape(".PDF");
    ExtensionOfFileIn(dir, base, ".PDF");
    LowerPdf();
    assert GetFileExtension(name) == ".pdf";
    assert StrTruthy(Some(name));
  }

  lemma LowerPdf()
    ensures Lower(".PDF") == ".pdf" && Lower(".pdf") == ".pdf"
  {
    assert Lower(".PDF")[1] == 'p' && Lower(".PDF")[2] == 'd' && Lower(".PDF")[3] == 'f';
    assert Lower(".pdf")[1] == 'p' && Lower(".pdf")[2] == 'd' && Lower(".pdf")[3] == 'f';
  }
}
