/**
 * The request checks of the image endpoints (resize, compress, flip), the
 * output extension of compress, and the step chain of adjust, which runs
 * brightness, contrast and saturation one after another through temporary
 * files and removes them afterwards. The upload directory is a `Disk` whose
 * files hold symbolic pictures: an enhancement is a `Picture` term naming the
 * step, so the order in which steps were applied can be read off the result.
 */
module ImageApi {
  import opened Wrappers
  import opened PyBuiltins
  import FileUtil
  import Schemas

  // ---------------------------------------------------------------- checks

  const NoResizeTarget := FileUtil.HttpError(400, "At least one of width, height, or scale must be provided")
  const BadQuality := FileUtil.HttpError(400, "Quality must be between 1 and 100")
  const BadDirection := FileUtil.HttpError(400, "Direction must be 'horizontal' or 'vertical'")

  /** A Python float is truthy when it is not zero. */
  predicate RealTruthy(o: Option<real>) {
    o.Some? && o.value != 0.0
  }

  /** The checks of resize: an image file, then at least one non-zero target among width, height and scale. */
  function ResizeCheck(filename: Option<string>, width: Option<int>, height: Option<int>, scale: Option<real>): (r: Result<(), FileUtil.HttpError>)
    ensures r.Ok? <==> FileUtil.ValidateImageFile(filename).Ok? && (IntTruthy(width) || IntTruthy(height) || RealTruthy(scale))
    ensures FileUtil.ValidateImageFile(filename).Ok? && !IntTruthy(width) && !IntTruthy(height) && !RealTruthy(scale) ==>
      r == Err(NoResizeTarget)
  {
    match FileUtil.ValidateImageFile(filename)
    case Err(e) => Err(e)
    case Ok(_) =>
      if !IntTruthy(width) && !IntTruthy(height) && !RealTruthy(scale) then Err(NoResizeTarget) else Ok(())
  }

  /** The checks of compress: an image file, then a quality in 1..100. */
  function CompressCheck(filename: Option<string>, quality: int): (r: Result<(), FileUtil.HttpError>)
    ensures r.Ok? <==> FileUtil.ValidateImageFile(filename).Ok? && 1 <= quality <= 100
    ensures FileUtil.ValidateImageFile(filename).Ok? && (quality < 1 || quality > 100) ==> r == Err(BadQuality)
  {
    match FileUtil.ValidateImageFile(filename)
    case Err(e) => Err(e)
    case Ok(_) => if quality < 1 || quality > 100 then Err(BadQuality) else Ok(())
  }

  /** The checks of flip: an image file, then one of the two directions. */
  function FlipCheck(filename: Option<string>, direction: string): (r: Result<(), FileUtil.HttpError>)
    ensures r.Ok? <==> FileUtil.ValidateImageFile(filename).Ok? && (direction == "horizontal" || direction == "vertical")
    ensures FileUtil.ValidateImageFile(filename).Ok? && direction != "horizontal" && direction != "vertical" ==>
      r == Err(BadDirection)
  {
    match FileUtil.ValidateImageFile(filename)
    case Err(e) => Err(e)
    case Ok(_) => if direction !in ["horizontal", "vertical"] then Err(BadDirection) else Ok(())
  }

  /** The form defaults of compress and flip pass their checks for any accepted file. */
  lemma DefaultsPass(filename: Option<string>)
    requires FileUtil.ValidateImageFile(filename).Ok?
    ensures CompressCheck(filename, Schemas.DefaultCompressRequest().quality).Ok?
    ensures FlipCheck(filename, "horizontal").Ok?
  {
  }

  // ---------------------------------------------------------------- output extension

  /** `file.filename or default`. */
  function NameOr(filename: Option<string>, default: string): string {
    if StrTruthy(filename) then filename.value else default
  }

  /** The extension of the compressed file: the requested format's, else the upload's own suffix. */
  function CompressExtension(filename: Option<string>, format: Option<Schemas.ImageFormat>): string {
    if format.Some? && Schemas.ImageFormatValue(format.value) != [] then "." + Schemas.ImageFormatValue(format.value)
    else FileUtil.Suffix(NameOr(filename, "image.jpg"))
  }

  /**
   * The compressed file always carries an extension the image validator accepts:
   * a requested format names one, and otherwise the upload's own suffix passed
   * that validator.
   */
  lemma CompressExtensionAccepted(filename: Option<string>, format: Option<Schemas.ImageFormat>)
    requires FileUtil.ValidateImageFile(filename).Ok?
    ensures Lower(CompressExtension(filename, format)) in FileUtil.ImageExtensions
    ensures format.Some? ==> CompressExtension(filename, format) == "." + Schemas.ImageFormatValue(format.value)
    ensures format.None? ==> CompressExtension(filename, format) == FileUtil.Suffix(filename.value)
  {
    if format.Some? {
      FormatExtensionAccepted(format.value);
    }
  }

  /** Every declared image format names an accepted image extension, already in lower case. */
  lemma FormatExtensionAccepted(f: Schemas.ImageFormat)
    ensures Lower("." + Schemas.ImageFormatValue(f)) == "." + Schemas.ImageFormatValue(f)
    ensures "." + Schemas.ImageFormatValue(f) in FileUtil.ImageExtensions
  {
    var e := "." + Schemas.ImageFormatValue(f);
    assert HasNoUpper(e);
    LowerOfLowercase(e);
    match f
    case Png => assert e == FileUtil.ImageExtensions[0];
    case Jpeg => assert e == FileUtil.ImageExtensions[2];
    case Webp => assert e == FileUtil.ImageExtensions[3];
    case Gif => assert e == FileUtil.ImageExtensions[4];
    case Bmp => assert e == FileUtil.ImageExtensions[5];
    case Tiff => assert e == FileUtil.ImageExtensions[6];
  }

  // ---------------------------------------------------------------- adjust

  datatype Adjustment = Brightness | Contrast | Saturation

  /** A picture as the steps that produced it: an uploaded original, or an enhancement of another picture. */
  datatype Picture = Upload(id: int) | Adjusted(kind: Adjustment, factor: real, base: Picture)

  /** The enhancement steps a picture went through, first step first. */
  function Steps(p: Picture): seq<(Adjustment, real)> {
    match p
    case Upload(_) => []
    case Adjusted(k, f, base) => Steps(base) + [(k, f)]
  }

  /** One step when its factor was given, none otherwise. */
  function Present(kind: Adjustment, factor: Option<real>): seq<(Adjustment, real)> {
    if factor.Some? then [(kind, factor.value)] else []
  }

  /** Applying a step whose factor may be absent. */
  function Enhanced(p: Picture, kind: Adjustment, factor: Option<real>): Picture {
    if factor.Some? then Adjusted(kind, factor.value, p) else p
  }

  /** The picture adjust produces: brightness, then contrast, then saturation, each on the previous result. */
  function AdjustSpec(p: Picture, brightness: Option<real>, contrast: Option<real>, saturation: Option<real>): Picture {
    Enhanced(Enhanced(Enhanced(p, Brightness, brightness), Contrast, contrast), Saturation, saturation)
  }

  /** The given steps are applied exactly once each, in the order brightness, contrast, saturation. */
  lemma {:induction false} AdjustOrder(p: Picture, brightness: Option<real>, contrast: Option<real>, saturation: Option<real>)
    ensures Steps(AdjustSpec(p, brightness, contrast, saturation)) ==
      Steps(p) + Present(Brightness, brightness) + Present(Contrast, contrast) + Present(Saturation, saturation)
  {
    var b := Enhanced(p, Brightness, brightness);
    var c := Enhanced(b, Contrast, contrast);
    EnhancedSteps(p, Brightness, brightness);
    EnhancedSteps(b, Contrast, contrast);
    EnhancedSteps(c, Saturation, saturation);
  }

  lemma EnhancedSteps(p: Picture, kind: Adjustment, factor: Option<real>)
    ensures Steps(Enhanced(p, kind, factor)) == Steps(p) + Present(kind, factor)
  {
  }

  /** With no factor at all, adjust copies the upload unchanged. */
  lemma NoAdjustmentCopies(p: Picture)
    ensures AdjustSpec(p, None, None, None) == p
  {
  }

  /** The upload directory and the download directory, as one map from path to picture. */
  class Disk {
    var files: map<string, Picture>

    constructor (files: map<string, Picture>)
      ensures this.files == files
    {
      this.files := files;
    }

    /** One enhancement call: reads `src`, writes the enhanced picture to `dst`. */
    method Enhance(src: string, dst: string, kind: Adjustment, factor: real)
      requires src in files
      modifies this
      ensures files == old(files)[dst := Adjusted(kind, factor, old(files)[src])]
    {
      files := files[dst := Adjusted(kind, factor, files[src])];
    }

    /** `shutil.copy(src, dst)`. */
    method Copy(src: string, dst: string)
      requires src in files
      modifies this
      ensures files == old(files)[dst := old(files)[src]]
    {
      files := files[dst := files[src]];
    }

    /** `cleanup_file`: removes the file when it exists and does nothing otherwise. */
    method Cleanup(path: string)
      modifies this
      ensures files == old(files) - {path}
    {
      files := files - {path};
    }
  }

  /** `f"{UPLOAD_DIR}/temp_{tag}_{int(time.time())}{ext}"`. */
  function TempPath(uploadDir: string, tag: string, time: int, ext: string): string {
    uploadDir + "/temp_" + tag + "_" + IntToStr(time) + ext
  }

  /** The two temporary names never clash, whatever the clock reads. */
  lemma TempPathsDiffer(uploadDir: string, t1: int, t2: int, ext: string)
    ensures TempPath(uploadDir, "bright", t1, ext) != TempPath(uploadDir, "contrast", t2, ext)
  {
    var i := |uploadDir| + 6;
    assert TempPath(uploadDir, "bright", t1, ext)[i] == 'b';
    assert TempPath(uploadDir, "contrast", t2, ext)[i] == 'c';
  }

  /** The temporary files a request creates. */
  function CreatedTemps(brightPath: string, contrastPath: string, brightness: Option<real>, contrast: Option<real>): set<string> {
    (if brightness.Some? then {brightPath} else {}) + (if contrast.Some? then {contrastPath} else {})
  }

  /** What the temporary files hold once the steps ran on picture `p`. */
  function Intermediates(p: Picture, brightPath: string, contrastPath: string, brightness: Option<real>, contrast: Option<real>): (m: map<string, Picture>)
    ensures m.Keys == CreatedTemps(brightPath, contrastPath, brightness, contrast)
  {
    (if brightness.Some? then map[brightPath := Enhanced(p, Brightness, brightness)] else map[]) +
    (if contrast.Some? then map[contrastPath := Enhanced(Enhanced(p, Brightness, brightness), Contrast, contrast)] else map[])
  }

  /** The path the chain has reached: the last temporary file written, or the upload itself. */
  function Reached(input: string, brightPath: string, contrastPath: string, brightness: Option<real>, contrast: Option<real>): string {
    if contrast.Some? then contrastPath else if brightness.Some? then brightPath else input
  }

  /**
   * The steps of adjust: brightness and contrast write temporary files, each
   * read by the next step; saturation, or a plain copy, writes the output.
   * An intermediate that the next step replaced is recorded in `tempPaths`.
   */
  method ApplySteps(disk: Disk, input: string, output: string, brightPath: string, contrastPath: string,
                    brightness: Option<real>, contrast: Option<real>, saturation: Option<real>)
    returns (tempPaths: seq<string>, current: string)
    requires input in disk.files
    requires input != brightPath && input != contrastPath && brightPath != contrastPath
    modifies disk
    ensures tempPaths == if brightness.Some? && contrast.Some? then [brightPath] else []
    ensures input !in tempPaths
    ensures current == Reached(input, brightPath, contrastPath, brightness, contrast)
    ensures current == input <==> brightness.None? && contrast.None?
    ensures disk.files == (old(disk.files) + Intermediates(old(disk.files)[input], brightPath, contrastPath, brightness, contrast))
      [output := AdjustSpec(old(disk.files)[input], brightness, contrast, saturation)]
  {
    ghost var original := disk.files;
    ghost var picture := original[input];
    current := input;
    tempPaths := [];

    if brightness.Some? {
      disk.Enhance(current, brightPath, Brightness, brightness.value);
      if current != input {
        tempPaths := tempPaths + [current];
      }
      current := brightPath;
    }
    assert disk.files == original + Intermediates(picture, brightPath, contrastPath, brightness, None);

    if contrast.Some? {
      disk.Enhance(current, contrastPath, Contrast, contrast.value);
      if current != input {
        tempPaths := tempPaths + [current];
      }
      current := contrastPath;
    }
    assert disk.files == original + Intermediates(picture, brightPath, contrastPath, brightness, contrast);
    assert disk.files[current] == Enhanced(Enhanced(picture, Brightness, brightness), Contrast, contrast);

    if saturation.Some? {
      disk.Enhance(current, output, Saturation, saturation.value);
    } else {
      disk.Copy(current, output);
    }
  }

  /** `for tp in temp_paths: cleanup_file(tp)`. */
  method CleanupAll(disk: Disk, paths: seq<string>)
    modifies disk
    ensures disk.files == old(disk.files) - set p | p in paths
  {
    var k := 0;
    while k < |paths|
      invariant 0 <= k <= |paths|
      invariant disk.files == old(disk.files) - set p | p in paths[..k]
    {
      disk.Cleanup(paths[k]);
      assert paths[..k + 1] == paths[..k] + [paths[k]];
      k := k + 1;
    }
    assert paths[..k] == paths;
  }

  /**
   * The body of the adjust endpoint after the upload is saved at `input`:
   * the steps run in order, then the replaced intermediates, the last
   * intermediate and the upload are removed, leaving exactly the adjusted
   * picture at `output`. `t1` and `t2` are the two clock readings that name
   * the temporary files.
   */
  method AdjustImage(disk: Disk, input: string, output: string, uploadDir: string, ext: string, t1: int, t2: int,
                     brightness: Option<real>, contrast: Option<real>, saturation: Option<real>)
    returns (tempPaths: seq<string>, current: string)
    requires input in disk.files
    requires input != output
    requires input != TempPath(uploadDir, "bright", t1, ext) && input != TempPath(uploadDir, "contrast", t2, ext)
    requires output != TempPath(uploadDir, "bright", t1, ext) && output != TempPath(uploadDir, "contrast", t2, ext)
    modifies disk
    ensures input !in tempPaths
    ensures current == input <==> brightness.None? && contrast.None?
    ensures tempPaths == if brightness.Some? && contrast.Some? then [TempPath(uploadDir, "bright", t1, ext)] else []
    ensures disk.files ==
      (old(disk.files) - ({input} + CreatedTemps(TempPath(uploadDir, "bright", t1, ext), TempPath(uploadDir, "contrast", t2, ext), brightness, contrast)))
        [output := AdjustSpec(old(disk.files)[input], brightness, contrast, saturation)]
  {
    var brightPath := TempPath(uploadDir, "bright", t1, ext);
    var contrastPath := TempPath(uploadDir, "contrast", t2, ext);
    TempPathsDiffer(uploadDir, t1, t2, ext);
    ghost var original := disk.files;
    ghost var written := Intermediates(original[input], brightPath, contrastPath, brightness, contrast);
    ghost var result := AdjustSpec(original[input], brightness, contrast, saturation);
    ghost var created := CreatedTemps(brightPath, contrastPath, brightness, contrast);

    tempPaths, current := ApplySteps(disk, input, output, brightPath, contrastPath, brightness, contrast, saturation);
    ghost var replaced := set p | p in tempPaths;
    ghost var last: set<string> := if current != input then {current} else {};
    Clean(disk, tempPaths, current, input);
    RemovedAreCreated(tempPaths, current, input, brightPath, contrastPath, brightness, contrast);
    RemoveWritten(original, written, replaced, last, input, output, result);
  }

  /** The closing cleanup of adjust: the replaced intermediates, then the last one when it is not the upload, then the upload. */
  method Clean(disk: Disk, tempPaths: seq<string>, current: string, input: string)
    modifies disk
    ensures disk.files == old(disk.files) - (set p | p in tempPaths) - (if current != input then {current} else {}) - {input}
  {
    CleanupAll(disk, tempPaths);
    if current != input {
      disk.Cleanup(current);
    }
    disk.Cleanup(input);
  }

  /** The replaced intermediates and the last one are exactly the temporary files the steps created. */
  lemma RemovedAreCreated(tempPaths: seq<string>, current: string, input: string, brightPath: string, contrastPath: string,
                          brightness: Option<real>, contrast: Option<real>)
    requires tempPaths == if brightness.Some? && contrast.Some? then [brightPath] else []
    requires current == Reached(input, brightPath, contrastPath, brightness, contrast)
    requires input != brightPath && input != contrastPath
    ensures (set p | p in tempPaths) + (if current != input then {current} else {}) ==
      CreatedTemps(brightPath, contrastPath, brightness, contrast)
  {
    if brightness.Some? && contrast.Some? {
      assert (set p | p in tempPaths) == {brightPath};
    } else {
      assert (set p | p in tempPaths) == {};
    }
  }

  /** Removing every path a run wrote, and the upload, leaves the older files and the output. */
  lemma RemoveWritten(original: map<string, Picture>, written: map<string, Picture>, replaced: set<string>, last: set<string>,
                      input: string, output: string, result: Picture)
    requires written.Keys == replaced + last && output != input && output !in replaced + last
    ensures (original + written)[output := result] - replaced - last - {input} == (original - ({input} + (replaced + last)))[output := result]
  {
  }
}
