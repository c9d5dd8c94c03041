/**
 * The option logic of the image operations: which size a resize mode
 * produces, when an RGBA image is flattened to RGB, which format and save
 * options compression uses, and how a conversion target is normalised.
 * The pixel work (resampling, cropping, saving) belongs to the imaging
 * library and is not modelled; an image is its size, its mode and its
 * format.
 */
module ImageOps {
  import opened Wrappers
  import opened PyBuiltins

  datatype Size = Size(w: int, h: int)

  /** A crop box `(left, top, right, bottom)`. */
  datatype Box = Box(left: int, top: int, right: int, bottom: int)

  /** What `resize_image` asks the library to do. */
  datatype ResizeOp =
    | ResizeTo(size: Size)            // `img.resize(size)`
    | Thumbnail(bound: Size)          // `img.thumbnail(bound)`: the library keeps the aspect ratio
    | FillCrop(scaled: Size, box: Box) // resize to `scaled`, then crop `box`
    | Keep                            // the image is saved as it is

  /** Python's `bool(x)` on a float. */
  predicate RealTruthy(o: Option<real>) {
    o.Some? && o.value != 0.0
  }

  /** `int(x)` on a float: truncation toward zero. */
  function TruncReal(x: real): (r: int)
    ensures x >= 0.0 ==> r as real <= x < r as real + 1.0
    ensures x < 0.0 ==> r as real - 1.0 < x <= r as real
  {
    if x >= 0.0 then x.Floor else -((-x).Floor)
  }

  /** The mode rules of `resize_image`, tried in the order the function tries them. */
  function ResizePlan(mode: string, orig: Size, width: Option<int>, height: Option<int>, scale: Option<real>): ResizeOp
    requires orig.w > 0 && orig.h > 0
  {
    if mode == "scale" && RealTruthy(scale) then
      ResizeTo(Size(TruncReal(orig.w as real * scale.value), TruncReal(orig.h as real * scale.value)))
    else if mode == "exact" && IntTruthy(width) && IntTruthy(height) then
      ResizeTo(Size(width.value, height.value))
    else if mode == "fit" then
      if IntTruthy(width) && IntTruthy(height) then Thumbnail(Size(width.value, height.value))
      else if IntTruthy(width) then
        ResizeTo(Size(width.value, TruncReal(orig.h as real * (width.value as real / orig.w as real))))
      else if IntTruthy(height) then
        ResizeTo(Size(TruncReal(orig.w as real * (height.value as real / orig.h as real)), height.value))
      else Keep
    else if mode == "fill" && IntTruthy(width) && IntTruthy(height) then
      FillPlan(orig, width.value, height.value)
    else Keep
  }

  /** The `fill` branch: scale to cover the target, then crop its centre. */
  function FillPlan(orig: Size, w: int, h: int): ResizeOp
    requires orig.w > 0 && orig.h > 0 && h != 0
  {
    var imgRatio := orig.w as real / orig.h as real;
    var targetRatio := w as real / h as real;
    var scaled :=
      if imgRatio > targetRatio then Size(TruncReal(h as real * imgRatio), h)
      else Size(w, TruncReal(w as real / imgRatio));
    var left := (scaled.w - w) / 2;
    var top := (scaled.h - h) / 2;
    FillCrop(scaled, Box(left, top, left + w, top + h))
  }

  /** The size of the saved image, when the model determines it (the thumbnail size is the library's). */
  function ResultSize(op: ResizeOp, orig: Size): Option<Size> {
    match op
    case ResizeTo(s) => Some(s)
    case Thumbnail(_) => None
    case FillCrop(_, b) => Some(Size(b.right - b.left, b.bottom - b.top))
    case Keep => Some(orig)
  }

  /** Mode `exact` with both dimensions gives exactly that size. */
  lemma ExactSize(orig: Size, width: int, height: int, scale: Option<real>)
    requires orig.w > 0 && orig.h > 0 && width != 0 && height != 0
    ensures ResultSize(ResizePlan("exact", orig, Some(width), Some(height), scale), orig) == Some(Size(width, height))
  {
  }

  /** Mode `fill` with both dimensions gives exactly that size, cropped from the centre of the scaled image. */
  lemma FillSize(orig: Size, width: int, height: int, scale: Option<real>)
    requires orig.w > 0 && orig.h > 0 && width != 0 && height != 0
    ensures var op := ResizePlan("fill", orig, Some(width), Some(height), scale);
      op.FillCrop? && ResultSize(op, orig) == Some(Size(width, height)) &&
      op.box.left == (op.scaled.w - width) / 2 && op.box.top == (op.scaled.h - height) / 2
  {
  }

  /**
   * For a positive target the scaled image covers it: the crop box lies
   * inside the scaled image and is centred up to one pixel.
   */
  lemma FillCropInside(orig: Size, w: int, h: int)
    requires orig.w > 0 && orig.h > 0 && w > 0 && h > 0
    ensures var op := FillPlan(orig, w, h);
      op.FillCrop? &&
      0 <= op.box.left && op.box.right <= op.scaled.w && 0 <= op.box.top && op.box.bottom <= op.scaled.h &&
      0 <= (op.scaled.w - op.box.right) - op.box.left <= 1 &&
      0 <= (op.scaled.h - op.box.bottom) - op.box.top <= 1
  {
    var ow, oh := orig.w as real, orig.h as real;
    var imgRatio := ow / oh;
    var targetRatio := w as real / h as real;
    if imgRatio > targetRatio {
      CoverWidth(ow, oh, w as real, h as real);
      assert h as real * imgRatio > w as real;
    } else {
      CoverHeight(ow, oh, w as real, h as real);
      assert w as real / imgRatio >= h as real;
    }
  }

  lemma CoverWidth(ow: real, oh: real, w: real, h: real)
    requires ow > 0.0 && oh > 0.0 && w > 0.0 && h > 0.0
    requires ow / oh > w / h
    ensures h * (ow / oh) > w
  {
    assert h * (w / h) == w;
  }

  lemma CoverHeight(ow: real, oh: real, w: real, h: real)
    requires ow > 0.0 && oh > 0.0 && w > 0.0 && h > 0.0
    requires ow / oh <= w / h
    ensures w / (ow / oh) >= h
  {
    assert w / (ow / oh) == w * oh / ow;
    assert h * (ow / oh) <= h * (w / h) == w;
    assert h * ow / oh <= w;
    assert h * ow <= w * oh;
  }

  /** Mode `fit` with one dimension keeps that dimension exactly. */
  lemma FitOneSide(orig: Size, width: Option<int>, height: Option<int>, scale: Option<real>)
    requires orig.w > 0 && orig.h > 0 && IntTruthy(width) != IntTruthy(height)
    ensures var r := ResultSize(ResizePlan("fit", orig, width, height, scale), orig);
      r.Some? && (if IntTruthy(width) then r.value.w == width.value else r.value.h == height.value)
  {
  }

  /** The image is left unchanged exactly when no rule applies. */
  lemma KeepIff(mode: string, orig: Size, width: Option<int>, height: Option<int>, scale: Option<real>)
    requires orig.w > 0 && orig.h > 0
    ensures ResizePlan(mode, orig, width, height, scale) == Keep <==>
      (mode == "fit" && !IntTruthy(width) && !IntTruthy(height)) ||
      (mode == "scale" && !RealTruthy(scale)) ||
      ((mode == "exact" || mode == "fill") && !(IntTruthy(width) && IntTruthy(height))) ||
      (mode != "fit" && mode != "scale" && mode != "exact" && mode != "fill")
  {
  }

  // ---------------------------------------------------------------- colour mode

  /** `mode == 'RGBA' and output_path.lower().endswith(('.jpg', '.jpeg'))`: the save needs an RGB image. */
  predicate NeedsRgb(imageMode: string, outputPath: string) {
    imageMode == "RGBA" && (EndsWith(Lower(outputPath), ".jpg") || EndsWith(Lower(outputPath), ".jpeg"))
  }

  /** The extension test ignores case. */
  lemma NeedsRgbIgnoresCase(imageMode: string, outputPath: string)
    ensures NeedsRgb(imageMode, outputPath) == NeedsRgb(imageMode, Lower(outputPath))
  {
    LowerIdempotent(outputPath);
  }

  /** An RGBA image saved under a `.JPG` or `.jpeg` name is converted; under a `.png` name it is not. */
  lemma NeedsRgbExamples(stem: string)
    ensures NeedsRgb("RGBA", stem + ".JPG")
    ensures NeedsRgb("RGBA", stem + ".jpeg")
    ensures !NeedsRgb("RGBA", stem + ".png")
    ensures !NeedsRgb("RGB", stem + ".jpg")
  {
    LowerAppend(stem, ".JPG");
    LowerAppend(stem, ".jpeg");
    LowerAppend(stem, ".png");
    assert Lower(".JPG") == ".jpg" && Lower(".jpeg") == ".jpeg" && Lower(".png") == ".png";
    var j, e := Lower(stem) + ".jpg", Lower(stem) + ".jpeg";
    assert j[|j| - 4..] == ".jpg";
    assert e[|e| - 5..] == ".jpeg";
    var p := Lower(stem) + ".png";
    assert p[|p| - 1] == 'g' && p[|p| - 2] == 'n';
  }

  // ---------------------------------------------------------------- compression

  /** The format `compress_image` saves in. */
  function CompressFormat(outputFormat: Option<string>, imageFormat: Option<string>): (fmt: string)
    ensures fmt != []
    ensures StrTruthy(outputFormat) ==> |fmt| == |outputFormat.value|
  {
    if StrTruthy(outputFormat) then Upper(outputFormat.value)
    else if StrTruthy(imageFormat) then imageFormat.value
    else "JPEG"
  }

  /** The requested format wins, upper-cased; then the image's own; then JPEG. */
  lemma CompressFormatChoice(outputFormat: Option<string>, imageFormat: Option<string>)
    ensures StrTruthy(outputFormat) ==> CompressFormat(outputFormat, imageFormat) == Upper(outputFormat.value)
    ensures !StrTruthy(outputFormat) && StrTruthy(imageFormat) ==> CompressFormat(outputFormat, imageFormat) == imageFormat.value
    ensures !StrTruthy(outputFormat) && !StrTruthy(imageFormat) ==> CompressFormat(outputFormat, imageFormat) == "JPEG"
    ensures StrTruthy(outputFormat) ==> HasNoLower(CompressFormat(outputFormat, imageFormat))
  {
  }

  predicate HasNoLower(s: string) {
    forall i :: 0 <= i < |s| ==> !('a' <= s[i] <= 'z')
  }

  /** The mode the image is saved in: RGBA and palette images become RGB for JPEG. */
  function CompressMode(fmt: string, imageMode: string): (m: string)
    ensures fmt == "JPEG" ==> m != "RGBA" && m != "P"
    ensures fmt != "JPEG" ==> m == imageMode
  {
    if fmt == "JPEG" && (imageMode == "RGBA" || imageMode == "P") then "RGB" else imageMode
  }

  /** The keyword arguments of the save call. */
  datatype SaveOptions = SaveOptions(quality: Option<int>, optimize: bool)

  function CompressOptions(fmt: string, quality: int): (o: SaveOptions)
    ensures o.quality.Some? <==> fmt == "JPEG" || fmt == "WEBP"
    ensures o.quality.Some? ==> o.quality.value == quality
    ensures o.optimize <==> fmt == "JPEG" || fmt == "PNG"
  {
    if fmt == "JPEG" then SaveOptions(Some(quality), true)
    else if fmt == "PNG" then SaveOptions(None, true)
    else if fmt == "WEBP" then SaveOptions(Some(quality), false)
    else SaveOptions(None, false)
  }

  // ---------------------------------------------------------------- conversion

  /** The target format of `convert_image_format`: upper-cased, `JPG` spelled `JPEG`. */
  function ConvertFormat(outputFormat: string): (fmt: string)
    ensures fmt != "JPG"
    ensures HasNoLower(outputFormat) && outputFormat != "JPG" ==> fmt == outputFormat
  {
    var f := Upper(outputFormat);
    if f == "JPG" then "JPEG" else f
  }

  /** Normalising twice changes nothing, and every spelling of JPEG ends up as `JPEG`. */
  lemma ConvertFormatNormal(outputFormat: string)
    ensures ConvertFormat(ConvertFormat(outputFormat)) == ConvertFormat(outputFormat)
    ensures ConvertFormat("jpg") == ConvertFormat("JPG") == ConvertFormat("jpeg") == ConvertFormat("Jpeg") == "JPEG"
  {
    var f := Upper(outputFormat);
    assert HasNoLower(f);
    assert HasNoLower("JPEG");
    assert Upper("jpg") == "JPG";
    assert Upper("jpeg") == "JPEG";
    assert Upper("Jpeg") == "JPEG";
  }

  /** A JPEG target from an RGBA or palette image is pasted onto a white RGB background. */
  predicate ConvertFlattens(fmt: string, imageMode: string) {
    fmt == "JPEG" && (imageMode == "RGBA" || imageMode == "P")
  }

  /** The mode of the converted image. */
  function ConvertMode(fmt: string, imageMode: string): (m: string)
    ensures fmt == "JPEG" ==> m != "RGBA" && m != "P"
    ensures fmt != "JPEG" || (imageMode != "RGBA" && imageMode != "P") ==> m == imageMode
    ensures m == imageMode || (m == "RGB" && fmt == "JPEG")
  {
    if ConvertFlattens(fmt, imageMode) then "RGB" else imageMode
  }

  /** Conversion and compression treat transparency alike. */
  lemma FlattenAgrees(fmt: string, imageMode: string)
    ensures ConvertMode(fmt, imageMode) == CompressMode(fmt, imageMode)
  {
  }
}
