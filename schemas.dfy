/**
 * The request and response models of the HTTP interface: each enumeration
 * as a datatype with its wire value and its parse, each `Field` bound as a
 * validity predicate, and the response defaults. Validation itself is done
 * by the framework; a request the predicate rejects is answered with a
 * validation error before any handler runs.
 */
module Schemas {
  import opened Wrappers
  import opened PyBuiltins
  import Passport
  import ImageOps

  // ---------------------------------------------------------------- responses

  datatype SuccessResponse = SuccessResponse(success: bool, message: string)
  datatype FileResponse = FileResponse(success: bool, fileUrl: string, filename: string, fileSize: int, processingTime: real)
  datatype TaskResponse = TaskResponse(success: bool, taskId: string, status: string, message: string)
  datatype ErrorResponse = ErrorResponse(success: bool, error: string, detail: Option<string>)
  datatype OcrResponse = OcrResponse(success: bool, text: string, confidence: Option<real>, processingTime: real)

  /** Each response built from its required fields alone, the others taking their declared defaults. */
  function NewSuccessResponse(): SuccessResponse {
    SuccessResponse(true, "Operation completed successfully")
  }

  function NewFileResponse(fileUrl: string, filename: string, fileSize: int, processingTime: real): FileResponse {
    FileResponse(true, fileUrl, filename, fileSize, processingTime)
  }

  function NewTaskResponse(taskId: string): TaskResponse {
    TaskResponse(true, taskId, "processing", "Your file is being processed")
  }

  function NewErrorResponse(error: string): ErrorResponse {
    ErrorResponse(false, error, None)
  }

  function NewOcrResponse(text: string, processingTime: real): OcrResponse {
    OcrResponse(true, text, None, processingTime)
  }

  /** Success, file, task and OCR responses report success by default; an error response does not. */
  lemma ResponseDefaults(url: string, name: string, size: int, time: real, taskId: string, error: string, text: string)
    ensures NewSuccessResponse().success
    ensures var f := NewFileResponse(url, name, size, time);
      f.success && f.fileUrl == url && f.filename == name && f.fileSize == size
    ensures var t := NewTaskResponse(taskId); t.success && t.taskId == taskId && t.status == "processing"
    ensures var e := NewErrorResponse(error); !e.success && e.error == error && e.detail.None?
    ensures var o := NewOcrResponse(text, time); o.success && o.confidence.None?
  {
  }

  // ---------------------------------------------------------------- enumerations

  datatype SplitMode = All | Range | Extract

  function SplitModeValue(m: SplitMode): string {
    match m
    case All => "all"
    case Range => "range"
    case Extract => "extract"
  }

  function ParseSplitMode(s: string): (r: Option<SplitMode>)
    ensures r.Some? ==> SplitModeValue(r.value) == s
  {
    if s == "all" then Some(All)
    else if s == "range" then Some(Range)
    else if s == "extract" then Some(Extract)
    else None
  }

  /** The split modes are exactly "all", "range" and "extract". */
  lemma SplitModeValues(s: string)
    ensures ParseSplitMode(s).Some? <==> s in {"all", "range", "extract"}
    ensures forall m :: ParseSplitMode(SplitModeValue(m)) == Some(m)
  {
  }

  datatype CompressLevel = Low | Medium | High

  function CompressLevelValue(l: CompressLevel): string {
    match l
    case Low => "low"
    case Medium => "medium"
    case High => "high"
  }

  function ParseCompressLevel(s: string): (r: Option<CompressLevel>)
    ensures r.Some? ==> CompressLevelValue(r.value) == s
  {
    if s == "low" then Some(Low)
    else if s == "medium" then Some(Medium)
    else if s == "high" then Some(High)
    else None
  }

  /** The compression levels are exactly "low", "medium" and "high". */
  lemma CompressLevelValues(s: string)
    ensures ParseCompressLevel(s).Some? <==> s in {"low", "medium", "high"}
    ensures forall l :: ParseCompressLevel(CompressLevelValue(l)) == Some(l)
  {
  }

  datatype WatermarkPosition = WCenter | WTopLeft | WTopRight | WBottomLeft | WBottomRight | WDiagonal

  function WatermarkPositionValue(p: WatermarkPosition): string {
    match p
    case WCenter => "center"
    case WTopLeft => "top-left"
    case WTopRight => "top-right"
    case WBottomLeft => "bottom-left"
    case WBottomRight => "bottom-right"
    case WDiagonal => "diagonal"
  }

  function ParseWatermarkPosition(s: string): (r: Option<WatermarkPosition>)
    ensures r.Some? ==> WatermarkPositionValue(r.value) == s
  {
    if s == "center" then Some(WCenter)
    else if s == "top-left" then Some(WTopLeft)
    else if s == "top-right" then Some(WTopRight)
    else if s == "bottom-left" then Some(WBottomLeft)
    else if s == "bottom-right" then Some(WBottomRight)
    else if s == "diagonal" then Some(WDiagonal)
    else None
  }

  lemma WatermarkPositionRoundTrip(p: WatermarkPosition)
    ensures ParseWatermarkPosition(WatermarkPositionValue(p)) == Some(p)
  {
  }

  datatype PageNumberPosition = BottomCenter | BottomLeft | BottomRight | TopCenter | TopLeft | TopRight

  function PageNumberPositionValue(p: PageNumberPosition): string {
    match p
    case BottomCenter => "bottom-center"
    case BottomLeft => "bottom-left"
    case BottomRight => "bottom-right"
    case TopCenter => "top-center"
    case TopLeft => "top-left"
    case TopRight => "top-right"
  }

  function ParsePageNumberPosition(s: string): (r: Option<PageNumberPosition>)
    ensures r.Some? ==> PageNumberPositionValue(r.value) == s
  {
    if s == "bottom-center" then Some(BottomCenter)
    else if s == "bottom-left" then Some(BottomLeft)
    else if s == "bottom-right" then Some(BottomRight)
    else if s == "top-center" then Some(TopCenter)
    else if s == "top-left" then Some(TopLeft)
    else if s == "top-right" then Some(TopRight)
    else None
  }

  lemma PageNumberPositionRoundTrip(p: PageNumberPosition)
    ensures ParsePageNumberPosition(PageNumberPositionValue(p)) == Some(p)
  {
  }

  datatype ImageFormat = Png | Jpeg | Webp | Gif | Bmp | Tiff

  function ImageFormatValue(f: ImageFormat): string {
    match f
    case Png => "png"
    case Jpeg => "jpeg"
    case Webp => "webp"
    case Gif => "gif"
    case Bmp => "bmp"
    case Tiff => "tiff"
  }

  function ParseImageFormat(s: string): (r: Option<ImageFormat>)
    ensures r.Some? ==> ImageFormatValue(r.value) == s
  {
    if s == "png" then Some(Png)
    else if s == "jpeg" then Some(Jpeg)
    else if s == "webp" then Some(Webp)
    else if s == "gif" then Some(Gif)
    else if s == "bmp" then Some(Bmp)
    else if s == "tiff" then Some(Tiff)
    else None
  }

  lemma ImageFormatRoundTrip(f: ImageFormat)
    ensures ParseImageFormat(ImageFormatValue(f)) == Some(f)
  {
  }

  /** A declared image format, as a conversion target, is its upper-cased name, never "JPG". */
  lemma ImageFormatAsTarget(f: ImageFormat)
    ensures ImageOps.ConvertFormat(ImageFormatValue(f)) == Upper(ImageFormatValue(f)) != "JPG"
  {
    assert Upper("png") == "PNG" && Upper("jpeg") == "JPEG" && Upper("webp") == "WEBP";
    assert Upper("gif") == "GIF" && Upper("bmp") == "BMP" && Upper("tiff") == "TIFF";
  }

  datatype ResizeMode = Fit | Fill | Exact | Scale

  function ResizeModeValue(m: ResizeMode): string {
    match m
    case Fit => "fit"
    case Fill => "fill"
    case Exact => "exact"
    case Scale => "scale"
  }

  function ParseResizeMode(s: string): (r: Option<ResizeMode>)
    ensures r.Some? ==> ResizeModeValue(r.value) == s
  {
    if s == "fit" then Some(Fit)
    else if s == "fill" then Some(Fill)
    else if s == "exact" then Some(Exact)
    else if s == "scale" then Some(Scale)
    else None
  }

  lemma ResizeModeRoundTrip(m: ResizeMode)
    ensures ParseResizeMode(ResizeModeValue(m)) == Some(m)
  {
  }

  datatype PhotoSize = Us | Uk | Eu | India | Custom

  function PhotoSizeValue(s: PhotoSize): string {
    match s
    case Us => "us"
    case Uk => "uk"
    case Eu => "eu"
    case India => "india"
    case Custom => "custom"
  }

  function ParsePhotoSize(s: string): (r: Option<PhotoSize>)
    ensures r.Some? ==> PhotoSizeValue(r.value) == s
  {
    if s == "us" then Some(Us)
    else if s == "uk" then Some(Uk)
    else if s == "eu" then Some(Eu)
    else if s == "india" then Some(India)
    else if s == "custom" then Some(Custom)
    else None
  }

  lemma PhotoSizeRoundTrip(s: PhotoSize)
    ensures ParsePhotoSize(PhotoSizeValue(s)) == Some(s)
  {
  }

  /** Every declared photo size but "custom" has an entry in the size table; "custom" has none. */
  lemma PhotoSizesInTable(s: PhotoSize)
    ensures PhotoSizeValue(s) in Passport.PassportSizes <==> s != Custom
  {
  }

  datatype OcrLanguage = English | Hindi | Spanish | French | German | ChineseSimplified | Japanese | Korean | Arabic

  function OcrLanguageValue(l: OcrLanguage): string {
    match l
    case English => "eng"
    case Hindi => "hin"
    case Spanish => "spa"
    case French => "fra"
    case German => "deu"
    case ChineseSimplified => "chi_sim"
    case Japanese => "jpn"
    case Korean => "kor"
    case Arabic => "ara"
  }

  function ParseOcrLanguage(s: string): (r: Option<OcrLanguage>)
    ensures r.Some? ==> OcrLanguageValue(r.value) == s
  {
    if s == "eng" then Some(English)
    else if s == "hin" then Some(Hindi)
    else if s == "spa" then Some(Spanish)
    else if s == "fra" then Some(French)
    else if s == "deu" then Some(German)
    else if s == "chi_sim" then Some(ChineseSimplified)
    else if s == "jpn" then Some(Japanese)
    else if s == "kor" then Some(Korean)
    else if s == "ara" then Some(Arabic)
    else None
  }

  lemma OcrLanguageRoundTrip(l: OcrLanguage)
    ensures ParseOcrLanguage(OcrLanguageValue(l)) == Some(l)
  {
  }

  // ---------------------------------------------------------------- requests

  datatype SplitRequest = SplitRequest(mode: SplitMode, startPage: Option<int>, endPage: Option<int>, pages: Option<seq<int>>)

  function DefaultSplitRequest(): SplitRequest {
    SplitRequest(All, None, None, None)
  }

  datatype ProtectRequest = ProtectRequest(password: string, ownerPassword: Option<string>, allowPrinting: bool, allowCopying: bool)

  /** `password` has `min_length=1`. */
  predicate ProtectValid(r: ProtectRequest) {
    |r.password| >= 1
  }

  /** A request built from a password alone: printing allowed, copying not. */
  function NewProtectRequest(password: string): ProtectRequest {
    ProtectRequest(password, None, true, false)
  }

  datatype WatermarkRequest = WatermarkRequest(text: string, position: WatermarkPosition, fontSize: int, opacity: real, color: string, rotation: int)

  /** `text` non-empty, `font_size` in 8..200, `opacity` in 0.1..1.0, `rotation` in 0..360. */
  predicate WatermarkValid(r: WatermarkRequest) {
    |r.text| >= 1 && 8 <= r.fontSize <= 200 && 0.1 <= r.opacity <= 1.0 && 0 <= r.rotation <= 360
  }

  function NewWatermarkRequest(text: string): WatermarkRequest {
    WatermarkRequest(text, WDiagonal, 48, 0.3, "#808080", 45)
  }

  datatype PageNumberRequest = PageNumberRequest(position: PageNumberPosition, startNumber: int, fontSize: int, format: string)

  /** `start_number >= 1`, `font_size` in 8..36. */
  predicate PageNumberValid(r: PageNumberRequest) {
    r.startNumber >= 1 && 8 <= r.fontSize <= 36
  }

  function DefaultPageNumberRequest(): PageNumberRequest {
    PageNumberRequest(BottomCenter, 1, 12, "{page}")
  }

  datatype ResizeRequest = ResizeRequest(width: Option<int>, height: Option<int>, mode: ResizeMode, scale: Option<real>)

  /** A given `width` or `height` lies in 1..10000, a given `scale` in 0.1..10.0. */
  predicate ResizeValid(r: ResizeRequest) {
    (r.width.Some? ==> 1 <= r.width.value <= 10000) &&
    (r.height.Some? ==> 1 <= r.height.value <= 10000) &&
    (r.scale.Some? ==> 0.1 <= r.scale.value <= 10.0)
  }

  function DefaultResizeRequest(): ResizeRequest {
    ResizeRequest(None, None, Fit, None)
  }

  datatype CropRequest = CropRequest(x: int, y: int, width: int, height: int)

  /** `x, y >= 0`, `width, height >= 1`. */
  predicate CropValid(r: CropRequest) {
    r.x >= 0 && r.y >= 0 && r.width >= 1 && r.height >= 1
  }

  datatype CompressRequest = CompressRequest(quality: int, format: Option<ImageFormat>)

  /** `quality` in 1..100. */
  predicate CompressValid(r: CompressRequest) {
    1 <= r.quality <= 100
  }

  function DefaultCompressRequest(): CompressRequest {
    CompressRequest(80, None)
  }

  datatype PassportRequest = PassportRequest(size: PhotoSize, backgroundColor: string, customWidthMm: Option<int>, customHeightMm: Option<int>)

  function DefaultPassportRequest(): PassportRequest {
    PassportRequest(Us, "#FFFFFF", None, None)
  }

  datatype OcrRequest = OcrRequest(language: OcrLanguage, outputFormat: string)

  function DefaultOcrRequest(): OcrRequest {
    OcrRequest(English, "text")
  }

  /** Every declared default satisfies its own bounds; a protect or watermark request is valid exactly when its text is non-empty. */
  lemma DefaultsValid(password: string, text: string)
    ensures PageNumberValid(DefaultPageNumberRequest())
    ensures ResizeValid(DefaultResizeRequest())
    ensures CompressValid(DefaultCompressRequest())
    ensures ProtectValid(NewProtectRequest(password)) <==> password != []
    ensures WatermarkValid(NewWatermarkRequest(text)) <==> text != []
    ensures DefaultSplitRequest().mode == All && DefaultPassportRequest().size == Us && DefaultOcrRequest().language == English
  {
  }

  /** The passport default asks for the table's US size, 51 by 51 mm ... */
  lemma PassportDefaultSize()
    ensures var r := DefaultPassportRequest();
      Passport.PhotoSizeMm(PhotoSizeValue(r.size), r.customWidthMm, r.customHeightMm) == (51, 51)
  {
    assert Lower("us") == "us";
  }

  /** ... on a white background. */
  lemma PassportDefaultBackground()
    ensures Passport.ParseBackground(DefaultPassportRequest().backgroundColor) == Ok((255, 255, 255))
  {
    var hex := "FFFFFF";
    assert DefaultPassportRequest().backgroundColor == "#" + hex;
    WhiteHex(hex);
    Passport.ParseBackgroundOfHex(hex);
  }

  lemma WhiteHex(hex: string)
    requires hex == "FFFFFF"
    ensures forall i :: 0 <= i < 6 ==> Passport.IsHexDigit(hex[i])
    ensures Passport.HexTriple(hex) == (255, 255, 255)
  {
    assert forall i :: 0 <= i < 6 ==> hex[i] == 'F';
    assert DigitVal('F') == 15;
    assert Passport.PairValue('F', 'F') == 255;
  }

  /**
   * A valid resize request in mode "exact" or "fill" with both dimensions
   * produces an image of exactly that size: the bounds make both dimensions
   * truthy.
   */
  lemma ValidResizeSize(r: ResizeRequest, orig: ImageOps.Size)
    requires ResizeValid(r) && orig.w > 0 && orig.h > 0
    requires r.mode == Exact || r.mode == Fill
    requires r.width.Some? && r.height.Some?
    ensures ImageOps.ResultSize(ImageOps.ResizePlan(ResizeModeValue(r.mode), orig, r.width, r.height, r.scale), orig) ==
      Some(ImageOps.Size(r.width.value, r.height.value))
  {
    if r.mode == Exact {
      ImageOps.ExactSize(orig, r.width.value, r.height.value, r.scale);
    } else {
      ImageOps.FillSize(orig, r.width.value, r.height.value, r.scale);
    }
  }

  /** Every declared resize mode is one `resize_image` handles: it is left unchanged only for missing parameters. */
  lemma ResizeModesHandled(r: ResizeRequest, orig: ImageOps.Size)
    requires ResizeValid(r) && orig.w > 0 && orig.h > 0
    requires r.width.Some? && r.height.Some? && (r.mode == Scale ==> r.scale.Some?)
    ensures ImageOps.ResizePlan(ResizeModeValue(r.mode), orig, r.width, r.height, r.scale) != ImageOps.Keep
  {
    ImageOps.KeepIff(ResizeModeValue(r.mode), orig, r.width, r.height, r.scale);
  }
}
