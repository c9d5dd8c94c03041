/**
 * The request checks of the PDF endpoints: the comma-separated page lists
 * that several endpoints accept, the file-count check of merge, the angle
 * check of rotate, the `#RRGGBB` colour of the editing endpoints and the
 * parameter check of add-annotation. Saving uploads, timing and cleanup are
 * I/O around these checks and are not modelled.
 */
module PdfApi {
  import opened Wrappers
  import opened PyBuiltins
  import FileUtil
  import Passport
  import PdfOperations

  /** How a request fails: an `HTTPException` the handler raises, or an uncaught exception (a server error). */
  datatype ApiError = Rejected(error: FileUtil.HttpError) | Crash

  // ---------------------------------------------------------------- page lists

  /** A list comprehension over a parser that may raise: `None` as soon as one field fails. */
  function ParseAll<T>(parse: string -> Option<T>, fields: seq<string>): Option<seq<T>> {
    if fields == [] then Some([])
    else
      match (ParseAll(parse, fields[..|fields| - 1]), parse(fields[|fields| - 1]))
      case (Some(init), Some(v)) => Some(init + [v])
      case _ => None
  }

  /** `nums` holds the parse of each field, in order. */
  predicate Parsed<T(==)>(parse: string -> Option<T>, fields: seq<string>, nums: seq<T>) {
    |nums| == |fields| && forall k :: 0 <= k < |fields| ==> parse(fields[k]) == Some(nums[k])
  }

  lemma ParsedSnoc<T>(parse: string -> Option<T>, fields: seq<string>, nums: seq<T>, f: string, v: T)
    requires Parsed(parse, fields, nums) && parse(f) == Some(v)
    ensures Parsed(parse, fields + [f], nums + [v])
  {
    assert forall k :: 0 <= k < |fields| ==> (fields + [f])[k] == fields[k] && (nums + [v])[k] == nums[k];
  }

  /** One value per field, in order, exactly when every field parses. */
  lemma {:induction false} ParseAllShape<T>(parse: string -> Option<T>, fields: seq<string>)
    ensures ParseAll(parse, fields).Some? <==> forall k :: 0 <= k < |fields| ==> parse(fields[k]).Some?
    ensures ParseAll(parse, fields).Some? ==> Parsed(parse, fields, ParseAll(parse, fields).value)
  {
    if fields != [] {
      var init := fields[..|fields| - 1];
      var last := parse(fields[|fields| - 1]);
      ParseAllShape(parse, init);
      assert forall k :: 0 <= k < |init| ==> init[k] == fields[k];
      if ParseAll(parse, init).Some? && last.Some? {
        ParsedSnoc(parse, init, ParseAll(parse, init).value, fields[|fields| - 1], last.value);
        assert init + [fields[|fields| - 1]] == fields;
      }
    }
  }

  /** `int(p.strip())` for one field. */
  function FieldInt(field: string): Option<int> {
    ParseInt(Strip(field))
  }

  /** `[int(p.strip()) for p in fields]`: `None` when some field is not an integer. */
  function ParseInts(fields: seq<string>): Option<seq<int>> {
    ParseAll(FieldInt, fields)
  }

  /** An optional page list: absent or empty leaves the list `None`, otherwise every field must be an integer. */
  function PageList(pages: Option<string>): Result<Option<seq<int>>, ApiError> {
    if StrTruthy(pages) then
      match ParseInts(SplitStr(pages.value, ","))
      case Some(nums) => Ok(Some(nums))
      case None => Err(Crash)
    else Ok(None)
  }

  /** The required order of reorder: always parsed, so an empty string is a server error. */
  function OrderList(order: string): Result<seq<int>, ApiError> {
    match ParseInts(SplitStr(order, ","))
    case Some(nums) => Ok(nums)
    case None => Err(Crash)
  }

  /** No list is made from an absent or empty field. */
  lemma EmptyPageList()
    ensures PageList(None) == Ok(None) && PageList(Some("")) == Ok(None)
    ensures OrderList("") == Err(Crash)
  {
    assert SplitStr("", ",") == [""];
    assert ParseInts([""]) == None by {
      assert [""][..0] == [];
    }
  }

  /** The numbers written with commas between them parse back to themselves. */
  lemma PageListRoundTrip(nums: seq<int>)
    requires nums != []
    ensures PageList(Some(JoinStr(PdfOperations.NumberStrs(nums), ","))) == Ok(Some(nums))
    ensures OrderList(JoinStr(PdfOperations.NumberStrs(nums), ",")) == Ok(nums)
  {
    var strs := PdfOperations.NumberStrs(nums);
    NumbersHaveNoComma(nums);
    SplitJoin(strs, ',');
    NumbersParse(nums);
    JoinNonEmpty(strs, ",");
  }

  lemma NumbersHaveNoComma(nums: seq<int>)
    ensures forall k :: 0 <= k < |nums| ==> ',' !in PdfOperations.NumberStrs(nums)[k]
  {
    var strs := PdfOperations.NumberStrs(nums);
    forall k | 0 <= k < |strs|
      ensures ',' !in strs[k]
    {
      assert forall i :: 0 <= i < |strs[k]| ==> strs[k][i] == '-' || '0' <= strs[k][i] <= '9';
    }
  }

  lemma NumbersParse(nums: seq<int>)
    ensures ParseInts(PdfOperations.NumberStrs(nums)) == Some(nums)
  {
    var strs := PdfOperations.NumberStrs(nums);
    forall k | 0 <= k < |strs|
      ensures FieldInt(strs[k]) == Some(nums[k])
    {
      StripUnchanged(IntToStr(nums[k]));
      ParseIntOfIntToStr(nums[k]);
    }
    ParseAllShape(FieldInt, strs);
    assert ParseInts(strs).value == nums;
  }

  lemma {:induction false} JoinNonEmpty(parts: seq<string>, sep: string)
    requires parts != [] && parts[0] != []
    ensures JoinStr(parts, sep) != []
  {
  }

  /** Splitting on a character that no part contains undoes the join. */
  lemma {:induction false} SplitJoin(parts: seq<string>, c: char)
    requires parts != [] && forall k :: 0 <= k < |parts| ==> c !in parts[k]
    ensures SplitStr(JoinStr(parts, [c]), [c]) == parts
    decreases |parts|
  {
    if |parts| == 1 {
      NotContainsWithoutFirstChar(parts[0], [c]);
    } else {
      var rest := parts[1..];
      SplitJoin(rest, c);
      assert JoinStr(parts, [c]) == parts[0] + [c] + JoinStr(rest, [c]);
      SplitHead(parts[0], c, JoinStr(rest, [c]));
      assert parts == [parts[0]] + rest;
    }
  }

  lemma SplitHead(a: string, c: char, rest: string)
    requires c !in a
    ensures SplitStr(a + [c] + rest, [c]) == [a] + SplitStr(rest, [c])
  {
    var s := a + [c] + rest;
    assert IsAt(s, [c], |a|) by {
      assert s[|a|..|a| + 1] == [c];
    }
    forall j | 0 <= j < |a|
      ensures !IsAt(s, [c], j)
    {
      assert s[j..j + 1][0] == s[j] == a[j];
    }
    assert Find(s, [c]) == Some(|a|);
    assert s[..|a|] == a;
    assert s[|a| + 1..] == rest;
  }

  // ---------------------------------------------------------------- merge and rotate

  const TooFewFiles := FileUtil.HttpError(400, "At least 2 PDF files required")
  const BadAngle := FileUtil.HttpError(400, "Angle must be 90, 180, or 270")

  /** The first failing check of a file list: `validate_pdf_file` on each in turn. */
  function FirstInvalid(filenames: seq<Option<string>>): (r: Option<FileUtil.HttpError>)
    ensures r.None? <==> forall k :: 0 <= k < |filenames| ==> FileUtil.ValidatePdfFile(filenames[k]).Ok?
  {
    if filenames == [] then None
    else match FileUtil.ValidatePdfFile(filenames[0])
      case Err(e) => Some(e)
      case Ok(_) =>
        var r := FirstInvalid(filenames[1..]);
        assert forall k :: 1 <= k < |filenames| ==> filenames[k] == filenames[1..][k - 1];
        r
  }

  /** The checks of merge: at least two files, then every one a PDF. */
  function MergeCheck(filenames: seq<Option<string>>): (r: Result<(), ApiError>)
    ensures |filenames| < 2 ==> r == Err(Rejected(TooFewFiles))
    ensures r.Ok? <==> |filenames| >= 2 && forall k :: 0 <= k < |filenames| ==> FileUtil.ValidatePdfFile(filenames[k]).Ok?
  {
    if |filenames| < 2 then Err(Rejected(TooFewFiles))
    else match FirstInvalid(filenames)
      case Some(e) => Err(Rejected(e))
      case None => Ok(())
  }

  /** The checks and the page list of rotate. */
  function RotateCheck(filename: Option<string>, angle: int, pages: Option<string>): (r: Result<Option<seq<int>>, ApiError>)
    ensures r.Ok? ==> angle == 90 || angle == 180 || angle == 270
    ensures FileUtil.ValidatePdfFile(filename).Ok? && angle !in {90, 180, 270} ==> r == Err(Rejected(BadAngle))
  {
    match FileUtil.ValidatePdfFile(filename)
    case Err(e) => Err(Rejected(e))
    case Ok(_) =>
      if angle !in {90, 180, 270} then Err(Rejected(BadAngle))
      else PageList(pages)
  }

  /** The rotate endpoint on a document: only the listed pages (all when none are listed) turn. */
  method RotateEndpoint(filename: Option<string>, angle: int, pages: Option<string>, doc: seq<PdfOperations.Page>)
    returns (r: Result<seq<PdfOperations.Page>, ApiError>)
    ensures r.Err? <==> RotateCheck(filename, angle, pages).Err?
    ensures r.Ok? ==> var chosen := RotateCheck(filename, angle, pages).value;
      |r.value| == |doc| &&
      forall i :: 0 <= i < |doc| ==>
        r.value[i] == if PdfOperations.Chosen(chosen, i + 1) then PdfOperations.Rotated(doc[i], angle) else doc[i]
  {
    var checked := RotateCheck(filename, angle, pages);
    if checked.Err? {
      return Err(checked.error);
    }
    var out := PdfOperations.RotatePdf(doc, angle, checked.value);
    r := Ok(out);
  }

  // ---------------------------------------------------------------- colour

  /** `int(color.lstrip('#')[0:2], 16) / 255` and so on; a malformed colour is a server error. */
  function HexColor(color: string): Result<(real, real, real), ApiError> {
    var p := Passport.ParseBackground(color);
    if p.Ok? then Ok((Unit(p.value.0), Unit(p.value.1), Unit(p.value.2))) else Err(Crash)
  }

  /** A channel value over 255. */
  function Unit(v: int): real {
    v as real / 255.0
  }

  /** The value of the two hex digits of `s` at `i`, over 255. */
  function Channel(s: string, i: nat): real
    requires i + 1 < |s|
  {
    Unit(Passport.PairValue(s[i], s[i + 1]))
  }

  /** Six hex digits give three channels, each the value of its digit pair over 255, so in 0..1. */
  lemma HexColorOfDigits(s: string)
    requires |s| == 6 && forall i :: 0 <= i < 6 ==> Passport.IsHexDigit(s[i])
    ensures HexColor("#" + s) == Ok((Channel(s, 0), Channel(s, 2), Channel(s, 4)))
    ensures 0.0 <= Channel(s, 0) <= 1.0 && 0.0 <= Channel(s, 2) <= 1.0 && 0.0 <= Channel(s, 4) <= 1.0
  {
    var color := "#" + s;
    Passport.ParseBackgroundOfHex(s);
    var v := Passport.HexTriple(s);
    HexColorOfParsed(color, v);
    assert Channel(s, 0) == Unit(v.0);
    assert Channel(s, 2) == Unit(v.1);
    assert Channel(s, 4) == Unit(v.2);
    UnitChannel(v.0);
    UnitChannel(v.1);
    UnitChannel(v.2);
  }

  lemma HexColorOfParsed(color: string, v: (int, int, int))
    requires Passport.ParseBackground(color) == Ok(v)
    ensures HexColor(color) == Ok((Unit(v.0), Unit(v.1), Unit(v.2)))
  {
  }

  lemma UnitChannel(v: int)
    requires 0 <= v <= 255
    ensures 0.0 <= Unit(v) <= 1.0
  {
  }

  /** The form default of add-text: black. */
  lemma BlackDefault()
    ensures HexColor("#000000") == Ok((0.0, 0.0, 0.0))
  {
    var black := "000000";
    assert "#000000" == "#" + black;
    assert forall i :: 0 <= i < 6 ==> black[i] == '0';
    HexColorOfDigits(black);
    assert DigitVal('0') == 0;
    assert Channel(black, 0) == 0.0 && Channel(black, 2) == 0.0 && Channel(black, 4) == 0.0;
  }

  /** The form default of add-annotation: red. */
  lemma RedDefault()
    ensures HexColor("#FF0000") == Ok((1.0, 0.0, 0.0))
  {
    var red := "FF0000";
    assert "#FF0000" == "#" + red;
    HexColorOfDigits(red);
    assert DigitVal('F') == 15 && DigitVal('0') == 0;
    assert Channel(red, 0) == 1.0 && Channel(red, 2) == 0.0 && Channel(red, 4) == 0.0;
  }

  // ---------------------------------------------------------------- annotations

  datatype AnnotationKind = Highlight | Underline | Strikeout | Rectangle | Circle | Line | Arrow | Note | FreeText

  /** The optional form fields of add-annotation. */
  datatype AnnotationArgs = AnnotationArgs(
    rect: Option<string>, point: Option<string>, start: Option<string>, end: Option<string>,
    center: Option<string>, radius: Option<real>, text: Option<string>)

  /** The dispatch chain of add-annotation: the first branch whose name and parameters match. */
  function Dispatch(annotationType: string, a: AnnotationArgs): Option<AnnotationKind> {
    if annotationType == "highlight" && StrTruthy(a.rect) then Some(Highlight)
    else if annotationType == "underline" && StrTruthy(a.rect) then Some(Underline)
    else if annotationType == "strikeout" && StrTruthy(a.rect) then Some(Strikeout)
    else if annotationType == "rectangle" && StrTruthy(a.rect) then Some(Rectangle)
    else if annotationType == "circle" && StrTruthy(a.center) && a.radius.Some? && a.radius.value != 0.0 then Some(Circle)
    else if annotationType == "line" && StrTruthy(a.start) && StrTruthy(a.end) then Some(Line)
    else if annotationType == "arrow" && StrTruthy(a.start) && StrTruthy(a.end) then Some(Arrow)
    else if annotationType == "note" && StrTruthy(a.point) && StrTruthy(a.text) then Some(Note)
    else if annotationType == "freetext" && StrTruthy(a.rect) && StrTruthy(a.text) then Some(FreeText)
    else None
  }

  /** The name each kind is requested by. */
  function KindName(k: AnnotationKind): string {
    match k
    case Highlight => "highlight"
    case Underline => "underline"
    case Strikeout => "strikeout"
    case Rectangle => "rectangle"
    case Circle => "circle"
    case Line => "line"
    case Arrow => "arrow"
    case Note => "note"
    case FreeText => "freetext"
  }

  datatype Param = RectParam | PointParam | StartParam | EndParam | CenterParam | RadiusParam | TextParam

  /** The parameters each kind needs. */
  function Needs(k: AnnotationKind): set<Param> {
    match k
    case Highlight => {RectParam}
    case Underline => {RectParam}
    case Strikeout => {RectParam}
    case Rectangle => {RectParam}
    case Circle => {CenterParam, RadiusParam}
    case Line => {StartParam, EndParam}
    case Arrow => {StartParam, EndParam}
    case Note => {PointParam, TextParam}
    case FreeText => {RectParam, TextParam}
  }

  /** A parameter is given when its form value is truthy (a radius of 0 is not). */
  predicate Given(a: AnnotationArgs, p: Param) {
    match p
    case RectParam => StrTruthy(a.rect)
    case PointParam => StrTruthy(a.point)
    case StartParam => StrTruthy(a.start)
    case EndParam => StrTruthy(a.end)
    case CenterParam => StrTruthy(a.center)
    case RadiusParam => a.radius.Some? && a.radius.value != 0.0
    case TextParam => StrTruthy(a.text)
  }

  /** The chain picks kind `k` exactly when `k` is the kind named and all the parameters it needs are given. */
  lemma DispatchByTable(annotationType: string, a: AnnotationArgs, k: AnnotationKind)
    ensures Dispatch(annotationType, a) == Some(k) <==> KindName(k) == annotationType && forall p :: p in Needs(k) ==> Given(a, p)
  {
    if Dispatch(annotationType, a) == Some(k) {
      DispatchSound(annotationType, a);
    }
    if KindName(k) == annotationType && forall p :: p in Needs(k) ==> Given(a, p) {
      DispatchComplete(a, k);
    }
  }

  lemma DispatchSound(annotationType: string, a: AnnotationArgs)
    requires Dispatch(annotationType, a).Some?
    ensures var k := Dispatch(annotationType, a).value; KindName(k) == annotationType && forall p :: p in Needs(k) ==> Given(a, p)
  {
  }

  lemma DispatchComplete(a: AnnotationArgs, k: AnnotationKind)
    requires forall p :: p in Needs(k) ==> Given(a, p)
    ensures Dispatch(KindName(k), a) == Some(k)
  {
    var name := KindName(k);
    match k
    case Highlight => assert Given(a, RectParam);
    case Underline => assert Given(a, RectParam); assert name[0] == 'u';
    case Strikeout => assert Given(a, RectParam); assert name[0] == 's';
    case Rectangle => assert Given(a, RectParam); assert name[0] == 'r';
    case Circle => assert Given(a, CenterParam) && Given(a, RadiusParam);
    case Line => assert Given(a, StartParam) && Given(a, EndParam);
    case Arrow => assert Given(a, StartParam) && Given(a, EndParam);
    case Note => assert Given(a, PointParam) && Given(a, TextParam);
    case FreeText => assert Given(a, RectParam) && Given(a, TextParam); assert name[0] == 'f';
  }

  const BadAnnotation := FileUtil.HttpError(400, "Invalid annotation parameters")

  /** The checks of add-annotation in their order: the file, then the colour, then the parameters. */
  function AnnotationCheck(filename: Option<string>, annotationType: string, a: AnnotationArgs, color: string): (r: Result<AnnotationKind, ApiError>)
    ensures r.Ok? ==> Dispatch(annotationType, a) == Some(r.value)
    ensures FileUtil.ValidatePdfFile(filename).Ok? && HexColor(color).Ok? && Dispatch(annotationType, a).None? ==>
      r == Err(Rejected(BadAnnotation))
  {
    match FileUtil.ValidatePdfFile(filename)
    case Err(e) => Err(Rejected(e))
    case Ok(_) =>
      if HexColor(color).Err? then Err(Crash)
      else match Dispatch(annotationType, a)
        case Some(k) => Ok(k)
        case None => Err(Rejected(BadAnnotation))
  }

  /** A circle needs a center and a non-zero radius. */
  lemma CircleNeedsRadius(a: AnnotationArgs)
    ensures Dispatch("circle", a).Some? <==> StrTruthy(a.center) && a.radius.Some? && a.radius.value != 0.0
  {
  }
}
