/**
 * Passport photos: print sizes in millimetres turned into pixels at the
 * print resolution, the background colour parsed from its hex form, the
 * horizontal centring of the subject, and the grid of copies laid out on a
 * sheet of paper. Image processing itself (background removal, scaling,
 * pasting, saving) is not modelled.
 */
module Passport {
  import opened Wrappers
  import opened PyBuiltins

  /** Photo sizes in millimetres, width by height, by country. */
  const PassportSizes: map<string, (int, int)> := map[
    "us" := (51, 51), "uk" := (35, 45), "eu" := (35, 45), "india" := (35, 45),
    "china" := (33, 48), "japan" := (35, 45), "canada" := (50, 70), "australia" := (35, 45)]

  const DefaultPhotoSize: (int, int) := (51, 51)

  const PrintDpi := 300

  /** Paper sizes in millimetres. */
  const PaperSizes: map<string, (int, int)> := map["4x6" := (152, 102), "a4" := (297, 210)]

  const DefaultPaperSize: (int, int) := (152, 102)

  /** The gap between photos and around the grid, in millimetres. */
  const MarginMm := 3

  /** Integer division rounding toward zero, as `int()` of a quotient does. */
  function TruncDiv(a: int, b: int): (q: int)
    requires b > 0
    ensures a >= 0 ==> q == a / b
    ensures a < 0 ==> q == -((-a) / b)
  {
    if a >= 0 then a / b else -((-a) / b)
  }

  /**
   * `int(mm * dpi / 25.4)` for a whole number of millimetres, computed on
   * the exact quotient `mm * dpi * 10 / 254`.
   */
  function MmToPixels(mm: int, dpi: int): int {
    TruncDiv(mm * dpi * 10, 254)
  }

  /** For a non-negative length the conversion is the floor of the exact quotient. */
  lemma MmToPixelsFloor(mm: int, dpi: int)
    requires mm >= 0 && dpi >= 0
    ensures MmToPixels(mm, dpi) >= 0
    ensures MmToPixels(mm, dpi) * 254 <= mm * dpi * 10 < (MmToPixels(mm, dpi) + 1) * 254
  {
    var a := mm * dpi * 10;
    assert a >= 0 by {
      assert mm * dpi >= 0;
    }
  }

  lemma TruncDivMonotone(a: int, b: int, d: int)
    requires d > 0 && a <= b
    ensures TruncDiv(a, d) <= TruncDiv(b, d)
  {
    if a < 0 && b >= 0 {
      DivMonotone(0, -a, d);
      DivMonotone(0, b, d);
      assert 0 / d == 0;
    } else if a < 0 && b < 0 {
      DivMonotone(-b, -a, d);
    } else {
      DivMonotone(a, b, d);
    }
  }

  lemma DivMonotone(a: int, b: int, d: int)
    requires d > 0 && 0 <= a <= b
    ensures a / d <= b / d
  {
    var qa, qb := a / d, b / d;
    assert a == qa * d + a % d && b == qb * d + b % d;
    if qa > qb {
      MulGap(qa, qb, d);
    }
  }

  lemma MulGap(x: int, y: int, d: int)
    requires x > y && d > 0
    ensures x * d >= y * d + d
  {
    MulAtLeast(x - y, d);
    assert (x - y) * d == x * d - y * d;
  }

  /** A longer side never gives fewer pixels. */
  lemma MmToPixelsMonotone(a: int, b: int, dpi: int)
    requires a <= b && dpi >= 0
    ensures MmToPixels(a, dpi) <= MmToPixels(b, dpi)
  {
    assert a * dpi <= b * dpi by {
      assert (b - a) * dpi >= 0;
    }
    TruncDivMonotone(a * dpi * 10, b * dpi * 10, 254);
  }

  /** A size looked up by its lower-cased name, with a fallback. */
  function SizeLookup(table: map<string, (int, int)>, name: string, fallback: (int, int)): (int, int) {
    var key := Lower(name);
    if key in table then table[key] else fallback
  }

  /** The photo size in millimetres: both custom sides when both are given and non-zero, else the named size. */
  function PhotoSizeMm(size: string, customWidth: Option<int>, customHeight: Option<int>): (r: (int, int))
    ensures IntTruthy(customWidth) && IntTruthy(customHeight) ==> r == (customWidth.value, customHeight.value)
    ensures !(IntTruthy(customWidth) && IntTruthy(customHeight)) ==>
      r == (if Lower(size) in PassportSizes then PassportSizes[Lower(size)] else DefaultPhotoSize)
  {
    if IntTruthy(customWidth) && IntTruthy(customHeight) then (customWidth.value, customHeight.value)
    else SizeLookup(PassportSizes, size, DefaultPhotoSize)
  }

  /** Size names are case-insensitive, and `custom` without both dimensions falls back to 51 by 51 mm. */
  lemma PhotoSizeCases(size: string, w: Option<int>, h: Option<int>)
    ensures PhotoSizeMm("custom", w, None) == DefaultPhotoSize
    ensures PhotoSizeMm("US", None, None) == (51, 51) && PhotoSizeMm("China", None, None) == (33, 48)
    ensures PhotoSizeMm(size, Some(0), h) == PhotoSizeMm(size, None, None)
    ensures PhotoSizeMm(Lower(size), None, None) == PhotoSizeMm(size, None, None)
  {
    LowerIdempotent(size);
    assert Lower("custom") == "custom";
    assert Lower("US") == "us";
    assert Lower("China") == "china";
  }

  /** The target size of one photo in pixels. */
  function TargetSize(size: string, customWidth: Option<int>, customHeight: Option<int>): (int, int) {
    var mm := PhotoSizeMm(size, customWidth, customHeight);
    (MmToPixels(mm.0, PrintDpi), MmToPixels(mm.1, PrintDpi))
  }

  // ---------------------------------------------------------------- background colour

  /** `s.lstrip(c)`. */
  function LStripChar(s: string, c: char): (r: string)
    ensures |r| <= |s| && r == s[|s| - |r|..]
    ensures forall i :: 0 <= i < |s| - |r| ==> s[i] == c
    ensures r == [] || r[0] != c
  {
    if s != [] && s[0] == c then LStripChar(s[1..], c) else s
  }

  datatype ColorError = ValueError

  /** The background colour: two characters per channel after the leading `#`s, each read by `int(_, 16)`. */
  function ParseBackground(background: string): Result<(int, int, int), ColorError> {
    var color := LStripChar(background, '#');
    var r := HexPair(color, 0);
    var g := HexPair(color, 2);
    var b := HexPair(color, 4);
    if r.None? || g.None? || b.None? then Err(ValueError) else Ok((r.value, g.value, b.value))
  }

  /** `int(color[i:i+2], 16)`. */
  function HexPair(color: string, i: nat): Option<int> {
    ParseHex(Slice(color, i, i + 2))
  }

  /** The number two hex digits spell. */
  function PairValue(c0: char, c1: char): int {
    DigitVal(c0) * 16 + DigitVal(c1)
  }

  predicate IsHexDigit(c: char) {
    '0' <= c <= '9' || 'a' <= c <= 'f' || 'A' <= c <= 'F'
  }

  /** A pair of hex digits reads as a channel in 0..255. */
  lemma ParseHexPair(c0: char, c1: char)
    requires IsHexDigit(c0) && IsHexDigit(c1)
    ensures ParseHex([c0, c1]) == Some(PairValue(c0, c1))
    ensures 0 <= PairValue(c0, c1) <= 255
  {
    var t := [c0, c1];
    StripUnchanged(t);
    assert t[..1] == [c0];
    assert [c0][..0] == [];
    assert IsDigitIn(c0, 16) && IsDigitIn(c1, 16);
    assert ValidDigits(t, 16);
    assert DigitsValue([c0], 16) == DigitVal(c0);
    assert DigitsValue(t, 16) == DigitVal(c0) * 16 + DigitVal(c1);
    assert ParseMagnitude(t, 16, true) == Some(DigitVal(c0) * 16 + DigitVal(c1));
  }

  /** Six hex digits after the `#` give the three channels they spell, each in 0..255. */
  lemma ParseBackgroundOfHex(s: string)
    requires |s| == 6 && forall i :: 0 <= i < 6 ==> IsHexDigit(s[i])
    ensures ParseBackground("#" + s) == Ok(HexTriple(s))
    ensures 0 <= HexTriple(s).0 <= 255 && 0 <= HexTriple(s).1 <= 255 && 0 <= HexTriple(s).2 <= 255
  {
    var color := "#" + s;
    assert color[1..] == s;
    assert LStripChar(color, '#') == s;
    HexSlice(s, 0);
    HexSlice(s, 2);
    HexSlice(s, 4);
    ParseBackgroundOf(color, s);
  }

  /** The channels that six hex digits spell, two digits each. */
  function HexTriple(s: string): (int, int, int)
    requires |s| == 6
  {
    (PairValue(s[0], s[1]), PairValue(s[2], s[3]), PairValue(s[4], s[5]))
  }

  /** The colour is read from what remains after the leading `#`s. */
  lemma ParseBackgroundOf(background: string, color: string)
    requires LStripChar(background, '#') == color
    requires HexPair(color, 0).Some? && HexPair(color, 2).Some? && HexPair(color, 4).Some?
    ensures ParseBackground(background) == Ok((HexPair(color, 0).value, HexPair(color, 2).value, HexPair(color, 4).value))
  {
  }

  lemma HexSlice(s: string, i: nat)
    requires i + 1 < |s| && IsHexDigit(s[i]) && IsHexDigit(s[i + 1])
    ensures HexPair(s, i) == Some(PairValue(s[i], s[i + 1]))
    ensures 0 <= PairValue(s[i], s[i + 1]) <= 255
  {
    assert Slice(s, i, i + 2) == [s[i], s[i + 1]];
    ParseHexPair(s[i], s[i + 1]);
  }

  /** A colour too short to hold three channels raises `ValueError`. */
  lemma ShortBackgroundFails(background: string)
    requires |LStripChar(background, '#')| <= 4
    ensures ParseBackground(background) == Err(ValueError)
  {
    var color := LStripChar(background, '#');
    assert Slice(color, 4, 6) == [];
    assert Strip([]) == [];
  }

  // ---------------------------------------------------------------- placement

  /** `(target_width - new_width) // 2`, the left offset that centres the subject. */
  function XOffset(targetWidth: int, newWidth: int): (x: int)
    ensures 0 <= (targetWidth - newWidth - x) - x <= 1
  {
    (targetWidth - newWidth) / 2
  }

  /** The photo grid on a sheet, all in pixels. */
  datatype SheetLayout = SheetLayout(paperWidth: int, paperHeight: int, photoWidth: int, photoHeight: int,
                                     margin: int, cols: int, rows: int, xStart: int, yStart: int)

  /** The grid for a photo size and a paper size, both looked up by name. */
  function SheetLayoutFor(size: string, paperSize: string): (l: SheetLayout)
    ensures l.margin > 0 && l.photoWidth > 0 && l.photoHeight > 0
    ensures l.cols == (l.paperWidth - l.margin) / (l.photoWidth + l.margin)
    ensures l.rows == (l.paperHeight - l.margin) / (l.photoHeight + l.margin)
  {
    var paperMm := SizeLookup(PaperSizes, paperSize, DefaultPaperSize);
    var paperWidth := MmToPixels(paperMm.0, PrintDpi);
    var paperHeight := MmToPixels(paperMm.1, PrintDpi);
    var photoMm := SizeLookup(PassportSizes, size, DefaultPhotoSize);
    var photoWidth := MmToPixels(photoMm.0, PrintDpi);
    var photoHeight := MmToPixels(photoMm.1, PrintDpi);
    var margin := MmToPixels(MarginMm, PrintDpi);
    var cols := (paperWidth - margin) / (photoWidth + margin);
    var rows := (paperHeight - margin) / (photoHeight + margin);
    var xStart := (paperWidth - (cols * photoWidth + (cols - 1) * margin)) / 2;
    var yStart := (paperHeight - (rows * photoHeight + (rows - 1) * margin)) / 2;
    LookupPositive(size);
    SheetLayout(paperWidth, paperHeight, photoWidth, photoHeight, margin, cols, rows, xStart, yStart)
  }

  lemma LookupPositive(name: string)
    ensures var mm := SizeLookup(PassportSizes, name, DefaultPhotoSize);
      MmToPixels(mm.0, PrintDpi) > 0 && MmToPixels(mm.1, PrintDpi) > 0
  {
    var mm := SizeLookup(PassportSizes, name, DefaultPhotoSize);
    var key := Lower(name);
    assert key in PassportSizes ==> key in {"us", "uk", "eu", "india", "china", "japan", "canada", "australia"};
    assert mm.0 >= 33 && mm.1 >= 45;
    MmToPixelsMonotone(1, mm.0, PrintDpi);
    MmToPixelsMonotone(1, mm.1, PrintDpi);
  }

  /** The top-left corner of the photo in a row and column of the grid. */
  function Position(l: SheetLayout, row: int, col: int): (int, int) {
    (l.xStart + col * (l.photoWidth + l.margin), l.yStart + row * (l.photoHeight + l.margin))
  }

  function Min(a: int, b: int): int {
    if a <= b then a else b
  }

  /** How many photos the sheet gets: as many copies as asked for, up to a full grid. */
  function PlacedCount(copies: int, rows: int, cols: int): nat {
    if copies <= 0 || rows <= 0 || cols <= 0 then 0 else Min(copies, rows * cols)
  }

  /** Euclidean division is unique: the quotient and remainder of `q * d + r` are `q` and `r`. */
  lemma RowMajor(q: int, r: int, d: int)
    requires 0 <= r < d
    ensures (q * d + r) / d == q && (q * d + r) % d == r
  {
    var a := q * d + r;
    var k := q - a / d;
    assert k * d == a % d - r by {
      assert a == (a / d) * d + a % d;
      assert k * d == q * d - (a / d) * d;
    }
    if k > 0 {
      MulAtLeast(k, d);
    } else if k < 0 {
      MulAtLeast(-k, d);
    }
  }

  lemma MulAtLeast(k: int, d: int)
    requires k >= 1 && d > 0
    ensures k * d >= d
  {
  }

  /**
   * The nested row and column loops of `create_passport_photo_sheet`: the
   * photos placed, row by row, stopping once `copies` have been placed.
   */
  method PlacePhotos(l: SheetLayout, copies: int) returns (positions: seq<(int, int)>)
    ensures |positions| == PlacedCount(copies, l.rows, l.cols)
    ensures forall k :: 0 <= k < |positions| ==> positions[k] == Position(l, k / l.cols, k % l.cols)
  {
    positions := [];
    var count := 0;
    var row := 0;
    while row < l.rows
      invariant 0 <= row <= (if l.rows >= 0 then l.rows else 0)
      invariant count == |positions|
      invariant count == (if copies <= 0 || l.cols <= 0 then 0 else Min(copies, row * l.cols))
      invariant forall k :: 0 <= k < count ==> positions[k] == Position(l, k / l.cols, k % l.cols)
    {
      var col := 0;
      while col < l.cols
        invariant 0 <= col <= (if l.cols >= 0 then l.cols else 0)
        invariant count == |positions|
        invariant count == (if copies <= 0 || l.cols <= 0 then 0 else Min(copies, row * l.cols + col))
        invariant forall k :: 0 <= k < count ==> positions[k] == Position(l, k / l.cols, k % l.cols)
      {
        if count >= copies {
          break;
        }
        RowMajor(row, col, l.cols);
        positions := positions + [Position(l, row, col)];
        count := count + 1;
        col := col + 1;
      }
      assert (row + 1) * l.cols == row * l.cols + l.cols;
      row := row + 1;
    }
  }

  /** The 51 mm photos of the default size fit two to a 4x6 sheet, in one row, whatever was asked for. */
  lemma DefaultSheet()
    ensures var l := SheetLayoutFor("us", "4x6");
      l.paperWidth == 1795 && l.paperHeight == 1204 && l.photoWidth == 602 && l.margin == 35 &&
      l.cols == 2 && l.rows == 1 && PlacedCount(6, l.rows, l.cols) == 2
  {
    assert Lower("us") == "us";
    assert Lower("4x6") == "4x6";
  }
}
