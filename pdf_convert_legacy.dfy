/**
 * The older copy of the conversion service: its PDF-to-Word and
 * PDF-to-PowerPoint routing (no classification), the slide size chosen from
 * the first page, and the PDF-to-Excel layout written cell by cell under a
 * running row counter, with its column widths.
 */
module PdfConvertLegacy {
  import opened Wrappers
  import opened PyBuiltins
  import opened PdfConvert

  // ---------------------------------------------------------------- routing

  /** `pdf_to_word`: pdf2docx, and the span extraction when it raises. */
  function LegacyPdfToWord(pdf2docxFails: bool): WordConverter {
    if pdf2docxFails then AdvancedText else Pdf2Docx
  }

  /** The old router is the new router's text mode, whatever the classification says. */
  lemma LegacyWordIsTextMode(a: Analysis, pdf2docxFails: bool)
    ensures LegacyPdfToWord(pdf2docxFails) == PdfToWord("text", a, pdf2docxFails)
    ensures LegacyPdfToWord(pdf2docxFails) == Pdf2Docx <==> !pdf2docxFails
    ensures LegacyPdfToWord(pdf2docxFails) != OcrText
  {
  }

  /** `pdf_to_pptx`: always the rendering conversion; there is no OCR branch. */
  function LegacyPdfToPptx(): PptxConverter {
    PptxAdvanced
  }

  /** The old conversion agrees with the new one exactly on files that are not classified as scanned. */
  lemma LegacyPptxAgrees(a: Analysis)
    ensures LegacyPdfToPptx() == PdfToPptx(a) <==> !a.isScanned
  {
  }

  // ---------------------------------------------------------------- slides

  /** A slide size in inches. */
  datatype SlideSize = SlideSize(width: real, height: real)

  const WideSlide := SlideSize(13.333, 7.5)
  const StandardSlide := SlideSize(10.0, 7.5)

  /** What reading the first page's proportions can raise. */
  datatype SlideError = NoFirstPage | ZeroHeight

  /** A page's size as the library reports it (`rect.width`, `rect.height`). */
  datatype PageRect = PageRect(width: real, height: real)

  /** The slide size from the first page: wide when the page is more than 1.5 times as wide as high. */
  function SlideSizeFor(pages: seq<PageRect>): (r: Result<SlideSize, SlideError>)
    ensures r.Ok? <==> |pages| > 0 && pages[0].height != 0.0
    ensures pages == [] ==> r == Err(NoFirstPage)
    ensures r.Ok? ==> (r.value == WideSlide <==> pages[0].width / pages[0].height > 1.5)
    ensures r.Ok? ==> r.value == WideSlide || r.value == StandardSlide
  {
    if pages == [] then Err(NoFirstPage)
    else if pages[0].height == 0.0 then Err(ZeroHeight)
    else if pages[0].width / pages[0].height > 1.5 then Ok(WideSlide)
    else Ok(StandardSlide)
  }

  /** The slide chosen falls on the same side of the 1.5 threshold as the page it was chosen for. */
  lemma SlideKeepsProportionClass(pages: seq<PageRect>)
    requires SlideSizeFor(pages).Ok?
    ensures var s := SlideSizeFor(pages).value;
      s.width / s.height > 1.5 <==> pages[0].width / pages[0].height > 1.5
  {
  }

  /** A picture on a slide: position and size, in inches. */
  datatype Placement = Placement(left: real, top: real, width: real, height: real)

  const SlideMargin := 0.2

  /** Each page becomes one slide holding its rendering, 0.2 inch inside every edge. */
  function LegacySlides(pages: seq<PageRect>): (r: Result<seq<Placement>, SlideError>)
    ensures r.Ok? <==> SlideSizeFor(pages).Ok?
    ensures r.Ok? ==> |r.value| == |pages|
    ensures r.Ok? ==> forall k :: 0 <= k < |r.value| ==>
      r.value[k].left + r.value[k].width + SlideMargin == SlideSizeFor(pages).value.width &&
      r.value[k].top + r.value[k].height + SlideMargin == SlideSizeFor(pages).value.height
  {
    match SlideSizeFor(pages)
    case Err(e) => Err(e)
    case Ok(s) =>
      Ok(seq(|pages|, k => Placement(SlideMargin, SlideMargin, s.width - 2.0 * SlideMargin, s.height - 2.0 * SlideMargin)))
  }

  // ---------------------------------------------------------------- Excel layout

  /** A detected table: rows of cells, a cell being `None` when empty. */
  type Table = seq<seq<Option<string>>>

  /** What the layout reads from a page: the tables found, and the page text used when there are none. */
  datatype ExcelPage = ExcelPage(tables: seq<Table>, text: string)

  /** The formatting a written cell receives. */
  datatype Style =
    | PageHeading   // "Page k" above a table, bold, size 12
    | TextHeading   // "--- Page k ---" above a page's text, bold
    | HeaderCell    // the first row of a table: bordered, bold, filled
    | BodyCell      // any other table row: bordered
    | TextLine      // a line of page text, unformatted

  datatype SheetCell = SheetCell(row: nat, col: nat, value: string, style: Style)

  /** `cell or ""`. */
  function CellValue(c: Option<string>): string {
    if c.Some? then c.value else ""
  }

  /** The cells of one table row, columns from 1. */
  function RowCells(r: nat, row: seq<Option<string>>, header: bool): seq<SheetCell> {
    if row == [] then []
    else
      var n := |row|;
      RowCells(r, row[..n - 1], header) + [SheetCell(r, n, CellValue(row[n - 1]), if header then HeaderCell else BodyCell)]
  }

  /** The rows of a table written from row `start` on; only the first is styled as a header. */
  function RowsCells(start: nat, rows: Table): seq<SheetCell> {
    if rows == [] then []
    else
      var n := |rows|;
      RowsCells(start, rows[..n - 1]) + RowCells(start + n - 1, rows[n - 1], n == 1)
  }

  /** A table takes its heading row, one row per table row and one blank row. */
  function TableHeight(t: Table): nat {
    |t| + 2
  }

  function TableCells(start: nat, pageNum: nat, t: Table): seq<SheetCell> {
    [SheetCell(start, 1, "Page " + IntToStr(pageNum + 1), PageHeading)] + RowsCells(start + 1, t)
  }

  function TablesHeight(ts: seq<Table>): nat {
    if ts == [] then 0 else TablesHeight(ts[..|ts| - 1]) + TableHeight(ts[|ts| - 1])
  }

  function TablesCells(start: nat, pageNum: nat, ts: seq<Table>): seq<SheetCell> {
    if ts == [] then []
    else
      var n := |ts|;
      TablesCells(start, pageNum, ts[..n - 1]) + TableCells(start + TablesHeight(ts[..n - 1]), pageNum, ts[n - 1])
  }

  /** The number of lines that are not blank. */
  function KeptLines(lines: seq<string>): nat {
    if lines == [] then 0
    else KeptLines(lines[..|lines| - 1]) + (if Strip(lines[|lines| - 1]) != "" then 1 else 0)
  }

  /** The non-blank lines, stripped, one per row from `start` on. */
  function LinesCells(start: nat, lines: seq<string>): seq<SheetCell> {
    if lines == [] then []
    else
      var n := |lines|;
      var init := lines[..n - 1];
      LinesCells(start, init)
        + (if Strip(lines[n - 1]) != "" then [SheetCell(start + KeptLines(init), 1, Strip(lines[n - 1]), TextLine)] else [])
  }

  function TextCells(start: nat, pageNum: nat, text: string): seq<SheetCell> {
    [SheetCell(start, 1, "--- Page " + IntToStr(pageNum + 1) + " ---", TextHeading)] + LinesCells(start + 1, SplitStr(text, "\n"))
  }

  /** A page with tables takes their rows; one without takes a heading, its kept lines and a blank row. */
  function PageHeight(p: ExcelPage): nat {
    if p.tables != [] then TablesHeight(p.tables) else KeptLines(SplitStr(p.text, "\n")) + 2
  }

  function PageCells(start: nat, pageNum: nat, p: ExcelPage): seq<SheetCell> {
    if p.tables != [] then TablesCells(start, pageNum, p.tables) else TextCells(start, pageNum, p.text)
  }

  function RowsUsed(pages: seq<ExcelPage>): nat {
    if pages == [] then 0 else RowsUsed(pages[..|pages| - 1]) + PageHeight(pages[|pages| - 1])
  }

  /** Every page's cells, each page starting on the row after the previous page's. */
  function LayoutCells(pages: seq<ExcelPage>): seq<SheetCell> {
    if pages == [] then []
    else
      var n := |pages|;
      LayoutCells(pages[..n - 1]) + PageCells(1 + RowsUsed(pages[..n - 1]), n - 1, pages[n - 1])
  }

  /** One table row, cell by cell. */
  method WriteRow(cells: seq<SheetCell>, r: nat, row: seq<Option<string>>, header: bool) returns (cells': seq<SheetCell>)
    ensures cells' == cells + RowCells(r, row, header)
  {
    cells' := cells;
    for c := 0 to |row|
      invariant cells' == cells + RowCells(r, row[..c], header)
    {
      assert row[..c + 1][..c] == row[..c];
      var style := if header then HeaderCell else BodyCell;
      cells' := cells' + [SheetCell(r, c + 1, if row[c].Some? then row[c].value else "", style)];
    }
    assert row[..|row|] == row;
  }

  /** A table: its heading, its rows, and the blank row after it. */
  method WriteTable(cells: seq<SheetCell>, rowNum: nat, pageNum: nat, t: Table) returns (cells': seq<SheetCell>, rowNum': nat)
    ensures cells' == cells + TableCells(rowNum, pageNum, t)
    ensures rowNum' == rowNum + TableHeight(t)
  {
    var heading := SheetCell(rowNum, 1, "Page " + IntToStr(pageNum + 1), PageHeading);
    AppendAssoc(cells, [heading], RowsCells(rowNum + 1, t));
    cells' := cells + [heading];
    cells', rowNum' := WriteRows(cells', rowNum + 1, t);
    rowNum' := rowNum' + 1;
  }

  /** The rows of a table, the first styled as its header. */
  method WriteRows(cells: seq<SheetCell>, rowNum: nat, t: Table) returns (cells': seq<SheetCell>, rowNum': nat)
    ensures cells' == cells + RowsCells(rowNum, t)
    ensures rowNum' == rowNum + |t|
  {
    cells', rowNum' := cells, rowNum;
    for rowIdx := 0 to |t|
      invariant cells' == cells + RowsCells(rowNum, t[..rowIdx])
      invariant rowNum' == rowNum + rowIdx
    {
      RowsCellsSnoc(rowNum, t, rowIdx);
      AppendAssoc(cells, RowsCells(rowNum, t[..rowIdx]), RowCells(rowNum + rowIdx, t[rowIdx], rowIdx == 0));
      cells' := WriteRow(cells', rowNum', t[rowIdx], rowIdx == 0);
      rowNum' := rowNum' + 1;
    }
    assert t[..|t|] == t;
  }

  lemma RowsCellsSnoc(start: nat, t: Table, i: nat)
    requires i < |t|
    ensures RowsCells(start, t[..i + 1]) == RowsCells(start, t[..i]) + RowCells(start + i, t[i], i == 0)
  {
    assert t[..i + 1][..i] == t[..i];
  }

  /** The non-blank lines of a page's text, stripped, one per row. */
  method WriteLines(cells: seq<SheetCell>, rowNum: nat, lines: seq<string>) returns (cells': seq<SheetCell>, rowNum': nat)
    ensures cells' == cells + LinesCells(rowNum, lines)
    ensures rowNum' == rowNum + KeptLines(lines)
  {
    cells', rowNum' := cells, rowNum;
    for k := 0 to |lines|
      invariant cells' == cells + LinesCells(rowNum, lines[..k])
      invariant rowNum' == rowNum + KeptLines(lines[..k])
    {
      assert lines[..k + 1][..k] == lines[..k];
      var line := lines[k];
      if Strip(line) != "" {
        cells' := cells' + [SheetCell(rowNum', 1, Strip(line), TextLine)];
        rowNum' := rowNum' + 1;
      }
    }
    assert lines[..|lines|] == lines;
  }

  /** A page without tables: its heading, its non-blank lines stripped, and a blank row. */
  method WriteText(cells: seq<SheetCell>, rowNum: nat, pageNum: nat, text: string) returns (cells': seq<SheetCell>, rowNum': nat)
    ensures cells' == cells + TextCells(rowNum, pageNum, text)
    ensures rowNum' == rowNum + KeptLines(SplitStr(text, "\n")) + 2
  {
    var heading := SheetCell(rowNum, 1, "--- Page " + IntToStr(pageNum + 1) + " ---", TextHeading);
    AppendAssoc(cells, [heading], LinesCells(rowNum + 1, SplitStr(text, "\n")));
    cells', rowNum' := WriteLines(cells + [heading], rowNum + 1, SplitStr(text, "\n"));
    rowNum' := rowNum' + 1;
  }

  /** The tables of one page, one after the other. */
  method WriteTables(cells: seq<SheetCell>, rowNum: nat, pageNum: nat, ts: seq<Table>) returns (cells': seq<SheetCell>, rowNum': nat)
    ensures cells' == cells + TablesCells(rowNum, pageNum, ts)
    ensures rowNum' == rowNum + TablesHeight(ts)
  {
    cells', rowNum' := cells, rowNum;
    for ti := 0 to |ts|
      invariant cells' == cells + TablesCells(rowNum, pageNum, ts[..ti])
      invariant rowNum' == rowNum + TablesHeight(ts[..ti])
    {
      TablesSnoc(rowNum, pageNum, ts, ti);
      AppendAssoc(cells, TablesCells(rowNum, pageNum, ts[..ti]), TableCells(rowNum + TablesHeight(ts[..ti]), pageNum, ts[ti]));
      cells', rowNum' := WriteTable(cells', rowNum', pageNum, ts[ti]);
    }
    assert ts[..|ts|] == ts;
  }

  lemma TablesSnoc(start: nat, pageNum: nat, ts: seq<Table>, i: nat)
    requires i < |ts|
    ensures TablesCells(start, pageNum, ts[..i + 1]) ==
      TablesCells(start, pageNum, ts[..i]) + TableCells(start + TablesHeight(ts[..i]), pageNum, ts[i])
    ensures TablesHeight(ts[..i + 1]) == TablesHeight(ts[..i]) + TableHeight(ts[i])
  {
    assert ts[..i + 1][..i] == ts[..i];
  }

  lemma LayoutSnoc(pages: seq<ExcelPage>, i: nat)
    requires i < |pages|
    ensures LayoutCells(pages[..i + 1]) == LayoutCells(pages[..i]) + PageCells(1 + RowsUsed(pages[..i]), i, pages[i])
    ensures RowsUsed(pages[..i + 1]) == RowsUsed(pages[..i]) + PageHeight(pages[i])
  {
    assert pages[..i + 1][..i] == pages[..i];
  }

  /** `pdf_to_excel_advanced`: the cells written and the final value of the row counter, which starts at 1. */
  method ExcelAdvancedLayout(pages: seq<ExcelPage>) returns (cells: seq<SheetCell>, rowNum: nat)
    ensures cells == LayoutCells(pages)
    ensures rowNum == 1 + RowsUsed(pages)
  {
    cells := [];
    rowNum := 1;
    for pageNum := 0 to |pages|
      invariant cells == LayoutCells(pages[..pageNum])
      invariant rowNum == 1 + RowsUsed(pages[..pageNum])
    {
      LayoutSnoc(pages, pageNum);
      var page := pages[pageNum];
      if page.tables != [] {
        cells, rowNum := WriteTables(cells, rowNum, pageNum, page.tables);
      } else {
        cells, rowNum := WriteText(cells, rowNum, pageNum, page.text);
      }
    }
    assert pages[..|pages|] == pages;
  }

  // ---- what the layout promises

  predicate RowsWithin(cells: seq<SheetCell>, lo: int, hi: int) {
    forall k :: 0 <= k < |cells| ==> lo <= cells[k].row < hi
  }

  lemma RowsWithinAppend(a: seq<SheetCell>, b: seq<SheetCell>, lo: int, hi: int)
    requires RowsWithin(a, lo, hi) && RowsWithin(b, lo, hi)
    ensures RowsWithin(a + b, lo, hi)
  {
  }

  lemma {:induction false} RowCellsShape(r: nat, row: seq<Option<string>>, header: bool)
    ensures |RowCells(r, row, header)| == |row|
    ensures forall k :: 0 <= k < |row| ==>
      RowCells(r, row, header)[k] == SheetCell(r, k + 1, CellValue(row[k]), if header then HeaderCell else BodyCell)
  {
    if row != [] {
      RowCellsShape(r, row[..|row| - 1], header);
    }
  }

  /**
   * The rows of a table lie on consecutive rows from `start`, and a cell is
   * styled as a header exactly when it is on the table's first row.
   */
  lemma {:induction false} OnlyFirstRowIsHeader(start: nat, rows: Table)
    ensures RowsWithin(RowsCells(start, rows), start, start + |rows|)
    ensures forall k :: 0 <= k < |RowsCells(start, rows)| ==>
      (RowsCells(start, rows)[k].style == HeaderCell <==> RowsCells(start, rows)[k].row == start) &&
      RowsCells(start, rows)[k].style in {HeaderCell, BodyCell}
  {
    if rows != [] {
      var n := |rows|;
      OnlyFirstRowIsHeader(start, rows[..n - 1]);
      RowCellsShape(start + n - 1, rows[n - 1], n == 1);
    }
  }

  /** A table's cells lie on its heading row and its row lines; the blank row after it stays empty. */
  lemma TableRows(start: nat, pageNum: nat, t: Table)
    ensures RowsWithin(TableCells(start, pageNum, t), start, start + TableHeight(t) - 1)
  {
    OnlyFirstRowIsHeader(start + 1, t);
  }

  lemma {:induction false} TablesRows(start: nat, pageNum: nat, ts: seq<Table>)
    ensures RowsWithin(TablesCells(start, pageNum, ts), start, start + TablesHeight(ts))
  {
    if ts != [] {
      var n := |ts|;
      TablesRows(start, pageNum, ts[..n - 1]);
      TableRows(start + TablesHeight(ts[..n - 1]), pageNum, ts[n - 1]);
    }
  }

  lemma {:induction false} LinesRows(start: nat, lines: seq<string>)
    ensures RowsWithin(LinesCells(start, lines), start, start + KeptLines(lines))
    ensures |LinesCells(start, lines)| == KeptLines(lines)
  {
    if lines != [] {
      LinesRows(start, lines[..|lines| - 1]);
    }
  }

  lemma PageRows(start: nat, pageNum: nat, p: ExcelPage)
    ensures RowsWithin(PageCells(start, pageNum, p), start, start + PageHeight(p))
  {
    if p.tables != [] {
      TablesRows(start, pageNum, p.tables);
    } else {
      LinesRows(start + 1, SplitStr(p.text, "\n"));
    }
  }

  /**
   * Every cell is written at or after row 1 and before the final value of
   * the row counter, and each page's cells come after the previous page's:
   * the counter never goes back, so no cell is written twice.
   */
  lemma {:induction false} LayoutRows(pages: seq<ExcelPage>)
    ensures RowsWithin(LayoutCells(pages), 1, 1 + RowsUsed(pages))
    ensures pages != [] ==> RowsWithin(PageCells(1 + RowsUsed(pages[..|pages| - 1]), |pages| - 1, pages[|pages| - 1]),
      1 + RowsUsed(pages[..|pages| - 1]), 1 + RowsUsed(pages))
  {
    if pages != [] {
      var n := |pages|;
      var init, last := pages[..n - 1], pages[n - 1];
      var lo, hi := 1 + RowsUsed(init), 1 + RowsUsed(pages);
      LayoutRows(init);
      assert hi == lo + PageHeight(last);
      PageRows(lo, n - 1, last);
      var before, page := LayoutCells(init), PageCells(lo, n - 1, last);
      assert LayoutCells(pages) == before + page;
      RowsWithinWiden(before, 1, lo, 1, hi);
      RowsWithinWiden(page, lo, hi, 1, hi);
      RowsWithinAppend(before, page, 1, hi);
    }
  }

  lemma RowsWithinWiden(cells: seq<SheetCell>, lo: int, hi: int, lo': int, hi': int)
    requires RowsWithin(cells, lo, hi) && lo' <= lo && hi <= hi'
    ensures RowsWithin(cells, lo', hi')
  {
  }

  /** A text page writes one row per non-blank line, after its heading. */
  lemma TextPageCells(start: nat, pageNum: nat, text: string)
    ensures |TextCells(start, pageNum, text)| == 1 + KeptLines(SplitStr(text, "\n"))
    ensures forall k :: 1 <= k < |TextCells(start, pageNum, text)| ==>
      TextCells(start, pageNum, text)[k].style == TextLine && Strip(TextCells(start, pageNum, text)[k].value) != ""
  {
    LinesRows(start + 1, SplitStr(text, "\n"));
    LinesNonBlank(start + 1, SplitStr(text, "\n"));
  }

  lemma {:induction false} LinesNonBlank(start: nat, lines: seq<string>)
    ensures forall k :: 0 <= k < |LinesCells(start, lines)| ==>
      LinesCells(start, lines)[k].style == TextLine && Strip(LinesCells(start, lines)[k].value) != ""
  {
    if lines != [] {
      LinesNonBlank(start, lines[..|lines| - 1]);
      StripIdempotent(lines[|lines| - 1]);
    }
  }

  // ---------------------------------------------------------------- column widths

  /** `str(cell.value)`: an unwritten cell's value is `None`. */
  function CellStr(v: Option<string>): string {
    if v.Some? then v.value else "None"
  }

  /** The longest text in the column. */
  function MaxTextLength(values: seq<Option<string>>): nat {
    if values == [] then 0
    else
      var m := MaxTextLength(values[..|values| - 1]);
      var l := |CellStr(values[|values| - 1])|;
      if l > m then l else m
  }

  /** `min(length + 2, 50)`. */
  function CappedWidth(length: nat): nat {
    if length + 2 < 50 then length + 2 else 50
  }

  function AdjustedWidth(values: seq<Option<string>>): nat {
    CappedWidth(MaxTextLength(values))
  }

  /** The width of one column of the used range (which always has a first cell). */
  method ColumnWidth(values: seq<Option<string>>) returns (w: nat)
    requires |values| > 0
    ensures w == AdjustedWidth(values)
  {
    var maxLength := 0;
    for i := 0 to |values|
      invariant maxLength == MaxTextLength(values[..i])
    {
      assert values[..i + 1][..i] == values[..i];
      var len := if values[i].Some? then |values[i].value| else 4;
      if len > maxLength {
        maxLength := len;
      }
    }
    assert values[..|values|] == values;
    w := if maxLength + 2 < 50 then maxLength + 2 else 50;
    assert w == CappedWidth(maxLength);
  }

  lemma {:induction false} MaxTextLengthIsMax(values: seq<Option<string>>)
    ensures forall k :: 0 <= k < |values| ==> |CellStr(values[k])| <= MaxTextLength(values)
    ensures values != [] ==> exists k :: 0 <= k < |values| && |CellStr(values[k])| == MaxTextLength(values)
  {
    if values != [] {
      var init := values[..|values| - 1];
      MaxTextLengthIsMax(init);
      assert forall k :: 0 <= k < |init| ==> values[k] == init[k];
      if init != [] && MaxTextLength(init) >= |CellStr(values[|values| - 1])| {
        var k :| 0 <= k < |init| && |CellStr(init[k])| == MaxTextLength(init);
        assert values[k] == init[k];
      } else {
        assert |CellStr(values[|values| - 1])| == MaxTextLength(values);
      }
    }
  }

  /**
   * The width is two more than the longest text in the column, capped at
   * 50; it is never below 2 and fits every text of up to 48 characters.
   * An unwritten cell counts as the four characters of `None`.
   */
  lemma ColumnWidthIsCappedMax(values: seq<Option<string>>)
    requires |values| > 0
    ensures 2 <= AdjustedWidth(values) <= 50
    ensures forall k :: 0 <= k < |values| ==> AdjustedWidth(values) >= CappedWidth(|CellStr(values[k])|)
    ensures exists k :: 0 <= k < |values| && AdjustedWidth(values) == CappedWidth(|CellStr(values[k])|)
    ensures None in values ==> AdjustedWidth(values) >= 6
  {
    MaxTextLengthIsMax(values);
    if None in values {
      var k :| 0 <= k < |values| && values[k] == None;
      assert |CellStr(values[k])| == 4;
    }
  }
}
