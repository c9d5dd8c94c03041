/**
 * The decision logic of the PDF converters: the text/image classifier that
 * picks a conversion strategy, the routers that pick a converter from it,
 * and the mapping of a PDF text span (font name, flag bits, packed colour)
 * to the formatting of a Word run.
 *
 * What the PDF library reports is given as data: per page the text and the
 * number of images for the classifier, and per page the blocks, lines and
 * spans for the Word extraction. A converter is identified by which of the
 * library-backed conversions produced the output.
 */
module PdfConvert {
  import opened Wrappers
  import opened PyBuiltins

  // ---------------------------------------------------------------- classifier

  /** What the classifier reads from one page: its text and how many images it holds. */
  datatype PageFacts = PageFacts(text: string, imageCount: nat)

  /** The four strategies: `'ocr'`, `'hybrid'`, `'text'` and `'image'`. */
  datatype Strategy = Ocr | Hybrid | Text | Image

  datatype Analysis = Analysis(isScanned: bool, isComplex: bool, hasText: bool, imageCount: int,
                               textLength: int, pageCount: int, recommendation: Strategy)

  /** How many leading pages are sampled. */
  const SampleLimit := 10

  /** The stripped text length of the first `k` pages. */
  function SampledTextLength(pages: seq<PageFacts>, k: nat): nat
    requires k <= |pages|
  {
    if k == 0 then 0 else SampledTextLength(pages, k - 1) + |Strip(pages[k - 1].text)|
  }

  /** The image count of the first `k` pages. */
  function SampledImages(pages: seq<PageFacts>, k: nat): nat
    requires k <= |pages|
  {
    if k == 0 then 0 else SampledImages(pages, k - 1) + pages[k - 1].imageCount
  }

  /** The classification of totals `textLength` and `images` over a document of `pageCount` pages. */
  function Classify(textLength: int, images: int, pageCount: int): Analysis {
    var hasText := textLength > 100;
    var hasManyImages := images >= pageCount;
    var isScanned := textLength < 100 && images > 0;
    var isComplex := hasText && hasManyImages;
    var recommendation :=
      if isScanned then Ocr
      else if isComplex then Hybrid
      else if hasText && !hasManyImages then Text
      else Image;
    Analysis(isScanned, isComplex, hasText, images, textLength, pageCount, recommendation)
  }

  /** What the classifier answers when the document cannot be analysed. */
  const FailedAnalysis := Analysis(false, true, false, 0, 0, 0, Image)

  function Sampled(pageCount: nat): nat {
    if SampleLimit < pageCount then SampleLimit else pageCount
  }

  /** The analysis of a document, `None` standing for a document the library fails to open. */
  function AnalysisOf(doc: Option<seq<PageFacts>>): Analysis {
    match doc
    case None => FailedAnalysis
    case Some(pages) =>
      var k := Sampled(|pages|);
      Classify(SampledTextLength(pages, k), SampledImages(pages, k), |pages|)
  }

  /** `analyze_pdf_type`: sums over the sampled pages, then classifies. */
  method AnalyzePdfType(doc: Option<seq<PageFacts>>) returns (a: Analysis)
    ensures a == AnalysisOf(doc)
  {
    if doc.None? {
      return FailedAnalysis;
    }
    var pages := doc.value;
    var totalTextLength := 0;
    var totalImages := 0;
    var pageCount := |pages|;
    var limit := if SampleLimit < pageCount then SampleLimit else pageCount;
    for pageNum := 0 to limit
      invariant totalTextLength == SampledTextLength(pages, pageNum)
      invariant totalImages == SampledImages(pages, pageNum)
    {
      var page := pages[pageNum];
      totalTextLength := totalTextLength + |Strip(page.text)|;
      totalImages := totalImages + page.imageCount;
    }
    var hasText := totalTextLength > 100;
    var hasManyImages := totalImages >= pageCount;
    var isScanned := totalTextLength < 100 && totalImages > 0;
    var isComplex := hasText && hasManyImages;
    var recommendation: Strategy;
    if isScanned {
      recommendation := Ocr;
    } else if isComplex {
      recommendation := Hybrid;
    } else if hasText && !hasManyImages {
      recommendation := Text;
    } else {
      recommendation := Image;
    }
    a := Analysis(isScanned, isComplex, hasText, totalImages, totalTextLength, pageCount, recommendation);
  }

  /**
   * The text and scan thresholds are strict on both sides of 100: a
   * document is never both text-bearing and scanned, exactly 100
   * characters make it neither, and a scanned document is never complex.
   */
  lemma ThresholdsExclusive(doc: Option<seq<PageFacts>>)
    ensures var a := AnalysisOf(doc);
      !(a.hasText && a.isScanned) && !(a.isScanned && a.isComplex)
      && (a.textLength == 100 ==> !a.hasText && !a.isScanned)
      && (doc.Some? ==> (a.hasText <==> a.textLength > 100))
      && (doc.Some? ==> (a.isScanned <==> a.textLength < 100 && a.imageCount > 0))
  {
  }

  /**
   * The recommendation as a decision table over the totals: OCR for little
   * text and some image; for more than 100 characters, hybrid when there is
   * an image per page and text otherwise; image in the remaining cases
   * (exactly 100 characters, or little text and no image).
   */
  lemma RecommendationTable(textLength: int, images: int, pageCount: int)
    ensures var r := Classify(textLength, images, pageCount).recommendation;
      (r == Ocr <==> textLength < 100 && images > 0)
      && (r == Hybrid <==> textLength > 100 && images >= pageCount)
      && (r == Text <==> textLength > 100 && images < pageCount)
      && (r == Image <==> textLength == 100 || (textLength < 100 && images <= 0))
  {
  }

  /** The recommendation tracks the flags: OCR exactly for scanned files, hybrid exactly for complex ones. */
  lemma RecommendationFollowsFlags(doc: Option<seq<PageFacts>>)
    ensures var a := AnalysisOf(doc);
      (a.recommendation == Ocr <==> a.isScanned) && (doc.Some? ==> (a.recommendation == Hybrid <==> a.isComplex))
  {
  }

  lemma {:induction false} SampledPrefix(p: seq<PageFacts>, q: seq<PageFacts>, k: nat)
    requires k <= |p| && k <= |q| && p[..k] == q[..k]
    ensures SampledTextLength(p, k) == SampledTextLength(q, k)
    ensures SampledImages(p, k) == SampledImages(q, k)
  {
    if k > 0 {
      assert p[k - 1] == p[..k][k - 1] == q[..k][k - 1] == q[k - 1];
      assert p[..k - 1] == p[..k][..k - 1] == q[..k][..k - 1] == q[..k - 1];
      SampledPrefix(p, q, k - 1);
    }
  }

  /** Pages after the tenth are never read: documents of equal length agreeing on their first ten pages are classified alike. */
  lemma LaterPagesIgnored(p: seq<PageFacts>, q: seq<PageFacts>)
    requires |p| == |q| && p[..Sampled(|p|)] == q[..Sampled(|q|)]
    ensures AnalysisOf(Some(p)) == AnalysisOf(Some(q))
  {
    SampledPrefix(p, q, Sampled(|p|));
  }

  /**
   * The image threshold compares the images of at most ten pages with the
   * total page count: twenty pages whose first ten each hold one image and
   * some text are recommended for plain text extraction, while the same ten
   * pages alone are recommended for the hybrid conversion.
   */
  lemma ImageThresholdUsesFullCount(text: string)
    requires |Strip(text)| == 11
    ensures AnalysisOf(Some(seq(20, i => PageFacts(text, 1)))).recommendation == Text
    ensures AnalysisOf(Some(seq(10, i => PageFacts(text, 1)))).recommendation == Hybrid
  {
    var p := seq(20, i => PageFacts(text, 1));
    var q := seq(10, i => PageFacts(text, 1));
    SampledUniform(p, 10, text);
    SampledUniform(q, 10, text);
  }

  lemma {:induction false} SampledUniform(p: seq<PageFacts>, k: nat, text: string)
    requires k <= |p| && forall i :: 0 <= i < |p| ==> p[i] == PageFacts(text, 1)
    ensures SampledTextLength(p, k) == k * |Strip(text)|
    ensures SampledImages(p, k) == k
  {
    if k > 0 {
      SampledUniform(p, k - 1, text);
    }
  }

  // ---------------------------------------------------------------- converter routing

  /** The conversions a PDF-to-Word request can end in. */
  datatype WordConverter = Pdf2Docx | AdvancedText | OcrText | HybridRender | ImageRender

  /** `pdf_to_word_with_ocr`: it re-runs the classifier and OCRs only a scanned file; anything else gets the advanced extraction. */
  function WithOcr(a: Analysis): WordConverter {
    if a.isScanned then OcrText else AdvancedText
  }

  /** The pdf2docx attempt, falling back to the advanced extraction when it raises. */
  function TextConversion(pdf2docxFails: bool): WordConverter {
    if pdf2docxFails then AdvancedText else Pdf2Docx
  }

  /**
   * `pdf_to_word`: mode `"auto"` follows the recommendation of the file's
   * analysis `a`; an explicit mode picks its converter; an unknown mode
   * gets the hybrid conversion.
   */
  function PdfToWord(mode: string, a: Analysis, pdf2docxFails: bool): WordConverter {
    if mode == "auto" then
      match a.recommendation
      case Text => TextConversion(pdf2docxFails)
      case Ocr => WithOcr(a)
      case Hybrid => HybridRender
      case Image => ImageRender
    else if mode == "hybrid" then HybridRender
    else if mode == "image" then ImageRender
    else if mode == "ocr" then WithOcr(a)
    else if mode == "text" then TextConversion(pdf2docxFails)
    else HybridRender
  }

  const WordModes: set<string> := {"auto", "hybrid", "image", "ocr", "text"}

  /** In mode "auto", a file is OCRed exactly when it is classified as scanned. */
  lemma AutoOcrsExactlyScanned(doc: Option<seq<PageFacts>>, pdf2docxFails: bool)
    ensures PdfToWord("auto", AnalysisOf(doc), pdf2docxFails) == OcrText <==> AnalysisOf(doc).isScanned
  {
    RecommendationFollowsFlags(doc);
  }

  /** Forcing mode "ocr" on a file that is not scanned still ends in the text extraction, not OCR. */
  lemma ForcedOcrOnTextFile(doc: Option<seq<PageFacts>>, pdf2docxFails: bool)
    requires !AnalysisOf(doc).isScanned
    ensures PdfToWord("ocr", AnalysisOf(doc), pdf2docxFails) == AdvancedText
  {
  }

  /** pdf2docx is used exactly in text mode (explicit, or chosen by "auto") when it does not raise. */
  lemma Pdf2DocxOnlyForText(mode: string, a: Analysis, pdf2docxFails: bool)
    ensures PdfToWord(mode, a, pdf2docxFails) == Pdf2Docx
      <==> !pdf2docxFails && (mode == "text" || (mode == "auto" && a.recommendation == Text))
  {
  }

  /** An unknown mode, and an unreadable file in mode "auto", never reach OCR or pdf2docx. */
  lemma SafeDefaults(mode: string, pdf2docxFails: bool)
    ensures mode !in WordModes ==> forall a :: PdfToWord(mode, a, pdf2docxFails) == HybridRender
    ensures PdfToWord("auto", AnalysisOf(None), pdf2docxFails) == ImageRender
  {
  }

  /** The conversions a PDF-to-Excel request can end in. */
  datatype ExcelConverter = ExcelOcr | Camelot | ExcelAdvanced

  /**
   * `pdf_to_excel` without its OCR check, as the older copy has it: the
   * camelot tables when camelot is installed and finds at least one
   * (`camelotTables == None` when it raises), else the advanced extraction.
   */
  function TableExtraction(camelotAvailable: bool, camelotTables: Option<nat>): ExcelConverter {
    if camelotAvailable && camelotTables.Some? && camelotTables.value > 0 then Camelot else ExcelAdvanced
  }

  /** `pdf_to_excel`: a scanned file is OCRed first of all. */
  function PdfToExcel(a: Analysis, camelotAvailable: bool, camelotTables: Option<nat>): ExcelConverter {
    if a.isScanned then ExcelOcr else TableExtraction(camelotAvailable, camelotTables)
  }

  /** The OCR check is the only difference between the two copies: the file is OCRed iff scanned, and otherwise both agree. */
  lemma ExcelRouting(a: Analysis, camelotAvailable: bool, camelotTables: Option<nat>)
    ensures PdfToExcel(a, camelotAvailable, camelotTables) == ExcelOcr <==> a.isScanned
    ensures !a.isScanned ==> PdfToExcel(a, camelotAvailable, camelotTables) == TableExtraction(camelotAvailable, camelotTables)
    ensures TableExtraction(camelotAvailable, camelotTables) != ExcelOcr
  {
  }

  /** The conversions a PDF-to-PowerPoint request can end in. */
  datatype PptxConverter = PptxOcr | PptxAdvanced

  /** `pdf_to_pptx`: OCR for a scanned file, the rendered slides otherwise. */
  function PdfToPptx(a: Analysis): PptxConverter {
    if a.isScanned then PptxOcr else PptxAdvanced
  }

  // ---------------------------------------------------------------- spans

  /** A text span as the library reports it. */
  datatype Span = Span(text: string, size: real, font: string, flags: int, color: int)

  datatype Rgb = Rgb(r: int, g: int, b: int)

  /** The three bytes of a packed colour: `(c >> 16) & 0xFF`, `(c >> 8) & 0xFF` and `c & 0xFF` on Python's unbounded integers. */
  function Channels(color: int): Rgb {
    Rgb((color / 65536) % 256, (color / 256) % 256, color % 256)
  }

  /** The run colour: none for colour 0 (the default, left unset), else the three channels. */
  function SpanColor(color: int): Option<Rgb> {
    if color == 0 then None else Some(Channels(color))
  }

  /** Each channel is a byte, and together they spell the colour's low 24 bits. */
  lemma ChannelsCompose(color: int)
    ensures var c := Channels(color);
      0 <= c.r < 256 && 0 <= c.g < 256 && 0 <= c.b < 256
      && c.r * 65536 + c.g * 256 + c.b == color % 16777216
  {
    var c := Channels(color);
    var hi := color / 65536;
    var lo := color % 65536;
    assert color == hi * 65536 + lo;
    assert lo == (lo / 256) * 256 + lo % 256;
    DivOfMod(color);
    assert (lo / 256) == (color / 256) % 256 by {
      assert color / 256 == hi * 256 + lo / 256;
    }
    assert lo % 256 == color % 256 by {
      assert color == (hi * 256) * 256 + lo;
    }
    assert color % 16777216 == (hi % 256) * 65536 + lo by {
      assert color == (hi / 256) * 16777216 + (hi % 256) * 65536 + lo;
    }
  }

  lemma DivOfMod(x: int)
    ensures x / 65536 == (x / 256) / 256
  {
    var q, r := x / 256, x % 256;
    var q2, r2 := q / 256, q % 256;
    assert x == q2 * 65536 + (r2 * 256 + r);
    assert 0 <= r2 * 256 + r < 65536;
  }

  /** Decoding is the inverse of packing three bytes, which is how the library builds the value. */
  lemma ChannelsOfPacked(r: int, g: int, b: int)
    requires 0 <= r < 256 && 0 <= g < 256 && 0 <= b < 256
    ensures Channels(r * 65536 + g * 256 + b) == Rgb(r, g, b)
  {
    var c := r * 65536 + g * 256 + b;
    assert c / 256 == r * 256 + g;
    assert c / 65536 == r;
  }

  /** Flag bit 4, the library's bold flag: `bool(flags & 2**4)`. */
  predicate Bold(flags: int) {
    (flags / 16) % 2 == 1
  }

  /** Flag bit 1, the library's italic flag: `bool(flags & 2**1)`. */
  predicate Italic(flags: int) {
    (flags / 2) % 2 == 1
  }

  /** On a flag byte, the two tests agree with masking the bit-vector. */
  lemma FlagsAsBits(flags: int)
    requires 0 <= flags < 256
    ensures Bold(flags) <==> (flags as bv8) & 16 != 0
    ensures Italic(flags) <==> (flags as bv8) & 2 != 0
  {
  }

  // ---------------------------------------------------------------- fonts

  /** The family names tried in order, each with the Word font it selects. */
  const FontTable: seq<(string, string)> := [
    ("times", "Times New Roman"), ("arial", "Arial"), ("helvetica", "Arial"),
    ("courier", "Courier New"), ("georgia", "Georgia"), ("verdana", "Verdana")]

  const DefaultFont := "Calibri"

  /** The font of the first row of `table` whose key occurs in `name`, else `default`. */
  function FirstMatch(table: seq<(string, string)>, name: string, default: string): string {
    if table == [] then default
    else if Contains(name, table[0].0) then table[0].1
    else FirstMatch(table[1..], name, default)
  }

  /** The Word font for a PDF font name, compared lower-cased. */
  function MapFont(pdfFont: string): string {
    var f := Lower(pdfFont);
    if Contains(f, "times") then "Times New Roman"
    else if Contains(f, "arial") || Contains(f, "helvetica") then "Arial"
    else if Contains(f, "courier") then "Courier New"
    else if Contains(f, "georgia") then "Georgia"
    else if Contains(f, "verdana") then "Verdana"
    else DefaultFont
  }

  /** The mapping is a first-match lookup in the table, defaulting to Calibri, whatever the case of the name. */
  lemma MapFontIsTableLookup(pdfFont: string)
    ensures MapFont(pdfFont) == FirstMatch(FontTable, Lower(pdfFont), DefaultFont)
    ensures MapFont(pdfFont) == MapFont(Lower(pdfFont)) == MapFont(Upper(pdfFont))
  {
    var f := Lower(pdfFont);
    var t := FontTable;
    assert t[1..][1..][1..][1..][1..][1..] == [];
    assert FirstMatch(t[1..][1..][1..][1..][1..], f, DefaultFont)
      == if Contains(f, "verdana") then "Verdana" else DefaultFont;
    assert FirstMatch(t[1..][1..][1..][1..], f, DefaultFont)
      == if Contains(f, "georgia") then "Georgia" else FirstMatch(t[1..][1..][1..][1..][1..], f, DefaultFont);
    assert FirstMatch(t[1..][1..][1..], f, DefaultFont)
      == if Contains(f, "courier") then "Courier New" else FirstMatch(t[1..][1..][1..][1..], f, DefaultFont);
    assert FirstMatch(t[1..][1..], f, DefaultFont)
      == if Contains(f, "helvetica") then "Arial" else FirstMatch(t[1..][1..][1..], f, DefaultFont);
    assert FirstMatch(t[1..], f, DefaultFont)
      == if Contains(f, "arial") then "Arial" else FirstMatch(t[1..][1..], f, DefaultFont);
    assert FirstMatch(t, f, DefaultFont)
      == if Contains(f, "times") then "Times New Roman" else FirstMatch(t[1..], f, DefaultFont);
    LowerIdempotent(pdfFont);
    LowerOfUpper(pdfFont);
  }

  lemma LowerOfUpper(s: string)
    ensures Lower(Upper(s)) == Lower(s)
  {
  }

  /** The mapped font is always one of six Word fonts. */
  lemma MapFontRange(pdfFont: string)
    ensures MapFont(pdfFont) in {"Times New Roman", "Arial", "Courier New", "Georgia", "Verdana", "Calibri"}
  {
  }

  // ---------------------------------------------------------------- runs

  /** A formatted Word run. */
  datatype Run = Run(text: string, size: real, fontName: string, bold: bool, italic: bool, color: Option<Rgb>)

  /** The run for a span, none for a span whose text is blank. */
  function SpanRun(s: Span): Option<Run> {
    if Strip(s.text) == "" then None
    else Some(Run(s.text, s.size, MapFont(s.font), Bold(s.flags), Italic(s.flags), SpanColor(s.color)))
  }

  /** The runs of one line's paragraph: one per non-blank span, in order. */
  function LineRuns(spans: seq<Span>): (runs: seq<Run>)
    ensures |runs| <= |spans|
    ensures forall k :: 0 <= k < |runs| ==> Strip(runs[k].text) != ""
  {
    if spans == [] then []
    else
      var last := spans[|spans| - 1];
      LineRuns(spans[..|spans| - 1]) + (if Strip(last.text) == "" then [] else [SpanRun(last).value])
  }

  /** Without blank spans, every span gives the run at its own position. */
  lemma {:induction false} LineRunsOfNonBlank(spans: seq<Span>)
    requires forall k :: 0 <= k < |spans| ==> Strip(spans[k].text) != ""
    ensures |LineRuns(spans)| == |spans|
    ensures forall k :: 0 <= k < |spans| ==> Some(LineRuns(spans)[k]) == SpanRun(spans[k])
  {
    if spans != [] {
      var init := spans[..|spans| - 1];
      LineRunsOfNonBlank(init);
      LineRunsSnocRun(spans);
      var runs, before := LineRuns(spans), LineRuns(init);
      forall k | 0 <= k < |spans| ensures Some(runs[k]) == SpanRun(spans[k]) {
        if k < |init| {
          assert runs[k] == before[k];
          assert init[k] == spans[k];
        }
      }
    }
  }

  /** A non-blank last span adds its run at the end. */
  lemma LineRunsSnocRun(spans: seq<Span>)
    requires spans != [] && Strip(spans[|spans| - 1].text) != ""
    ensures SpanRun(spans[|spans| - 1]).Some?
    ensures LineRuns(spans) == LineRuns(spans[..|spans| - 1]) + [SpanRun(spans[|spans| - 1]).value]
  {
  }

  /** Blank spans leave the line unchanged. */
  lemma {:induction false} LineRunsSkipBlank(spans: seq<Span>, blank: Span)
    requires Strip(blank.text) == ""
    ensures LineRuns(spans + [blank]) == LineRuns(spans)
    ensures LineRuns([blank] + spans) == LineRuns(spans)
    decreases |spans|
  {
    assert (spans + [blank])[..|spans|] == spans;
    if spans != [] {
      var init := spans[..|spans| - 1];
      assert ([blank] + spans)[..|spans|] == [blank] + init;
      LineRunsSkipBlank(init, blank);
    } else {
      assert [blank] + spans == [blank];
      assert [blank][..0] == [];
    }
  }

  /** A page block: text lines of spans, an image (whether it could be rendered), or anything else. */
  datatype Block = TextBlock(lines: seq<seq<Span>>) | ImageBlock(rendered: bool) | OtherBlock

  /** What `pdf_to_word_advanced` adds to the Word document. */
  datatype DocItem = PageBreak | Paragraph(runs: seq<Run>) | Picture

  function BlockItems(b: Block): seq<DocItem> {
    match b
    case TextBlock(lines) => seq(|lines|, i requires 0 <= i < |lines| => Paragraph(LineRuns(lines[i])))
    case ImageBlock(rendered) => if rendered then [Picture] else []
    case OtherBlock => []
  }

  function PageItems(blocks: seq<Block>): seq<DocItem> {
    if blocks == [] then [] else PageItems(blocks[..|blocks| - 1]) + BlockItems(blocks[|blocks| - 1])
  }

  /** The Word document of `pdf_to_word_advanced`: a page break before every page but the first. */
  function AdvancedItems(pages: seq<seq<Block>>): seq<DocItem> {
    if pages == [] then []
    else
      var k := |pages| - 1;
      AdvancedItems(pages[..k]) + (if k > 0 then [PageBreak] else []) + PageItems(pages[k])
  }

  function CountBreaks(items: seq<DocItem>): nat {
    if items == [] then 0 else CountBreaks(items[..|items| - 1]) + (if items[|items| - 1].PageBreak? then 1 else 0)
  }

  lemma {:induction false} CountBreaksAppend(a: seq<DocItem>, b: seq<DocItem>)
    ensures CountBreaks(a + b) == CountBreaks(a) + CountBreaks(b)
    decreases |b|
  {
    if b == [] {
      assert a + b == a;
    } else {
      assert (a + b)[..|a + b| - 1] == a + b[..|b| - 1];
      CountBreaksAppend(a, b[..|b| - 1]);
    }
  }

  lemma {:induction false} NoBreaksInPage(blocks: seq<Block>)
    ensures CountBreaks(PageItems(blocks)) == 0
  {
    if blocks != [] {
      NoBreaksInPage(blocks[..|blocks| - 1]);
      var items := BlockItems(blocks[|blocks| - 1]);
      NoBreaksInBlock(items);
      CountBreaksAppend(PageItems(blocks[..|blocks| - 1]), items);
    }
  }

  lemma {:induction false} NoBreaksInBlock(items: seq<DocItem>)
    requires forall k :: 0 <= k < |items| ==> !items[k].PageBreak?
    ensures CountBreaks(items) == 0
  {
    if items != [] {
      NoBreaksInBlock(items[..|items| - 1]);
    }
  }

  /** An n-page document gets exactly n - 1 page breaks. */
  lemma {:induction false} PageBreakCount(pages: seq<seq<Block>>)
    requires pages != []
    ensures CountBreaks(AdvancedItems(pages)) == |pages| - 1
  {
    var k := |pages| - 1;
    var init := AdvancedItems(pages[..k]);
    var br: seq<DocItem> := if k > 0 then [PageBreak] else [];
    var page := PageItems(pages[k]);
    assert AdvancedItems(pages) == init + br + page;
    NoBreaksInPage(pages[k]);
    CountBreaksAppend(init + br, page);
    CountBreaksAppend(init, br);
    if k > 0 {
      PageBreakCount(pages[..k]);
      assert CountBreaks(br) == 1 by {
        assert br[..0] == [];
      }
    } else {
      assert init == [] && br == [];
    }
  }
}
