/**
 * The PDF editor: an object holding an open document whose methods add
 * text, shapes and annotations to pages, replace or redact the text that a
 * search finds, and report spans with their formatting; and the two
 * module-level functions built on it, the batch annotation editor and the
 * page-structure summary.
 *
 * A page is the page as loaded (its source, size and font list) and the
 * edits applied to it so far, in order. What the library does with an edit
 * (drawing, redaction, text insertion) is not modelled. The library's text
 * search and its span dictionary are parameters: functions of the current
 * page, so that they may see the edits already made.
 */
module PdfEditor {
  import opened Wrappers
  import opened PyBuiltins
  import PdfConvert

  datatype Point = Point(x: real, y: real)

  datatype Rect = Rect(x0: real, y0: real, x1: real, y1: real)

  /** A colour as the library takes it, each component in 0..1. */
  datatype Color = Color(r: real, g: real, b: real)

  const Black := Color(0.0, 0.0, 0.0)
  const Red := Color(1.0, 0.0, 0.0)
  const Yellow := Color(1.0, 1.0, 0.0)
  const PaleYellow := Color(1.0, 1.0, 0.8)

  /** One edit of a page, with the arguments the library receives. */
  datatype Edit =
    | InsertText(at: Point, text: string, font: string, size: real, color: Color)
    | TextBox(box: Rect, text: string, font: string, size: real, color: Color, align: int)
    | ImageInsert(box: Rect, path: string, keepProportion: bool)
    | Highlight(box: Rect, color: Color)
    | Underline(box: Rect)
    | Strikeout(box: Rect)
    | RectShape(box: Rect, color: Color, fill: Option<Color>, width: real)
    | CircleShape(center: Point, radius: real, color: Color, fill: Option<Color>, width: real)
    | LineShape(from: Point, to: Point, color: Color, width: real)
    | ArrowAnnot(from: Point, to: Point, color: Color, width: real)
    | StickyNote(at: Point, content: string, icon: string)
    | FreeTextAnnot(box: Rect, text: string, size: real, fontColor: Color, fill: Option<Color>, border: Color)
    | RedactAnnot(box: Rect, fill: Option<Color>)
    | ApplyRedactions

  /** An entry of the page's font list. */
  datatype FontEntry = FontEntry(xref: int, name: string, kind: string, encoding: Option<string>)

  datatype EPage = EPage(source: int, width: real, height: real, fonts: seq<FontEntry>, edits: seq<Edit>)

  /** A span of the library's text dictionary. */
  datatype TextSpan = TextSpan(text: string, font: string, size: real, color: int, flags: int, origin: Point, bbox: Rect)

  /** A block of the text dictionary: text (type 0) with its lines of spans, or anything else. */
  datatype Block = TextBlock(lines: seq<seq<TextSpan>>) | OtherBlock

  datatype EditError = IndexError | KeyError(key: string)

  /** `doc[i]` on a document of `n` pages, with Python's negative indices. */
  function Resolve(n: nat, i: int): (r: Option<nat>)
    ensures r.Some? <==> -(n as int) <= i < n
    ensures r.Some? ==> r.value < n && (r.value as int == i || r.value as int == n as int + i)
    ensures 0 <= i < n ==> r == Some(i)
  {
    if 0 <= i < n then Some(i) else if -(n as int) <= i < 0 then Some((n as int + i) as nat) else None
  }

  /** One more edit on the page `pageNum` names, or `IndexError`. */
  function EditPage(doc: seq<EPage>, pageNum: int, e: Edit): (r: Result<seq<EPage>, EditError>)
    ensures r.Err? <==> Resolve(|doc|, pageNum).None?
    ensures r.Err? ==> r.error == IndexError
    ensures r.Ok? ==> |r.value| == |doc|
    ensures r.Ok? ==> r.value[Resolve(|doc|, pageNum).value].edits == doc[Resolve(|doc|, pageNum).value].edits + [e]
    ensures r.Ok? ==> forall j :: 0 <= j < |doc| && j != Resolve(|doc|, pageNum).value ==> r.value[j] == doc[j]
  {
    match Resolve(|doc|, pageNum)
    case None => Err(IndexError)
    case Some(i) => Ok(doc[i := doc[i].(edits := doc[i].edits + [e])])
  }

  // ---------------------------------------------------------------- fonts

  /** The font variant `add_text` asks for: `bi`, `bo` or `it` appended for bold and italic, bold or italic. */
  function FontVariant(name: string, bold: bool, italic: bool): string {
    var suffix := if bold && italic then "bi" else if bold then "bo" else if italic then "it" else "";
    if suffix != "" then name + suffix else name
  }

  lemma FontVariantNames(name: string, bold: bool, italic: bool)
    ensures FontVariant(name, true, true) == name + "bi"
    ensures FontVariant(name, true, false) == name + "bo"
    ensures FontVariant(name, false, true) == name + "it"
    ensures FontVariant(name, false, false) == name
    ensures name <= FontVariant(name, bold, italic)
    ensures |FontVariant(name, bold, italic)| == |name| + (if bold || italic then 2 else 0)
  {
  }

  // ---------------------------------------------------------------- spans

  /** The lines of the text blocks, in order. */
  function TextLines(blocks: seq<Block>): seq<seq<TextSpan>> {
    if blocks == [] then []
    else
      var b := blocks[|blocks| - 1];
      TextLines(blocks[..|blocks| - 1]) + (if b.TextBlock? then b.lines else [])
  }

  /** The spans of a sequence of lines, in order. */
  function LinesSpans(lines: seq<seq<TextSpan>>): seq<TextSpan> {
    if lines == [] then [] else LinesSpans(lines[..|lines| - 1]) + lines[|lines| - 1]
  }

  /** An entry of `extract_text_with_formatting`. */
  datatype TextItem = TextItem(text: string, font: string, size: real, color: int, flags: int,
                               origin: Point, bbox: Rect, isBold: bool, isItalic: bool)

  function ItemOf(s: TextSpan): (it: TextItem)
    ensures it.isBold <==> PdfConvert.Bold(s.flags)
    ensures it.isItalic <==> PdfConvert.Italic(s.flags)
    ensures it.text == s.text && it.flags == s.flags
  {
    TextItem(s.text, s.font, s.size, s.color, s.flags, s.origin, s.bbox, PdfConvert.Bold(s.flags), PdfConvert.Italic(s.flags))
  }

  function Items(spans: seq<TextSpan>): seq<TextItem> {
    if spans == [] then [] else Items(spans[..|spans| - 1]) + [ItemOf(spans[|spans| - 1])]
  }

  /** One item per span, in span order. */
  lemma {:induction false} ItemsAreSpans(spans: seq<TextSpan>)
    ensures |Items(spans)| == |spans|
    ensures forall k :: 0 <= k < |spans| ==> Items(spans)[k] == ItemOf(spans[k])
  {
    if spans != [] {
      ItemsAreSpans(spans[..|spans| - 1]);
    }
  }

  lemma {:induction false} ItemsAppend(a: seq<TextSpan>, b: seq<TextSpan>)
    ensures Items(a + b) == Items(a) + Items(b)
    decreases |b|
  {
    if b == [] {
      assert a + b == a;
    } else {
      assert (a + b)[..|a + b| - 1] == a + b[..|b| - 1];
      ItemsAppend(a, b[..|b| - 1]);
    }
  }

  lemma {:induction false} LinesSpansAppend(a: seq<seq<TextSpan>>, b: seq<seq<TextSpan>>)
    ensures LinesSpans(a + b) == LinesSpans(a) + LinesSpans(b)
    decreases |b|
  {
    if b == [] {
      assert a + b == a;
    } else {
      assert (a + b)[..|a + b| - 1] == a + b[..|b| - 1];
      LinesSpansAppend(a, b[..|b| - 1]);
    }
  }

  /** The items of the page's text, span by span. */
  function PageItems(blocks: seq<Block>): seq<TextItem> {
    Items(LinesSpans(TextLines(blocks)))
  }

  /** Blocks that are not text contribute no item, wherever they stand. */
  lemma OtherBlocksIgnored(a: seq<Block>, b: seq<Block>)
    ensures PageItems(a + [OtherBlock] + b) == PageItems(a + b)
  {
    TextLinesAppend(a + [OtherBlock], b);
    TextLinesAppend(a, b);
    assert (a + [OtherBlock])[..|a|] == a;
    assert TextLines(a + [OtherBlock]) == TextLines(a);
    assert TextLines(a + [OtherBlock] + b) == TextLines(a + b);
  }

  lemma {:induction false} TextLinesAppend(a: seq<Block>, b: seq<Block>)
    ensures TextLines(a + b) == TextLines(a) + TextLines(b)
    decreases |b|
  {
    if b == [] {
      assert a + b == a;
    } else {
      assert (a + b)[..|a + b| - 1] == a + b[..|b| - 1];
      TextLinesAppend(a, b[..|b| - 1]);
    }
  }

  /** The items of one line's spans, appended. */
  method AppendSpanItems(items: seq<TextItem>, spans: seq<TextSpan>) returns (items': seq<TextItem>)
    ensures items' == items + Items(spans)
  {
    items' := items;
    for s := 0 to |spans|
      invariant items' == items + Items(spans[..s])
    {
      assert spans[..s + 1][..s] == spans[..s];
      var span := spans[s];
      items' := items' + [TextItem(span.text, span.font, span.size, span.color, span.flags, span.origin, span.bbox,
                                   (span.flags / 16) % 2 == 1, (span.flags / 2) % 2 == 1)];
    }
    assert spans[..|spans|] == spans;
  }

  /** The items of a text block's lines, appended. */
  method AppendLineItems(items: seq<TextItem>, lines: seq<seq<TextSpan>>) returns (items': seq<TextItem>)
    ensures items' == items + Items(LinesSpans(lines))
  {
    items' := items;
    for l := 0 to |lines|
      invariant items' == items + Items(LinesSpans(lines[..l]))
    {
      LinesItemsSnoc(lines, l);
      AppendAssoc(items, Items(LinesSpans(lines[..l])), Items(lines[l]));
      items' := AppendSpanItems(items', lines[l]);
    }
    assert lines[..|lines|] == lines;
  }

  /** The items of one more line. */
  lemma LinesItemsSnoc(lines: seq<seq<TextSpan>>, l: nat)
    requires l < |lines|
    ensures Items(LinesSpans(lines[..l + 1])) == Items(LinesSpans(lines[..l])) + Items(lines[l])
  {
    assert lines[..l + 1][..l] == lines[..l];
    assert LinesSpans(lines[..l + 1]) == LinesSpans(lines[..l]) + lines[l];
    ItemsAppend(LinesSpans(lines[..l]), lines[l]);
  }

  /** The items of one more block: those of its lines when it is a text block, none otherwise. */
  lemma PageItemsSnoc(blocks: seq<Block>, b: nat)
    requires b < |blocks|
    ensures PageItems(blocks[..b + 1]) ==
      PageItems(blocks[..b]) + (if blocks[b].TextBlock? then Items(LinesSpans(blocks[b].lines)) else [])
  {
    TextLinesSnoc(blocks, b);
    var block := blocks[b];
    if block.TextBlock? {
      LinesSpansAppend(TextLines(blocks[..b]), block.lines);
      ItemsAppend(LinesSpans(TextLines(blocks[..b])), LinesSpans(block.lines));
    } else {
      assert TextLines(blocks[..b + 1]) == TextLines(blocks[..b]);
    }
  }

  /** The items of a page's blocks: every span of every line of every text block. */
  method CollectItems(blocks: seq<Block>) returns (items: seq<TextItem>)
    ensures items == PageItems(blocks)
  {
    items := [];
    for b := 0 to |blocks|
      invariant items == PageItems(blocks[..b])
    {
      PageItemsSnoc(blocks, b);
      var block := blocks[b];
      if block.TextBlock? {
        items := AppendLineItems(items, block.lines);
      }
    }
    assert blocks[..|blocks|] == blocks;
  }

  // ---------------------------------------------------------------- replace formatting

  /** The formatting `replace_text` copies from a span. */
  datatype Format = Format(font: string, size: real, color: Color)

  const DefaultFormat := Format("helv", 12.0, Black)

  /**
   * A packed colour as components in 0..1: `(c >> 16) / 255`,
   * `((c >> 8) & 0xFF) / 255` and `(c & 0xFF) / 255`; the red part is not
   * masked.
   */
  function ColorOf(c: int): Color {
    Color((c / 65536) as real / 255.0, ((c / 256) % 256) as real / 255.0, (c % 256) as real / 255.0)
  }

  function SpanFormat(s: TextSpan): Format {
    Format(s.font, s.size, ColorOf(s.color))
  }

  /** The first span of the line whose text contains `t`. */
  function LineFormat(spans: seq<TextSpan>, t: string): Option<Format> {
    if spans == [] then None
    else if Contains(spans[0].text, t) then Some(SpanFormat(spans[0]))
    else LineFormat(spans[1..], t)
  }

  /**
   * The formatting found for a replacement: the search moves on to the next
   * line after the first match in a line, so the last line holding a match
   * decides, by its first matching span; the default when no line matches.
   */
  function LastLineFormat(lines: seq<seq<TextSpan>>, t: string): Format {
    if lines == [] then DefaultFormat
    else match LineFormat(lines[|lines| - 1], t)
      case Some(f) => f
      case None => LastLineFormat(lines[..|lines| - 1], t)
  }

  /** The inner search of one line, which stops at the first matching span. */
  method SearchLine(spans: seq<TextSpan>, t: string) returns (r: Option<Format>)
    ensures r == LineFormat(spans, t)
  {
    r := None;
    var s := 0;
    while s < |spans|
      invariant 0 <= s <= |spans|
      invariant LineFormat(spans, t) == LineFormat(spans[s..], t)
    {
      assert spans[s..][1..] == spans[s + 1..];
      if Contains(spans[s].text, t) {
        r := Some(SpanFormat(spans[s]));
        break;
      }
      s := s + 1;
    }
  }

  /** The formatting search over the lines of one text block, continuing from the lines before it. */
  method SearchLines(f: Format, lines: seq<seq<TextSpan>>, t: string, ghost before: seq<seq<TextSpan>>) returns (f': Format)
    requires f == LastLineFormat(before, t)
    ensures f' == LastLineFormat(before + lines, t)
  {
    f' := f;
    assert before + lines[..0] == before;
    for l := 0 to |lines|
      invariant f' == LastLineFormat(before + lines[..l], t)
    {
      assert (before + lines[..l + 1])[..|before| + l] == before + lines[..l];
      assert (before + lines[..l + 1])[|before| + l] == lines[l];
      var found := SearchLine(lines[l], t);
      if found.Some? {
        f' := found.value;
      }
    }
    assert lines[..|lines|] == lines;
  }

  /** The lines of one more block: its own when it is a text block, none otherwise. */
  lemma TextLinesSnoc(blocks: seq<Block>, b: nat)
    requires b < |blocks|
    ensures TextLines(blocks[..b + 1]) == TextLines(blocks[..b]) + (if blocks[b].TextBlock? then blocks[b].lines else [])
  {
    assert blocks[..b + 1][..b] == blocks[..b];
  }

  /** The formatting search of `replace_text` over every line of every text block. */
  method FindFormat(blocks: seq<Block>, t: string) returns (f: Format)
    ensures f == LastLineFormat(TextLines(blocks), t)
  {
    f := DefaultFormat;
    for b := 0 to |blocks|
      invariant f == LastLineFormat(TextLines(blocks[..b]), t)
    {
      TextLinesSnoc(blocks, b);
      var block := blocks[b];
      if block.TextBlock? {
        f := SearchLines(f, block.lines, t, TextLines(blocks[..b]));
      } else {
        assert TextLines(blocks[..b + 1]) == TextLines(blocks[..b]);
      }
    }
    assert blocks[..|blocks|] == blocks;
  }

  /** When no span contains the text, the replacement is set in 12-point black `helv`. */
  lemma {:induction false} NoMatchGivesDefault(lines: seq<seq<TextSpan>>, t: string)
    requires forall k, j :: 0 <= k < |lines| && 0 <= j < |lines[k]| ==> !Contains(lines[k][j].text, t)
    ensures LastLineFormat(lines, t) == DefaultFormat
  {
    if lines != [] {
      NoMatchInLine(lines[|lines| - 1], t);
      NoMatchGivesDefault(lines[..|lines| - 1], t);
    }
  }

  lemma {:induction false} NoMatchInLine(spans: seq<TextSpan>, t: string)
    requires forall j :: 0 <= j < |spans| ==> !Contains(spans[j].text, t)
    ensures LineFormat(spans, t) == None
  {
    if spans != [] {
      NoMatchInLine(spans[1..], t);
    }
  }

  /** A line with a match decides the formatting unless a later line has one too. */
  lemma {:induction false} LaterLineWins(before: seq<seq<TextSpan>>, line: seq<TextSpan>, after: seq<seq<TextSpan>>, t: string)
    requires LineFormat(line, t).Some?
    requires forall k :: 0 <= k < |after| ==> LineFormat(after[k], t).None?
    ensures LastLineFormat(before + [line] + after, t) == LineFormat(line, t).value
    decreases |after|
  {
    var all := before + [line] + after;
    if after == [] {
      assert all[|all| - 1] == line;
    } else {
      assert all[|all| - 1] == after[|after| - 1];
      assert all[..|all| - 1] == before + [line] + after[..|after| - 1];
      LaterLineWins(before, line, after[..|after| - 1], t);
    }
  }

  // ---------------------------------------------------------------- replace and redact

  /** What a page loop does with each page: replace one text by another, or redact a text. */
  datatype PageJob = Replace(oldText: string, newText: string) | Redact(text: string, fill: Color)

  function JobText(job: PageJob): string {
    if job.Replace? then job.oldText else job.text
  }

  /**
   * One replaced hit: the formatting is looked up on the page as it now is,
   * the hit is redacted at once, and the new text is inserted at the hit's
   * lower-left corner, without the font found (the default `helv` is used).
   */
  function ReplaceHit(p: EPage, hit: Rect, oldText: string, newText: string, textOf: EPage -> seq<Block>): EPage {
    var f := LastLineFormat(TextLines(textOf(p)), oldText);
    p.(edits := p.edits + [RedactAnnot(hit, None), ApplyRedactions, InsertText(Point(hit.x0, hit.y1), newText, "helv", f.size, f.color)])
  }

  function ReplaceHits(p: EPage, hits: seq<Rect>, oldText: string, newText: string, textOf: EPage -> seq<Block>): EPage
    decreases |hits|
  {
    if hits == [] then p else ReplaceHits(ReplaceHit(p, hits[0], oldText, newText, textOf), hits[1..], oldText, newText, textOf)
  }

  function RedactAnnots(hits: seq<Rect>, fill: Color): seq<Edit> {
    if hits == [] then [] else RedactAnnots(hits[..|hits| - 1], fill) + [RedactAnnot(hits[|hits| - 1], Some(fill))]
  }

  /** A redaction mark per hit, then one application of the redactions, only when there was a hit. */
  function RedactHits(p: EPage, hits: seq<Rect>, fill: Color): EPage {
    p.(edits := p.edits + RedactAnnots(hits, fill) + (if hits != [] then [ApplyRedactions] else []))
  }

  function ProcessPage(p: EPage, job: PageJob, hits: seq<Rect>, textOf: EPage -> seq<Block>): EPage {
    match job
    case Replace(o, n) => ReplaceHits(p, hits, o, n, textOf)
    case Redact(_, fill) => RedactHits(p, hits, fill)
  }

  /** `page_nums if page_nums else range(len(doc))`. */
  function SelectedPages(pageNums: Option<seq<int>>, n: nat): (r: seq<int>)
    ensures pageNums.Some? && pageNums.value != [] ==> r == pageNums.value
    ensures pageNums.None? || pageNums.value == [] ==> |r| == n && forall k :: 0 <= k < n ==> r[k] == k
  {
    if pageNums.Some? && pageNums.value != [] then pageNums.value else seq(n, i => i)
  }

  /**
   * The page loop shared by `replace_text` and `redact_text`: each listed
   * page is searched as it is when reached and processed, and the count
   * grows by its number of hits; a page number out of range raises
   * `IndexError`, with the pages before it already edited.
   */
  function ProcessPages(doc: seq<EPage>, pages: seq<int>, count: nat, job: PageJob,
                        search: (EPage, string) -> seq<Rect>, textOf: EPage -> seq<Block>): (seq<EPage>, Result<nat, EditError>)
    decreases |pages|
  {
    if pages == [] then (doc, Ok(count))
    else match Resolve(|doc|, pages[0])
      case None => (doc, Err(IndexError))
      case Some(i) =>
        var hits := search(doc[i], JobText(job));
        ProcessPages(doc[i := ProcessPage(doc[i], job, hits, textOf)], pages[1..], count + |hits|, job, search, textOf)
  }

  // ---- properties of the page loop

  /** One turn of the page loop, at the `k`-th listed page. */
  lemma ProcessPagesStep(doc: seq<EPage>, pages: seq<int>, k: nat, count: nat, job: PageJob,
                         search: (EPage, string) -> seq<Rect>, textOf: EPage -> seq<Block>)
    requires k < |pages|
    ensures Resolve(|doc|, pages[k]).None? ==> ProcessPages(doc, pages[k..], count, job, search, textOf) == (doc, Err(IndexError))
    ensures Resolve(|doc|, pages[k]).Some? ==>
      var i := Resolve(|doc|, pages[k]).value;
      var hits := search(doc[i], JobText(job));
      ProcessPages(doc, pages[k..], count, job, search, textOf) ==
      ProcessPages(doc[i := ProcessPage(doc[i], job, hits, textOf)], pages[k + 1..], count + |hits|, job, search, textOf)
  {
    assert pages[k..][0] == pages[k] && pages[k..][1..] == pages[k + 1..];
  }

  lemma {:induction false} RedactAnnotsShape(hits: seq<Rect>, fill: Color)
    ensures |RedactAnnots(hits, fill)| == |hits|
    ensures forall k :: 0 <= k < |hits| ==> RedactAnnots(hits, fill)[k] == RedactAnnot(hits[k], Some(fill))
  {
    if hits != [] {
      RedactAnnotsShape(hits[..|hits| - 1], fill);
    }
  }

  /** A redacted page gets a mark per hit, in hit order, and the redactions are applied exactly when there was a hit. */
  lemma RedactPageShape(p: EPage, hits: seq<Rect>, fill: Color)
    ensures var added := RedactHits(p, hits, fill).edits[|p.edits|..];
      RedactHits(p, hits, fill).edits[..|p.edits|] == p.edits &&
      |added| == |hits| + (if hits == [] then 0 else 1) &&
      (forall k :: 0 <= k < |hits| ==> added[k] == RedactAnnot(hits[k], Some(fill))) &&
      (ApplyRedactions in added <==> hits != [])
  {
    RedactAnnotsShape(hits, fill);
    var added := RedactAnnots(hits, fill) + (if hits != [] then [ApplyRedactions] else []);
    assert RedactHits(p, hits, fill).edits == p.edits + added;
    assert RedactHits(p, hits, fill).edits[|p.edits|..] == added;
    assert forall k :: 0 <= k < |hits| ==> RedactAnnots(hits, fill)[k] != ApplyRedactions;
    assert ApplyRedactions !in RedactAnnots(hits, fill);
  }

  /**
   * The three edits a replacement adds for one hit, starting at `at`: the
   * redaction of the hit, its application, and the new text at the hit's
   * lower-left corner in the default font.
   */
  predicate HitEdits(edits: seq<Edit>, at: nat, hit: Rect, newText: string) {
    at + 2 < |edits| &&
    edits[at] == RedactAnnot(hit, None) &&
    edits[at + 1] == ApplyRedactions &&
    edits[at + 2].InsertText? &&
    edits[at + 2].at == Point(hit.x0, hit.y1) &&
    edits[at + 2].text == newText &&
    edits[at + 2].font == "helv"
  }

  /** Edits already made stay where they are when more are appended. */
  lemma HitEditsKept(edits: seq<Edit>, more: seq<Edit>, at: nat, hit: Rect, newText: string)
    requires HitEdits(edits, at, hit, newText) && |edits| <= |more| && more[..|edits|] == edits
    ensures HitEdits(more, at, hit, newText)
  {
    assert more[at] == edits[at] && more[at + 1] == edits[at + 1] && more[at + 2] == edits[at + 2];
  }

  /** A replacement keeps the page's source and earlier edits and adds three edits per hit. */
  lemma {:induction false} ReplaceHitsPrefix(p: EPage, hits: seq<Rect>, oldText: string, newText: string, textOf: EPage -> seq<Block>)
    ensures var q := ReplaceHits(p, hits, oldText, newText, textOf);
      |q.edits| == |p.edits| + 3 * |hits| && q.edits[..|p.edits|] == p.edits && q.source == p.source
    decreases |hits|
  {
    if hits != [] {
      var p1 := ReplaceHit(p, hits[0], oldText, newText, textOf);
      ReplaceHitsPrefix(p1, hits[1..], oldText, newText, textOf);
      var q := ReplaceHits(p1, hits[1..], oldText, newText, textOf);
      assert q.edits[..|p.edits|] == q.edits[..|p1.edits|][..|p.edits|];
    }
  }

  /** Every hit of a replacement adds its three edits, hit by hit, after the page's earlier edits. */
  lemma ReplaceHitsShape(p: EPage, hits: seq<Rect>, oldText: string, newText: string, textOf: EPage -> seq<Block>)
    ensures var q := ReplaceHits(p, hits, oldText, newText, textOf);
      |q.edits| == |p.edits| + 3 * |hits| && q.edits[..|p.edits|] == p.edits && q.source == p.source &&
      forall k :: 0 <= k < |hits| ==> HitEdits(q.edits, |p.edits| + 3 * k, hits[k], newText)
  {
    ReplaceHitsPrefix(p, hits, oldText, newText, textOf);
    ReplaceHitsEdits(p, hits, oldText, newText, textOf);
  }

  /** The edits of each of `hits`, three by three from `at`. */
  predicate AllHitEdits(edits: seq<Edit>, at: nat, hits: seq<Rect>, newText: string) {
    forall k :: 0 <= k < |hits| ==> HitEdits(edits, at + 3 * k, hits[k], newText)
  }

  lemma {:induction false} ReplaceHitsEdits(p: EPage, hits: seq<Rect>, oldText: string, newText: string, textOf: EPage -> seq<Block>)
    ensures AllHitEdits(ReplaceHits(p, hits, oldText, newText, textOf).edits, |p.edits|, hits, newText)
    decreases |hits|
  {
    if hits != [] {
      var p1 := ReplaceHit(p, hits[0], oldText, newText, textOf);
      var q := ReplaceHits(p1, hits[1..], oldText, newText, textOf);
      assert ReplaceHits(p, hits, oldText, newText, textOf) == q;
      ReplaceHitsEdits(p1, hits[1..], oldText, newText, textOf);
      ReplaceHitsPrefix(p1, hits[1..], oldText, newText, textOf);
      ReplaceHitEdits(p, hits[0], oldText, newText, textOf);
      HitEditsStep(p.edits, p1.edits, q.edits, hits, newText);
    }
  }

  /** One replaced hit adds exactly its three edits. */
  lemma ReplaceHitEdits(p: EPage, hit: Rect, oldText: string, newText: string, textOf: EPage -> seq<Block>)
    ensures var p1 := ReplaceHit(p, hit, oldText, newText, textOf);
      |p1.edits| == |p.edits| + 3 && HitEdits(p1.edits, |p.edits|, hit, newText)
  {
  }

  /** The edits of the first hit, then those of the later hits after them. */
  lemma HitEditsStep(first: seq<Edit>, next: seq<Edit>, last: seq<Edit>, hits: seq<Rect>, newText: string)
    requires hits != [] && |next| == |first| + 3 && HitEdits(next, |first|, hits[0], newText)
    requires |next| <= |last| && last[..|next|] == next
    requires AllHitEdits(last, |next|, hits[1..], newText)
    ensures AllHitEdits(last, |first|, hits, newText)
  {
    forall k | 0 <= k < |hits|
      ensures HitEdits(last, |first| + 3 * k, hits[k], newText)
    {
      if k > 0 {
        assert hits[k] == hits[1..][k - 1];
        assert |first| + 3 * k == |next| + 3 * (k - 1);
      } else {
        HitEditsKept(next, last, |first|, hits[0], newText);
      }
    }
  }

  /** The document keeps its pages; each page keeps its source and only gains edits, whether or not the loop raised. */
  lemma {:induction false} ProcessPagesKeepsPages(doc: seq<EPage>, pages: seq<int>, count: nat, job: PageJob,
                                                  search: (EPage, string) -> seq<Rect>, textOf: EPage -> seq<Block>)
    ensures var d := ProcessPages(doc, pages, count, job, search, textOf).0;
      |d| == |doc| && forall j :: 0 <= j < |doc| ==> d[j].source == doc[j].source && doc[j].edits <= d[j].edits
    decreases |pages|
  {
    if pages != [] {
      match Resolve(|doc|, pages[0])
      case None =>
      case Some(i) =>
        var hits := search(doc[i], JobText(job));
        var p := ProcessPage(doc[i], job, hits, textOf);
        assert p.source == doc[i].source && doc[i].edits <= p.edits by {
          match job
          case Replace(o, n) => ReplaceHitsShape(doc[i], hits, o, n, textOf);
          case Redact(_, fill) =>
        }
        ProcessPagesKeepsPages(doc[i := p], pages[1..], count + |hits|, job, search, textOf);
        var d := ProcessPages(doc[i := p], pages[1..], count + |hits|, job, search, textOf).0;
        assert ProcessPages(doc, pages, count, job, search, textOf).0 == d;
        KeptThrough(doc, i, p, d);
    }
  }

  /** Page `i` gains edits, then every page does: every page has gained edits. */
  lemma KeptThrough(doc: seq<EPage>, i: nat, p: EPage, d: seq<EPage>)
    requires i < |doc| && p.source == doc[i].source && doc[i].edits <= p.edits
    requires |d| == |doc| && forall j :: 0 <= j < |doc| ==> d[j].source == doc[i := p][j].source && doc[i := p][j].edits <= d[j].edits
    ensures forall j :: 0 <= j < |doc| ==> d[j].source == doc[j].source && doc[j].edits <= d[j].edits
  {
    forall j | 0 <= j < |doc|
      ensures d[j].source == doc[j].source && doc[j].edits <= d[j].edits
    {
      if j == i {
        PrefixTrans(doc[i].edits, p.edits, d[j].edits);
      }
    }
  }

  lemma PrefixTrans<T>(a: seq<T>, b: seq<T>, c: seq<T>)
    requires a <= b && b <= c
    ensures a <= c
  {
    assert c[..|a|] == b[..|a|];
  }

  /** The loop raises exactly when some listed page number is out of range. */
  lemma {:induction false} ProcessPagesFails(doc: seq<EPage>, pages: seq<int>, count: nat, job: PageJob,
                                             search: (EPage, string) -> seq<Rect>, textOf: EPage -> seq<Block>)
    ensures ProcessPages(doc, pages, count, job, search, textOf).1.Err? <==> exists k :: 0 <= k < |pages| && Resolve(|doc|, pages[k]).None?
    ensures ProcessPages(doc, pages, count, job, search, textOf).1.Err? ==> ProcessPages(doc, pages, count, job, search, textOf).1.error == IndexError
    decreases |pages|
  {
    if pages != [] {
      match Resolve(|doc|, pages[0])
      case None =>
      case Some(i) =>
        var hits := search(doc[i], JobText(job));
        ProcessPagesFails(doc[i := ProcessPage(doc[i], job, hits, textOf)], pages[1..], count + |hits|, job, search, textOf);
        assert forall k :: 1 <= k < |pages| ==> pages[k] == pages[1..][k - 1];
    }
  }

  /** The hits of the listed pages in the given document, page by page. */
  function HitTotal(doc: seq<EPage>, pages: seq<int>, text: string, search: (EPage, string) -> seq<Rect>): nat
    decreases |pages|
  {
    if pages == [] then 0
    else match Resolve(|doc|, pages[0])
      case None => 0
      case Some(i) => |search(doc[i], text)| + HitTotal(doc, pages[1..], text, search)
  }

  predicate DistinctPages(n: nat, pages: seq<int>) {
    forall a, b :: 0 <= a < b < |pages| && Resolve(n, pages[a]).Some? && Resolve(n, pages[b]).Some? ==>
      Resolve(n, pages[a]).value != Resolve(n, pages[b]).value
  }

  lemma {:induction false} HitTotalFrame(doc: seq<EPage>, i: nat, p: EPage, pages: seq<int>, text: string, search: (EPage, string) -> seq<Rect>)
    requires i < |doc|
    requires forall k :: 0 <= k < |pages| && Resolve(|doc|, pages[k]).Some? ==> Resolve(|doc|, pages[k]).value != i
    ensures HitTotal(doc[i := p], pages, text, search) == HitTotal(doc, pages, text, search)
    decreases |pages|
  {
    if pages != [] {
      HitTotalFrame(doc, i, p, pages[1..], text, search);
    }
  }

  /**
   * With no page listed twice and every page number in range, the count
   * returned is the number of hits the search finds in the pages as they
   * were before the call.
   */
  lemma {:induction false} CountIsHitTotal(doc: seq<EPage>, pages: seq<int>, count: nat, job: PageJob,
                                           search: (EPage, string) -> seq<Rect>, textOf: EPage -> seq<Block>)
    requires forall k :: 0 <= k < |pages| ==> Resolve(|doc|, pages[k]).Some?
    requires DistinctPages(|doc|, pages)
    ensures ProcessPages(doc, pages, count, job, search, textOf).1 == Ok(count + HitTotal(doc, pages, JobText(job), search))
    decreases |pages|
  {
    if pages != [] {
      var i := Resolve(|doc|, pages[0]).value;
      var hits := search(doc[i], JobText(job));
      var doc' := doc[i := ProcessPage(doc[i], job, hits, textOf)];
      var rest := pages[1..];
      assert forall k :: 0 <= k < |rest| ==> rest[k] == pages[k + 1];
      assert DistinctPages(|doc'|, rest);
      HitTotalFrame(doc, i, ProcessPage(doc[i], job, hits, textOf), rest, JobText(job), search);
      CountIsHitTotal(doc', rest, count + |hits|, job, search, textOf);
    }
  }

  // ---------------------------------------------------------------- the editor

  /** `PDFEditor`: an open document and the edits made to it. */
  class PDFEditor {
    var doc: seq<EPage>

    constructor (pages: seq<EPage>)
      ensures doc == pages
    {
      doc := pages;
    }

    /** `add_text`: text at a point, in the variant of the font that bold and italic ask for. */
    method AddText(pageNum: int, text: string, at: Point, fontName: string, fontSize: real, color: Color, bold: bool, italic: bool)
      returns (r: Result<(), EditError>)
      modifies this
      ensures var e := EditPage(old(doc), pageNum, InsertText(at, text, FontVariant(fontName, bold, italic), fontSize, color));
        (r.Ok? <==> e.Ok?) && (e.Ok? ==> doc == e.value) && (e.Err? ==> doc == old(doc) && r == Err(IndexError))
    {
      var i := Resolve(|doc|, pageNum);
      if i.None? {
        return Err(IndexError);
      }
      var suffix := if bold && italic then "bi" else if bold then "bo" else if italic then "it" else "";
      var actualFont := if suffix != "" then fontName + suffix else fontName;
      var p := doc[i.value];
      doc := doc[i.value := p.(edits := p.edits + [InsertText(at, text, actualFont, fontSize, color)])];
      return Ok(());
    }

    /**
     * The other `add_*` methods (text box, image, highlight, underline,
     * strikeout, rectangle, circle, line, arrow, sticky note, free text):
     * each looks up its page and makes its one edit there.
     */
    method AddAnnotation(pageNum: int, e: Edit) returns (r: Result<(), EditError>)
      modifies this
      ensures var x := EditPage(old(doc), pageNum, e);
        (r.Ok? <==> x.Ok?) && (x.Ok? ==> doc == x.value) && (x.Err? ==> doc == old(doc) && r == Err(IndexError))
    {
      var i := Resolve(|doc|, pageNum);
      if i.None? {
        return Err(IndexError);
      }
      var p := doc[i.value];
      doc := doc[i.value := p.(edits := p.edits + [e])];
      return Ok(());
    }

    /** `replace_text`: the number of replacements made, or `IndexError` part-way. */
    method ReplaceText(oldText: string, newText: string, pageNums: Option<seq<int>>,
                       search: (EPage, string) -> seq<Rect>, textOf: EPage -> seq<Block>)
      returns (r: Result<nat, EditError>)
      modifies this
      ensures (doc, r) == ProcessPages(old(doc), SelectedPages(pageNums, |old(doc)|), 0, Replace(oldText, newText), search, textOf)
    {
      var job := Replace(oldText, newText);
      var count := 0;
      var pages := SelectedPages(pageNums, |doc|);
      var k := 0;
      while k < |pages|
        invariant 0 <= k <= |pages|
        invariant ProcessPages(doc, pages[k..], count, job, search, textOf) == ProcessPages(old(doc), pages, 0, job, search, textOf)
      {
        ProcessPagesStep(doc, pages, k, count, job, search, textOf);
        var idx := Resolve(|doc|, pages[k]);
        if idx.None? {
          return Err(IndexError);
        }
        var i := idx.value;
        var instances := search(doc[i], oldText);
        var replaced := ReplaceOnPage(i, instances, oldText, newText, textOf);
        count := count + replaced;
        k := k + 1;
      }
      assert pages[|pages|..] == [];
      return Ok(count);
    }

    /** The instance loop of `replace_text` on page `i`: the number of instances replaced. */
    method ReplaceOnPage(i: nat, instances: seq<Rect>, oldText: string, newText: string, textOf: EPage -> seq<Block>)
      returns (replaced: nat)
      requires i < |doc|
      modifies this
      ensures doc == old(doc)[i := ReplaceHits(old(doc)[i], instances, oldText, newText, textOf)]
      ensures replaced == |instances|
    {
      replaced := 0;
      for j := 0 to |instances|
        invariant |doc| == |old(doc)| && replaced == j
        invariant ReplaceHits(doc[i], instances[j..], oldText, newText, textOf) == ReplaceHits(old(doc)[i], instances, oldText, newText, textOf)
        invariant forall m :: 0 <= m < |doc| && m != i ==> doc[m] == old(doc)[m]
      {
        assert instances[j..][0] == instances[j] && instances[j..][1..] == instances[j + 1..];
        var inst := instances[j];
        var fmt := FindFormat(textOf(doc[i]), oldText);
        var p := doc[i];
        doc := doc[i := p.(edits := p.edits + [RedactAnnot(inst, None), ApplyRedactions,
                                                InsertText(Point(inst.x0, inst.y1), newText, "helv", fmt.size, fmt.color)])];
        replaced := replaced + 1;
      }
      assert instances[|instances|..] == [];
    }

    /** `redact_text`: the number of redaction marks made, or `IndexError` part-way. */
    method RedactText(searchText: string, pageNums: Option<seq<int>>, fill: Color,
                      search: (EPage, string) -> seq<Rect>, textOf: EPage -> seq<Block>)
      returns (r: Result<nat, EditError>)
      modifies this
      ensures (doc, r) == ProcessPages(old(doc), SelectedPages(pageNums, |old(doc)|), 0, Redact(searchText, fill), search, textOf)
    {
      var job := Redact(searchText, fill);
      var count := 0;
      var pages := SelectedPages(pageNums, |doc|);
      var k := 0;
      while k < |pages|
        invariant 0 <= k <= |pages|
        invariant ProcessPages(doc, pages[k..], count, job, search, textOf) == ProcessPages(old(doc), pages, 0, job, search, textOf)
      {
        ProcessPagesStep(doc, pages, k, count, job, search, textOf);
        var idx := Resolve(|doc|, pages[k]);
        if idx.None? {
          return Err(IndexError);
        }
        var i := idx.value;
        var instances := search(doc[i], searchText);
        var marked := RedactOnPage(i, instances, fill);
        count := count + marked;
        k := k + 1;
      }
      assert pages[|pages|..] == [];
      return Ok(count);
    }

    /** The instance loop of `redact_text` on page `i`, then one application of the marks when there were any. */
    method RedactOnPage(i: nat, instances: seq<Rect>, fill: Color) returns (marked: nat)
      requires i < |doc|
      modifies this
      ensures doc == old(doc)[i := RedactHits(old(doc)[i], instances, fill)]
      ensures marked == |instances|
    {
      var page := doc[i];
      var marks: seq<Edit> := [];
      marked := 0;
      for j := 0 to |instances|
        invariant marks == RedactAnnots(instances[..j], fill)
        invariant marked == j
      {
        assert instances[..j + 1][..j] == instances[..j];
        marks := marks + [RedactAnnot(instances[j], Some(fill))];
        marked := marked + 1;
      }
      assert instances[..|instances|] == instances;
      if |instances| > 0 {
        marks := marks + [ApplyRedactions];
      }
      assert page.edits + marks == RedactHits(page, instances, fill).edits;
      doc := doc[i := page.(edits := page.edits + marks)];
    }

    /** `extract_text_with_formatting`: the items of the page's text, or `IndexError`. */
    method ExtractTextWithFormatting(pageNum: int, textOf: EPage -> seq<Block>) returns (r: Result<seq<TextItem>, EditError>)
      ensures Resolve(|doc|, pageNum).None? ==> r == Err(IndexError)
      ensures Resolve(|doc|, pageNum).Some? ==> r == Ok(PageItems(textOf(doc[Resolve(|doc|, pageNum).value])))
    {
      var i := Resolve(|doc|, pageNum);
      if i.None? {
        return Err(IndexError);
      }
      var items := CollectItems(textOf(doc[i.value]));
      return Ok(items);
    }
  }

  // ---------------------------------------------------------------- batch annotations

  /**
   * One entry of the annotation list, each key present or not. Values of a
   * JSON type other than the one the editor expects are not modelled.
   */
  datatype Annotation = Annotation(
    kind: Option<string>, page: Option<int>,
    text: Option<string>, x: Option<real>, y: Option<real>,
    font: Option<string>, size: Option<real>, color: Option<Color>,
    bold: Option<bool>, italic: Option<bool>,
    box: Option<Rect>, fill: Option<Option<Color>>, width: Option<real>,
    center: Option<Point>, radius: Option<real>,
    startPoint: Option<Point>, endPoint: Option<Point>,
    point: Option<Point>, content: Option<string>, icon: Option<string>,
    imagePath: Option<string>, keepProportion: Option<bool>)

  /** `d.get(key, default)`. */
  function Or<T>(o: Option<T>, default: T): T {
    if o.Some? then o.value else default
  }

  /** The editor call an entry makes, with every argument resolved. */
  datatype Call =
    | TextCall(pageNum: int, text: string, at: Point, font: string, size: real, color: Color, bold: bool, italic: bool)
    | EditCall(pageNum: int, edit: Edit)

  const KnownKinds: set<string> := {"text", "highlight", "rectangle", "circle", "line", "arrow", "note",
                                    "freetext", "image", "underline", "strikeout"}

  /** The type (default `""`) picks the call; a required key that is missing raises `KeyError`; any other type makes no call. */
  function ParseAnnotation(a: Annotation): Result<Option<Call>, EditError> {
    var kind := Or(a.kind, "");
    var page := Or(a.page, 0);
    if kind == "text" then
      if a.text.None? then Err(KeyError("text"))
      else if a.x.None? then Err(KeyError("x"))
      else if a.y.None? then Err(KeyError("y"))
      else Ok(Some(TextCall(page, a.text.value, Point(a.x.value, a.y.value), Or(a.font, "helv"), Or(a.size, 12.0),
                            Or(a.color, Black), Or(a.bold, false), Or(a.italic, false))))
    else if kind == "highlight" then
      if a.box.None? then Err(KeyError("rect")) else Ok(Some(EditCall(page, Highlight(a.box.value, Or(a.color, Yellow)))))
    else if kind == "rectangle" then
      if a.box.None? then Err(KeyError("rect"))
      else Ok(Some(EditCall(page, RectShape(a.box.value, Or(a.color, Red), Or(a.fill, None), Or(a.width, 1.0)))))
    else if kind == "circle" then
      if a.center.None? then Err(KeyError("center"))
      else if a.radius.None? then Err(KeyError("radius"))
      else Ok(Some(EditCall(page, CircleShape(a.center.value, a.radius.value, Or(a.color, Red), Or(a.fill, None), Or(a.width, 1.0)))))
    else if kind == "line" || kind == "arrow" then
      if a.startPoint.None? then Err(KeyError("start"))
      else if a.endPoint.None? then Err(KeyError("end"))
      else if kind == "line" then
        Ok(Some(EditCall(page, LineShape(a.startPoint.value, a.endPoint.value, Or(a.color, Black), Or(a.width, 1.0)))))
      else Ok(Some(EditCall(page, ArrowAnnot(a.startPoint.value, a.endPoint.value, Or(a.color, Black), Or(a.width, 1.0)))))
    else if kind == "note" then
      if a.point.None? then Err(KeyError("point"))
      else if a.content.None? then Err(KeyError("content"))
      else Ok(Some(EditCall(page, StickyNote(a.point.value, a.content.value, Or(a.icon, "Note")))))
    else if kind == "freetext" then
      if a.box.None? then Err(KeyError("rect"))
      else if a.text.None? then Err(KeyError("text"))
      else Ok(Some(EditCall(page, FreeTextAnnot(a.box.value, a.text.value, Or(a.size, 12.0), Or(a.color, Black),
                                                Or(a.fill, Some(PaleYellow)), Black))))
    else if kind == "image" then
      if a.imagePath.None? then Err(KeyError("image_path"))
      else if a.box.None? then Err(KeyError("rect"))
      else Ok(Some(EditCall(page, ImageInsert(a.box.value, a.imagePath.value, Or(a.keepProportion, true)))))
    else if kind == "underline" then
      if a.box.None? then Err(KeyError("rect")) else Ok(Some(EditCall(page, Underline(a.box.value))))
    else if kind == "strikeout" then
      if a.box.None? then Err(KeyError("rect")) else Ok(Some(EditCall(page, Strikeout(a.box.value))))
    else Ok(None)
  }

  function CallEdit(c: Call): Edit {
    match c
    case TextCall(_, text, at, font, size, color, bold, italic) => InsertText(at, text, FontVariant(font, bold, italic), size, color)
    case EditCall(_, e) => e
  }

  /** The entries, applied in list order to the document; the first error ends the batch and nothing is saved. */
  function AnnotateAll(doc: seq<EPage>, annotations: seq<Annotation>): Result<seq<EPage>, EditError>
    decreases |annotations|
  {
    if annotations == [] then Ok(doc)
    else match ParseAnnotation(annotations[0])
      case Err(e) => Err(e)
      case Ok(None) => AnnotateAll(doc, annotations[1..])
      case Ok(Some(c)) =>
        match EditPage(doc, c.pageNum, CallEdit(c))
        case Err(e) => Err(e)
        case Ok(d) => AnnotateAll(d, annotations[1..])
  }

  /** `edit_pdf_with_annotations`: the document saved once, after every entry is applied. */
  method EditPdfWithAnnotations(doc: seq<EPage>, annotations: seq<Annotation>) returns (saved: Result<seq<EPage>, EditError>)
    ensures saved == AnnotateAll(doc, annotations)
  {
    var editor := new PDFEditor(doc);
    for k := 0 to |annotations|
      invariant AnnotateAll(editor.doc, annotations[k..]) == AnnotateAll(doc, annotations)
    {
      assert annotations[k..][1..] == annotations[k + 1..];
      var parsed := ParseAnnotation(annotations[k]);
      if parsed.Err? {
        return Err(parsed.error);
      }
      if parsed.value.Some? {
        var res;
        match parsed.value.value {
          case TextCall(pageNum, text, at, font, size, color, bold, italic) =>
            res := editor.AddText(pageNum, text, at, font, size, color, bold, italic);
          case EditCall(pageNum, e) =>
            res := editor.AddAnnotation(pageNum, e);
        }
        if res.Err? {
          return Err(res.error);
        }
      }
    }
    assert annotations[|annotations|..] == [];
    return Ok(editor.doc);
  }

  // ---- properties of the batch

  /** Entries are applied one after the other: a batch is its first part followed by the rest. */
  lemma {:induction false} AnnotateAllAppend(doc: seq<EPage>, a: seq<Annotation>, b: seq<Annotation>)
    ensures AnnotateAll(doc, a + b) == match AnnotateAll(doc, a) case Err(e) => Err(e) case Ok(d) => AnnotateAll(d, b)
    decreases |a|
  {
    if a == [] {
      assert a + b == b;
    } else {
      assert (a + b)[0] == a[0];
      assert (a + b)[1..] == a[1..] + b;
      match ParseAnnotation(a[0])
      case Err(e) =>
      case Ok(None) => AnnotateAllAppend(doc, a[1..], b);
      case Ok(Some(c)) =>
        match EditPage(doc, c.pageNum, CallEdit(c))
        case Err(e) =>
        case Ok(d) => AnnotateAllAppend(d, a[1..], b);
    }
  }

  /** An entry of an unknown type is skipped: it neither raises nor changes the document. */
  lemma UnknownKindIgnored(doc: seq<EPage>, a: Annotation, rest: seq<Annotation>)
    requires Or(a.kind, "") !in KnownKinds
    ensures AnnotateAll(doc, [a] + rest) == AnnotateAll(doc, rest)
  {
    assert ([a] + rest)[1..] == rest;
  }

  /** An entry of a known type with its required keys edits the page it names, page 0 if none, and no other. */
  lemma OneEntryEditsItsPage(doc: seq<EPage>, a: Annotation)
    requires ParseAnnotation(a).Ok? && ParseAnnotation(a).value.Some?
    requires Resolve(|doc|, Or(a.page, 0)).Some?
    ensures var i := Resolve(|doc|, Or(a.page, 0)).value;
      AnnotateAll(doc, [a]).Ok? && |AnnotateAll(doc, [a]).value| == |doc| &&
      AnnotateAll(doc, [a]).value[i].edits == doc[i].edits + [CallEdit(ParseAnnotation(a).value.value)] &&
      forall j :: 0 <= j < |doc| && j != i ==> AnnotateAll(doc, [a]).value[j] == doc[j]
  {
    assert ParseAnnotation(a).value.value.pageNum == Or(a.page, 0);
    assert [a][1..] == [];
  }

  /** A text entry is inserted in the font variant its bold and italic keys ask for. */
  lemma TextEntryFont(a: Annotation)
    requires Or(a.kind, "") == "text" && a.text.Some? && a.x.Some? && a.y.Some?
    ensures ParseAnnotation(a).Ok? && ParseAnnotation(a).value.Some?
    ensures CallEdit(ParseAnnotation(a).value.value) ==
      InsertText(Point(a.x.value, a.y.value), a.text.value, FontVariant(Or(a.font, "helv"), Or(a.bold, false), Or(a.italic, false)),
                 Or(a.size, 12.0), Or(a.color, Black))
  {
  }

  // ---------------------------------------------------------------- structure

  /** A page of `get_pdf_structure`. */
  datatype PageSummary = PageSummary(pageNumber: int, width: real, height: real, fonts: seq<FontEntry>,
                                     textCount: nat, sampleText: seq<TextItem>)

  datatype Structure = Structure(pageCount: nat, pages: seq<PageSummary>)

  function SummaryOf(i: nat, p: EPage, textOf: EPage -> seq<Block>): PageSummary {
    var items := PageItems(textOf(p));
    PageSummary(i + 1, p.width, p.height, p.fonts, |items|, Take(items, 10))
  }

  /** `get_pdf_structure`: the page count and a summary per page, in page order. */
  method GetPdfStructure(doc: seq<EPage>, textOf: EPage -> seq<Block>) returns (s: Structure)
    ensures s.pageCount == |doc| && |s.pages| == |doc|
    ensures forall i :: 0 <= i < |doc| ==> s.pages[i] == SummaryOf(i, doc[i], textOf)
  {
    var editor := new PDFEditor(doc);
    var summaries: seq<PageSummary> := [];
    for pageNum := 0 to |editor.doc|
      invariant editor.doc == doc
      invariant |summaries| == pageNum
      invariant forall i :: 0 <= i < pageNum ==> summaries[i] == SummaryOf(i, doc[i], textOf)
    {
      var page := editor.doc[pageNum];
      var r := editor.ExtractTextWithFormatting(pageNum, textOf);
      var textItems := r.value;
      var sample := if |textItems| > 0 then Take(textItems, 10) else [];
      summaries := summaries + [PageSummary(pageNum + 1, page.width, page.height, page.fonts, |textItems|, sample)];
    }
    s := Structure(|editor.doc|, summaries);
  }

  /** A summary counts every span of the page's text and samples the first ten, or all when fewer. */
  lemma SummaryShape(i: nat, p: EPage, textOf: EPage -> seq<Block>)
    ensures var s := SummaryOf(i, p, textOf);
      s.pageNumber == i + 1 &&
      s.textCount == |LinesSpans(TextLines(textOf(p)))| &&
      |s.sampleText| == (if s.textCount < 10 then s.textCount else 10) &&
      s.sampleText == PageItems(textOf(p))[..|s.sampleText|]
  {
    ItemsAreSpans(LinesSpans(TextLines(textOf(p))));
  }
}
