/**
 * The converters that draw text onto a letter-size canvas, identical in
 * both copies of the conversion service: Word paragraphs wrapped greedily
 * at 80 characters, spreadsheet rows and slide text lines truncated, and
 * HTML with its tags removed and cut into paragraphs.
 *
 * The canvas is the sequence of what is drawn (a text at a height, in
 * points from the bottom of the page) and of page breaks. Font changes are
 * not recorded. The page is 792 points high and the margin is one inch
 * (72 points), so a page starts at height 720.
 */
module TextToPdf {
  import opened Wrappers
  import opened PyBuiltins

  datatype CanvasOp = Draw(y: int, text: string) | ShowPage

  const Inch := 72
  const PageTop := 720
  const LineHeight := 14
  const MaxLine := 80

  /** The texts drawn, in drawing order. */
  function DrawnTexts(ops: seq<CanvasOp>): seq<string> {
    if ops == [] then []
    else
      var last := ops[|ops| - 1];
      DrawnTexts(ops[..|ops| - 1]) + (if last.Draw? then [last.text] else [])
  }

  lemma {:induction false} DrawnTextsAppend(a: seq<CanvasOp>, b: seq<CanvasOp>)
    ensures DrawnTexts(a + b) == DrawnTexts(a) + DrawnTexts(b)
    decreases |b|
  {
    if b == [] {
      assert a + b == a;
    } else {
      assert (a + b)[..|a + b| - 1] == a + b[..|b| - 1];
      DrawnTextsAppend(a, b[..|b| - 1]);
    }
  }

  /** Every text is drawn between the bottom margin and the top of the page. */
  predicate DrawsInMargin(ops: seq<CanvasOp>) {
    forall i :: 0 <= i < |ops| && ops[i].Draw? ==> Inch <= ops[i].y <= PageTop
  }

  // ---------------------------------------------------------------- word wrap

  /** The candidate line when `word` is added to the line being built. */
  function Extend(current: string, word: string): string {
    if current != "" then current + " " + word else word
  }

  /**
   * The lines the word loop draws for the remaining `words` of a paragraph
   * while `current` is being built: a word that would take the line past
   * 80 characters starts the next line.
   */
  function WrapLines(words: seq<string>, current: string): seq<string>
    decreases |words|
  {
    if words == [] then (if current != "" then [current] else [])
    else
      var test := Extend(current, words[0]);
      if |test| > MaxLine then [current] + WrapLines(words[1..], words[0])
      else WrapLines(words[1..], test)
  }

  /** The lines of one paragraph. */
  function ParagraphLines(text: string): seq<string> {
    WrapLines(Words(text), "")
  }

  /** The canvas so far and the height of the next line. */
  datatype Pen = Pen(ops: seq<CanvasOp>, y: int)

  /** A line drawn inside the word loop: the pen moves down, and below the margin a new page starts. */
  function FlushLine(p: Pen, line: string): Pen {
    var y := p.y - LineHeight;
    if y < Inch then Pen(p.ops + [Draw(p.y, line), ShowPage], PageTop)
    else Pen(p.ops + [Draw(p.y, line)], y)
  }

  /** The word loop and the final line of a paragraph (after which the pen is not checked against the margin). */
  function WrapFrom(p: Pen, words: seq<string>, current: string): Pen
    decreases |words|
  {
    if words == [] then
      (if current != "" then Pen(p.ops + [Draw(p.y, current)], p.y - LineHeight) else p)
    else
      var test := Extend(current, words[0]);
      if |test| > MaxLine then WrapFrom(FlushLine(p, current), words[1..], words[0])
      else WrapFrom(p, words[1..], test)
  }

  /** One paragraph: a blank one only moves the pen; otherwise a new page if the pen is below the margin, then its lines. */
  function ParagraphStep(p: Pen, text: string): Pen {
    if Strip(text) == "" then Pen(p.ops, p.y - LineHeight)
    else
      var q := if p.y < Inch then Pen(p.ops + [ShowPage], PageTop) else p;
      WrapFrom(q, Words(text), "")
  }

  function Layout(p: Pen, paragraphs: seq<string>): Pen
    decreases |paragraphs|
  {
    if paragraphs == [] then p else Layout(ParagraphStep(p, paragraphs[0]), paragraphs[1..])
  }

  /** One paragraph of `word_to_pdf`: the word loop and its final line. */
  method DrawParagraph(ops: seq<CanvasOp>, y: int, text: string) returns (ops': seq<CanvasOp>, y': int)
    ensures Pen(ops', y') == ParagraphStep(Pen(ops, y), text)
  {
    ops', y' := ops, y;
    if Strip(text) == "" {
      y' := y' - LineHeight;
      return;
    }
    if y' < Inch {
      ops' := ops' + [ShowPage];
      y' := PageTop;
    }
    var current;
    ops', y', current := WrapWords(ops', y', Words(text));
    if current != "" {
      ops' := ops' + [Draw(y', current)];
      y' := y' - LineHeight;
    }
  }

  /** The word loop of a paragraph: it leaves the last, unfinished line in `current`. */
  method WrapWords(ops: seq<CanvasOp>, y: int, words: seq<string>) returns (ops': seq<CanvasOp>, y': int, current: string)
    ensures WrapFrom(Pen(ops', y'), [], current) == WrapFrom(Pen(ops, y), words, "")
  {
    ops', y', current := ops, y, "";
    for j := 0 to |words|
      invariant WrapFrom(Pen(ops', y'), words[j..], current) == WrapFrom(Pen(ops, y), words, "")
    {
      WrapFromStep(Pen(ops', y'), words, j, current);
      var word := words[j];
      var testLine := if current != "" then current + " " + word else word;
      if |testLine| > MaxLine {
        ops', y' := Flush(ops', y', current);
        current := word;
      } else {
        current := testLine;
      }
    }
    assert words[|words|..] == [];
  }

  /** A full line inside the word loop: it is drawn, the pen moves down, and below the margin a new page starts. */
  method Flush(ops: seq<CanvasOp>, y: int, line: string) returns (ops': seq<CanvasOp>, y': int)
    ensures Pen(ops', y') == FlushLine(Pen(ops, y), line)
  {
    ops' := ops + [Draw(y, line)];
    y' := y - LineHeight;
    if y' < Inch {
      ops' := ops' + [ShowPage];
      y' := PageTop;
      assert ops' == ops + [Draw(y, line), ShowPage];
    }
  }

  /** One turn of the word loop. */
  lemma WrapFromStep(p: Pen, words: seq<string>, j: nat, current: string)
    requires j < |words|
    ensures WrapFrom(p, words[j..], current) ==
      if |Extend(current, words[j])| > MaxLine then WrapFrom(FlushLine(p, current), words[j + 1..], words[j])
      else WrapFrom(p, words[j + 1..], Extend(current, words[j]))
  {
    assert words[j..][1..] == words[j + 1..];
  }

  /** `word_to_pdf`: the canvas drawn for the document's paragraphs. */
  method WordToPdf(paragraphs: seq<string>) returns (ops: seq<CanvasOp>)
    ensures ops == Layout(Pen([], PageTop), paragraphs).ops
  {
    ops := [];
    var y := PageTop;
    for i := 0 to |paragraphs|
      invariant Layout(Pen(ops, y), paragraphs[i..]) == Layout(Pen([], PageTop), paragraphs)
    {
      assert paragraphs[i..][1..] == paragraphs[i + 1..];
      ops, y := DrawParagraph(ops, y, paragraphs[i]);
    }
    assert paragraphs[|paragraphs|..] == [];
  }

  /** All lines of all paragraphs, in order. */
  function AllLines(paragraphs: seq<string>): seq<string> {
    if paragraphs == [] then [] else ParagraphLines(paragraphs[0]) + AllLines(paragraphs[1..])
  }

  /** All words of all paragraphs, in order. */
  function AllWords(paragraphs: seq<string>): seq<string> {
    if paragraphs == [] then [] else Words(paragraphs[0]) + AllWords(paragraphs[1..])
  }

  /** The words of a sequence of lines, in order. */
  function WordsOf(lines: seq<string>): seq<string> {
    if lines == [] then [] else Words(lines[0]) + WordsOf(lines[1..])
  }

  // ---- what is drawn

  lemma FlushLineDraws(p: Pen, line: string)
    ensures DrawnTexts(FlushLine(p, line).ops) == DrawnTexts(p.ops) + [line]
  {
    if p.y - LineHeight < Inch {
      var tail := [Draw(p.y, line), ShowPage];
      DrawnTextsAppend(p.ops, tail);
      assert tail[..1] == [Draw(p.y, line)];
      assert tail[..1][..0] == [];
      assert DrawnTexts(tail[..1]) == [line];
      assert DrawnTexts(tail) == [line];
    } else {
      DrawnTextsAppend(p.ops, [Draw(p.y, line)]);
    }
  }

  lemma {:induction false} WrapFromDraws(p: Pen, words: seq<string>, current: string)
    ensures DrawnTexts(WrapFrom(p, words, current).ops) == DrawnTexts(p.ops) + WrapLines(words, current)
    decreases |words|
  {
    if words == [] {
      if current != "" {
        DrawnTextsSnoc(p.ops, Draw(p.y, current));
      }
    } else if |Extend(current, words[0])| > MaxLine {
      WrapFromDraws(FlushLine(p, current), words[1..], words[0]);
      WrapDrawsAtBreak(p, words, current);
    } else {
      var test := Extend(current, words[0]);
      WrapFromDraws(p, words[1..], test);
      assert WrapFrom(p, words, current) == WrapFrom(p, words[1..], test);
      assert WrapLines(words, current) == WrapLines(words[1..], test);
    }
  }

  /** The line is full before `words[0]`: it is drawn, then the rest wraps from a fresh line. */
  lemma WrapDrawsAtBreak(p: Pen, words: seq<string>, current: string)
    requires words != [] && |Extend(current, words[0])| > MaxLine
    requires DrawnTexts(WrapFrom(FlushLine(p, current), words[1..], words[0]).ops) ==
      DrawnTexts(FlushLine(p, current).ops) + WrapLines(words[1..], words[0])
    ensures DrawnTexts(WrapFrom(p, words, current).ops) == DrawnTexts(p.ops) + WrapLines(words, current)
  {
    WrapAtBreak(p, words, current);
    FlushLineDraws(p, current);
    AppendAssoc(DrawnTexts(p.ops), [current], WrapLines(words[1..], words[0]));
  }

  /** One unfolding of the word loop at a full line. */
  lemma WrapAtBreak(p: Pen, words: seq<string>, current: string)
    requires words != [] && |Extend(current, words[0])| > MaxLine
    ensures WrapFrom(p, words, current) == WrapFrom(FlushLine(p, current), words[1..], words[0])
    ensures WrapLines(words, current) == [current] + WrapLines(words[1..], words[0])
  {
  }

  lemma DrawnTextsSnoc(ops: seq<CanvasOp>, op: CanvasOp)
    ensures DrawnTexts(ops + [op]) == DrawnTexts(ops) + (if op.Draw? then [op.text] else [])
  {
    assert (ops + [op])[..|ops|] == ops;
  }

  lemma WordsEmptyIffBlank(s: string)
    ensures Words(s) == [] <==> Strip(s) == ""
  {
    LStripShape(s);
    StripEmptyIffAllSpace(s);
    var l := LStrip(s);
    if l == [] {
      assert s[..|s|] == s;
    }
    if l != [] {
      assert s[|s| - |l|] == l[0];
    }
  }

  lemma {:induction false} LayoutDraws(p: Pen, paragraphs: seq<string>)
    ensures DrawnTexts(Layout(p, paragraphs).ops) == DrawnTexts(p.ops) + AllLines(paragraphs)
    decreases |paragraphs|
  {
    if paragraphs != [] {
      var text := paragraphs[0];
      var q := ParagraphStep(p, text);
      LayoutDraws(q, paragraphs[1..]);
      WordsEmptyIffBlank(text);
      if Strip(text) != "" {
        var r := if p.y < Inch then Pen(p.ops + [ShowPage], PageTop) else p;
        WrapFromDraws(r, Words(text), "");
        if p.y < Inch {
          DrawnTextsAppend(p.ops, [ShowPage]);
        }
      }
    }
  }

  /** `word_to_pdf` draws exactly the wrapped lines of the paragraphs, in order. */
  lemma WordToPdfDrawsLines(paragraphs: seq<string>)
    ensures DrawnTexts(Layout(Pen([], PageTop), paragraphs).ops) == AllLines(paragraphs)
  {
    LayoutDraws(Pen([], PageTop), paragraphs);
  }

  // ---- margins

  lemma {:induction false} WrapFromInMargin(p: Pen, words: seq<string>, current: string)
    requires DrawsInMargin(p.ops) && Inch <= p.y <= PageTop
    ensures DrawsInMargin(WrapFrom(p, words, current).ops) && WrapFrom(p, words, current).y <= PageTop
    decreases |words|
  {
    if words != [] {
      var test := Extend(current, words[0]);
      if |test| > MaxLine {
        WrapFromInMargin(FlushLine(p, current), words[1..], words[0]);
      } else {
        WrapFromInMargin(p, words[1..], test);
      }
    }
  }

  lemma {:induction false} LayoutInMargin(p: Pen, paragraphs: seq<string>)
    requires DrawsInMargin(p.ops) && p.y <= PageTop
    ensures DrawsInMargin(Layout(p, paragraphs).ops)
    decreases |paragraphs|
  {
    if paragraphs != [] {
      var text := paragraphs[0];
      if Strip(text) != "" {
        var q := if p.y < Inch then Pen(p.ops + [ShowPage], PageTop) else p;
        WrapFromInMargin(q, Words(text), "");
      }
      LayoutInMargin(ParagraphStep(p, text), paragraphs[1..]);
    }
  }

  /** No line is drawn below the bottom margin or above the top of the page. */
  lemma WordToPdfInMargin(paragraphs: seq<string>)
    ensures DrawsInMargin(Layout(Pen([], PageTop), paragraphs).ops)
  {
    LayoutInMargin(Pen([], PageTop), paragraphs);
  }

  // ---- words

  lemma {:induction false} JoinSnoc(g: seq<string>, w: string, sep: string)
    ensures JoinStr(g + [w], sep) == if g == [] then w else JoinStr(g, sep) + sep + w
    decreases |g|
  {
    if |g| == 1 {
      assert g + [w] == [g[0], w];
      JoinStrTwo(g[0], w, sep);
    } else if |g| > 1 {
      assert (g + [w])[1..] == g[1..] + [w];
      JoinSnoc(g[1..], w, sep);
    }
  }

  predicate AllWordsProper(ws: seq<string>) {
    forall k :: 0 <= k < |ws| ==> IsWord(ws[k])
  }

  lemma ExtendJoin(g: seq<string>, w: string)
    requires AllWordsProper(g) && IsWord(w)
    ensures Extend(JoinStr(g, " "), w) == JoinStr(g + [w], " ")
    ensures (JoinStr(g, " ") == "") <==> g == []
  {
    JoinSnoc(g, w, " ");
    if g != [] {
      JoinStartsWithWord(g);
    }
  }

  lemma WordsOfSingleWord(w: string)
    requires IsWord(w)
    ensures Words(w) == [w]
  {
    WordsOfSingle([w]);
  }

  lemma WrapKeepsWordsAtEnd(g: seq<string>)
    requires AllWordsProper(g)
    ensures WordsOf(WrapLines([], JoinStr(g, " "))) == g
  {
    var current := JoinStr(g, " ");
    if current != "" {
      WordsOfJoin(g);
      assert WordsOf([current]) == Words(current) + WordsOf([]);
    } else if g != [] {
      JoinStartsWithWord(g);
    }
  }

  /** The line breaks before `words[0]`: the finished line gives back `g`. */
  lemma WrapKeepsWordsAtBreak(words: seq<string>, g: seq<string>)
    requires words != [] && AllWordsProper(words) && AllWordsProper(g)
    requires |Extend(JoinStr(g, " "), words[0])| > MaxLine
    requires WordsOf(WrapLines(words[1..], JoinStr([words[0]], " "))) == [words[0]] + words[1..]
    ensures WordsOf(WrapLines(words, JoinStr(g, " "))) == g + words
  {
    var current := JoinStr(g, " ");
    var w := words[0];
    var rest := WrapLines(words[1..], w);
    assert JoinStr([w], " ") == w;
    assert WrapLines(words, current) == [current] + rest;
    assert ([current] + rest)[1..] == rest;
    if g != [] {
      WordsOfJoin(g);
    } else {
      ExtendJoin(g, w);
    }
    assert Words(current) == g;
    HeadTail(words);
  }

  lemma {:induction false} WrapKeepsWords(words: seq<string>, g: seq<string>)
    requires AllWordsProper(words) && AllWordsProper(g)
    ensures WordsOf(WrapLines(words, JoinStr(g, " "))) == g + words
    decreases |words|
  {
    if words == [] {
      WrapKeepsWordsAtEnd(g);
    } else {
      var w := words[0];
      if |Extend(JoinStr(g, " "), w)| > MaxLine {
        WrapKeepsWords(words[1..], [w]);
        WrapKeepsWordsAtBreak(words, g);
      } else {
        WrapKeepsWords(words[1..], g + [w]);
        WrapKeepsWordsAtFit(words, g);
      }
    }
  }

  /** `words[0]` still fits: it joins the line being built. */
  lemma WrapKeepsWordsAtFit(words: seq<string>, g: seq<string>)
    requires words != [] && AllWordsProper(words) && AllWordsProper(g)
    requires |Extend(JoinStr(g, " "), words[0])| <= MaxLine
    requires WordsOf(WrapLines(words[1..], JoinStr(g + [words[0]], " "))) == g + [words[0]] + words[1..]
    ensures WordsOf(WrapLines(words, JoinStr(g, " "))) == g + words
  {
    var w := words[0];
    ExtendJoin(g, w);
    assert WrapLines(words, JoinStr(g, " ")) == WrapLines(words[1..], JoinStr(g + [w], " "));
    AppendHeadTail(g, words);
  }

  /** The wrapped lines of a paragraph hold exactly its words, in order: wrapping loses, repeats and reorders nothing. */
  lemma ParagraphKeepsWords(text: string)
    ensures WordsOf(ParagraphLines(text)) == Words(text)
  {
    var ws := Words(text);
    assert AllWordsProper(ws);
    assert JoinStr([], " ") == "";
    WrapKeepsWords(ws, []);
    assert [] + ws == ws;
  }

  lemma {:induction false} WordsOfAppend(a: seq<string>, b: seq<string>)
    ensures WordsOf(a + b) == WordsOf(a) + WordsOf(b)
    decreases |a|
  {
    if a == [] {
      assert a + b == b;
    } else {
      assert (a + b)[1..] == a[1..] + b;
      WordsOfAppend(a[1..], b);
    }
  }

  /** The canvas of `word_to_pdf` shows every word of the document once, in document order. */
  lemma {:induction false} WordToPdfKeepsWords(paragraphs: seq<string>)
    ensures WordsOf(AllLines(paragraphs)) == AllWords(paragraphs)
    decreases |paragraphs|
  {
    if paragraphs != [] {
      WordToPdfKeepsWords(paragraphs[1..]);
      ParagraphKeepsWords(paragraphs[0]);
      WordsOfAppend(ParagraphLines(paragraphs[0]), AllLines(paragraphs[1..]));
    }
  }

  // ---- line shape

  /** A drawn line fits in 80 characters unless it is one word too long to fit. */
  predicate LineFits(line: string) {
    |line| <= MaxLine || IsWord(line)
  }

  lemma {:induction false} WrapLinesFit(words: seq<string>, current: string)
    requires AllWordsProper(words) && LineFits(current)
    ensures forall k :: 0 <= k < |WrapLines(words, current)| ==> LineFits(WrapLines(words, current)[k])
    decreases |words|
  {
    if words != [] {
      var test := Extend(current, words[0]);
      if |test| > MaxLine {
        WrapLinesFit(words[1..], words[0]);
        var rest := WrapLines(words[1..], words[0]);
        forall k | 0 <= k < |[current] + rest| ensures LineFits(([current] + rest)[k]) {
          if k > 0 {
            assert ([current] + rest)[k] == rest[k - 1];
          }
        }
      } else {
        WrapLinesFit(words[1..], test);
      }
    }
  }

  /** Every line of a paragraph fits in 80 characters or is a single word. */
  lemma ParagraphLinesFit(text: string)
    ensures forall k :: 0 <= k < |ParagraphLines(text)| ==> LineFits(ParagraphLines(text)[k])
  {
    WrapLinesFit(Words(text), "");
  }

  lemma {:induction false} FirstLineStartsWith(words: seq<string>, g: seq<string>)
    requires AllWordsProper(words) && AllWordsProper(g) && g != []
    ensures WrapLines(words, JoinStr(g, " ")) != []
    ensures Words(WrapLines(words, JoinStr(g, " "))[0]) != []
    ensures Words(WrapLines(words, JoinStr(g, " "))[0])[0] == g[0]
    decreases |words|
  {
    var current := JoinStr(g, " ");
    JoinStartsWithWord(g);
    if words == [] {
      WordsOfJoin(g);
    } else {
      var w := words[0];
      ExtendJoin(g, w);
      if |Extend(current, w)| > MaxLine {
        WordsOfJoin(g);
      } else {
        FirstLineStartsWith(words[1..], g + [w]);
      }
    }
  }

  /** The line was flushed because its successor's first word did not fit after it. */
  predicate Overflows(line: string, next: string) {
    Words(next) != [] && |Extend(line, Words(next)[0])| > MaxLine
  }

  /** Each line but the last was ended by the first word of the next. */
  predicate Greedy(lines: seq<string>) {
    forall k :: 0 <= k < |lines| - 1 ==> Overflows(lines[k], lines[k + 1])
  }

  lemma {:induction false} WrapLinesGreedy(words: seq<string>, g: seq<string>)
    requires AllWordsProper(words) && AllWordsProper(g)
    ensures Greedy(WrapLines(words, JoinStr(g, " ")))
    decreases |words|
  {
    var current := JoinStr(g, " ");
    if words != [] {
      var w := words[0];
      ExtendJoin(g, w);
      assert JoinStr([w], " ") == w;
      if |Extend(current, w)| > MaxLine {
        var rest := WrapLines(words[1..], w);
        WrapLinesGreedy(words[1..], [w]);
        FirstLineStartsWith(words[1..], [w]);
        var lines := [current] + rest;
        forall k | 0 <= k < |lines| - 1 ensures Overflows(lines[k], lines[k + 1]) {
          if k > 0 {
            assert lines[k] == rest[k - 1] && lines[k + 1] == rest[k];
          }
        }
      } else {
        WrapLinesGreedy(words[1..], g + [w]);
        assert WrapLines(words, current) == WrapLines(words[1..], JoinStr(g + [w], " "));
      }
    }
  }

  /** Greedy wrapping: each line but the last was ended only because the next word would have taken it past 80 characters. */
  lemma ParagraphLinesGreedy(text: string)
    ensures var lines := ParagraphLines(text);
      forall k :: 0 <= k < |lines| - 1 ==> Overflows(lines[k], lines[k + 1])
  {
    var ws := Words(text);
    assert AllWordsProper(ws);
    var empty := JoinStr([], " ");
    assert empty == "";
    WrapLinesGreedy(ws, []);
    assert ParagraphLines(text) == WrapLines(ws, empty);
    assert Greedy(ParagraphLines(text));
  }

  lemma {:induction false} WrapLinesNonEmpty(words: seq<string>, current: string)
    requires AllWordsProper(words) && current != ""
    ensures forall k :: 0 <= k < |WrapLines(words, current)| ==> WrapLines(words, current)[k] != ""
    decreases |words|
  {
    if words != [] {
      var test := Extend(current, words[0]);
      if |test| > MaxLine {
        WrapLinesNonEmpty(words[1..], words[0]);
        var rest := WrapLines(words[1..], words[0]);
        forall k | 0 <= k < |[current] + rest| ensures ([current] + rest)[k] != "" {
          if k > 0 {
            assert ([current] + rest)[k] == rest[k - 1];
          }
        }
      } else {
        WrapLinesNonEmpty(words[1..], test);
      }
    }
  }

  /**
   * An empty line is drawn only at the top of a paragraph whose first word
   * is longer than 80 characters: that word does not fit on the empty line
   * being built, which is drawn before it.
   */
  lemma ParagraphEmptyLine(text: string)
    ensures var lines := ParagraphLines(text);
      forall k :: 0 <= k < |lines| ==> (lines[k] == "" <==> k == 0 && |Words(text)[0]| > MaxLine)
  {
    var words := Words(text);
    if words != [] {
      var w := words[0];
      var rest := WrapLines(words[1..], w);
      WrapLinesNonEmpty(words[1..], w);
      if |w| > MaxLine {
        var lines := [""] + rest;
        forall k | 0 <= k < |lines| ensures lines[k] == "" <==> k == 0 {
          if k > 0 {
            assert lines[k] == rest[k - 1];
          }
        }
      } else {
        WrapLinesNonEmpty(words[1..], w);
      }
    }
  }

  // ---------------------------------------------------------------- truncation

  /** `s[:n] + "..."` for a text longer than `n`, else the text itself. */
  function Truncate(s: string, n: nat): string {
    if |s| > n then s[..n] + "..." else s
  }

  /**
   * A truncated text keeps its first `n` characters and is at most three
   * longer; it is left unchanged exactly when it fits, or when it already
   * is `n` characters followed by `...`. Truncating twice is truncating once.
   */
  lemma TruncateShape(s: string, n: nat)
    ensures |Truncate(s, n)| <= n + 3
    ensures Truncate(s, n)[..if |s| < n then |s| else n] == s[..if |s| < n then |s| else n]
    ensures Truncate(s, n) == s <==> |s| <= n || (|s| == n + 3 && s[n..] == "...")
    ensures Truncate(Truncate(s, n), n) == Truncate(s, n)
  {
    if |s| > n {
      var t := s[..n] + "...";
      assert t[..n] == s[..n];
      assert t[n..] == "...";
      if |s| == n + 3 && s[n..] == "..." {
        assert s == s[..n] + s[n..];
      }
    }
  }

  // ---------------------------------------------------------------- spreadsheets

  /** A spreadsheet cell value: empty, text, an integer or a boolean. */
  datatype Cell = Empty | TextCell(s: string) | IntCell(n: int) | BoolCell(b: bool)

  /** `str(cell) if cell else ""`. */
  function CellText(c: Cell): string {
    match c
    case Empty => ""
    case TextCell(s) => s
    case IntCell(n) => if n == 0 then "" else IntToStr(n)
    case BoolCell(b) => if b then "True" else ""
  }

  function CellTexts(row: seq<Cell>): seq<string> {
    seq(|row|, i requires 0 <= i < |row| => CellText(row[i]))
  }

  /** A row as drawn: the cells joined by `" | "`, cut at 100 characters. */
  function RowLine(row: seq<Cell>): string {
    Truncate(JoinStr(CellTexts(row), " | "), 100)
  }

  /** Falsy cells print as nothing, so a row of them is only its separators. */
  lemma {:induction false} FalsyRow(row: seq<Cell>)
    requires forall i :: 0 <= i < |row| ==> CellText(row[i]) == ""
    ensures JoinStr(CellTexts(row), " | ") == JoinStr(seq(|row|, i => ""), " | ")
  {
    assert CellTexts(row) == seq(|row|, i => "");
  }

  datatype Sheet = Sheet(title: string, rows: seq<seq<Cell>>)

  function RowLines(rows: seq<seq<Cell>>): seq<string> {
    if rows == [] then [] else RowLines(rows[..|rows| - 1]) + [RowLine(rows[|rows| - 1])]
  }

  /** Per sheet its title line, then one line per row. */
  function ExcelLines(sheets: seq<Sheet>): seq<string> {
    if sheets == [] then []
    else
      var s := sheets[|sheets| - 1];
      ExcelLines(sheets[..|sheets| - 1]) + ["Sheet: " + s.title] + RowLines(s.rows)
  }

  lemma Snoc(ops: seq<CanvasOp>, op: CanvasOp)
    requires DrawsInMargin(ops) && (op.Draw? ==> Inch <= op.y <= PageTop)
    ensures DrawnTexts(ops + [op]) == DrawnTexts(ops) + (if op.Draw? then [op.text] else [])
    ensures DrawsInMargin(ops + [op])
  {
    assert (ops + [op])[..|ops|] == ops;
  }

  /** A line below a heading: when the pen is below the margin a new page starts first; the pen then moves down 14 points. */
  function LinePen(p: Pen, text: string): Pen {
    if p.y < Inch then Pen(p.ops + [ShowPage, Draw(PageTop, text)], PageTop - LineHeight)
    else Pen(p.ops + [Draw(p.y, text)], p.y - LineHeight)
  }

  /** Lines drawn one below another, each by `LinePen`. */
  function LinesPen(p: Pen, lines: seq<string>): Pen
    decreases |lines|
  {
    if lines == [] then p else LinePen(LinesPen(p, lines[..|lines| - 1]), lines[|lines| - 1])
  }

  lemma LinesPenSnoc(p: Pen, lines: seq<string>, line: string)
    ensures LinesPen(p, lines + [line]) == LinePen(LinesPen(p, lines), line)
  {
    assert (lines + [line])[..|lines|] == lines;
  }

  lemma {:induction false} LinesPenAppend(p: Pen, a: seq<string>, b: seq<string>)
    ensures LinesPen(p, a + b) == LinesPen(LinesPen(p, a), b)
    decreases |b|
  {
    if b == [] {
      assert a + b == a;
    } else {
      assert (a + b)[..|a + b| - 1] == a + b[..|b| - 1];
      LinesPenAppend(p, a, b[..|b| - 1]);
    }
  }

  /**
   * While the lines fit above the margin, the k-th is drawn 14*k points
   * below the first and no new page starts.
   */
  lemma {:induction false} LinesPenOnePage(p: Pen, lines: seq<string>)
    requires lines == [] || p.y - LineHeight * (|lines| - 1) >= Inch
    ensures LinesPen(p, lines) == Pen(p.ops + seq(|lines|, k requires 0 <= k < |lines| => Draw(p.y - LineHeight * k, lines[k])), p.y - LineHeight * |lines|)
    decreases |lines|
  {
    if lines != [] {
      var n := |lines| - 1;
      var init := lines[..n];
      LinesPenOnePage(p, init);
      var q := LinesPen(p, init);
      assert q.y == p.y - LineHeight * n;
      var drawn := seq(n, k requires 0 <= k < n => Draw(p.y - LineHeight * k, init[k]));
      var all := seq(|lines|, k requires 0 <= k < |lines| => Draw(p.y - LineHeight * k, lines[k]));
      assert all == drawn + [Draw(p.y - LineHeight * n, lines[n])];
    }
  }

  /** A line below a heading: a new page first when the pen is below the margin, then the line, then the pen moves down. */
  method DrawLine(ops: seq<CanvasOp>, y: int, text: string) returns (ops': seq<CanvasOp>, y': int)
    requires DrawsInMargin(ops) && y <= PageTop
    ensures Pen(ops', y') == LinePen(Pen(ops, y), text)
    ensures DrawnTexts(ops') == DrawnTexts(ops) + [text]
    ensures DrawsInMargin(ops') && y' <= PageTop
  {
    ops', y' := ops, y;
    if y' < Inch {
      Snoc(ops', ShowPage);
      ops' := ops' + [ShowPage];
      y' := PageTop;
    }
    Snoc(ops', Draw(y', text));
    ops' := ops' + [Draw(y', text)];
    y' := y' - 14;
  }

  /** A heading at the top of a new page. */
  method DrawHeading(ops: seq<CanvasOp>, text: string) returns (ops': seq<CanvasOp>)
    requires DrawsInMargin(ops)
    ensures ops' == ops + [Draw(PageTop, text)]
    ensures DrawnTexts(ops') == DrawnTexts(ops) + [text]
    ensures DrawsInMargin(ops')
  {
    Snoc(ops, Draw(PageTop, text));
    ops' := ops + [Draw(PageTop, text)];
  }

  /** The page is shown at the end of a sheet or slide. */
  method EndPage(ops: seq<CanvasOp>) returns (ops': seq<CanvasOp>)
    requires DrawsInMargin(ops)
    ensures ops' == ops + [ShowPage]
    ensures DrawnTexts(ops') == DrawnTexts(ops)
    ensures DrawsInMargin(ops')
  {
    Snoc(ops, ShowPage);
    ops' := ops + [ShowPage];
  }

  /** One sheet: its title at the top of the page, its rows from 25 points lower, then a new page. */
  function SheetOps(ops: seq<CanvasOp>, sheet: Sheet): seq<CanvasOp> {
    LinesPen(Pen(ops + [Draw(PageTop, "Sheet: " + sheet.title)], PageTop - 25), RowLines(sheet.rows)).ops + [ShowPage]
  }

  /** The canvas of `excel_to_pdf`: the sheets one after another. */
  function ExcelOps(sheets: seq<Sheet>): seq<CanvasOp> {
    if sheets == [] then [] else SheetOps(ExcelOps(sheets[..|sheets| - 1]), sheets[|sheets| - 1])
  }

  /** `excel_to_pdf`: each sheet on a new page, a row per line, new pages as the rows reach the margin. */
  method ExcelToPdf(sheets: seq<Sheet>) returns (ops: seq<CanvasOp>)
    ensures ops == ExcelOps(sheets)
    ensures DrawnTexts(ops) == ExcelLines(sheets)
    ensures DrawsInMargin(ops)
  {
    ops := [];
    for i := 0 to |sheets|
      invariant ops == ExcelOps(sheets[..i])
      invariant DrawnTexts(ops) == ExcelLines(sheets[..i])
      invariant DrawsInMargin(ops)
    {
      assert sheets[..i + 1][..i] == sheets[..i];
      var sheet := sheets[i];
      ops := DrawHeading(ops, "Sheet: " + sheet.title);
      var y;
      ops, y := DrawRows(ops, PageTop - 25, sheet.rows);
      ops := EndPage(ops);
    }
    assert sheets[..|sheets|] == sheets;
  }

  /** The rows of one sheet, a line each, from height `y` down. */
  method DrawRows(ops: seq<CanvasOp>, y: int, rows: seq<seq<Cell>>) returns (ops': seq<CanvasOp>, y': int)
    requires DrawsInMargin(ops) && y <= PageTop
    ensures Pen(ops', y') == LinesPen(Pen(ops, y), RowLines(rows))
    ensures DrawnTexts(ops') == DrawnTexts(ops) + RowLines(rows)
    ensures DrawsInMargin(ops') && y' <= PageTop
  {
    ops', y' := ops, y;
    for j := 0 to |rows|
      invariant Pen(ops', y') == LinesPen(Pen(ops, y), RowLines(rows[..j]))
      invariant DrawnTexts(ops') == DrawnTexts(ops) + RowLines(rows[..j])
      invariant DrawsInMargin(ops') && y' <= PageTop
    {
      var rowText := JoinStr(CellTexts(rows[j]), " | ");
      if |rowText| > 100 {
        rowText := rowText[..100] + "...";
      }
      assert rowText == RowLine(rows[j]);
      DrawRowsStep(Pen(ops, y), rows, j);
      ops', y' := DrawLine(ops', y', rowText);
    }
    assert rows[..|rows|] == rows;
  }

  /** One more row: its line follows the earlier rows' lines, drawn from where they left the pen. */
  lemma DrawRowsStep(p: Pen, rows: seq<seq<Cell>>, j: nat)
    requires j < |rows|
    ensures DrawnTexts(p.ops) + RowLines(rows[..j + 1]) == DrawnTexts(p.ops) + RowLines(rows[..j]) + [RowLine(rows[j])]
    ensures LinesPen(p, RowLines(rows[..j + 1])) == LinePen(LinesPen(p, RowLines(rows[..j])), RowLine(rows[j]))
  {
    assert rows[..j + 1][..j] == rows[..j];
    AppendAssoc(DrawnTexts(p.ops), RowLines(rows[..j]), [RowLine(rows[j])]);
    LinesPenSnoc(p, RowLines(rows[..j]), RowLine(rows[j]));
  }

  /**
   * A sheet of at most 45 rows fills one page: its title at 720, row k
   * 14*k points below 695, then the page break that ends the sheet.
   */
  lemma ShortSheetOnePage(ops: seq<CanvasOp>, sheet: Sheet)
    requires |sheet.rows| <= 45
    ensures |RowLines(sheet.rows)| == |sheet.rows|
    ensures SheetOps(ops, sheet) == ops + [Draw(PageTop, "Sheet: " + sheet.title)]
      + seq(|sheet.rows|, k requires 0 <= k < |sheet.rows| => Draw(PageTop - 25 - LineHeight * k, RowLine(sheet.rows[k])))
      + [ShowPage]
  {
    RowLinesShape(sheet.rows);
    var lines := RowLines(sheet.rows);
    var p := Pen(ops + [Draw(PageTop, "Sheet: " + sheet.title)], PageTop - 25);
    LinesPenOnePage(p, lines);
    assert seq(|lines|, k requires 0 <= k < |lines| => Draw(p.y - LineHeight * k, lines[k]))
      == seq(|sheet.rows|, k requires 0 <= k < |sheet.rows| => Draw(PageTop - 25 - LineHeight * k, RowLine(sheet.rows[k])));
  }

  lemma {:induction false} RowLinesShape(rows: seq<seq<Cell>>)
    ensures |RowLines(rows)| == |rows|
    ensures forall k :: 0 <= k < |rows| ==> RowLines(rows)[k] == RowLine(rows[k])
  {
    if rows != [] {
      RowLinesShape(rows[..|rows| - 1]);
    }
  }

  /** A 46th row no longer fits: it starts a new page and is drawn at its top. */
  lemma LongSheetBreaks(ops: seq<CanvasOp>, sheet: Sheet)
    requires |sheet.rows| == 46
    ensures |SheetOps(ops, sheet)| == |ops| + 49
    ensures SheetOps(ops, sheet)[|ops| + 46] == ShowPage
    ensures SheetOps(ops, sheet)[|ops| + 47] == Draw(PageTop, RowLine(sheet.rows[45]))
  {
    RowLinesShape(sheet.rows);
    var lines := RowLines(sheet.rows);
    var p := Pen(ops + [Draw(PageTop, "Sheet: " + sheet.title)], PageTop - 25);
    assert lines == lines[..45] + [lines[45]];
    LinesPenSnoc(p, lines[..45], lines[45]);
    LinesPenOnePage(p, lines[..45]);
    assert LinesPen(p, lines[..45]).y == PageTop - 25 - LineHeight * 45;
  }

  // ---------------------------------------------------------------- slides

  /** The shapes of a slide: a text, or `None` for a shape without a text attribute. */
  datatype Slide = Slide(shapes: seq<Option<string>>)

  function TruncatedLines(lines: seq<string>): seq<string> {
    if lines == [] then [] else TruncatedLines(lines[..|lines| - 1]) + [Truncate(lines[|lines| - 1], 80)]
  }

  /** The lines of the shapes with a non-empty text, each cut at 80 characters. */
  function ShapeLines(shapes: seq<Option<string>>): seq<string> {
    if shapes == [] then []
    else
      ShapeLines(shapes[..|shapes| - 1]) + ShapeText(shapes[|shapes| - 1])
  }

  /** The lines of one shape: none unless it has a non-empty text. */
  function ShapeText(shape: Option<string>): seq<string> {
    if StrTruthy(shape) then TruncatedLines(SplitStr(shape.value, "\n")) else []
  }

  /** Per slide `Slide k`, then its shapes' lines. */
  function PptxLines(slides: seq<Slide>): seq<string> {
    if slides == [] then []
    else
      var n := |slides|;
      PptxLines(slides[..n - 1]) + ["Slide " + IntToStr(n)] + ShapeLines(slides[n - 1].shapes)
  }

  /** One slide: its heading at the top of the page, its shapes' lines from 30 points lower, then a new page. */
  function SlideOps(ops: seq<CanvasOp>, heading: string, slide: Slide): seq<CanvasOp> {
    LinesPen(Pen(ops + [Draw(PageTop, heading)], PageTop - 30), ShapeLines(slide.shapes)).ops + [ShowPage]
  }

  /** The canvas of `pptx_to_pdf`: the slides one after another, numbered from 1. */
  function PptxOps(slides: seq<Slide>): seq<CanvasOp> {
    if slides == [] then []
    else
      var n := |slides|;
      SlideOps(PptxOps(slides[..n - 1]), "Slide " + IntToStr(n), slides[n - 1])
  }

  /** The lines of one shape's text, each cut at 80 characters. */
  method DrawTextLines(ops: seq<CanvasOp>, y: int, lines: seq<string>) returns (ops': seq<CanvasOp>, y': int)
    requires DrawsInMargin(ops) && y <= PageTop
    ensures Pen(ops', y') == LinesPen(Pen(ops, y), TruncatedLines(lines))
    ensures DrawnTexts(ops') == DrawnTexts(ops) + TruncatedLines(lines)
    ensures DrawsInMargin(ops') && y' <= PageTop
  {
    ops', y' := ops, y;
    for k := 0 to |lines|
      invariant Pen(ops', y') == LinesPen(Pen(ops, y), TruncatedLines(lines[..k]))
      invariant DrawnTexts(ops') == DrawnTexts(ops) + TruncatedLines(lines[..k])
      invariant DrawsInMargin(ops') && y' <= PageTop
    {
      assert lines[..k + 1][..k] == lines[..k];
      var line := lines[k];
      if |line| > 80 {
        line := line[..80] + "...";
      }
      LinesPenSnoc(Pen(ops, y), TruncatedLines(lines[..k]), Truncate(lines[k], 80));
      ops', y' := DrawLine(ops', y', line);
    }
    assert lines[..|lines|] == lines;
  }

  lemma ShapeLinesSnoc(shapes: seq<Option<string>>, j: nat)
    requires j < |shapes|
    ensures ShapeLines(shapes[..j + 1]) == ShapeLines(shapes[..j]) + ShapeText(shapes[j])
  {
    assert shapes[..j + 1][..j] == shapes[..j];
  }

  /** One shape's text lines, when it has a non-empty text. */
  method DrawShape(ops: seq<CanvasOp>, y: int, shape: Option<string>) returns (ops': seq<CanvasOp>, y': int)
    requires DrawsInMargin(ops) && y <= PageTop
    ensures Pen(ops', y') == LinesPen(Pen(ops, y), ShapeText(shape))
    ensures DrawnTexts(ops') == DrawnTexts(ops) + ShapeText(shape)
    ensures DrawsInMargin(ops') && y' <= PageTop
  {
    ops', y' := ops, y;
    if shape.Some? && shape.value != "" {
      ops', y' := DrawTextLines(ops, y, SplitStr(shape.value, "\n"));
    }
  }

  /** The text lines of a slide's shapes, one shape after another, below the heading. */
  method DrawShapes(ops: seq<CanvasOp>, y: int, shapes: seq<Option<string>>) returns (ops': seq<CanvasOp>, y': int)
    requires DrawsInMargin(ops) && y <= PageTop
    ensures Pen(ops', y') == LinesPen(Pen(ops, y), ShapeLines(shapes))
    ensures DrawnTexts(ops') == DrawnTexts(ops) + ShapeLines(shapes)
    ensures DrawsInMargin(ops') && y' <= PageTop
  {
    ops', y' := ops, y;
    for j := 0 to |shapes|
      invariant Pen(ops', y') == LinesPen(Pen(ops, y), ShapeLines(shapes[..j]))
      invariant DrawnTexts(ops') == DrawnTexts(ops) + ShapeLines(shapes[..j])
      invariant DrawsInMargin(ops') && y' <= PageTop
    {
      ShapeLinesSnoc(shapes, j);
      AppendAssoc(DrawnTexts(ops), ShapeLines(shapes[..j]), ShapeText(shapes[j]));
      LinesPenAppend(Pen(ops, y), ShapeLines(shapes[..j]), ShapeText(shapes[j]));
      ops', y' := DrawShape(ops', y', shapes[j]);
    }
    assert shapes[..|shapes|] == shapes;
  }

  /** One slide: its heading, the lines of its shapes, then a new page. */
  method DrawSlide(ops: seq<CanvasOp>, heading: string, shapes: seq<Option<string>>) returns (ops': seq<CanvasOp>)
    requires DrawsInMargin(ops)
    ensures ops' == SlideOps(ops, heading, Slide(shapes))
    ensures DrawnTexts(ops') == DrawnTexts(ops) + [heading] + ShapeLines(shapes)
    ensures DrawsInMargin(ops')
  {
    ops' := DrawHeading(ops, heading);
    var y;
    ops', y := DrawShapes(ops', PageTop - 30, shapes);
    ops' := EndPage(ops');
  }

  lemma PptxLinesSnoc(slides: seq<Slide>, i: nat)
    requires i < |slides|
    ensures PptxLines(slides[..i + 1]) == PptxLines(slides[..i]) + ["Slide " + IntToStr(i + 1)] + ShapeLines(slides[i].shapes)
    ensures PptxOps(slides[..i + 1]) == SlideOps(PptxOps(slides[..i]), "Slide " + IntToStr(i + 1), slides[i])
  {
    assert slides[..i + 1][..i] == slides[..i];
  }

  /** `pptx_to_pdf`: each slide on a new page under its number, each text line drawn, new pages at the margin. */
  method PptxToPdf(slides: seq<Slide>) returns (ops: seq<CanvasOp>)
    ensures ops == PptxOps(slides)
    ensures DrawnTexts(ops) == PptxLines(slides)
    ensures DrawsInMargin(ops)
  {
    ops := [];
    for i := 0 to |slides|
      invariant ops == PptxOps(slides[..i])
      invariant DrawnTexts(ops) == PptxLines(slides[..i])
      invariant DrawsInMargin(ops)
    {
      PptxLinesSnoc(slides, i);
      ops := DrawSlide(ops, "Slide " + IntToStr(i + 1), slides[i].shapes);
    }
    assert slides[..|slides|] == slides;
  }

  /** Every slide ends with a page break, so the next slide's heading opens a page. */
  lemma {:induction false} SlidesEndPage(slides: seq<Slide>)
    requires slides != []
    ensures PptxOps(slides)[|PptxOps(slides)| - 1] == ShowPage
  {
  }

  /** A slide line is drawn whole when it fits in 80 characters; every drawn line is at most 83. */
  lemma {:induction false} SlideLinesBounded(lines: seq<string>)
    ensures |TruncatedLines(lines)| == |lines|
    ensures forall k :: 0 <= k < |lines| ==> |TruncatedLines(lines)[k]| <= 83
    ensures forall k :: 0 <= k < |lines| && |lines[k]| <= 80 ==> TruncatedLines(lines)[k] == lines[k]
  {
    if lines != [] {
      var init := lines[..|lines| - 1];
      SlideLinesBounded(init);
      TruncateShape(lines[|lines| - 1], 80);
      forall k | 0 <= k < |init| ensures TruncatedLines(lines)[k] == TruncatedLines(init)[k] && lines[k] == init[k] {
      }
    }
  }

  // ---------------------------------------------------------------- HTML

  /** The index of the first `c` in `s`. */
  function IndexOf(s: string, c: char): (r: Option<nat>)
    ensures r.Some? ==> r.value < |s| && s[r.value] == c && c !in s[..r.value]
    ensures r.None? ==> c !in s
  {
    if s == [] then None
    else if s[0] == c then Some(0)
    else match IndexOf(s[1..], c)
      case None => None
      case Some(k) => assert s[..k + 1] == [s[0]] + s[1..][..k]; Some(k + 1)
  }

  /**
   * `re.sub(r'<[^>]+>', '', s)`: from left to right, a `<` followed by at
   * least one character other than `>` and then a `>` is removed up to and
   * including that first `>`; the scan resumes after it.
   */
  function StripTags(s: string): (r: string)
    ensures forall c :: c in r ==> c in s
    decreases |s|
  {
    if s == [] then []
    else if s[0] == '<' && |s| > 1 && s[1] != '>' then
      match IndexOf(s[1..], '>')
      case Some(k) => StripTags(s[k + 2..])
      case None => [s[0]] + StripTags(s[1..])
    else [s[0]] + StripTags(s[1..])
  }

  /** No `<`, at least one non-`>` character and a `>` follow one another: the pattern has nothing left to match. */
  predicate NoTag(t: string) {
    forall i :: 0 <= i < |t| && t[i] == '<' ==> (i + 1 < |t| && t[i + 1] == '>') || '>' !in t[i + 1..]
  }

  lemma {:induction false} StripTagsNoTag(s: string)
    ensures NoTag(StripTags(s))
    decreases |s|
  {
    if s != [] {
      if s[0] == '<' && |s| > 1 && s[1] != '>' && IndexOf(s[1..], '>').Some? {
        StripTagsNoTag(s[IndexOf(s[1..], '>').value + 2..]);
      } else {
        var rest := StripTags(s[1..]);
        StripTagsNoTag(s[1..]);
        var r := [s[0]] + rest;
        forall i | 0 <= i < |r| && r[i] == '<' ensures (i + 1 < |r| && r[i + 1] == '>') || '>' !in r[i + 1..] {
          if i > 0 {
            assert r[i] == rest[i - 1];
            assert r[i + 1..] == rest[i..];
          } else if |s| > 1 && s[1] == '>' {
            assert s[1..] == ['>'] + s[2..];
            assert rest[0] == '>';
          } else {
            assert r[1..] == rest;
          }
        }
      }
    }
  }

  lemma {:induction false} StripTagsOfNoTag(t: string)
    requires NoTag(t)
    ensures StripTags(t) == t
    decreases |t|
  {
    if t != [] {
      assert NoTag(t[1..]) by {
        forall i | 0 <= i < |t[1..]| && t[1..][i] == '<'
          ensures (i + 1 < |t[1..]| && t[1..][i + 1] == '>') || '>' !in t[1..][i + 1..]
        {
          assert t[i + 1] == '<';
          assert t[i + 2..] == t[1..][i + 1..];
        }
      }
      StripTagsOfNoTag(t[1..]);
    }
  }

  /** Tag removal leaves nothing to remove, so applying it again changes nothing; tag-free text passes unchanged. */
  lemma StripTagsIdempotent(s: string)
    ensures NoTag(StripTags(s))
    ensures StripTags(StripTags(s)) == StripTags(s)
    ensures '<' !in s ==> StripTags(s) == s
  {
    StripTagsNoTag(s);
    StripTagsOfNoTag(StripTags(s));
    if '<' !in s {
      StripTagsOfNoTag(s);
    }
  }

  /** The paragraphs that are not blank, in order. */
  function NonBlank(ps: seq<string>): (r: seq<string>)
    ensures |r| <= |ps|
    ensures forall k :: 0 <= k < |r| ==> Strip(r[k]) != ""
  {
    if ps == [] then []
    else NonBlank(ps[..|ps| - 1]) + (if Strip(ps[|ps| - 1]) != "" then [ps[|ps| - 1]] else [])
  }

  /** The story `html_to_pdf` builds, or an empty canvas when it has no paragraph. */
  datatype HtmlPdf = Story(paragraphs: seq<string>) | EmptyCanvas

  /** `html_to_pdf`: tags removed, the text cut at blank lines (`"\n\n"`), blank pieces dropped. */
  function HtmlToPdf(html: string): HtmlPdf {
    var paragraphs := NonBlank(SplitStr(StripTags(html), "\n\n"));
    if paragraphs != [] then Story(paragraphs) else EmptyCanvas
  }

  lemma AllSpaceAppend(a: string, b: string)
    ensures AllSpace(a + b) <==> AllSpace(a) && AllSpace(b)
  {
    if AllSpace(a + b) {
      forall i | 0 <= i < |a| ensures IsSpace(a[i]) {
        assert a[i] == (a + b)[i];
      }
      forall i | 0 <= i < |b| ensures IsSpace(b[i]) {
        assert b[i] == (a + b)[|a| + i];
      }
    }
    if AllSpace(a) && AllSpace(b) {
      forall i | 0 <= i < |a + b| ensures IsSpace((a + b)[i]) {
        if i >= |a| {
          assert (a + b)[i] == b[i - |a|];
        }
      }
    }
  }

  lemma {:induction false} AllSpaceJoin(ps: seq<string>, sep: string)
    requires AllSpace(sep)
    ensures AllSpace(JoinStr(ps, sep)) <==> forall k :: 0 <= k < |ps| ==> AllSpace(ps[k])
  {
    if |ps| > 1 {
      AllSpaceJoin(ps[1..], sep);
      AllSpaceAppend(ps[0], sep);
      AllSpaceAppend(ps[0] + sep, JoinStr(ps[1..], sep));
      assert forall k :: 1 <= k < |ps| ==> ps[k] == ps[1..][k - 1];
    }
  }

  lemma {:induction false} NonBlankEmpty(ps: seq<string>)
    ensures NonBlank(ps) == [] <==> forall k :: 0 <= k < |ps| ==> AllSpace(ps[k])
  {
    if ps != [] {
      var init := ps[..|ps| - 1];
      NonBlankEmpty(init);
      StripEmptyIffAllSpace(ps[|ps| - 1]);
      assert forall k :: 0 <= k < |init| ==> init[k] == ps[k];
    }
  }

  /** The canvas is left empty exactly when the text between the tags is all whitespace; every paragraph is non-blank. */
  lemma HtmlToPdfEmpty(html: string)
    ensures HtmlToPdf(html) == EmptyCanvas <==> AllSpace(StripTags(html))
    ensures HtmlToPdf(html).Story? ==> forall k :: 0 <= k < |HtmlToPdf(html).paragraphs| ==> Strip(HtmlToPdf(html).paragraphs[k]) != ""
  {
    var parts := SplitStr(StripTags(html), "\n\n");
    NonBlankEmpty(parts);
    AllSpaceJoin(parts, "\n\n");
  }

  /** Plain text without tags or blank lines is one paragraph, kept as it is. */
  lemma HtmlPlainText(text: string)
    requires '<' !in text && !Contains(text, "\n\n") && Strip(text) != ""
    ensures HtmlToPdf(text) == Story([text])
  {
    StripTagsIdempotent(text);
    var parts := SplitStr(text, "\n\n");
    assert Find(text, "\n\n").None?;
    assert parts == [text];
    assert NonBlank(parts) == NonBlank([]) + [text];
  }
}
