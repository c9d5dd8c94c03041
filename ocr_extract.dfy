/**
 * OCR post-processing: the mean confidence of the words the engine
 * recognised, the text of a multi-page document assembled page by page,
 * and words grouped into table rows by their line number and ordered left
 * to right. The recognition itself is not modelled: what the engine reports
 * for an image (its word table and its text) is the input.
 */
module OcrExtract {
  import opened Wrappers
  import opened PyBuiltins

  // ---------------------------------------------------------------- confidence

  /** `[int(c) for c in conf if int(c) > 0]`: the entries that carry a confidence. */
  function KeptConfidences(conf: seq<int>): (r: seq<int>)
    ensures |r| <= |conf|
  {
    if conf == [] then []
    else KeptConfidences(conf[..|conf| - 1]) + (if conf[|conf| - 1] > 0 then [conf[|conf| - 1]] else [])
  }

  function Sum(s: seq<int>): int {
    if s == [] then 0 else Sum(s[..|s| - 1]) + s[|s| - 1]
  }

  /** `sum(c) / len(c) if c else 0`. */
  function Average(c: seq<int>): real {
    if c == [] then 0.0 else Sum(c) as real / |c| as real
  }

  /** Exactly the positive entries are kept, in order. */
  lemma {:induction false} KeptMembers(conf: seq<int>)
    ensures forall x :: x in KeptConfidences(conf) <==> x in conf && x > 0
  {
    if conf != [] {
      KeptMembers(conf[..|conf| - 1]);
      assert conf == conf[..|conf| - 1] + [conf[|conf| - 1]];
    }
  }

  lemma {:induction false} KeptAppend(a: seq<int>, b: seq<int>)
    ensures KeptConfidences(a + b) == KeptConfidences(a) + KeptConfidences(b)
    decreases |b|
  {
    if b == [] {
      assert a + b == a;
    } else {
      assert (a + b)[..|a + b| - 1] == a + b[..|b| - 1];
      KeptAppend(a, b[..|b| - 1]);
    }
  }

  lemma {:induction false} SumLower(s: seq<int>)
    requires forall i :: 0 <= i < |s| ==> 1 <= s[i]
    ensures |s| <= Sum(s)
  {
    if s != [] {
      SumLower(s[..|s| - 1]);
    }
  }

  lemma {:induction false} SumUpper(s: seq<int>, m: int)
    requires forall i :: 0 <= i < |s| ==> s[i] <= m
    ensures Sum(s) <= |s| * m
  {
    if s != [] {
      SumUpper(s[..|s| - 1], m);
      assert (|s| - 1) * m + m == |s| * m;
    }
  }

  lemma RealOfProduct(a: int, b: int)
    ensures (a * b) as real == a as real * b as real
  {
  }

  /** The mean is 0 exactly when no entry carries a confidence. */
  lemma AverageZeroIff(conf: seq<int>)
    ensures Average(KeptConfidences(conf)) == 0.0 <==> forall i :: 0 <= i < |conf| ==> conf[i] <= 0
  {
    var k := KeptConfidences(conf);
    KeptMembers(conf);
    if k != [] {
      assert k[0] in k;
      PositiveSum(k);
      var i :| 0 <= i < |conf| && conf[i] == k[0];
    } else {
      forall i | 0 <= i < |conf|
        ensures conf[i] <= 0
      {
        assert conf[i] in conf;
      }
    }
  }

  lemma PositiveSum(k: seq<int>)
    requires k != [] && forall x :: x in k ==> x > 0
    ensures Sum(k) as real / |k| as real > 0.0
  {
    assert forall i :: 0 <= i < |k| ==> k[i] in k;
    SumLower(k);
  }

  /** Otherwise the mean lies between 1 and the largest confidence reported. */
  lemma AverageRange(conf: seq<int>, m: int)
    requires forall i :: 0 <= i < |conf| ==> conf[i] <= m
    requires KeptConfidences(conf) != []
    ensures 1.0 <= Average(KeptConfidences(conf)) <= m as real
  {
    var k := KeptConfidences(conf);
    KeptBounded(conf, m);
    SumLower(k);
    SumUpper(k, m);
    MeanBounds(|k|, Sum(k), m);
  }

  lemma MeanBounds(n: int, total: int, m: int)
    requires 0 < n <= total <= n * m
    ensures 1.0 <= total as real / n as real <= m as real
  {
    RealOfProduct(n, m);
    DivBounds(total as real, n as real, m as real);
  }

  lemma {:induction false} KeptBounded(conf: seq<int>, m: int)
    requires forall i :: 0 <= i < |conf| ==> conf[i] <= m
    ensures forall i :: 0 <= i < |KeptConfidences(conf)| ==> 1 <= KeptConfidences(conf)[i] <= m
  {
    if conf != [] {
      KeptBounded(conf[..|conf| - 1], m);
    }
  }

  lemma DivBounds(s: real, n: real, m: real)
    requires n > 0.0 && n <= s <= n * m
    ensures 1.0 <= s / n <= m
  {
    assert s / n * n == s;
  }

  /** What the engine reports for one image: its word confidences, its plain text and its hOCR text. */
  datatype ImageOcr = ImageOcr(conf: seq<int>, text: string, hocr: string)

  /** `ocr_image`: the stripped text in the format asked for, and the mean confidence. */
  function OcrImage(page: ImageOcr, outputFormat: string): (r: (string, real))
    ensures r.0 == [] || (!IsSpace(r.0[0]) && !IsSpace(r.0[|r.0| - 1]))
    ensures r.0 == [] <==> AllSpace(if outputFormat == "hocr" then page.hocr else page.text)
    ensures r.1 == 0.0 <==> forall i :: 0 <= i < |page.conf| ==> page.conf[i] <= 0
    ensures forall m :: AllAtMost(page.conf, m) && r.1 != 0.0 ==> 1.0 <= r.1 <= m as real
  {
    var out := if outputFormat == "hocr" then page.hocr else page.text;
    StripIdempotent(out);
    StripEmptyIffAllSpace(out);
    AverageZeroIff(page.conf);
    AverageBounded(page.conf);
    (Strip(out), Average(KeptConfidences(page.conf)))
  }

  /** No confidence exceeds `m`. */
  predicate AllAtMost(conf: seq<int>, m: int) {
    forall i :: 0 <= i < |conf| ==> conf[i] <= m
  }

  lemma AverageBounded(conf: seq<int>)
    ensures forall m :: AllAtMost(conf, m) && Average(KeptConfidences(conf)) != 0.0 ==>
      1.0 <= Average(KeptConfidences(conf)) <= m as real
  {
    forall m | AllAtMost(conf, m) && Average(KeptConfidences(conf)) != 0.0
      ensures 1.0 <= Average(KeptConfidences(conf)) <= m as real
    {
      AverageZeroIff(conf);
      assert KeptConfidences(conf) != [];
      AverageRange(conf, m);
    }
  }

  // ---------------------------------------------------------------- multi-page text

  /** The raw confidences of all pages, page after page. */
  function AllConfidences(pages: seq<ImageOcr>): seq<int> {
    if pages == [] then [] else AllConfidences(pages[..|pages| - 1]) + pages[|pages| - 1].conf
  }

  function Section(pageNumber: int, text: string): string {
    "--- Page " + IntToStr(pageNumber) + " ---\n" + Strip(text)
  }

  function Sections(pages: seq<ImageOcr>): seq<string> {
    if pages == [] then [] else Sections(pages[..|pages| - 1]) + [Section(|pages|, pages[|pages| - 1].text)]
  }

  /** The page loop of `ocr_pdf`: the sections joined by a blank line, and one mean over the confidences of every page. */
  method OcrPdf(pages: seq<ImageOcr>) returns (text: string, avg: real)
    ensures text == JoinStr(Sections(pages), "\n\n")
    ensures avg == Average(KeptConfidences(AllConfidences(pages)))
  {
    var allText: seq<string> := [];
    var allConfidences: seq<int> := [];
    for i := 0 to |pages|
      invariant allText == Sections(pages[..i])
      invariant allConfidences == KeptConfidences(AllConfidences(pages[..i]))
    {
      assert pages[..i + 1][..i] == pages[..i];
      KeptAppend(AllConfidences(pages[..i]), pages[i].conf);
      allConfidences := allConfidences + KeptConfidences(pages[i].conf);
      allText := allText + ["--- Page " + IntToStr(i + 1) + " ---\n" + Strip(pages[i].text)];
    }
    assert pages[..|pages|] == pages;
    text := JoinStr(allText, "\n\n");
    avg := if |allConfidences| > 0 then Sum(allConfidences) as real / |allConfidences| as real else 0.0;
  }

  /** One section per page, in page order, the k-th headed by its page number k + 1. */
  lemma {:induction false} SectionsShape(pages: seq<ImageOcr>)
    ensures |Sections(pages)| == |pages|
    ensures forall k :: 0 <= k < |pages| ==> Sections(pages)[k] == Section(k + 1, pages[k].text)
  {
    if pages != [] {
      var init := pages[..|pages| - 1];
      SectionsShape(init);
      var all, before := Sections(pages), Sections(init);
      var last := Section(|pages|, pages[|pages| - 1].text);
      assert all == before + [last];
      forall k | 0 <= k < |pages|
        ensures all[k] == Section(k + 1, pages[k].text)
      {
        if k < |init| {
          assert init[k] == pages[k];
          assert all[k] == before[k];
        } else {
          assert all[k] == last;
        }
      }
    }
  }

  /** Sections of different pages have different headers. */
  lemma SectionHeadersDiffer(j: int, k: int, a: string, b: string)
    requires j != k
    ensures Section(j, a) != Section(k, b)
  {
    if Section(j, a) == Section(k, b) {
      HeaderDigits(j, a, k, b);
    }
  }

  lemma HeaderDigits(j: int, a: string, k: int, b: string)
    requires Section(j, a) == Section(k, b)
    ensures j == k
  {
    var p := "--- Page ";
    var sj, sk := IntToStr(j), IntToStr(k);
    var tj, tk := " ---\n" + Strip(a), " ---\n" + Strip(b);
    SectionParts(j, a);
    SectionParts(k, b);
    CancelPrefix(p, sj + tj, sk + tk);
    NumberHasNoSpace(j);
    NumberHasNoSpace(k);
    DigitsBeforeSpace(sj, tj, sk, tk);
    IntToStrInjective(j, k);
  }

  lemma SectionParts(j: int, a: string)
    ensures Section(j, a) == "--- Page " + (IntToStr(j) + (" ---\n" + Strip(a)))
  {
  }

  lemma CancelPrefix(p: string, u: string, v: string)
    requires p + u == p + v
    ensures u == v
  {
    assert u == (p + u)[|p|..];
  }

  lemma NumberHasNoSpace(j: int)
    ensures forall i :: 0 <= i < |IntToStr(j)| ==> IntToStr(j)[i] != ' '
  {
  }

  /** Two digit strings each followed by a space-led text are equal when the whole strings are. */
  lemma DigitsBeforeSpace(d1: string, t1: string, d2: string, t2: string)
    requires forall i :: 0 <= i < |d1| ==> d1[i] != ' '
    requires forall i :: 0 <= i < |d2| ==> d2[i] != ' '
    requires t1 != [] && t1[0] == ' ' && t2 != [] && t2[0] == ' '
    requires d1 + t1 == d2 + t2
    ensures d1 == d2
  {
    var s := d1 + t1;
    SpaceAfter(d1, t1);
    SpaceAfter(d2, t2);
    assert d1 == s[..|d1|] == d2;
  }

  /** Where the first space of a string is (its length when it has none). */
  function FirstSpace(s: string): nat {
    if s == [] || s[0] == ' ' then 0 else 1 + FirstSpace(s[1..])
  }

  lemma {:induction false} SpaceAfter(d: string, t: string)
    requires forall i :: 0 <= i < |d| ==> d[i] != ' '
    requires t != [] && t[0] == ' '
    ensures FirstSpace(d + t) == |d|
  {
    if d != [] {
      assert (d + t)[1..] == d[1..] + t;
      SpaceAfter(d[1..], t);
    }
  }

  /** A one-page document reports what the image would. */
  lemma SinglePageAgrees(page: ImageOcr)
    ensures Average(KeptConfidences(AllConfidences([page]))) == OcrImage(page, "text").1
    ensures JoinStr(Sections([page]), "\n\n") == "--- Page 1 ---\n" + OcrImage(page, "text").0
  {
    SinglePage(page);
  }

  lemma SinglePage(page: ImageOcr)
    ensures AllConfidences([page]) == page.conf
    ensures JoinStr(Sections([page]), "\n\n") == "--- Page 1 ---\n" + Strip(page.text)
  {
    assert [page][..0] == [];
    assert Sections([page]) == [Section(1, page.text)];
    assert IntToStr(1) == "1";
  }

  /** Pooling: the confidences of each page count once, whichever page they came from. */
  lemma PooledConfidences(a: seq<ImageOcr>, b: seq<ImageOcr>)
    ensures KeptConfidences(AllConfidences(a + b)) == KeptConfidences(AllConfidences(a)) + KeptConfidences(AllConfidences(b))
  {
    AllConfidencesAppend(a, b);
    KeptAppend(AllConfidences(a), AllConfidences(b));
  }

  lemma {:induction false} AllConfidencesAppend(a: seq<ImageOcr>, b: seq<ImageOcr>)
    ensures AllConfidences(a + b) == AllConfidences(a) + AllConfidences(b)
    decreases |b|
  {
    if b == [] {
      assert a + b == a;
    } else {
      assert (a + b)[..|a + b| - 1] == a + b[..|b| - 1];
      AllConfidencesAppend(a, b[..|b| - 1]);
    }
  }

  // ---------------------------------------------------------------- tables

  /** A row of the engine's word table. */
  datatype OcrToken = OcrToken(text: string, lineNum: int, left: int, top: int, width: int)

  /** A kept word: its stripped text, its box, and the index of its row in the word table. */
  datatype Word = Word(text: string, left: int, top: int, width: int, index: nat)

  /** The words whose stripped text is not empty, with their line numbers, in table order. */
  function KeptWords(tokens: seq<OcrToken>): seq<(int, Word)> {
    if tokens == [] then []
    else
      var t := tokens[|tokens| - 1];
      var text := Strip(t.text);
      KeptWords(tokens[..|tokens| - 1]) +
        (if text != [] then [(t.lineNum, Word(text, t.left, t.top, t.width, |tokens| - 1))] else [])
  }

  /** A kept word has visible text, the stripped text and the line of its token; indexes increase. */
  lemma {:induction false} KeptWordsFacts(tokens: seq<OcrToken>)
    ensures var r := KeptWords(tokens);
      |r| <= |tokens| &&
      (forall k :: 0 <= k < |r| ==> (r[k].1.text != [] && r[k].1.index < |tokens| &&
        r[k].1.text == Strip(tokens[r[k].1.index].text) && r[k].0 == tokens[r[k].1.index].lineNum)) &&
      forall j, k :: 0 <= j < k < |r| ==> r[j].1.index < r[k].1.index
  {
    if tokens != [] {
      var init := tokens[..|tokens| - 1];
      KeptWordsFacts(init);
      var r, ri := KeptWords(tokens), KeptWords(init);
      forall k | 0 <= k < |ri|
        ensures r[k] == ri[k] && init[ri[k].1.index] == tokens[ri[k].1.index]
      {
      }
    }
  }

  /** Some kept word comes from token `i`. */
  predicate KeepsToken(kept: seq<(int, Word)>, i: int) {
    exists k :: 0 <= k < |kept| && kept[k].1.index == i
  }

  /** The last token adds at most one kept word, and only when its text is visible. */
  lemma KeptWordsSnoc(tokens: seq<OcrToken>)
    requires tokens != []
    ensures var kw, ki := KeptWords(tokens), KeptWords(tokens[..|tokens| - 1]);
      |ki| <= |kw| <= |ki| + 1 && kw[..|ki|] == ki &&
      (|kw| == |ki| + 1 <==> Strip(tokens[|tokens| - 1].text) != []) &&
      (|kw| == |ki| + 1 ==> kw[|ki|].1.index == |tokens| - 1)
  {
  }

  lemma KeepsTokenPrefix(ki: seq<(int, Word)>, kw: seq<(int, Word)>, i: int)
    requires |ki| <= |kw| && kw[..|ki|] == ki
    requires forall k :: |ki| <= k < |kw| ==> kw[k].1.index != i
    ensures KeepsToken(ki, i) <==> KeepsToken(kw, i)
  {
    if KeepsToken(ki, i) {
      var k :| 0 <= k < |ki| && ki[k].1.index == i;
      assert kw[k] == ki[k];
    }
    if KeepsToken(kw, i) {
      var k :| 0 <= k < |kw| && kw[k].1.index == i;
      assert ki[k] == kw[k];
    }
  }

  /** Every token with visible text is kept, and no other. */
  lemma {:induction false} KeptWordsComplete(tokens: seq<OcrToken>, i: nat)
    requires i < |tokens|
    ensures Strip(tokens[i].text) != [] <==> KeepsToken(KeptWords(tokens), i)
  {
    var init := tokens[..|tokens| - 1];
    var kw, ki := KeptWords(tokens), KeptWords(init);
    KeptWordsSnoc(tokens);
    if i < |tokens| - 1 {
      KeptWordsComplete(init, i);
      assert init[i] == tokens[i];
      KeepsTokenPrefix(ki, kw, i);
    } else if Strip(tokens[i].text) != [] {
      assert kw[|ki|].1.index == i;
    } else {
      KeptWordsFacts(init);
      KeepsTokenPrefix(ki, kw, i);
    }
  }

  function LineSet(kept: seq<(int, Word)>): set<int> {
    set k | 0 <= k < |kept| :: kept[k].0
  }

  /** The words of one line, in table order. */
  function OnLine(kept: seq<(int, Word)>, line: int): seq<Word> {
    if kept == [] then []
    else OnLine(kept[..|kept| - 1], line) + (if kept[|kept| - 1].0 == line then [kept[|kept| - 1].1] else [])
  }

  /** Exactly the words kept on `line`. */
  lemma {:induction false} OnLineMembers(kept: seq<(int, Word)>, line: int)
    ensures forall w :: w in OnLine(kept, line) <==> (line, w) in kept
  {
    if kept != [] {
      OnLineMembers(kept[..|kept| - 1], line);
      assert kept == kept[..|kept| - 1] + [kept[|kept| - 1]];
    }
  }

  lemma {:induction false} OnLineIndexesIncrease(kept: seq<(int, Word)>, line: int)
    requires forall j, k :: 0 <= j < k < |kept| ==> kept[j].1.index < kept[k].1.index
    ensures forall j, k :: 0 <= j < k < |OnLine(kept, line)| ==> OnLine(kept, line)[j].index < OnLine(kept, line)[k].index
  {
    if kept != [] {
      var init := kept[..|kept| - 1];
      OnLineIndexesIncrease(init, line);
      OnLineMembers(init, line);
      var last := kept[|kept| - 1];
      if last.0 == line {
        forall w | w in OnLine(init, line)
          ensures w.index < last.1.index
        {
          assert (line, w) in init;
        }
        var r := OnLine(kept, line);
        assert r == OnLine(init, line) + [last.1];
        forall j, k | 0 <= j < k < |r|
          ensures r[j].index < r[k].index
        {
          if k == |r| - 1 {
            assert r[j] in OnLine(init, line);
          }
        }
      }
    }
  }

  /** The grouping loop of `extract_tables_with_ocr`: kept words by line number, each line in table order. */
  method GroupLines(tokens: seq<OcrToken>) returns (lines: map<int, seq<Word>>)
    ensures Grouping(lines, KeptWords(tokens))
  {
    lines := map[];
    for i := 0 to |tokens|
      invariant Grouping(lines, KeptWords(tokens[..i]))
    {
      KeptWordsStep(tokens, i);
      ghost var before := KeptWords(tokens[..i]);
      var text := Strip(tokens[i].text);
      if text != [] {
        var lineNum := tokens[i].lineNum;
        var w := Word(text, tokens[i].left, tokens[i].top, tokens[i].width, i);
        GroupStep(lines, before, (lineNum, w));
        if lineNum !in lines {
          lines := lines[lineNum := []];
        }
        lines := lines[lineNum := lines[lineNum] + [w]];
      } else {
        assert KeptWords(tokens[..i + 1]) == before;
      }
    }
    assert tokens[..|tokens|] == tokens;
  }

  lemma KeptWordsStep(tokens: seq<OcrToken>, i: nat)
    requires i < |tokens|
    ensures var t, text := tokens[i], Strip(tokens[i].text);
      KeptWords(tokens[..i + 1]) == KeptWords(tokens[..i]) +
        (if text != [] then [(t.lineNum, Word(text, t.left, t.top, t.width, i))] else [])
  {
    assert tokens[..i + 1][..i] == tokens[..i];
  }

  /** `lines` maps each line of the kept words to its words, in table order. */
  predicate Grouping(lines: map<int, seq<Word>>, kept: seq<(int, Word)>) {
    lines.Keys == LineSet(kept) && forall line :: line in lines ==> lines[line] == OnLine(kept, line)
  }

  lemma GroupStep(lines: map<int, seq<Word>>, kept: seq<(int, Word)>, e: (int, Word))
    requires Grouping(lines, kept)
    ensures Grouping(lines[e.0 := (if e.0 in lines then lines[e.0] else []) + [e.1]], kept + [e])
  {
    if e.0 !in lines && OnLine(kept, e.0) != [] {
      OnLineInLineSet(kept, e.0);
    }
    LineSetSnoc(kept, e);
    OnLineSnoc(kept, e);
  }

  lemma OnLineInLineSet(kept: seq<(int, Word)>, line: int)
    requires OnLine(kept, line) != []
    ensures line in LineSet(kept)
  {
    var w := OnLine(kept, line)[0];
    OnLineMembers(kept, line);
    assert w in OnLine(kept, line);
    var k :| 0 <= k < |kept| && kept[k] == (line, w);
  }

  lemma LineSetSnoc(kept: seq<(int, Word)>, e: (int, Word))
    ensures LineSet(kept + [e]) == LineSet(kept) + {e.0}
  {
    var s := kept + [e];
    forall x | x in LineSet(kept)
      ensures x in LineSet(s)
    {
      var k :| 0 <= k < |kept| && kept[k].0 == x;
      assert s[k] == kept[k];
    }
    assert s[|kept|] == e;
  }

  lemma OnLineSnoc(kept: seq<(int, Word)>, e: (int, Word))
    ensures forall line :: OnLine(kept + [e], line) == OnLine(kept, line) + (if e.0 == line then [e.1] else [])
  {
    assert (kept + [e])[..|kept|] == kept;
  }

  // ---- ordering within a row

  /** Left to right; words at the same `left` stay in table order. */
  predicate ByLeft(ws: seq<Word>) {
    forall j, k :: 0 <= j < k < |ws| ==> Precedes(ws[j], ws[k])
  }

  /** `a` comes before `b` in a row: further left, or at the same `left` and earlier in the table. */
  predicate Precedes(a: Word, b: Word) {
    a.left < b.left || (a.left == b.left && a.index < b.index)
  }

  /** `x` placed after every word whose `left` is not greater than its own. */
  function InsertByLeft(x: Word, ws: seq<Word>): (r: seq<Word>)
    ensures multiset(r) == multiset(ws) + multiset{x}
  {
    if ws == [] then [x]
    else if x.left < ws[0].left then [x] + ws
    else assert ws == [ws[0]] + ws[1..]; [ws[0]] + InsertByLeft(x, ws[1..])
  }

  /** `sorted(words, key=lambda w: w['left'])` — a stable sort by `left`. */
  function SortByLeft(ws: seq<Word>): (r: seq<Word>)
    ensures multiset(r) == multiset(ws)
  {
    if ws == [] then []
    else
      assert ws == ws[..|ws| - 1] + [ws[|ws| - 1]];
      InsertByLeft(ws[|ws| - 1], SortByLeft(ws[..|ws| - 1]))
  }

  lemma {:induction false} InsertByLeftMembers(x: Word, ws: seq<Word>)
    ensures forall w :: w in InsertByLeft(x, ws) ==> w == x || w in ws
  {
    if ws != [] && x.left >= ws[0].left {
      InsertByLeftMembers(x, ws[1..]);
    }
  }

  lemma ConsByLeft(a: Word, t: seq<Word>)
    requires ByLeft(t)
    requires forall w :: w in t ==> Precedes(a, w)
    ensures ByLeft([a] + t)
  {
    var r := [a] + t;
    forall j, k | 0 <= j < k < |r|
      ensures Precedes(r[j], r[k])
    {
      assert r[k] == t[k - 1];
      if j > 0 {
        assert r[j] == t[j - 1];
      }
    }
  }

  lemma {:induction false} InsertByLeftSorted(x: Word, ws: seq<Word>)
    requires ByLeft(ws)
    requires forall w :: w in ws ==> w.index < x.index
    ensures ByLeft(InsertByLeft(x, ws))
  {
    if ws != [] && x.left >= ws[0].left {
      var tail := ws[1..];
      assert forall w :: w in tail ==> w in ws;
      InsertByLeftSorted(x, tail);
      InsertByLeftMembers(x, tail);
      forall w | w in tail
        ensures Precedes(ws[0], w)
      {
        var i :| 0 <= i < |tail| && tail[i] == w;
        assert ws[i + 1] == w;
      }
      ConsByLeft(ws[0], InsertByLeft(x, tail));
    }
  }

  /** Words given in table order come out sorted by `left`, ties in table order, and nothing is lost or added. */
  lemma {:induction false} SortByLeftSorted(ws: seq<Word>)
    requires forall j, k :: 0 <= j < k < |ws| ==> ws[j].index < ws[k].index
    ensures ByLeft(SortByLeft(ws))
    ensures multiset(SortByLeft(ws)) == multiset(ws)
  {
    if ws != [] {
      var init := ws[..|ws| - 1];
      var x := ws[|ws| - 1];
      SortByLeftSorted(init);
      forall w | w in SortByLeft(init)
        ensures w.index < x.index
      {
        assert w in multiset(init);
      }
      InsertByLeftSorted(x, SortByLeft(init));
    }
  }

  // ---- the table

  /** The lines in increasing order, each once. */
  ghost function SortedKeys(s: set<int>): (r: seq<int>)
    ensures |r| == |s|
    decreases |s|
  {
    if s == {} then []
    else
      var m := SetMin(s);
      [m] + SortedKeys(s - {m})
  }

  ghost function SetMin(s: set<int>): (m: int)
    requires s != {}
    ensures m in s && forall x :: x in s ==> m <= x
    decreases |s|
  {
    NonEmpty(s);
    var x :| x in s;
    if s == {x} then x
    else
      var r := SetMin(s - {x});
      assert forall y :: y in s ==> y == x || y in s - {x};
      if x < r then x else r
  }

  lemma NonEmpty(s: set<int>)
    requires s != {}
    ensures exists x :: x in s
  {
    assert (forall x :: x !in s) ==> s == {};
  }

  lemma {:induction false} SortedKeysFacts(s: set<int>)
    ensures forall j, k :: 0 <= j < k < |SortedKeys(s)| ==> SortedKeys(s)[j] < SortedKeys(s)[k]
    ensures forall x :: x in SortedKeys(s) <==> x in s
    decreases |s|
  {
    if s != {} {
      var m := SetMin(s);
      var r := SortedKeys(s - {m});
      SortedKeysFacts(s - {m});
      assert SortedKeys(s) == [m] + r;
      assert forall x :: x in r ==> m < x;
      assert forall k :: 0 <= k < |r| ==> r[k] in r;
      assert forall x :: x in s ==> x == m || x in s - {m};
    }
  }

  lemma SortedKeysStep(done: seq<int>, s: set<int>, m: int)
    requires s != {} && m == SetMin(s)
    ensures done + SortedKeys(s) == (done + [m]) + SortedKeys(s - {m})
  {
    var later := SortedKeys(s - {m});
    assert SortedKeys(s) == [m] + later;
    assert done + ([m] + later) == (done + [m]) + later;
  }

  lemma LineSetEmpty(kept: seq<(int, Word)>)
    ensures LineSet(kept) == {} <==> kept == []
  {
    if kept != [] {
      assert kept[0].0 in LineSet(kept);
    }
  }

  /** The smallest element of a non-empty set. */
  method Smallest(s: set<int>) returns (m: int)
    requires s != {}
    ensures m == SetMin(s)
  {
    NonEmpty(s);
    m :| m in s;
    var rest := s - {m};
    while rest != {}
      invariant rest <= s && m in s
      invariant forall y :: y in s && y !in rest ==> m <= y
      decreases |rest|
    {
      NonEmpty(rest);
      var y :| y in rest;
      if y < m {
        m := y;
      }
      rest := rest - {y};
    }
    assert SetMin(s) <= m && m <= SetMin(s);
  }

  function Texts(ws: seq<Word>): (r: seq<string>)
    ensures |r| == |ws| && forall k :: 0 <= k < |ws| ==> r[k] == ws[k].text
  {
    if ws == [] then [] else Texts(ws[..|ws| - 1]) + [ws[|ws| - 1].text]
  }

  /** The row of one line: its words' texts, left to right. */
  function Row(kept: seq<(int, Word)>, line: int): seq<string> {
    Texts(SortByLeft(OnLine(kept, line)))
  }

  /** The rows of the given lines, in that order. */
  function Rows(rowOf: int -> seq<string>, lines: seq<int>): seq<seq<string>> {
    if lines == [] then [] else Rows(rowOf, lines[..|lines| - 1]) + [rowOf(lines[|lines| - 1])]
  }

  lemma RowsSnoc(rowOf: int -> seq<string>, lines: seq<int>, line: int)
    ensures Rows(rowOf, lines + [line]) == Rows(rowOf, lines) + [rowOf(line)]
  {
    assert (lines + [line])[..|lines|] == lines;
  }

  /** One row per line, the k-th being the row of the k-th line. */
  lemma {:induction false} RowsShape(rowOf: int -> seq<string>, lines: seq<int>)
    ensures |Rows(rowOf, lines)| == |lines|
    ensures forall k :: 0 <= k < |lines| ==> Rows(rowOf, lines)[k] == rowOf(lines[k])
  {
    if lines != [] {
      var init := lines[..|lines| - 1];
      RowsShape(rowOf, init);
      assert forall k :: 0 <= k < |init| ==> init[k] == lines[k];
    }
  }

  /** The row of each line of `kept`. */
  function RowOf(kept: seq<(int, Word)>): int -> seq<string> {
    line => Row(kept, line)
  }

  /** The table `extract_tables_with_ocr` builds: the rows of the lines in increasing order. */
  ghost function Table(tokens: seq<OcrToken>): seq<seq<string>> {
    var kept := KeptWords(tokens);
    Rows(RowOf(kept), SortedKeys(LineSet(kept)))
  }

  /** The row loop of `extract_tables_with_ocr`: the rows of the grouped lines in increasing line order. */
  method BuildTable(lines: map<int, seq<Word>>, ghost kept: seq<(int, Word)>) returns (table: seq<seq<string>>)
    requires Grouping(lines, kept)
    ensures table == Rows(RowOf(kept), SortedKeys(lines.Keys))
  {
    table := [];
    var rest := lines.Keys;
    ghost var done: seq<int> := [];
    while rest != {}
      invariant rest <= lines.Keys
      invariant done + SortedKeys(rest) == SortedKeys(lines.Keys)
      invariant table == Rows(RowOf(kept), done)
      decreases |rest|
    {
      var lineNum := Smallest(rest);
      SortedKeysStep(done, rest, lineNum);
      RowsSnoc(RowOf(kept), done, lineNum);
      assert RowOf(kept)(lineNum) == Texts(SortByLeft(lines[lineNum]));
      table := table + [Texts(SortByLeft(lines[lineNum]))];
      done := done + [lineNum];
      rest := rest - {lineNum};
    }
    assert done == SortedKeys(lines.Keys);
  }

  /** `extract_tables_with_ocr`: one table of one row per line number, in increasing line order, or none. */
  method ExtractTablesWithOcr(tokens: seq<OcrToken>) returns (tables: seq<seq<seq<string>>>)
    ensures tables == (if KeptWords(tokens) == [] then [] else [Table(tokens)])
  {
    ghost var kept := KeptWords(tokens);
    var lines := GroupLines(tokens);
    var table := BuildTable(lines, kept);
    LineSetEmpty(kept);
    RowsShape(RowOf(kept), SortedKeys(lines.Keys));
    tables := if table != [] then [table] else [];
  }

  /**
   * The table has one row per line number of a kept word, in strictly
   * increasing line order, each row the texts of that line's words sorted
   * left to right.
   */
  lemma TableShape(tokens: seq<OcrToken>)
    ensures var kept := KeptWords(tokens);
      var keys := SortedKeys(LineSet(kept));
      |Table(tokens)| == |keys| == |LineSet(kept)| &&
      (forall j, k :: 0 <= j < k < |keys| ==> keys[j] < keys[k]) &&
      (forall x :: x in keys <==> x in LineSet(kept)) &&
      forall r :: 0 <= r < |keys| ==> Table(tokens)[r] == Texts(SortByLeft(OnLine(kept, keys[r])))
  {
    var kept := KeptWords(tokens);
    SortedKeysFacts(LineSet(kept));
    RowsShape(RowOf(kept), SortedKeys(LineSet(kept)));
  }

  /** Each row lists the words of its line from left to right, ties in table order, none lost or added. */
  lemma RowOrder(tokens: seq<OcrToken>, line: int)
    ensures var words := OnLine(KeptWords(tokens), line);
      ByLeft(SortByLeft(words)) && multiset(SortByLeft(words)) == multiset(words)
  {
    KeptWordsFacts(tokens);
    OnLineIndexesIncrease(KeptWords(tokens), line);
    SortByLeftSorted(OnLine(KeptWords(tokens), line));
  }

  /** A kept word appears in the row of its own line and in no other. */
  lemma WordInOneRow(tokens: seq<OcrToken>, k: int, line: int)
    requires 0 <= k < |KeptWords(tokens)|
    ensures var kept := KeptWords(tokens);
      kept[k].1 in SortByLeft(OnLine(kept, line)) <==> line == kept[k].0
  {
    var kept := KeptWords(tokens);
    KeptWordsFacts(tokens);
    var w := kept[k].1;
    var rowWords := OnLine(kept, line);
    OnLineMembers(kept, line);
    RowOrder(tokens, line);
    assert w in SortByLeft(rowWords) <==> w in multiset(rowWords);
    if w in rowWords {
      var j :| 0 <= j < |kept| && kept[j] == (line, w);
      assert kept[j].1.index == kept[k].1.index;
      assert j == k;
    }
    assert line == kept[k].0 ==> (line, w) in kept;
  }
}
