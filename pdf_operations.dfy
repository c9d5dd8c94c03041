/**
 * The page-sequence operations on PDF files: merge, split, reorder,
 * rotate, crop, page numbering, password protection and the compression
 * level switch. A document is the sequence of its pages as the PDF reader
 * yields them; the writer collects the pages of one output file.
 */
module PdfOperations {
  import opened Wrappers
  import opened PyBuiltins
  import FileUtil

  /** A crop box: lower-left and upper-right corners in PDF points. */
  datatype CropBox = CropBox(left: real, bottom: real, right: real, top: real)

  /** What happens to an overlay merged onto a page. */
  datatype Overlay =
    | Stamp(text: string, position: string, fontSize: int)
    | Blank

  /**
   * A page as the PDF library holds it: an opaque source page together
   * with the edits this module applies to it (the angle added to its
   * rotation, its crop box, the overlays merged onto it).
   */
  datatype Page = Page(source: int, rotation: int, cropBox: Option<CropBox>, overlays: seq<Overlay>)

  /** `page.rotate(angle)`: the angle is added to the page's rotation. */
  function Rotated(p: Page, angle: int): Page {
    p.(rotation := p.rotation + angle)
  }

  /** Setting both corners of the page's crop box. */
  function Cropped(p: Page, box: CropBox): Page {
    p.(cropBox := Some(box))
  }

  /** `page.merge_page(overlay)`. */
  function Merged(p: Page, o: Overlay): Page {
    p.(overlays := p.overlays + [o])
  }

  /** The pages collected for one output file. */
  class PdfWriter {
    var pages: seq<Page>

    constructor ()
      ensures pages == []
    {
      pages := [];
    }

    method AddPage(p: Page)
      modifies this
      ensures pages == old(pages) + [p]
    {
      pages := pages + [p];
    }
  }

  // ---------------------------------------------------------------- merge

  /** All pages of all documents, document by document. */
  function Concat(docs: seq<seq<Page>>): seq<Page> {
    if docs == [] then [] else Concat(docs[..|docs| - 1]) + docs[|docs| - 1]
  }

  /** `merge_pdfs`: the pages of every input, in input order. */
  method MergePdfs(docs: seq<seq<Page>>) returns (merged: seq<Page>)
    ensures merged == Concat(docs)
  {
    var writer := new PdfWriter();
    for i := 0 to |docs|
      invariant writer.pages == Concat(docs[..i])
    {
      var doc := docs[i];
      for j := 0 to |doc|
        invariant writer.pages == Concat(docs[..i]) + doc[..j]
      {
        writer.AddPage(doc[j]);
        assert doc[..j + 1] == doc[..j] + [doc[j]];
      }
      assert docs[..i + 1][..i] == docs[..i];
      assert doc[..|doc|] == doc;
    }
    assert docs[..|docs|] == docs;
    merged := writer.pages;
  }

  /** The page count of a merge is the sum of the inputs' page counts. */
  function TotalPages(docs: seq<seq<Page>>): nat {
    if docs == [] then 0 else TotalPages(docs[..|docs| - 1]) + |docs[|docs| - 1]|
  }

  lemma {:induction false} ConcatLength(docs: seq<seq<Page>>)
    ensures |Concat(docs)| == TotalPages(docs)
  {
    if docs != [] {
      ConcatLength(docs[..|docs| - 1]);
    }
  }

  /** The merged pages of the first `k` documents come first, unchanged. */
  lemma {:induction false} ConcatPrefix(docs: seq<seq<Page>>, k: nat)
    requires k <= |docs|
    ensures Concat(docs[..k]) <= Concat(docs)
    decreases |docs| - k
  {
    if k < |docs| {
      ConcatPrefix(docs, k + 1);
      assert docs[..k + 1][..k] == docs[..k];
    } else {
      assert docs[..k] == docs;
    }
  }

  /** Page `j` of document `k` sits at the offset of the pages before document `k`. */
  lemma ConcatAt(docs: seq<seq<Page>>, k: nat, j: nat)
    requires k < |docs| && j < |docs[k]|
    ensures |Concat(docs[..k])| + j < |Concat(docs)|
    ensures Concat(docs)[|Concat(docs[..k])| + j] == docs[k][j]
  {
    ConcatPrefix(docs, k + 1);
    assert docs[..k + 1][..k] == docs[..k];
    assert Concat(docs[..k + 1]) == Concat(docs[..k]) + docs[k];
  }

  // ---------------------------------------------------------------- selection by page number

  /** The pages named by 1-based numbers, in the given order, skipping numbers outside 1..|doc|. */
  function SelectPages(doc: seq<Page>, nums: seq<int>): seq<Page> {
    if nums == [] then []
    else
      var last := nums[|nums| - 1];
      SelectPages(doc, nums[..|nums| - 1]) + (if 1 <= last <= |doc| then [doc[last - 1]] else [])
  }

  /** How many of the numbers name a page. */
  function InRangeCount(nums: seq<int>, n: nat): nat {
    if nums == [] then 0
    else InRangeCount(nums[..|nums| - 1], n) + (if 1 <= nums[|nums| - 1] <= n then 1 else 0)
  }

  lemma {:induction false} SelectPagesLength(doc: seq<Page>, nums: seq<int>)
    ensures |SelectPages(doc, nums)| == InRangeCount(nums, |doc|)
  {
    if nums != [] {
      SelectPagesLength(doc, nums[..|nums| - 1]);
    }
  }

  lemma {:induction false} SelectPagesAppend(doc: seq<Page>, a: seq<int>, b: seq<int>)
    ensures SelectPages(doc, a + b) == SelectPages(doc, a) + SelectPages(doc, b)
    decreases |b|
  {
    if b == [] {
      assert a + b == a;
    } else {
      assert (a + b)[..|a + b| - 1] == a + b[..|b| - 1];
      SelectPagesAppend(doc, a, b[..|b| - 1]);
    }
  }

  /** The numbers `lo`, `lo + 1`, ..., `hi - 1`. */
  function Range(lo: int, hi: int): (r: seq<int>)
    ensures |r| == if lo <= hi then hi - lo else 0
    ensures forall i :: 0 <= i < |r| ==> r[i] == lo + i
    decreases hi - lo
  {
    if lo >= hi then [] else Range(lo, hi - 1) + [hi - 1]
  }

  /** Selecting every page number in order gives the document back. */
  lemma {:induction false} SelectAllPages(doc: seq<Page>, k: nat)
    requires k <= |doc|
    ensures SelectPages(doc, Range(1, k + 1)) == doc[..k]
  {
    if k > 0 {
      SelectAllPages(doc, k - 1);
      var r := Range(1, k + 1);
      assert r[..|r| - 1] == Range(1, k);
      assert doc[..k] == doc[..k - 1] + [doc[k - 1]];
    }
  }

  function MapPages(doc: seq<Page>, nums: seq<int>): seq<Page>
    requires forall i :: 0 <= i < |nums| ==> 1 <= nums[i] <= |doc|
  {
    seq(|nums|, i requires 0 <= i < |nums| => doc[nums[i] - 1])
  }

  lemma {:induction false} SelectInRange(doc: seq<Page>, nums: seq<int>)
    requires forall i :: 0 <= i < |nums| ==> 1 <= nums[i] <= |doc|
    ensures SelectPages(doc, nums) == MapPages(doc, nums)
  {
    if nums != [] {
      var init := nums[..|nums| - 1];
      SelectInRange(doc, init);
      var m := MapPages(doc, nums);
      assert m == MapPages(doc, init) + [doc[nums[|nums| - 1] - 1]] by {
        assert |m| == |init| + 1;
        assert forall i :: 0 <= i < |init| ==> m[i] == MapPages(doc, init)[i];
      }
    }
  }

  lemma MultisetRemoveAt<T>(b: seq<T>, k: nat)
    requires k < |b|
    ensures multiset(b[..k] + b[k + 1..]) == multiset(b) - multiset{b[k]}
  {
    assert b == b[..k] + [b[k]] + b[k + 1..];
  }

  lemma InRangeByMultiset(doc: seq<Page>, a: seq<int>, b: seq<int>)
    requires forall i :: 0 <= i < |a| ==> 1 <= a[i] <= |doc|
    requires multiset(a) == multiset(b)
    ensures forall i :: 0 <= i < |b| ==> 1 <= b[i] <= |doc|
  {
    forall i | 0 <= i < |b| ensures 1 <= b[i] <= |doc| {
      assert b[i] in multiset(a);
      var j :| 0 <= j < |a| && a[j] == b[i];
    }
  }

  /** The multiset of selected pages depends only on the multiset of the numbers. */
  lemma MapPagesMultiset(doc: seq<Page>, a: seq<int>, b: seq<int>)
    requires forall i :: 0 <= i < |a| ==> 1 <= a[i] <= |doc|
    requires multiset(a) == multiset(b)
    ensures forall i :: 0 <= i < |b| ==> 1 <= b[i] <= |doc|
    ensures multiset(MapPages(doc, a)) == multiset(MapPages(doc, b))
  {
    InRangeByMultiset(doc, a, b);
    if doc != [] {
      var f := (k: int) => if 1 <= k <= |doc| then doc[k - 1] else doc[0];
      MapSeqMultiset(f, a, b);
      assert MapPages(doc, a) == MapSeq(f, a);
      assert MapPages(doc, b) == MapSeq(f, b);
    }
  }

  function MapSeq<T, U>(f: T -> U, s: seq<T>): (r: seq<U>)
    ensures |r| == |s| && forall i :: 0 <= i < |s| ==> r[i] == f(s[i])
  {
    seq(|s|, i requires 0 <= i < |s| => f(s[i]))
  }

  lemma MapSeqRemoveAt<T, U>(f: T -> U, s: seq<T>, k: nat)
    requires k < |s|
    ensures multiset(MapSeq(f, s)) == multiset(MapSeq(f, s[..k] + s[k + 1..])) + multiset{f(s[k])}
  {
    var m := MapSeq(f, s);
    assert m == m[..k] + [m[k]] + m[k + 1..];
    assert MapSeq(f, s[..k] + s[k + 1..]) == m[..k] + m[k + 1..];
  }

  /** Mapping a function over two orderings of the same elements gives two orderings of the same images. */
  lemma {:induction false} MapSeqMultiset<T, U>(f: T -> U, a: seq<T>, b: seq<T>)
    requires multiset(a) == multiset(b)
    ensures multiset(MapSeq(f, a)) == multiset(MapSeq(f, b))
    decreases |a|
  {
    if a != [] {
      var n := |a| - 1;
      assert a[n] in multiset(b);
      var k :| 0 <= k < |b| && b[k] == a[n];
      MultisetRemoveAt(a, n);
      MultisetRemoveAt(b, k);
      MapSeqMultiset(f, a[..n] + a[n + 1..], b[..k] + b[k + 1..]);
      MapSeqRemoveAt(f, a, n);
      MapSeqRemoveAt(f, b, k);
    } else {
      assert b == [];
    }
  }

  // ---------------------------------------------------------------- reorder

  /** `reorder_pages`: the pages named by `newOrder`, in that order; numbers outside 1..|doc| are skipped. */
  method ReorderPages(doc: seq<Page>, newOrder: seq<int>) returns (out: seq<Page>)
    ensures out == SelectPages(doc, newOrder)
  {
    var writer := new PdfWriter();
    for i := 0 to |newOrder|
      invariant writer.pages == SelectPages(doc, newOrder[..i])
    {
      var pageNum := newOrder[i];
      assert newOrder[..i + 1][..i] == newOrder[..i];
      if 1 <= pageNum <= |doc| {
        writer.AddPage(doc[pageNum - 1]);
      }
    }
    assert newOrder[..|newOrder|] == newOrder;
    out := writer.pages;
  }

  /** Reordering by a permutation of 1..n loses and duplicates no page. */
  lemma ReorderByPermutation(doc: seq<Page>, newOrder: seq<int>)
    requires multiset(newOrder) == multiset(Range(1, |doc| + 1))
    ensures |SelectPages(doc, newOrder)| == |doc|
    ensures multiset(SelectPages(doc, newOrder)) == multiset(doc)
  {
    var r := Range(1, |doc| + 1);
    SelectAllPages(doc, |doc|);
    assert doc[..|doc|] == doc;
    SelectInRange(doc, r);
    assert MapPages(doc, r) == doc;
    MapPagesMultiset(doc, r, newOrder);
    SelectInRange(doc, newOrder);
    assert |newOrder| == |multiset(newOrder)| == |r|;
  }

  // ---------------------------------------------------------------- split

  /** One file written by `split_pdf`. */
  datatype OutFile = OutFile(path: string, pages: seq<Page>)

  datatype PdfError = IndexError

  /** `reader.pages[i]` for `i` in `lo..hi-1`, with Python's negative indices; `IndexError` if one is out of range. */
  function PagesInRange(doc: seq<Page>, lo: int, hi: int): Result<seq<Page>, PdfError>
    decreases hi - lo
  {
    if lo >= hi then Ok([])
    else
      var before := PagesInRange(doc, lo, hi - 1);
      var page := PyIndex(doc, hi - 1);
      if before.Err? then before
      else if page.None? then Err(IndexError)
      else Ok(before.value + [page.value])
  }

  /** A range of non-negative indices is the slice of the document. */
  lemma {:induction false} PagesInRangeSlice(doc: seq<Page>, lo: nat, hi: int)
    requires hi <= |doc|
    ensures PagesInRange(doc, lo, hi) == Ok(if lo < hi then doc[lo..hi] else [])
    decreases hi - lo
  {
    if lo < hi {
      PagesInRangeSlice(doc, lo, hi - 1);
      assert PyIndex(doc, hi - 1) == Some(doc[hi - 1]);
      if lo < hi - 1 {
        assert doc[lo..hi] == doc[lo..hi - 1] + [doc[hi - 1]];
      } else {
        assert PagesInRange(doc, lo, hi - 1) == Ok([]);
        assert doc[lo..hi] == [] + [doc[hi - 1]];
      }
    }
  }

  /** A range starting before `-|doc|` raises `IndexError`; one starting at or after it does not. */
  lemma {:induction false} PagesInRangeError(doc: seq<Page>, lo: int, hi: int)
    requires lo < hi <= |doc|
    ensures PagesInRange(doc, lo, hi).Err? <==> lo < -|doc|
    decreases hi - lo
  {
    if lo < hi - 1 {
      PagesInRangeError(doc, lo, hi - 1);
    }
  }

  function PagePath(outputDir: string, base: string, k: int): string {
    outputDir + "/" + base + "_page_" + IntToStr(k) + ".pdf"
  }

  function RangePath(outputDir: string, base: string, startPage: int, endPage: int): string {
    outputDir + "/" + base + "_pages_" + IntToStr(startPage) + "-" + IntToStr(endPage) + ".pdf"
  }

  /** The page numbers in an extract file name: the first five joined by `_`, then `_etc` if there are more. */
  function ExtractTag(pages: seq<int>): string {
    JoinStr(NumberStrs(Take(pages, 5)), "_") + (if |pages| > 5 then "_etc" else "")
  }

  function NumberStrs(nums: seq<int>): seq<string> {
    seq(|nums|, i requires 0 <= i < |nums| => IntToStr(nums[i]))
  }

  function ExtractPath(outputDir: string, base: string, pages: seq<int>): string {
    outputDir + "/" + base + "_extracted_" + ExtractTag(pages) + ".pdf"
  }

  /** One file per page, named after the page's 1-based number. */
  function SplitAll(doc: seq<Page>, outputDir: string, base: string): seq<OutFile> {
    seq(|doc|, i requires 0 <= i < |doc| => OutFile(PagePath(outputDir, base, i + 1), [doc[i]]))
  }

  /** What `split_pdf` writes, by mode; `[]` for any other mode or a missing (falsy) parameter. */
  function SplitSpec(pdfPath: string, outputDir: string, mode: string, startPage: Option<int>,
                     endPage: Option<int>, pages: Option<seq<int>>, doc: seq<Page>): Result<seq<OutFile>, PdfError>
  {
    var base := FileUtil.Stem(pdfPath);
    if mode == "all" then Ok(SplitAll(doc, outputDir, base))
    else if mode == "range" && IntTruthy(startPage) && IntTruthy(endPage) then
      var s, e := startPage.value, endPage.value;
      match PagesInRange(doc, s - 1, if e < |doc| then e else |doc|)
      case Err(err) => Err(err)
      case Ok(ps) => Ok([OutFile(RangePath(outputDir, base, s, e), ps)])
    else if mode == "extract" && pages.Some? && pages.value != [] then
      Ok([OutFile(ExtractPath(outputDir, base, pages.value), SelectPages(doc, pages.value))])
    else Ok([])
  }

  /** `split_pdf`. */
  method SplitPdf(pdfPath: string, outputDir: string, mode: string, startPage: Option<int>,
                  endPage: Option<int>, pages: Option<seq<int>>, doc: seq<Page>)
    returns (r: Result<seq<OutFile>, PdfError>)
    ensures r == SplitSpec(pdfPath, outputDir, mode, startPage, endPage, pages, doc)
  {
    var totalPages := |doc|;
    var outputPaths: seq<OutFile> := [];
    var base := FileUtil.Stem(pdfPath);
    if mode == "all" {
      outputPaths := SplitEach(doc, outputDir, base);
    } else if mode == "range" && IntTruthy(startPage) && IntTruthy(endPage) {
      var s, e := startPage.value, endPage.value;
      var collected := CollectRange(doc, s - 1, if e < totalPages then e else totalPages);
      if collected.Err? {
        SplitRangeFailure(pdfPath, outputDir, s, e, pages, doc);
        return Err(IndexError);
      }
      outputPaths := [OutFile(RangePath(outputDir, base, s, e), collected.value)];
    } else if mode == "extract" && pages.Some? && pages.value != [] {
      var nums := pages.value;
      var chosen := CollectListed(doc, nums);
      outputPaths := [OutFile(ExtractPath(outputDir, base, nums), chosen)];
    }
    return Ok(outputPaths);
  }

  /** Mode "all": a writer per page, each saved under the page's number. */
  method SplitEach(doc: seq<Page>, outputDir: string, base: string) returns (outputPaths: seq<OutFile>)
    ensures outputPaths == SplitAll(doc, outputDir, base)
  {
    outputPaths := [];
    for i := 0 to |doc|
      invariant outputPaths == SplitAll(doc[..i], outputDir, base)
    {
      var writer := new PdfWriter();
      writer.AddPage(doc[i]);
      assert writer.pages == [doc[i]];
      outputPaths := outputPaths + [OutFile(PagePath(outputDir, base, i + 1), writer.pages)];
      SplitAllSnoc(doc, outputDir, base, i);
    }
    assert doc[..|doc|] == doc;
  }

  /** Mode "range": `reader.pages[i]` for `i` from `lo` up to `hi - 1`, stopping at the first `IndexError`. */
  method CollectRange(doc: seq<Page>, lo: int, hi: int) returns (r: Result<seq<Page>, PdfError>)
    ensures r == PagesInRange(doc, lo, hi)
  {
    ghost var top := if hi < lo then lo else hi;
    var writer := new PdfWriter();
    var i := lo;
    while i < hi
      invariant lo <= i <= top
      invariant PagesInRange(doc, lo, i) == Ok(writer.pages)
      decreases hi - i
    {
      var page := PyIndex(doc, i);
      if page.None? {
        PagesInRangeFails(doc, lo, i, hi);
        return Err(IndexError);
      }
      writer.AddPage(page.value);
      i := i + 1;
    }
    return Ok(writer.pages);
  }

  /** Mode "extract": the listed pages in list order, numbers outside the document skipped. */
  method CollectListed(doc: seq<Page>, nums: seq<int>) returns (chosen: seq<Page>)
    ensures chosen == SelectPages(doc, nums)
  {
    var writer := new PdfWriter();
    for k := 0 to |nums|
      invariant writer.pages == SelectPages(doc, nums[..k])
    {
      var pageNum := nums[k];
      assert nums[..k + 1][..k] == nums[..k];
      if 1 <= pageNum <= |doc| {
        writer.AddPage(doc[pageNum - 1]);
      }
    }
    assert nums[..|nums|] == nums;
    chosen := writer.pages;
  }

  lemma SplitAllSnoc(doc: seq<Page>, outputDir: string, base: string, i: nat)
    requires i < |doc|
    ensures SplitAll(doc[..i + 1], outputDir, base)
      == SplitAll(doc[..i], outputDir, base) + [OutFile(PagePath(outputDir, base, i + 1), [doc[i]])]
  {
    var l := SplitAll(doc[..i + 1], outputDir, base);
    var r := SplitAll(doc[..i], outputDir, base) + [OutFile(PagePath(outputDir, base, i + 1), [doc[i]])];
    assert |l| == |r|;
    forall k | 0 <= k < |l| ensures l[k] == r[k] {
      if k < i {
        assert doc[..i + 1][k] == doc[..i][k];
      }
    }
  }

  lemma SplitRangeFailure(pdfPath: string, outputDir: string, s: int, e: int, pages: Option<seq<int>>, doc: seq<Page>)
    requires s != 0 && e != 0
    requires PagesInRange(doc, s - 1, if e < |doc| then e else |doc|).Err?
    ensures SplitSpec(pdfPath, outputDir, "range", Some(s), Some(e), pages, doc) == Err(IndexError)
  {
    assert "range" != "all";
    var r := PagesInRange(doc, s - 1, if e < |doc| then e else |doc|);
    assert r.error == IndexError;
    assert SplitSpec(pdfPath, outputDir, "range", Some(s), Some(e), pages, doc).Err?;
  }

  /** Once one index of a range fails, the whole range fails. */
  lemma {:induction false} PagesInRangeFails(doc: seq<Page>, lo: int, i: int, hi: int)
    requires lo <= i < hi && PagesInRange(doc, lo, i).Ok? && PyIndex(doc, i).None?
    ensures PagesInRange(doc, lo, hi) == Err(IndexError)
    decreases hi - i
  {
    if i + 1 < hi {
      PagesInRangeFails(doc, lo, i, hi - 1);
    }
  }

  /** Mode "all": one single-page file per page, in page order, each page under its own name. */
  lemma SplitAllFiles(pdfPath: string, outputDir: string, startPage: Option<int>, endPage: Option<int>,
                      pages: Option<seq<int>>, doc: seq<Page>, i: nat, j: nat)
    requires i < |doc| && j < |doc| && i != j
    ensures var r := SplitSpec(pdfPath, outputDir, "all", startPage, endPage, pages, doc);
      r.Ok? && |r.value| == |doc| && r.value[i].pages == [doc[i]] && r.value[i].path != r.value[j].path
  {
    PagePathsDistinct(outputDir, FileUtil.Stem(pdfPath), i + 1, j + 1);
  }

  lemma PagePathsDistinct(outputDir: string, base: string, m: int, n: int)
    requires m != n
    ensures PagePath(outputDir, base, m) != PagePath(outputDir, base, n)
  {
    var a := outputDir + "/" + base + "_page_";
    if PagePath(outputDir, base, m) == PagePath(outputDir, base, n) {
      assert a + IntToStr(m) + ".pdf" == a + IntToStr(n) + ".pdf";
      CancelAround(a, IntToStr(m), IntToStr(n), ".pdf");
      IntToStrInjective(m, n);
    }
  }

  /** Every per-page file is reported with the `.pdf` extension. */
  lemma PagePathIsPdf(outputDir: string, pdfPath: string, k: int)
    ensures FileUtil.GetFileExtension(PagePath(outputDir, FileUtil.Stem(pdfPath), k)) == ".pdf"
  {
    FileUtil.StemSuffixSplitName(pdfPath);
    PagePathOfBase(outputDir, FileUtil.Stem(pdfPath), k);
  }

  lemma PagePathOfBase(outputDir: string, base: string, k: int)
    requires '/' !in base
    ensures FileUtil.GetFileExtension(PagePath(outputDir, base, k)) == ".pdf"
  {
    var file := base + "_page_" + IntToStr(k);
    NoSlashInNumber(k);
    NoSlashIn3(base, "_page_", IntToStr(k));
    assert PagePath(outputDir, base, k) == outputDir + "/" + file + ".pdf";
    PdfNameIsPdf(outputDir, file);
  }

  /** A file name built with `.pdf` appended, in any directory, reports `.pdf`. */
  lemma PdfNameIsPdf(outputDir: string, file: string)
    requires file != [] && '/' !in file
    ensures FileUtil.GetFileExtension(outputDir + "/" + file + ".pdf") == ".pdf"
  {
    assert FileUtil.IsSuffixShape(".pdf");
    FileUtil.ExtensionOfFileIn(outputDir, file, ".pdf");
    FileUtil.LowerPdf();
  }

  lemma NoSlashInNumber(k: int)
    ensures '/' !in IntToStr(k)
  {
  }

  lemma NoSlashIn3(a: string, b: string, c: string)
    requires '/' !in a && '/' !in b && '/' !in c
    ensures '/' !in a + b + c
  {
  }

  /** Mode "range" with 1 <= start: the pages start..min(end, total), in order, in one file. */
  lemma SplitRangePages(pdfPath: string, outputDir: string, s: int, e: int,
                        pages: Option<seq<int>>, doc: seq<Page>)
    requires 1 <= s && e != 0
    ensures var hi := if e < |doc| then e else |doc|;
      SplitSpec(pdfPath, outputDir, "range", Some(s), Some(e), pages, doc)
        == Ok([OutFile(RangePath(outputDir, FileUtil.Stem(pdfPath), s, e), if s - 1 < hi then doc[s - 1..hi] else [])])
  {
    PagesInRangeSlice(doc, s - 1, if e < |doc| then e else |doc|);
  }

  /** Mode "range" raises `IndexError` exactly when a non-empty range starts more than `total + 1` pages before page 1. */
  lemma SplitRangeError(pdfPath: string, outputDir: string, s: int, e: int, pages: Option<seq<int>>, doc: seq<Page>)
    requires s != 0 && e != 0 && s - 1 < (if e < |doc| then e else |doc|)
    ensures SplitSpec(pdfPath, outputDir, "range", Some(s), Some(e), pages, doc).Err? <==> s - 1 < -|doc|
  {
    PagesInRangeError(doc, s - 1, if e < |doc| then e else |doc|);
  }

  /** Without both bounds, or with an unknown mode, nothing is written. */
  lemma SplitNothing(pdfPath: string, outputDir: string, mode: string, startPage: Option<int>,
                     endPage: Option<int>, pages: Option<seq<int>>, doc: seq<Page>)
    requires mode != "all"
    requires mode == "range" ==> !IntTruthy(startPage) || !IntTruthy(endPage)
    requires mode == "extract" ==> pages.None? || pages.value == []
    ensures SplitSpec(pdfPath, outputDir, mode, startPage, endPage, pages, doc) == Ok([])
  {
  }

  /** Mode "extract": one file holding the in-range numbers' pages, duplicates kept. */
  lemma SplitExtractPages(pdfPath: string, outputDir: string, nums: seq<int>, doc: seq<Page>)
    requires nums != []
    ensures var r := SplitSpec(pdfPath, outputDir, "extract", None, None, Some(nums), doc);
      r.Ok? && |r.value| == 1 && r.value[0].pages == SelectPages(doc, nums)
      && |r.value[0].pages| == InRangeCount(nums, |doc|)
  {
    SelectPagesLength(doc, nums);
  }

  /** The extract file name names all (at most five) numbers, or the first five followed by `_etc`. */
  lemma ExtractTagShape(nums: seq<int>)
    ensures |nums| > 5 ==> EndsWith(ExtractTag(nums), "_etc")
    ensures |nums| <= 5 ==> ExtractTag(nums) == JoinStr(NumberStrs(nums), "_")
  {
    var t := Take(nums, 5);
    var joined := JoinStr(NumberStrs(t), "_");
    if |nums| <= 5 {
      assert t == nums;
    } else {
      assert ExtractTag(nums) == joined + "_etc";
      assert (joined + "_etc")[|joined|..] == "_etc";
    }
  }

  // ---------------------------------------------------------------- rotate and crop

  /** Page number `k` is chosen by `pages`: every page when `None`, else the listed ones. */
  predicate Chosen(pages: Option<seq<int>>, k: int) {
    pages.None? || k in pages.value
  }

  /** `rotate_pdf`: same pages in the same order; chosen pages rotated by `angle`, the rest untouched. */
  method RotatePdf(doc: seq<Page>, angle: int, pages: Option<seq<int>>) returns (out: seq<Page>)
    ensures |out| == |doc|
    ensures forall i :: 0 <= i < |doc| ==> out[i] == if Chosen(pages, i + 1) then Rotated(doc[i], angle) else doc[i]
  {
    var writer := new PdfWriter();
    for i := 0 to |doc|
      invariant |writer.pages| == i
      invariant forall k :: 0 <= k < i ==> writer.pages[k] == if Chosen(pages, k + 1) then Rotated(doc[k], angle) else doc[k]
    {
      var page := doc[i];
      if pages.None? || (i + 1) in pages.value {
        page := Rotated(page, angle);
      }
      writer.AddPage(page);
    }
    out := writer.pages;
  }

  /** `crop_pdf`: same pages in the same order; chosen pages get the crop box, the rest untouched. */
  method CropPdf(doc: seq<Page>, box: CropBox, pages: Option<seq<int>>) returns (out: seq<Page>)
    ensures |out| == |doc|
    ensures forall i :: 0 <= i < |doc| ==> out[i] == if Chosen(pages, i + 1) then Cropped(doc[i], box) else doc[i]
  {
    var writer := new PdfWriter();
    for i := 0 to |doc|
      invariant |writer.pages| == i
      invariant forall k :: 0 <= k < i ==> writer.pages[k] == if Chosen(pages, k + 1) then Cropped(doc[k], box) else doc[k]
    {
      var page := doc[i];
      if pages.None? || (i + 1) in pages.value {
        page := Cropped(page, box);
      }
      writer.AddPage(page);
    }
    out := writer.pages;
  }

  // ---------------------------------------------------------------- page numbers

  /** The label of page number `n` out of `total`: `{page}` replaced first, then `{total}`. */
  function PageLabel(formatStr: string, n: int, total: int): string {
    Replace(Replace(formatStr, "{page}", IntToStr(n)), "{total}", IntToStr(total))
  }

  const NumberPositions: seq<string> := ["bottom-center", "bottom-left", "bottom-right", "top-center", "top-left", "top-right"]

  /** The overlay drawn for one page: the label at a known position, or a blank overlay for any other position. */
  function NumberOverlay(position: string, fontSize: int, text: string): Overlay {
    if position in NumberPositions then Stamp(text, position, fontSize) else Blank
  }

  /** `add_page_numbers`: page `i` (0-based) gets the label for `startNumber + i` out of the page count. */
  method AddPageNumbers(doc: seq<Page>, position: string, startNumber: int, fontSize: int, formatStr: string)
    returns (out: seq<Page>)
    ensures |out| == |doc|
    ensures forall i :: 0 <= i < |doc| ==>
      out[i] == Merged(doc[i], NumberOverlay(position, fontSize, PageLabel(formatStr, startNumber + i, |doc|)))
  {
    var writer := new PdfWriter();
    var totalPages := |doc|;
    ghost var labels := seq(|doc|, k => PageLabel(formatStr, startNumber + k, totalPages));
    for i := 0 to |doc|
      invariant |writer.pages| == i
      invariant forall k :: 0 <= k < i ==> writer.pages[k] == Merged(doc[k], NumberOverlay(position, fontSize, labels[k]))
    {
      var pageNum := startNumber + i;
      var text := FormatLabel(formatStr, pageNum, totalPages);
      assert text == labels[i];
      var overlay := PositionedStamp(position, fontSize, text);
      writer.AddPage(Merged(doc[i], overlay));
    }
    out := writer.pages;
  }

  /** `format_str.replace("{page}", ...).replace("{total}", ...)`. */
  method FormatLabel(formatStr: string, pageNum: int, totalPages: int) returns (text: string)
    ensures text == PageLabel(formatStr, pageNum, totalPages)
  {
    text := Replace(Replace(formatStr, "{page}", IntToStr(pageNum)), "{total}", IntToStr(totalPages));
  }

  /** The overlay canvas: the label drawn at one of the known positions, nothing for any other. */
  method PositionedStamp(position: string, fontSize: int, text: string) returns (overlay: Overlay)
    ensures overlay == NumberOverlay(position, fontSize, text)
  {
    overlay := if position in NumberPositions then Stamp(text, position, fontSize) else Blank;
  }

  /** With the default format the label is the page number alone. */
  lemma DefaultLabel(n: int, total: int)
    ensures PageLabel("{page}", n, total) == IntToStr(n)
  {
    ReplaceOne([], "{page}", [], IntToStr(n));
    assert [] + "{page}" + [] == "{page}";
    assert [] + IntToStr(n) + [] == IntToStr(n);
    NotContainsWithoutFirstChar(IntToStr(n), "{total}");
  }

  predicate NoBrace(s: string) {
    '{' !in s
  }

  lemma NoPageIn(b: string, c: string)
    requires NoBrace(b) && NoBrace(c)
    ensures !Contains(b + "{total}" + c, "{page}")
  {
    var s := b + "{total}" + c;
    forall j | 0 <= j && j + 6 <= |s| ensures !IsAt(s, "{page}", j) {
      if j == |b| {
        assert s[j + 1] == 't';
        assert s[j..j + 6][1] == s[j + 1];
      } else {
        assert s[j] != '{' by {
          if j < |b| {
            assert s[j] == b[j];
          } else if j < |b| + 7 {
            assert s[j] == "{total}"[j - |b|];
          } else {
            assert s[j] == c[j - |b| - 7];
          }
        }
        assert s[j..j + 6][0] == s[j];
      }
    }
  }

  /** A label format with one `{page}` and one `{total}` (in that order, no other braces) fills in both numbers. */
  lemma LabelWithTotal(a: string, b: string, c: string, n: int, total: int)
    requires NoBrace(a) && NoBrace(b) && NoBrace(c)
    ensures PageLabel(a + "{page}" + b + "{total}" + c, n, total) == a + IntToStr(n) + b + IntToStr(total) + c
  {
    var rest := b + "{total}" + c;
    NoPageIn(b, c);
    assert a + "{page}" + b + "{total}" + c == a + "{page}" + rest;
    ReplaceOne(a, "{page}", rest, IntToStr(n));
    var first := a + IntToStr(n) + b;
    assert a + IntToStr(n) + rest == first + "{total}" + c;
    assert NoBrace(IntToStr(n));
    NotContainsWithoutFirstChar(c, "{total}");
    ReplaceOne(first, "{total}", c, IntToStr(total));
  }

  /** A format without braces labels every page with the same text. */
  lemma LabelWithoutPlaceholders(formatStr: string, n: int, total: int)
    requires NoBrace(formatStr)
    ensures PageLabel(formatStr, n, total) == formatStr
  {
    NotContainsWithoutFirstChar(formatStr, "{page}");
    NotContainsWithoutFirstChar(formatStr, "{total}");
  }

  // ---------------------------------------------------------------- protect

  /** The permission flags: bit value 4 for printing, 16 for copying. */
  function Permissions(allowPrinting: bool, allowCopying: bool): (p: int)
    ensures p in {0, 4, 16, 20}
    ensures (p / 4) % 2 == 1 <==> allowPrinting
    ensures (p / 16) % 2 == 1 <==> allowCopying
  {
    var flags: bv8 := 0;
    var flags := if allowPrinting then flags | 4 else flags;
    var flags := if allowCopying then flags | 16 else flags;
    flags as int
  }

  /** What `writer.encrypt` is given, with the pages written. */
  datatype Protected = Protected(pages: seq<Page>, userPassword: string, ownerPassword: string, permissions: int)

  /** `protect_pdf`: all pages, the owner password defaulting (when missing or empty) to the user password. */
  method ProtectPdf(doc: seq<Page>, userPassword: string, ownerPassword: Option<string>,
                    allowPrinting: bool, allowCopying: bool) returns (out: Protected)
    ensures out.pages == doc
    ensures out.userPassword == userPassword
    ensures out.ownerPassword == if StrTruthy(ownerPassword) then ownerPassword.value else userPassword
    ensures out.permissions == Permissions(allowPrinting, allowCopying)
  {
    var writer := new PdfWriter();
    for i := 0 to |doc|
      invariant writer.pages == doc[..i]
    {
      writer.AddPage(doc[i]);
      assert doc[..i + 1] == doc[..i] + [doc[i]];
    }
    assert doc[..|doc|] == doc;
    var permissions: bv8 := 0;
    if allowPrinting {
      permissions := permissions | 4;
    }
    if allowCopying {
      permissions := permissions | 16;
    }
    var owner := if StrTruthy(ownerPassword) then ownerPassword.value else userPassword;
    out := Protected(writer.pages, userPassword, owner, permissions as int);
  }

  // ---------------------------------------------------------------- compress

  /** The options `compress_pdf` passes when saving. */
  datatype SaveOptions = SaveOptions(compressStreams: bool, generateObjectStreams: bool, recompressFlate: bool)

  /** The level switch: "high" and "medium" add object streams, "high" also recompresses; anything else is "low". */
  function CompressOptions(level: string): (o: SaveOptions)
    ensures o.compressStreams
    ensures o.generateObjectStreams <==> level in {"high", "medium"}
    ensures o.recompressFlate <==> level == "high"
  {
    if level == "high" then SaveOptions(true, true, true)
    else if level == "medium" then SaveOptions(true, true, false)
    else SaveOptions(true, false, false)
  }

  predicate AtLeast(a: SaveOptions, b: SaveOptions) {
    (b.compressStreams ==> a.compressStreams) && (b.generateObjectStreams ==> a.generateObjectStreams) &&
    (b.recompressFlate ==> a.recompressFlate)
  }

  /** Each level does at least what the level below it does; an unknown level behaves as "low". */
  lemma CompressLevelsOrdered(level: string)
    ensures AtLeast(CompressOptions("high"), CompressOptions("medium"))
    ensures AtLeast(CompressOptions("medium"), CompressOptions("low"))
    ensures level !in {"high", "medium"} ==> CompressOptions(level) == CompressOptions("low")
  {
  }
}
