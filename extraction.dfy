/**
 * Page extraction (`extractTextWithPagesFromFile`): turns one file into the
 * `(page number, content)` pairs that get indexed. A `.txt` file is one page 0;
 * a `.pdf` file is split per page, where each page's text is converted to UTF-8,
 * or failing that to Latin-1, and skipped when neither gives any bytes.
 * poppler's loader and its string conversions are foreign; their outcomes are inputs.
 */
module Extraction {
  import opened Optional

  /** What poppler yields for one page index of a loaded document. */
  datatype PdfPage =
    | NullPage    // create_page returned null
    | PageFault   // create_page or text() threw
    | TextPage(
        textEmpty: bool,        // page->text() is the empty string
        utf8: Option<string>,   // bytes of to_utf8(); None when it threw
        latin1: Option<string>  // bytes of to_latin1(); None when it threw
      )

  /**
   * One file handed over by the directory traversal: its path, the extension boost
   * reports, what reading it as a byte stream yields (None when it cannot be opened
   * or the read throws), and what poppler yields when loading it (None when the
   * document is null or loading throws).
   */
  datatype SourceFile = SourceFile(
    path: string,
    extension: string,
    asText: Option<string>,
    asPdf: Option<seq<PdfPage>>
  )

  /** One extracted page. */
  datatype PageText = PageText(page: nat, content: string)

  /** Page numbers strictly increase along `r`. */
  predicate StrictlyIncreasing(r: seq<PageText>)
  {
    forall a, b :: 0 <= a < b < |r| ==> r[a].page < r[b].page
  }

  /** Every page of `r` carries some bytes. */
  predicate AllNonEmpty(r: seq<PageText>)
  {
    forall k :: 0 <= k < |r| ==> r[k].content != []
  }

  /** What one PDF page contributes: UTF-8 preferred, Latin-1 as fallback, else nothing. */
  function PageContent(p: PdfPage): (r: Option<string>)
    ensures r.Some? ==> r.value != []
    ensures r.None? <==>
      || !p.TextPage?
      || p.textEmpty
      || ((p.utf8 == None || p.utf8 == Some("")) && (p.latin1 == None || p.latin1 == Some("")))
    ensures p.TextPage? && !p.textEmpty && p.utf8.Some? && p.utf8.value != [] ==> r == p.utf8
    ensures r.Some? && r != p.utf8 ==> p.utf8 in {None, Some("")} && r == p.latin1
  {
    match p
    case NullPage => None
    case PageFault => None
    case TextPage(textEmpty, utf8, latin1) =>
      if textEmpty then None
      else if utf8.Some? && utf8.value != [] then utf8
      else if latin1.Some? && latin1.value != [] then latin1
      else None
  }

  /** The pairs page `i` contributes: one, or none when it is skipped. */
  function Emitted(i: nat, p: PdfPage): seq<PageText>
  {
    match PageContent(p)
    case Some(c) => [PageText(i, c)]
    case None => []
  }

  /** The pairs emitted for the first `k` pages of a document. */
  function Selected(pages: seq<PdfPage>, k: nat): seq<PageText>
    requires k <= |pages|
    decreases k
  {
    if k == 0 then [] else Selected(pages, k - 1) + Emitted(k - 1, pages[k - 1])
  }

  /** The pairs for the first k pages have content, page numbers below k, strictly increasing. */
  lemma {:induction false} SelectedWellFormed(pages: seq<PdfPage>, k: nat)
    requires k <= |pages|
    ensures StrictlyIncreasing(Selected(pages, k)) && AllNonEmpty(Selected(pages, k))
    ensures forall e :: e in Selected(pages, k) ==> e.page < k
    decreases k
  {
    if k > 0 {
      SelectedWellFormed(pages, k - 1);
    }
  }

  /** The pairs whose page is not `j`. */
  function WithoutPage(r: seq<PageText>, j: nat): seq<PageText>
  {
    if r == [] then []
    else if r[|r| - 1].page == j then WithoutPage(r[..|r| - 1], j)
    else WithoutPage(r[..|r| - 1], j) + [r[|r| - 1]]
  }

  /** What reading a `.txt` file contributes: its whole contents as page 0, unless empty. */
  function TextPages(contents: Option<string>): seq<PageText>
  {
    if contents.Some? && contents.value != [] then [PageText(0, contents.value)] else []
  }

  /** The pairs extracted from a file, decided by its extension. */
  function Extracted(f: SourceFile): seq<PageText>
  {
    if f.extension == ".txt" then TextPages(f.asText)
    else if f.extension == ".pdf" then
      match f.asPdf
      case None => []
      case Some(pages) => Selected(pages, |pages|)
    else []
  }

  /** The per-page loop over a loaded PDF document. */
  method ExtractPdfPages(pages: seq<PdfPage>) returns (pagesContent: seq<PageText>)
    ensures pagesContent == Selected(pages, |pages|)
  {
    pagesContent := [];
    for i := 0 to |pages|
      invariant pagesContent == Selected(pages, i)
    {
      var page := pages[i];
      if page.NullPage? || page.PageFault? {
        continue;
      }
      if page.textEmpty {
        continue;
      }
      if page.utf8.Some? && page.utf8.value != [] {
        pagesContent := pagesContent + [PageText(i, page.utf8.value)];
        continue;
      }
      if page.latin1.Some? && page.latin1.value != [] {
        pagesContent := pagesContent + [PageText(i, page.latin1.value)];
        continue;
      }
    }
  }

  /** `extractTextWithPagesFromFile`. */
  method ExtractTextWithPages(f: SourceFile) returns (pagesContent: seq<PageText>)
    ensures pagesContent == Extracted(f)
  {
    pagesContent := [];
    if f.extension == ".txt" {
      if f.asText.Some? && f.asText.value != [] {
        pagesContent := [PageText(0, f.asText.value)];
      }
    } else if f.extension == ".pdf" {
      if f.asPdf.Some? {
        pagesContent := ExtractPdfPages(f.asPdf.value);
      }
    }
  }

  /** A `.txt` file gives exactly one pair `(0, contents)` when it has contents, and none otherwise. */
  lemma TextFilePages(f: SourceFile)
    requires f.extension == ".txt"
    ensures f.asText.Some? && f.asText.value != [] ==> Extracted(f) == [PageText(0, f.asText.value)]
    ensures f.asText.None? || f.asText.value == [] ==> Extracted(f) == []
  {
  }

  /** A file that is neither `.txt` nor `.pdf` gives nothing. */
  lemma OtherFilePages(f: SourceFile)
    requires f.extension != ".txt" && f.extension != ".pdf"
    ensures Extracted(f) == []
  {
  }

  /**
   * For a PDF with n pages: page numbers strictly increase (so none repeats), each lies
   * in [0, n), and each pair has content.
   */
  lemma PdfPagesWellFormed(f: SourceFile)
    requires f.extension == ".pdf" && f.asPdf.Some?
    ensures StrictlyIncreasing(Extracted(f)) && AllNonEmpty(Extracted(f))
    ensures forall e :: e in Extracted(f) ==> e.page < |f.asPdf.value|
    ensures forall a, b :: 0 <= a < |Extracted(f)| && 0 <= b < |Extracted(f)| && a != b ==>
      Extracted(f)[a].page != Extracted(f)[b].page
  {
    SelectedWellFormed(f.asPdf.value, |f.asPdf.value|);
    var r := Extracted(f);
    forall a, b | 0 <= a < |r| && 0 <= b < |r| && a != b
      ensures r[a].page != r[b].page
    {
      if a < b { assert r[a].page < r[b].page; } else { assert r[b].page < r[a].page; }
    }
  }

  /** Whatever the file, every extracted pair has content and the page numbers strictly increase. */
  lemma ExtractedWellFormed(f: SourceFile)
    ensures StrictlyIncreasing(Extracted(f)) && AllNonEmpty(Extracted(f))
  {
    if f.extension == ".pdf" && f.asPdf.Some? {
      SelectedWellFormed(f.asPdf.value, |f.asPdf.value|);
    }
  }

  /**
   * Page i is emitted with content c exactly when page i's own record selects c,
   * whatever happened on the other pages: a failing page never stops the later ones.
   */
  lemma {:induction false} SelectedMembership(pages: seq<PdfPage>, k: nat, i: nat, c: string)
    requires k <= |pages|
    ensures PageText(i, c) in Selected(pages, k) <==> i < k && PageContent(pages[i]) == Some(c)
    decreases k
  {
    if k > 0 {
      SelectedMembership(pages, k - 1, i, c);
      var prev := Selected(pages, k - 1);
      var e := PageText(i, c);
      match PageContent(pages[k - 1])
      case None =>
        assert Selected(pages, k) == prev;
        if i == k - 1 { assert e !in prev; }
      case Some(d) =>
        assert Selected(pages, k) == prev + [PageText(k - 1, d)];
        assert e in prev + [PageText(k - 1, d)] <==> e in prev || e == PageText(k - 1, d);
    }
  }

  /** Removing page j from a list extended by one pair. */
  lemma WithoutPageSnoc(r: seq<PageText>, e: PageText, j: nat)
    ensures WithoutPage(r + [e], j) == if e.page == j then WithoutPage(r, j) else WithoutPage(r, j) + [e]
  {
    assert (r + [e])[..|r|] == r;
  }

  /** The pairs of the first k pages, with page j removed, after page k - 1 is added. */
  lemma SelectedStepWithout(pages: seq<PdfPage>, k: nat, j: nat)
    requires 0 < k <= |pages|
    ensures WithoutPage(Selected(pages, k), j) ==
      WithoutPage(Selected(pages, k - 1), j) + (if k - 1 == j then [] else Emitted(k - 1, pages[k - 1]))
  {
    var prev := Selected(pages, k - 1);
    match PageContent(pages[k - 1])
    case None =>
      assert prev + [] == prev;
    case Some(c) =>
      WithoutPageSnoc(prev, PageText(k - 1, c), j);
  }

  /** Replacing page j by anything leaves the pairs of every other page as they were. */
  lemma {:induction false} PagesIndependent(pages: seq<PdfPage>, k: nat, j: nat, p: PdfPage)
    requires k <= |pages| && j < |pages|
    ensures WithoutPage(Selected(pages[j := p], k), j) == WithoutPage(Selected(pages, k), j)
    decreases k
  {
    if k > 0 {
      var q := pages[j := p];
      PagesIndependent(pages, k - 1, j, p);
      SelectedStepWithout(pages, k, j);
      SelectedStepWithout(q, k, j);
      if k - 1 != j {
        assert q[k - 1] == pages[k - 1];
      }
    }
  }

  /** A pair list with no page j is unchanged by removing page j. */
  lemma {:induction false} WithoutAbsentPage(r: seq<PageText>, j: nat)
    requires forall e :: e in r ==> e.page != j
    ensures WithoutPage(r, j) == r
  {
    if r != [] {
      var init := r[..|r| - 1];
      assert forall e :: e in init ==> e in r;
      WithoutAbsentPage(init, j);
      assert init + [r[|r| - 1]] == r;
    }
  }

  /** Skipping page j (a null page) yields exactly the other pages' pairs, unchanged and in order. */
  lemma SkippedPage(pages: seq<PdfPage>, j: nat)
    requires j < |pages|
    ensures Selected(pages[j := NullPage], |pages|) == WithoutPage(Selected(pages, |pages|), j)
  {
    var q := pages[j := NullPage];
    var r := Selected(q, |q|);
    forall e | e in r ensures e.page != j {
      SelectedMembership(q, |q|, e.page, e.content);
    }
    WithoutAbsentPage(r, j);
    PagesIndependent(pages, |pages|, j, NullPage);
  }
}
