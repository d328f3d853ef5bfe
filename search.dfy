/**
 * Result reporting of `searchIndex`: the empty-index guard and one output line per hit.
 * Query parsing, scoring and ranking are CLucene's; the ranked hits are an input.
 */
module Search {
  import opened Optional
  import Decimal
  import Documents
  import Extraction

  const EmptyIndexMessage := "Index is empty or not created. Run 'index' command first."
  const NoPathText := "[No path information available]"

  /** The page suffix is printed for a present, non-empty page other than "0". */
  predicate ShowsPage(page: Option<string>)
  {
    page.Some? && |page.value| > 0 && page.value != "0"
  }

  /** The line printed for the hit at index `i`, given its stored `path` and `page`. */
  function HitLine(i: nat, path: Option<string>, page: Option<string>): (line: string)
    ensures var n := Decimal.NatToString(i + 1);
      |n| + 2 <= |line| && line[..|n| + 2] == n + ". "
    ensures path.None? ==> line[|Decimal.NatToString(i + 1)| + 2..] == NoPathText
    ensures path.Some? ==>
      var head := Decimal.NatToString(i + 1) + ". File: " + path.value;
      && |head| <= |line| && line[..|head|] == head
      && (line == head <==> !ShowsPage(page))
      && (ShowsPage(page) ==> line[|head|..] == " (page " + page.value + ")")
  {
    var number := Decimal.NatToString(i + 1);
    match path
    case None => number + ". " + NoPathText
    case Some(p) => number + ". File: " + p + (if ShowsPage(page) then " (page " + page.value + ")" else "")
  }

  /** Every hit line starts with the hit's 1-based ordinal, from which `i` can be read back. */
  lemma HitLineNumbered(i: nat, path: Option<string>, page: Option<string>)
    ensures var n := Decimal.NatToString(i + 1);
      |n| + 2 <= |HitLine(i, path, page)| &&
      HitLine(i, path, page)[..|n| + 2] == n + ". " &&
      Decimal.ParseDecimal(n) == i + 1
  {
    Decimal.ParseOfNatToString(i + 1);
  }

  /**
   * For a hit on a document built from page `page` of `path`, the line names the file
   * and carries the page suffix exactly when the page number is not 0.
   */
  lemma HitLineOfPageDocument(i: nat, path: string, page: nat, content: string)
    ensures var d := Documents.StoredView(Documents.MakeDocument(path, page, content));
      HitLine(i, Documents.Get(d, "path"), Documents.Get(d, "page")) ==
        Decimal.NatToString(i + 1) + ". File: " + path +
        (if page == 0 then "" else " (page " + Decimal.NatToString(page) + ")")
  {
    Documents.StoredFieldsOfPageDocument(path, page, content);
    Decimal.NatToStringIsZero(page);
  }

  /**
   * How the search itself ended: the retrieved hit documents in CLucene's order, or the
   * message of a `std::exception` caught by the handler of `searchIndex`.
   */
  datatype SearchOutcome = Found(hits: seq<Documents.Document>) | Failed(what: string)

  /** What a call prints to standard output and to the error stream, line by line. */
  datatype Report = Report(out: seq<string>, err: seq<string>)

  /** The header line: the hit count, then the query as typed, in quotes. */
  function FoundHeader(count: nat, queryStr: string): (r: string)
    ensures var n := Decimal.NatToString(count);
      && |r| == |n| + |queryStr| + 22
      && r[..6] == "Found "
      && r[6..6 + |n|] == n
      && r[6 + |n|..|n| + 20] == " results for \""
      && r[|n| + 20..|n| + 20 + |queryStr|] == queryStr
      && r[|n| + 20 + |queryStr|..] == "\":"
  {
    "Found " + Decimal.NatToString(count) + " results for \"" + queryStr + "\":"
  }

  /** The line for hit `k` from its document's stored fields. */
  function LineOf(k: nat, d: Documents.Document): string
  {
    HitLine(k, Documents.Get(d, "path"), Documents.Get(d, "page"))
  }

  /** `searchIndex`, given the index directory's state and what the searcher returned. */
  method SearchIndex(indexExists: bool, indexEmpty: bool, queryStr: string, outcome: SearchOutcome)
    returns (report: Report)
    ensures !indexExists || indexEmpty ==> report == Report([], [EmptyIndexMessage])
    ensures indexExists && !indexEmpty && outcome.Failed? ==>
      report == Report([], ["Search error: " + outcome.what])
    ensures indexExists && !indexEmpty && outcome.Found? ==>
      && report.err == []
      && |report.out| == |outcome.hits| + 1
      && report.out[0] == FoundHeader(|outcome.hits|, queryStr)
      && forall k :: 0 <= k < |outcome.hits| ==> report.out[k + 1] == LineOf(k, outcome.hits[k])
  {
    if !indexExists || indexEmpty {
      return Report([], [EmptyIndexMessage]);
    }
    if outcome.Failed? {
      return Report([], ["Search error: " + outcome.what]);
    }
    var hits := outcome.hits;
    var header := FoundHeader(|hits|, queryStr);
    var lines: seq<string> := [];
    for i := 0 to |hits|
      invariant |lines| == i
      invariant forall k :: 0 <= k < i ==> lines[k] == LineOf(k, hits[k])
    {
      var path := Documents.Get(hits[i], "path");
      var page := Documents.Get(hits[i], "page");
      lines := lines + [HitLine(i, path, page)];
    }
    report := Report([header] + lines, []);
  }

  /** The pages of a two-page PDF reading "apple" and "banana". */
  function TwoPages(): seq<Extraction.PdfPage>
  {
    [Extraction.TextPage(false, Some("apple"), None), Extraction.TextPage(false, Some("banana"), None)]
  }

  /** That PDF is extracted as pages 0 and 1. */
  lemma TwoPagesExtracted(path: string)
    ensures Extraction.Extracted(Extraction.SourceFile(path, ".pdf", None, Some(TwoPages()))) ==
      [Extraction.PageText(0, "apple"), Extraction.PageText(1, "banana")]
  {
    assert Extraction.Selected(TwoPages(), 1) == [Extraction.PageText(0, "apple")];
  }

  /** It becomes two documents sharing the path, one per page, in page order. */
  lemma TwoPagePdfIndexed(path: string)
    ensures Documents.IndexedDocuments(
        [Documents.DirEntry(true, Extraction.SourceFile(path, ".pdf", None, Some(TwoPages())))]) ==
      [Documents.MakeDocument(path, 0, "apple"), Documents.MakeDocument(path, 1, "banana")]
  {
    var pdf := Extraction.SourceFile(path, ".pdf", None, Some(TwoPages()));
    TwoPagesExtracted(path);
    Documents.ExtractedPagesIndexed(pdf);
    assert [Documents.DirEntry(true, pdf)][..0] == [];
  }

  /** A hit on the "banana" document, first in the list, prints its page. */
  lemma BananaHitLine(path: string)
    ensures var banana := Documents.StoredView(Documents.MakeDocument(path, 1, "banana"));
      HitLine(0, Documents.Get(banana, "path"), Documents.Get(banana, "page")) == "1. File: " + path + " (page 1)"
  {
    HitLineOfPageDocument(0, path, 1, "banana");
    assert Decimal.NatToString(1) == "1";
    assert "1" + ". File: " == "1. File: " && " (page " + "1" + ")" == " (page 1)";
  }

  /** A hit on the "apple" document, second in the list, prints no page. */
  lemma AppleHitLine(path: string)
    ensures var apple := Documents.StoredView(Documents.MakeDocument(path, 0, "apple"));
      HitLine(1, Documents.Get(apple, "path"), Documents.Get(apple, "page")) == "2. File: " + path
  {
    HitLineOfPageDocument(1, path, 0, "apple");
    assert Decimal.NatToString(2) == "2";
    assert "2" + ". File: " == "2. File: ";
    assert "2. File: " + path + "" == "2. File: " + path;
  }
}
