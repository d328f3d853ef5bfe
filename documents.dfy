/**
 * Document construction (the page loop of `indexFiles`): one document per extracted
 * page, with a stored untokenized `path`, a stored untokenized `page` holding the
 * decimal page number, and an unstored tokenized `content`. The CLucene writer is
 * abstracted to the sequence of documents added to it.
 */
module Documents {
  import opened Optional
  import Decimal
  import Extraction

  /** STORE_YES / STORE_NO. */
  datatype Store = StoreYes | StoreNo

  /** INDEX_TOKENIZED / INDEX_UNTOKENIZED. */
  datatype Indexing = IndexTokenized | IndexUntokenized

  datatype Field = Field(name: string, value: string, store: Store, index: Indexing)

  /** A document is its fields in the order they were added. */
  datatype Document = Document(fields: seq<Field>)

  /** The stored fields of `fs`, in order. */
  function StoredOnly(fs: seq<Field>): seq<Field>
  {
    if fs == [] then []
    else if fs[0].store == StoreYes then [fs[0]] + StoredOnly(fs[1..])
    else StoredOnly(fs[1..])
  }

  /** The value of the first field of `fs` with that name, if any. */
  function FirstValue(fs: seq<Field>, name: string): Option<string>
  {
    if fs == [] then None
    else if fs[0].name == name then Some(fs[0].value)
    else FirstValue(fs[1..], name)
  }

  /** The values of the tokenized fields of `fs`, which the analyzer indexes. */
  function TokenizedOnly(fs: seq<Field>): seq<string>
  {
    if fs == [] then []
    else if fs[0].index == IndexTokenized then [fs[0].value] + TokenizedOnly(fs[1..])
    else TokenizedOnly(fs[1..])
  }

  /** The document as the index returns it in a hit: only its stored fields. */
  function StoredView(d: Document): Document
  {
    Document(StoredOnly(d.fields))
  }

  /** `Document::get`: the value of the first field with that name, if any. */
  function Get(d: Document, name: string): Option<string>
  {
    FirstValue(d.fields, name)
  }

  /** The field values the analyzer indexes. */
  function TokenizedValues(d: Document): seq<string>
  {
    TokenizedOnly(d.fields)
  }

  /** The document built for one extracted page of the file at `path`. */
  function MakeDocument(path: string, page: nat, content: string): (d: Document)
    ensures |d.fields| == 3
    ensures Get(d, "path") == Some(path)
    ensures Get(d, "page") == Some(Decimal.NatToString(page))
    ensures Get(d, "content") == Some(content)
    ensures forall f :: f in d.fields ==> (f.store == StoreYes <==> f.index == IndexUntokenized)
  {
    var a := Field("path", path, StoreYes, IndexUntokenized);
    var b := Field("page", Decimal.NatToString(page), StoreYes, IndexUntokenized);
    var c := Field("content", content, StoreNo, IndexTokenized);
    assert [a, b, c][1..] == [b, c] && [b, c][1..] == [c];
    assert FirstValue([c], "content") == Some(content);
    assert FirstValue([b, c], "page") == Some(b.value);
    assert FirstValue([b, c], "content") == Some(content);
    Document([a, b, c])
  }

  /**
   * From a hit, the path and the page string can be fetched again, but the
   * content cannot: it was indexed without being stored.
   */
  lemma StoredFieldsOfPageDocument(path: string, page: nat, content: string)
    ensures Get(StoredView(MakeDocument(path, page, content)), "path") == Some(path)
    ensures Get(StoredView(MakeDocument(path, page, content)), "page") == Some(Decimal.NatToString(page))
    ensures Get(StoredView(MakeDocument(path, page, content)), "content") == None
  {
    var fs := MakeDocument(path, page, content).fields;
    var a, b, c := fs[0], fs[1], fs[2];
    assert fs == [a, b, c];
    assert fs[1..] == [b, c] && [b, c][1..] == [c] && [c][1..] == [];
    assert StoredOnly([c]) == [];
    assert StoredOnly([b, c]) == [b];
    assert StoredOnly(fs) == [a, b];
    assert [a, b][1..] == [b] && [b][1..] == [];
    assert FirstValue([b], "page") == Some(b.value);
    assert FirstValue([b], "content") == FirstValue([], "content") == None;
  }

  /** The only text the analyzer sees in a page's document is the page's content. */
  lemma OnlyContentTokenized(path: string, page: nat, content: string)
    ensures TokenizedValues(MakeDocument(path, page, content)) == [content]
  {
    var fs := MakeDocument(path, page, content).fields;
    var a, b, c := fs[0], fs[1], fs[2];
    assert fs == [a, b, c];
    assert fs[1..] == [b, c] && [b, c][1..] == [c] && [c][1..] == [];
    assert TokenizedOnly([c]) == [content];
    assert TokenizedOnly([b, c]) == [content];
  }

  /** The page number can be read back from a hit's stored `page` field. */
  lemma PageRoundTrip(path: string, page: nat, content: string)
    ensures Get(StoredView(MakeDocument(path, page, content)), "page").Some?
    ensures Decimal.AllDigits(Get(StoredView(MakeDocument(path, page, content)), "page").value)
    ensures Decimal.ParseDecimal(Get(StoredView(MakeDocument(path, page, content)), "page").value) == page
  {
    StoredFieldsOfPageDocument(path, page, content);
    Decimal.ParseOfNatToString(page);
  }

  /** The documents the page loop adds for the pairs of one file, skipping empty content. */
  function DocumentsFor(path: string, pages: seq<Extraction.PageText>): (r: seq<Document>)
    ensures |r| <= |pages|
    decreases |pages|
  {
    if pages == [] then []
    else
      var last := pages[|pages| - 1];
      DocumentsFor(path, pages[..|pages| - 1]) +
        (if last.content != [] then [MakeDocument(path, last.page, last.content)] else [])
  }

  /** A pair with empty content adds nothing. */
  lemma EmptyContentAddsNothing(path: string, pages: seq<Extraction.PageText>, page: nat)
    ensures DocumentsFor(path, pages + [Extraction.PageText(page, "")]) == DocumentsFor(path, pages)
  {
    assert (pages + [Extraction.PageText(page, "")])[..|pages|] == pages;
  }

  /** When every pair has content, there is exactly one document per pair, in order. */
  lemma {:induction false} OneDocumentPerPage(path: string, pages: seq<Extraction.PageText>)
    requires Extraction.AllNonEmpty(pages)
    ensures |DocumentsFor(path, pages)| == |pages|
    ensures forall k :: 0 <= k < |pages| ==>
      DocumentsFor(path, pages)[k] == MakeDocument(path, pages[k].page, pages[k].content)
    decreases |pages|
  {
    if pages != [] {
      var init, last := pages[..|pages| - 1], pages[|pages| - 1];
      assert Extraction.AllNonEmpty(init) by {
        forall k | 0 <= k < |init| ensures init[k].content != [] { assert init[k] == pages[k]; }
      }
      OneDocumentPerPage(path, init);
      var prev := DocumentsFor(path, init);
      var docs := DocumentsFor(path, pages);
      assert docs == prev + [MakeDocument(path, last.page, last.content)];
      forall k | 0 <= k < |pages|
        ensures docs[k] == MakeDocument(path, pages[k].page, pages[k].content)
      {
        if k < |init| {
          assert docs[k] == prev[k];
          assert pages[k] == init[k];
        }
      }
    }
  }

  /** What the traversal yields for one directory entry. */
  datatype DirEntry = DirEntry(isRegular: bool, file: Extraction.SourceFile)

  /** The documents one directory entry adds: its pages if it is a regular file, else none. */
  function EntryDocuments(e: DirEntry): seq<Document>
  {
    if e.isRegular then DocumentsFor(e.file.path, Extraction.Extracted(e.file)) else []
  }

  /** The documents indexing adds for a traversal: the regular files' pages, in order. */
  function IndexedDocuments(entries: seq<DirEntry>): seq<Document>
    decreases |entries|
  {
    if entries == [] then []
    else IndexedDocuments(entries[..|entries| - 1]) + EntryDocuments(entries[|entries| - 1])
  }

  /** Concatenation of document sequences is associative. */
  lemma ConcatAssociative(x: seq<Document>, y: seq<Document>, z: seq<Document>)
    ensures (x + y) + z == x + (y + z)
  {
    assert |(x + y) + z| == |x + (y + z)|;
    forall k | 0 <= k < |x + (y + z)|
      ensures ((x + y) + z)[k] == (x + (y + z))[k]
    {
    }
  }

  /** Indexing two traversals one after the other adds the documents of the first, then of the second. */
  lemma {:induction false} IndexedDocumentsAppend(a: seq<DirEntry>, b: seq<DirEntry>)
    ensures IndexedDocuments(a + b) == IndexedDocuments(a) + IndexedDocuments(b)
    decreases |b|
  {
    if b == [] {
      assert a + b == a;
    } else {
      var ab := a + b;
      var init := b[..|b| - 1];
      assert ab[..|ab| - 1] == a + init;
      assert ab[|ab| - 1] == b[|b| - 1];
      IndexedDocumentsAppend(a, init);
      calc {
        IndexedDocuments(ab);
        IndexedDocuments(a + init) + EntryDocuments(b[|b| - 1]);
        (IndexedDocuments(a) + IndexedDocuments(init)) + EntryDocuments(b[|b| - 1]);
        { ConcatAssociative(IndexedDocuments(a), IndexedDocuments(init), EntryDocuments(b[|b| - 1])); }
        IndexedDocuments(a) + (IndexedDocuments(init) + EntryDocuments(b[|b| - 1]));
        IndexedDocuments(a) + IndexedDocuments(b);
      }
    }
  }

  /** Every extracted pair of a file becomes exactly one document, in page order. */
  lemma ExtractedPagesIndexed(f: Extraction.SourceFile)
    ensures |DocumentsFor(f.path, Extraction.Extracted(f))| == |Extraction.Extracted(f)|
    ensures forall k :: 0 <= k < |Extraction.Extracted(f)| ==>
      DocumentsFor(f.path, Extraction.Extracted(f))[k] ==
      MakeDocument(f.path, Extraction.Extracted(f)[k].page, Extraction.Extracted(f)[k].content)
  {
    Extraction.ExtractedWellFormed(f);
    OneDocumentPerPage(f.path, Extraction.Extracted(f));
  }

  /** A non-empty `.txt` file is indexed as one document whose stored page is "0". */
  lemma TextFileIndexed(f: Extraction.SourceFile)
    requires f.extension == ".txt" && f.asText.Some? && f.asText.value != []
    ensures IndexedDocuments([DirEntry(true, f)]) == [MakeDocument(f.path, 0, f.asText.value)]
    ensures Get(StoredView(IndexedDocuments([DirEntry(true, f)])[0]), "page") == Some("0")
  {
    assert [DirEntry(true, f)][..0] == [];
    var pages := Extraction.Extracted(f);
    assert pages == [Extraction.PageText(0, f.asText.value)];
    assert pages[..0] == [];
    StoredFieldsOfPageDocument(f.path, 0, f.asText.value);
    Decimal.NatToStringIsZero(0);
  }

  /** The index writer, seen as the documents added to it since it was opened. */
  class IndexWriter {
    var added: seq<Document>

    /** Opening with create = true starts from an empty index. */
    constructor ()
      ensures added == []
    {
      added := [];
    }

    method AddDocument(d: Document)
      modifies this
      ensures added == old(added) + [d]
    {
      added := added + [d];
    }
  }

  /** The inner loop of `indexFiles` for one file's pairs. */
  method IndexPages(writer: IndexWriter, path: string, pagesContent: seq<Extraction.PageText>)
    modifies writer
    ensures writer.added == old(writer.added) + DocumentsFor(path, pagesContent)
  {
    for i := 0 to |pagesContent|
      invariant writer.added == old(writer.added) + DocumentsFor(path, pagesContent[..i])
    {
      assert pagesContent[..i + 1][..i] == pagesContent[..i];
      var pageNum, content := pagesContent[i].page, pagesContent[i].content;
      if content != [] {
        var doc := MakeDocument(path, pageNum, content);
        writer.AddDocument(doc);
      }
    }
    assert pagesContent[..|pagesContent|] == pagesContent;
  }

  /** `indexFiles`: open a fresh writer and feed it every regular file of the traversal. */
  method IndexFiles(entries: seq<DirEntry>) returns (writer: IndexWriter)
    ensures fresh(writer)
    ensures writer.added == IndexedDocuments(entries)
  {
    writer := new IndexWriter();
    for n := 0 to |entries|
      invariant writer.added == IndexedDocuments(entries[..n])
    {
      assert entries[..n + 1][..n] == entries[..n];
      if entries[n].isRegular {
        var pagesContent := Extraction.ExtractTextWithPages(entries[n].file);
        IndexPages(writer, entries[n].file.path, pagesContent);
      }
    }
    assert entries[..|entries|] == entries;
  }
}
