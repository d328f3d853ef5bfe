# Document-Indexer: the selection and formatting layer, in Dafny

Document-Indexer is a console program (`main.cpp`). It walks a directory, pulls text
out of `.txt` and `.pdf` files page by page, hands one document per page to CLucene,
and later prints CLucene's hits for a query. CLucene does the inverted index: analysis,
postings, segments, query parsing and scoring. poppler decodes PDFs, and
codecvt converts UTF-8 to the wide strings CLucene takes. This project models what `main.cpp` decides itself,
and proves what those decisions guarantee:

- **Page extraction** (`Extraction`, `extractTextWithPagesFromFile`).
  - A `.txt` file is one page 0 holding its whole contents.
  - A `.pdf` file is walked page by page. A page yields its UTF-8 text, or failing that its Latin-1 text.
  - A page is skipped when it is null, when it has no text, or when both conversions throw or come out empty.
  - A skipped page never affects the other pages.
  - Each poppler page is an abstract record: null page, page that threw, or text page. A text page records whether its text is empty and what each conversion gave back (`None` when it threw).
- **Document construction** (`Documents`, the page loop of `indexFiles`).
  - Each extracted page with content becomes exactly one document with three fields: `path` (stored, untokenized), `page` (stored, untokenized, the decimal page number) and `content` (not stored, tokenized).
  - The CLucene writer is modelled as the sequence of documents added to it (`IndexWriter.added`).
  - A hit's document is that document with its unstored fields dropped (`StoredView`).
- **Result lines** (`Search`, `searchIndex`).
  - The guard against a missing or empty index.
  - The header line.
  - One line per hit: `"<i+1>. File: <path>"`, plus `" (page <p>)"` when the page is present, non-empty and not `"0"`. Without a path it is `"<i+1>. [No path information available]"`.
  - Because pages are written with `std::to_string`, the page suffix disappears exactly for page 0.
- **Command loop** (`Commands`, `main`). One pass of the loop is `Dispatch`, from a command line to its effects. It includes the source's quirk: the `help` test at main.cpp:325 stands alone, and the `index` test at main.cpp:328 opens a new `if` rather than continuing with `else if`. So `help` prints the help text and then falls into the final `else` of the `index`/`search`/`exit` chain, printing the unknown-command message too. `search` reads the following input line as its query.
- **Decimal spelling** (`Decimal`). `std::to_string` and `operator<<` for page numbers, hit ordinals and counts, with the round trip back to the number.

Filesystem facts are inputs, not foreign calls. That covers the traversal order, `is_regular_file`, `exists`, `is_empty` and a file's extension. The ranked hit list is also an input. `SearchOutcome.Failed` stands for a `std::exception` caught by `searchIndex`'s handler, for instance a `filesystem_error` from `exists`/`is_empty` or a `range_error` from `toTCHAR` on a query that is not valid UTF-8. Page numbers are `nat`: the source's `int i` runs over `[0, pages())`.

## Model

| member | source | states |
|---|---|---|
| Decimal.NatToString | main.cpp:224 | the spelling of a page number is non-empty, all decimal digits, and starts with '0' only when it is "0" for zero |
| Decimal.ParseOfNatToString | main.cpp:224 | reading the decimal spelling back gives the original number |
| Decimal.NatToStringInjective | main.cpp:224 | distinct page numbers have distinct spellings, and only equal ones share one |
| Decimal.NatToStringIsZero | main.cpp:286 | the spelling equals "0" exactly for page 0 |
| Extraction.PageContent | main.cpp:147-181 | a page yields nothing exactly when it is null, threw, has empty text, or both conversions threw or were empty; otherwise it yields non-empty bytes; they are the UTF-8 bytes whenever those are non-empty, and Latin-1 is used only when UTF-8 threw or was empty |
| Extraction.ExtractPdfPages | main.cpp:144-186 | the page loop returns exactly the pairs selected page by page, in page order |
| Extraction.ExtractTextWithPages | main.cpp:109-194 | extraction returns exactly the extension-dispatched result: text pages for `.txt`, the page loop for a loaded `.pdf`, nothing otherwise |
| Extraction.TextFilePages | main.cpp:112-125 | a `.txt` file with contents yields exactly `(0, contents)`; an empty or unreadable one yields nothing |
| Extraction.OtherFilePages | main.cpp:109-193 | a file whose extension is neither `.txt` nor `.pdf` yields nothing |
| Extraction.SelectedWellFormed | main.cpp:144-186 | the pairs for the first k pages have non-empty content, page numbers below k, and strictly increasing page numbers |
| Extraction.PdfPagesWellFormed | main.cpp:144-186 | for a PDF of n pages every emitted page number lies in [0, n), the numbers strictly increase, no page number appears twice, and every pair has content |
| Extraction.ExtractedWellFormed | main.cpp:112-186 | for any file every extracted pair has content and the page numbers strictly increase |
| Extraction.SelectedMembership | main.cpp:144-186 | page i is emitted with content c if and only if i is a page of the document and page i's own record selects c, whatever happened on other pages |
| Extraction.PagesIndependent | main.cpp:146-185 | changing what page j yields (including making it fail) leaves the pairs of every other page unchanged and in order |
| Extraction.SkippedPage | main.cpp:148-151 | a null page j yields exactly the other pages' pairs, in the order they had |
| Documents.MakeDocument | main.cpp:213-236 | the page document has exactly three fields: `path` = the file path, `page` = the decimal page number and `content` = the page text; each of its fields is stored exactly when it is untokenized |
| Documents.StoredFieldsOfPageDocument | main.cpp:217-236 | from a hit on a page document, `path` and `page` can be fetched back, and `content` cannot because it is not stored |
| Documents.OnlyContentTokenized | main.cpp:232-236 | the only text handed to the analyzer for a page document is the page content |
| Documents.PageRoundTrip | main.cpp:224-229 | the stored `page` string is all digits and parses back to the page number |
| Documents.EmptyContentAddsNothing | main.cpp:211-212 | a pair with empty content adds no document |
| Documents.OneDocumentPerPage | main.cpp:211-241 | when every pair has content there is exactly one document per pair, in input order, built from that pair |
| Documents.ExtractedPagesIndexed | main.cpp:207-241 | every pair extracted from a file becomes exactly one document, in extraction order |
| Documents.TextFileIndexed | main.cpp:204-241 | a regular non-empty `.txt` file is indexed as one document whose stored page is "0" |
| Documents.IndexWriter.constructor | main.cpp:202 | a writer opened with create = true starts with no documents |
| Documents.IndexWriter.AddDocument | main.cpp:238 | adding a document appends it to the writer's documents |
| Documents.IndexPages | main.cpp:211-241 | the page loop appends exactly the documents for the file's non-empty pairs, in order, after those already added |
| Documents.IndexFiles | main.cpp:197-244 | indexing a traversal leaves in a fresh writer exactly the documents of the regular files' pages, file by file and page by page |
| Documents.IndexedDocumentsAppend | main.cpp:204-238 | the traversal adds documents entry by entry: the documents of a traversal made of two parts are those of the first part followed by those of the second |
| Search.HitLine | main.cpp:284-292 | a hit line starts with "<i+1>. "; without a path the rest is "[No path information available]"; with a path it starts "<i+1>. File: <path>", is exactly that when the page is absent, empty or "0", and otherwise continues with " (page <page>)" |
| Search.FoundHeader | main.cpp:275 | the header is "Found ", the hit count in decimal, " results for \"", the query as typed, and "\":", each at its own position and with nothing else |
| Search.HitLineNumbered | main.cpp:285-291 | every hit line starts with the hit's 1-based ordinal and ". ", and the ordinal parses back to i + 1 |
| Search.HitLineOfPageDocument | main.cpp:284-292 | a hit on the document for page p of a file prints its path, with the page suffix exactly when p is not 0 |
| Search.SearchIndex | main.cpp:258-302 | a missing or empty index gives only the error line; a search that threw gives only "Search error: …"; otherwise the header with the hit count, then line k + 1 = the hit line for hit k with that hit's stored path and page |
| Search.TwoPagesExtracted | main.cpp:144-186 | a PDF whose two pages read "apple" and "banana" yields pages 0 and 1 |
| Search.TwoPagePdfIndexed | main.cpp:211-238 | that PDF becomes two documents sharing the path, pages 0 and 1 in order |
| Search.BananaHitLine | main.cpp:284-289 | the first hit, on page 1 of that PDF, prints "1. File: <path> (page 1)" |
| Search.AppleHitLine | main.cpp:284-289 | the second hit, on page 0, prints "2. File: <path>" with no page |
| Commands.Dispatch | main.cpp:325-353 | only `exit` stops; the help text is printed exactly for `help`; the unknown-command message is printed exactly for commands other than `index`, `search`, `exit` (so also for `help`), and for a command other than those four it is the only effect; `index` creates the data directory, and prints the "Created 'test_data'" message, exactly when the directory is missing, and indexes exactly when it exists; "Index not found" is printed exactly for `search` without an index directory; a search happens exactly for `search` with one, and always on the following input line (empty at end of input) |
| Commands.CommandLoop | main.cpp:322-354 | the loop produces exactly the effects of the commands read until `exit` or the end of input, with the query lines taken by `search` |
| Commands.HelpAlsoUnknown | main.cpp:325-353 | `help` prints the help text and then the unknown-command message, and does not stop |
| Commands.ExitStops | main.cpp:348-350 | `exit` stops at once, doing nothing and reading no further line |
| Commands.OnlyExitStops | main.cpp:322-354 | input with no `exit` line never stops the loop |
| Commands.QueryIsNotCommand | main.cpp:337-346 | a line read as the query of `search` is not a command: "exit" after "search" is searched for, not obeyed |
| Commands.IndexThenSearch | main.cpp:328-346 | from no directories, the first `index` only creates the data directory, the second indexes, and a following `search` reads its query and searches |

## Left out

- CLucene itself: analysis, postings, segments, `optimize`, `close`, query parsing, scoring and hit order. It is a foreign library. The writer is the sequence of added documents, and the hits are an input sequence of stored documents.
- poppler (document loading, `create_page`, `text()`, `to_utf8`, `to_latin1`): foreign calls. Their outcomes are the `PdfPage` records and `SourceFile.asPdf`.
- The encoding helpers `toTCHAR`, `TCHAR_TO_STRING` and `utf8_to_wstring` (main.cpp:56-79), thin wrappers over codecvt. This model passes valid UTF-8 without a NUL character through them unchanged. It does not model their failure on other input (see `Documents.IndexFiles` below) or the cut at a NUL (see `Documents.MakeDocument` below). `wstring_to_utf8` and the iconv wrapper `safe_convert_encoding` (main.cpp:80-107) are never called. The `thread_local` buffer that `toTCHAR` returns is an aliasing concern, not logic.
- boost::filesystem: traversal order and `is_regular_file` are given as `DirEntry` values, and `extension()` as a string. `exists`, `is_empty` and `create_directory` are booleans, or the `CreateDataDir` effect.
- Console decoration: the banner, the `> ` prompt, progress dots, PDF metadata, per-page warnings and "Indexing: …" lines.
- Exceptions that escape the per-page and per-file handlers. The model does not capture the "Error during indexing" path (main.cpp:251).
- Documents.IndexFiles: its contract holds only when every file path and every extracted content is valid UTF-8. `toTCHAR` (main.cpp:59-60) throws `std::range_error` on anything else. That happens at main.cpp:219 and :234 for a `.txt` file in an 8-bit encoding, a Latin-1 fallback page with a byte of 0x80 or above, or a path that is not UTF-8. The exception ends the whole traversal in the "Error during indexing" handler (main.cpp:251), so no later file is indexed.
- Documents.MakeDocument: its `content` field holds the whole page text, but the source hands CLucene only the text before the first NUL character. `toTCHAR` returns a bare `wideStr.c_str()` pointer (main.cpp:61), and the `Field` constructor at main.cpp:233-236 reads it up to its terminator. So a `.txt` file holding `ab`, NUL, `cd` is indexed with content "ab", while the model, and `Documents.OnlyContentTokenized` with it, gives the analyzer all five characters. Paths and `to_string` page numbers hold no NUL, so `path` and `page` are unaffected.
- Extraction.PageContent: does not model the UTF-8 preview at main.cpp:165 throwing. The preview converts the first 50 bytes of the content with `utf8_to_wstring`, and this happens after the `emplace_back` at main.cpp:164 but inside the `try` closed by `catch (...) {}` at main.cpp:168. If it throws (for example when the 50-byte cut splits a multi-byte character, on a C++ library whose converter reports that as an error), the `continue` at main.cpp:166 is skipped. The Latin-1 branch then emits page i a second time whenever its Latin-1 text is non-empty. So the strictly increasing, no-repeat page numbers stated by `Extraction.PdfPagesWellFormed` and `Extraction.SelectedWellFormed` hold only when no preview throws.
- CLucene's own errors: the handlers at main.cpp:251 and main.cpp:299 catch only `std::exception`, and CLucene throws `CLuceneError`, which is not a `std::exception`. A query the parser rejects (such as `(`) would escape `searchIndex` and `main` and end the program. The model has no such outcome: `SearchOutcome.Failed` covers only the `std::exception`s named above, and the command loop always continues after a search.
- Commands.CommandLoop: stops when the input runs out, while the source's `while (true)` at main.cpp:322 never ends. `std::getline` empties its target before reading as long as the stream is still good. So when the last line ends in a newline, the first failing read sets `command` to "". Every later read then fails before touching it, and the loop prints "Unknown command. Use 'index', 'search' or 'exit'." (main.cpp:351-352) forever. The last command repeats forever only in two cases: the final line has no newline, or the last step was a `search` whose query read (main.cpp:344) is the read that hits end of input. A non-terminating loop is outside this model.
- Commands.Dispatch: assumes the index directory exists after an `index` run over an existing data directory. `FSDirectory::getDirectory(path, true)` creates it. The case where CLucene fails before creating it is not modelled. It also assumes that `fs::exists` (main.cpp:329, :338) and `fs::create_directory` (main.cpp:330) succeed. `main` (main.cpp:312-357) has no `try`, so if one of them throws `filesystem_error` the program ends. For example, the working directory may not be writable, or `test_data` may be a dangling symlink, so `exists` is false and the directory cannot be created. The model always gives `[CreateDataDir, Show(CreatedMessage)]` there and goes on to the next line.
