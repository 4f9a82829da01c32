/**
 * `DocumentProcessor`: deciding the format from the file name and assembling the
 * extracted text, the chunks and the metadata of a PDF, DOCX or XLSX file from what
 * the parsing libraries return for it.
 */
module Extraction {
  import opened Wrappers
  import opened Text
  import opened Chunker

  // ----- File names -----

  /** The index of the last occurrence of `c` in `s` (`s.rfind(c)`), if any. */
  function LastIndexOf(s: string, c: char): (r: Option<nat>)
    ensures r.Some? ==> r.value < |s| && s[r.value] == c && forall j :: r.value < j < |s| ==> s[j] != c
    ensures r.None? ==> forall j :: 0 <= j < |s| ==> s[j] != c
    decreases |s|
  {
    if s == [] then None
    else if s[|s| - 1] == c then Some(|s| - 1)
    else LastIndexOf(s[..|s| - 1], c)
  }

  predicate AllDots(s: string) {
    forall j :: 0 <= j < |s| ==> s[j] == '.'
  }

  /** Neither a dot nor a slash occurs in `s`. */
  predicate NoDotNoSlash(s: string) {
    forall j :: 0 <= j < |s| ==> s[j] != '.' && s[j] != '/'
  }

  /** A well-formed extension: a dot followed by neither dots nor slashes. */
  predicate IsExtension(e: string) {
    e != [] && e[0] == '.' && NoDotNoSlash(e[1..])
  }

  /**
   * `os.path.splitext(p)[1]` with `/` as the separator: the last dot of the final path
   * component and what follows it, unless that component has only dots before it.
   */
  function Extension(p: string): (e: string)
    ensures e == [] || (IsExtension(e) && |e| <= |p| && e == p[|p| - |e|..])
  {
    match LastIndexOf(p, '.')
    case None => ""
    case Some(d) =>
      var start := match LastIndexOf(p, '/') case None => 0 case Some(s) => s + 1;
      if start <= d && !AllDots(p[start..d]) then p[d..] else ""
  }

  /** The name of a file with a stem and an extension has that extension. */
  lemma ExtensionOfName(stem: string, ext: string)
    requires forall j :: 0 <= j < |stem| ==> stem[j] != '/'
    requires !AllDots(stem) && IsExtension(ext)
    ensures Extension(stem + ext) == ext
  {
    var p := stem + ext;
    assert p[|stem|] == '.';
    var d := LastIndexOf(p, '.');
    assert d == Some(|stem|) by {
      assert forall j :: |stem| < j < |p| ==> p[j] == ext[j - |stem|] && p[j] != '.';
    }
    assert LastIndexOf(p, '/').None? by {
      assert forall j :: 0 <= j < |p| ==> p[j] != '/' by {
        forall j | 0 <= j < |p| ensures p[j] != '/' {
          if j >= |stem| {
            assert p[j] == ext[j - |stem|];
          }
        }
      }
    }
    assert p[0..|stem|] == stem;
    assert p[|stem|..] == ext;
  }

  /** A name whose stem is nothing but dots (a hidden file such as `.pdf`) has no extension. */
  lemma HiddenNameHasNoExtension(stem: string, ext: string)
    requires AllDots(stem) && IsExtension(ext)
    ensures Extension(stem + ext) == ""
  {
    var p := stem + ext;
    assert p[|stem|] == '.';
    assert LastIndexOf(p, '.') == Some(|stem|) by {
      assert forall j :: |stem| < j < |p| ==> p[j] == ext[j - |stem|] && p[j] != '.';
    }
    assert LastIndexOf(p, '/').None? by {
      forall j | 0 <= j < |p| ensures p[j] != '/' {
        if j >= |stem| {
          assert p[j] == ext[j - |stem|];
        }
      }
    }
    assert AllDots(p[0..|stem|]) by {
      assert p[0..|stem|] == stem;
    }
  }

  /** The extensions `DocumentProcessor` handles. */
  const SupportedFormats: set<string> := {".pdf", ".docx", ".xlsx"}

  /** `is_supported_format`: the extension of the lower-cased name is a supported one. */
  predicate IsSupportedFormat(filename: string) {
    Extension(Lower(filename)) in SupportedFormats
  }

  lemma LowerKeepsDotsAndSlashes(s: string)
    ensures forall j :: 0 <= j < |s| ==> (Lower(s)[j] == '.' <==> s[j] == '.')
    ensures forall j :: 0 <= j < |s| ==> (Lower(s)[j] == '/' <==> s[j] == '/')
  {
  }

  /**
   * For a name made of a stem and an extension, the check is case-insensitive: it holds
   * exactly when the lower-cased extension is `.pdf`, `.docx` or `.xlsx`.
   */
  lemma SupportedFormatOfName(stem: string, ext: string)
    requires forall j :: 0 <= j < |stem| ==> stem[j] != '/'
    requires !AllDots(stem) && IsExtension(ext)
    ensures IsSupportedFormat(stem + ext) <==> Lower(ext) in SupportedFormats
  {
    LowerKeepsDotsAndSlashes(stem);
    LowerKeepsDotsAndSlashes(ext);
    assert Lower(stem + ext) == Lower(stem) + Lower(ext);
    var j :| 0 <= j < |stem| && stem[j] != '.';
    assert Lower(stem)[j] != '.';
    assert Lower(ext)[1..] == Lower(ext[1..]);
    LowerKeepsDotsAndSlashes(ext[1..]);
    ExtensionOfName(Lower(stem), Lower(ext));
  }

  // ----- Results -----

  lemma AppendAssoc<T>(a: seq<T>, b: seq<T>, c: seq<T>)
    ensures a + (b + c) == a + b + c
  {
  }

  /** The `metadata` dictionary of each format; `{}` for a failure. */
  datatype Metadata =
    | NoMetadata
    | PdfMeta(totalPages: nat)
    | DocxMeta(totalParagraphs: nat, totalTables: nat)
    | XlsxMeta(totalSheets: nat, sheetNames: seq<string>)

  /** The dictionary `process_document` returns; `error` is present only on failure. */
  datatype Processed = Processed(
    success: bool, extractedText: string, chunks: seq<Chunk>, metadata: Metadata, error: Option<string>)

  /** The failure dictionary built from an exception's message. */
  function Failed(message: string): Processed {
    Processed(false, "", [], NoMetadata, Some(message))
  }

  // ----- PDF -----

  /** The separator written before each non-blank page. */
  function PageHeader(pageNumber: nat): string {
    "\\n\\n--- Page " + NatToString(pageNumber) + " ---\\n\\n"
  }

  /** The text `_process_pdf` extracts from the page texts `pages`. */
  function PdfText(pages: seq<string>): string
    decreases |pages|
  {
    if pages == [] then ""
    else
      var n := |pages|;
      if Strip(pages[n - 1]) != [] then PdfText(pages[..n - 1]) + PageHeader(n) + pages[n - 1]
      else PdfText(pages[..n - 1])
  }

  /** The chunks `_process_pdf` creates from the page texts `pages`. */
  function PdfChunks(pages: seq<string>): seq<Chunk>
    decreases |pages|
  {
    if pages == [] then []
    else
      var n := |pages|;
      if Strip(pages[n - 1]) != [] then PdfChunks(pages[..n - 1]) + Chunked(pages[n - 1], Some(n), Page)
      else PdfChunks(pages[..n - 1])
  }

  function PdfResult(pages: seq<string>): Processed {
    Processed(true, PdfText(pages), PdfChunks(pages), PdfMeta(|pages|), None)
  }

  /** `_process_pdf` over the text of each page, with `total_pages` read while the document is open. */
  method ProcessPdf(pages: seq<string>) returns (r: Processed)
    ensures r == PdfResult(pages)
  {
    var text := "";
    var chunks := [];
    for i := 0 to |pages|
      invariant text == PdfText(pages[..i]) && chunks == PdfChunks(pages[..i])
    {
      assert pages[..i + 1][..i] == pages[..i];
      var pageText := pages[i];
      if Strip(pageText) != "" {
        text := text + PageHeader(i + 1);
        text := text + pageText;
        var pageChunks := CreateChunks(pageText, Some(i + 1), Page);
        chunks := chunks + pageChunks;
      }
    }
    assert pages[..|pages|] == pages;
    r := Processed(true, text, chunks, PdfMeta(|pages|), None);
  }

  /** The page a chunk is tagged with, 0 when it has none. */
  function PageOf(c: Chunk): int {
    if c.pageNumber.Some? then c.pageNumber.value else 0
  }

  /**
   * Every chunk is tagged `page` with the 1-based number of a page whose text is not
   * blank, and the chunks follow the order of the pages.
   */
  predicate PageTagged(cs: seq<Chunk>, pages: seq<string>) {
    && (forall k :: 0 <= k < |cs| ==>
          && cs[k].sectionType == Page && cs[k].pageNumber == Some(PageOf(cs[k]))
          && 1 <= PageOf(cs[k]) <= |pages| && Strip(pages[PageOf(cs[k]) - 1]) != [])
    && (forall j, k :: 0 <= j < k < |cs| ==> PageOf(cs[j]) <= PageOf(cs[k]))
  }

  /** Tags that are right for the first pages stay right when a page is added. */
  lemma PageTaggedExtend(cs: seq<Chunk>, pages: seq<string>)
    requires pages != [] && PageTagged(cs, pages[..|pages| - 1])
    ensures PageTagged(cs, pages)
    ensures forall k :: 0 <= k < |cs| ==> PageOf(cs[k]) < |pages|
  {
    var prev := pages[..|pages| - 1];
    assert forall k :: 0 <= k < |cs| ==> prev[PageOf(cs[k]) - 1] == pages[PageOf(cs[k]) - 1];
  }

  /** The chunks of the last page, all tagged with its number, go after the earlier pages' chunks. */
  lemma PageTaggedAppend(a: seq<Chunk>, b: seq<Chunk>, pages: seq<string>)
    requires pages != [] && Strip(pages[|pages| - 1]) != []
    requires PageTagged(a, pages) && forall k :: 0 <= k < |a| ==> PageOf(a[k]) < |pages|
    requires WellFormed(b, Some(|pages|), Page)
    ensures PageTagged(a + b, pages)
  {
    var cs := a + b;
    var n := |pages|;
    forall k | 0 <= k < |cs|
      ensures cs[k].sectionType == Page && cs[k].pageNumber == Some(PageOf(cs[k]))
      ensures 1 <= PageOf(cs[k]) <= n && Strip(pages[PageOf(cs[k]) - 1]) != []
      ensures k >= |a| ==> PageOf(cs[k]) == n
    {
      if k < |a| {
        assert cs[k] == a[k];
      } else {
        assert cs[k] == b[k - |a|];
      }
    }
    forall j, k | 0 <= j < k < |cs| ensures PageOf(cs[j]) <= PageOf(cs[k]) {
      if k < |a| {
        assert cs[j] == a[j] && cs[k] == a[k];
      } else if j < |a| {
        assert cs[j] == a[j];
      }
    }
  }

  lemma WellFormedTextsAppend(a: seq<Chunk>, b: seq<Chunk>)
    requires WellFormedTexts(a) && WellFormedTexts(b)
    ensures WellFormedTexts(a + b)
  {
    assert forall k :: |a| <= k < |a + b| ==> (a + b)[k] == b[k - |a|];
  }

  /** A chunk set well formed for some tags has well-formed texts. */
  lemma WellFormedHasTexts(cs: seq<Chunk>, pageNumber: Option<int>, sectionType: SectionType)
    requires WellFormed(cs, pageNumber, sectionType)
    ensures WellFormedTexts(cs)
  {
  }

  /**
   * PDF chunks are tagged `page` with the 1-based number of a page whose text is not
   * blank, in page order, and their texts are non-empty and stripped.
   */
  lemma {:induction false} PdfChunksTagged(pages: seq<string>)
    ensures PageTagged(PdfChunks(pages), pages)
    ensures WellFormedTexts(PdfChunks(pages))
    decreases |pages|
  {
    if pages != [] {
      var n := |pages|;
      var prev := pages[..n - 1];
      PdfChunksTagged(prev);
      var a := PdfChunks(prev);
      PageTaggedExtend(a, pages);
      if Strip(pages[n - 1]) != [] {
        var b := Chunked(pages[n - 1], Some(n), Page);
        ChunkedWellFormed(pages[n - 1], Some(n), Page);
        PageTaggedAppend(a, b, pages);
        WellFormedHasTexts(b, Some(n), Page);
        WellFormedTextsAppend(a, b);
      }
    }
  }

  /** Every chunk's text is non-empty and stripped, and its `length` is that text's length. */
  predicate WellFormedTexts(cs: seq<Chunk>) {
    forall k :: 0 <= k < |cs| ==> cs[k].text != [] && IsStripped(cs[k].text) && cs[k].length == |cs[k].text|
  }

  // ----- DOCX -----

  /** What python-docx reads: the paragraph texts, and each table as rows of cell texts. */
  datatype DocxBody = DocxBody(paragraphs: seq<string>, tables: seq<seq<seq<string>>>)

  /** One table row: the stripped cell texts joined by `" | "`. */
  function RowLine(cells: seq<string>): string {
    Join(StripAll(cells), " | ")
  }

  /** The text `_extract_table_text` builds: each row's line followed by a row terminator. */
  function TableText(rows: seq<seq<string>>): string
    decreases |rows|
  {
    if rows == [] then "" else TableText(rows[..|rows| - 1]) + (RowLine(rows[|rows| - 1]) + "\\n")
  }

  /** `_extract_table_text` */
  method ExtractTableText(rows: seq<seq<string>>) returns (tableText: string)
    ensures tableText == TableText(rows)
  {
    tableText := "";
    for i := 0 to |rows|
      invariant tableText == TableText(rows[..i])
    {
      assert rows[..i + 1][..i] == rows[..i];
      var rowText := RowLine(rows[i]);
      tableText := tableText + (rowText + "\\n");
    }
    assert rows[..|rows|] == rows;
  }

  /**
   * A table's text is blank exactly when the table has no rows: every row, even one of
   * empty cells, leaves its terminator behind.
   */
  lemma TableTextBlank(rows: seq<seq<string>>)
    ensures Strip(TableText(rows)) == [] <==> rows == []
  {
    if rows != [] {
      var t := TableText(rows);
      assert t[|t| - 1] == 'n';
      StripEmpty(t);
    }
  }

  /** The paragraph part of the text: each non-blank paragraph followed by a blank line. */
  function ParagraphText(paragraphs: seq<string>): string
    decreases |paragraphs|
  {
    if paragraphs == [] then ""
    else
      var p := paragraphs[|paragraphs| - 1];
      var prev := ParagraphText(paragraphs[..|paragraphs| - 1]);
      if Strip(p) != [] then prev + (p + "\\n\\n") else prev
  }

  function ParagraphChunks(paragraphs: seq<string>): seq<Chunk>
    decreases |paragraphs|
  {
    if paragraphs == [] then []
    else
      var p := paragraphs[|paragraphs| - 1];
      var prev := ParagraphChunks(paragraphs[..|paragraphs| - 1]);
      if Strip(p) != [] then prev + Chunked(p, None, Paragraph) else prev
  }

  /** The separator written before each non-blank table. */
  function TableHeader(tableNumber: nat): string {
    "\\n\\n--- Table " + NatToString(tableNumber) + " ---\\n\\n"
  }

  /** The table part of the text: each non-blank table under its 1-based number. */
  function TablesText(tables: seq<seq<seq<string>>>): string
    decreases |tables|
  {
    if tables == [] then ""
    else
      var n := |tables|;
      var t := TableText(tables[n - 1]);
      var prev := TablesText(tables[..n - 1]);
      if Strip(t) != [] then prev + TableHeader(n) + (t + "\\n\\n") else prev
  }

  function TablesChunks(tables: seq<seq<seq<string>>>): seq<Chunk>
    decreases |tables|
  {
    if tables == [] then []
    else
      var n := |tables|;
      var t := TableText(tables[n - 1]);
      var prev := TablesChunks(tables[..n - 1]);
      if Strip(t) != [] then prev + Chunked(t, None, Table) else prev
  }

  function DocxResult(body: DocxBody): Processed {
    Processed(true,
      ParagraphText(body.paragraphs) + TablesText(body.tables),
      ParagraphChunks(body.paragraphs) + TablesChunks(body.tables),
      DocxMeta(|body.paragraphs|, |body.tables|), None)
  }

  lemma ParagraphsStep(paragraphs: seq<string>, i: nat)
    requires i < |paragraphs|
    ensures var p := paragraphs[i];
      && ParagraphText(paragraphs[..i + 1])
         == (if Strip(p) != [] then ParagraphText(paragraphs[..i]) + (p + "\\n\\n") else ParagraphText(paragraphs[..i]))
      && ParagraphChunks(paragraphs[..i + 1])
         == (if Strip(p) != [] then ParagraphChunks(paragraphs[..i]) + Chunked(p, None, Paragraph) else ParagraphChunks(paragraphs[..i]))
  {
    assert paragraphs[..i + 1][..i] == paragraphs[..i];
  }

  lemma TablesStep(tables: seq<seq<seq<string>>>, i: nat)
    requires i < |tables|
    ensures var t := TableText(tables[i]);
      && TablesText(tables[..i + 1])
         == (if Strip(t) != [] then TablesText(tables[..i]) + TableHeader(i + 1) + (t + "\\n\\n") else TablesText(tables[..i]))
      && TablesChunks(tables[..i + 1])
         == (if Strip(t) != [] then TablesChunks(tables[..i]) + Chunked(t, None, Table) else TablesChunks(tables[..i]))
  {
    assert tables[..i + 1][..i] == tables[..i];
  }

  /** The paragraph loop of `_process_docx`. */
  method ProcessParagraphs(paragraphs: seq<string>) returns (text: string, chunks: seq<Chunk>)
    ensures text == ParagraphText(paragraphs) && chunks == ParagraphChunks(paragraphs)
  {
    text := "";
    chunks := [];
    for i := 0 to |paragraphs|
      invariant text == ParagraphText(paragraphs[..i]) && chunks == ParagraphChunks(paragraphs[..i])
    {
      ParagraphsStep(paragraphs, i);
      var paragraph := paragraphs[i];
      if Strip(paragraph) != "" {
        text := text + (paragraph + "\\n\\n");
        var paragraphChunks := CreateChunks(paragraph, None, Paragraph);
        chunks := chunks + paragraphChunks;
      }
    }
    assert paragraphs[..|paragraphs|] == paragraphs;
  }

  /** The table loop of `_process_docx`, appending to the paragraphs' text and chunks. */
  method ProcessTables(tables: seq<seq<seq<string>>>, text0: string, chunks0: seq<Chunk>)
    returns (text: string, chunks: seq<Chunk>)
    ensures text == text0 + TablesText(tables) && chunks == chunks0 + TablesChunks(tables)
  {
    text := text0;
    chunks := chunks0;
    assert text0 + "" == text0 && chunks0 + [] == chunks0;
    for i := 0 to |tables|
      invariant text == text0 + TablesText(tables[..i]) && chunks == chunks0 + TablesChunks(tables[..i])
    {
      TablesStep(tables, i);
      var tableText := ExtractTableText(tables[i]);
      if Strip(tableText) != "" {
        ghost var prev := TablesText(tables[..i]);
        AppendAssoc(text0, prev, TableHeader(i + 1));
        text := text + TableHeader(i + 1);
        AppendAssoc(text0, prev + TableHeader(i + 1), tableText + "\\n\\n");
        text := text + (tableText + "\\n\\n");
        var tableChunks := CreateChunks(tableText, None, Table);
        AppendAssoc(chunks0, TablesChunks(tables[..i]), tableChunks);
        chunks := chunks + tableChunks;
      }
    }
    assert tables[..|tables|] == tables;
  }

  /** `_process_docx`: the paragraphs first, then the tables. */
  method ProcessDocx(body: DocxBody) returns (r: Processed)
    ensures r == DocxResult(body)
  {
    var text, chunks := ProcessParagraphs(body.paragraphs);
    text, chunks := ProcessTables(body.tables, text, chunks);
    r := Processed(true, text, chunks, DocxMeta(|body.paragraphs|, |body.tables|), None);
  }

  /** Chunks well formed for one tag, appended, stay well formed for it. */
  lemma WellFormedAppend(a: seq<Chunk>, b: seq<Chunk>, pageNumber: Option<int>, sectionType: SectionType)
    requires WellFormed(a, pageNumber, sectionType) && WellFormed(b, pageNumber, sectionType)
    ensures WellFormed(a + b, pageNumber, sectionType)
  {
    assert forall k :: |a| <= k < |a + b| ==> (a + b)[k] == b[k - |a|];
  }

  /** One step of a chunking loop: appending the well-formed chunks of a kept text, or nothing, keeps the list well formed. */
  lemma WellFormedStep(prev: seq<Chunk>, c: seq<Chunk>, keep: bool, next: seq<Chunk>, pageNumber: Option<int>, sectionType: SectionType)
    requires WellFormed(prev, pageNumber, sectionType) && WellFormed(c, pageNumber, sectionType)
    requires next == if keep then prev + c else prev
    ensures WellFormed(next, pageNumber, sectionType)
  {
    if keep {
      WellFormedAppend(prev, c, pageNumber, sectionType);
    }
  }

  lemma {:induction false} ParagraphChunksWellFormed(paragraphs: seq<string>)
    ensures WellFormed(ParagraphChunks(paragraphs), None, Paragraph)
    decreases |paragraphs|
  {
    if paragraphs != [] {
      var p := paragraphs[|paragraphs| - 1];
      ParagraphChunksWellFormed(paragraphs[..|paragraphs| - 1]);
      ChunkedWellFormed(p, None, Paragraph);
      WellFormedStep(ParagraphChunks(paragraphs[..|paragraphs| - 1]), Chunked(p, None, Paragraph), Strip(p) != [],
        ParagraphChunks(paragraphs), None, Paragraph);
    }
  }

  lemma {:induction false} TablesChunksWellFormed(tables: seq<seq<seq<string>>>)
    ensures WellFormed(TablesChunks(tables), None, Table)
    decreases |tables|
  {
    if tables != [] {
      var t := TableText(tables[|tables| - 1]);
      TablesChunksWellFormed(tables[..|tables| - 1]);
      ChunkedWellFormed(t, None, Table);
      WellFormedStep(TablesChunks(tables[..|tables| - 1]), Chunked(t, None, Table), Strip(t) != [],
        TablesChunks(tables), None, Table);
    }
  }

  /**
   * DOCX chunks: all paragraph chunks come first, tagged `paragraph`, then all table
   * chunks, tagged `table`; none has a page number.
   */
  lemma DocxChunksOrdered(body: DocxBody)
    ensures var cs := DocxResult(body).chunks;
      var n := |ParagraphChunks(body.paragraphs)|;
      n <= |cs| && WellFormed(cs[..n], None, Paragraph) && WellFormed(cs[n..], None, Table)
  {
    var a := ParagraphChunks(body.paragraphs);
    var b := TablesChunks(body.tables);
    ParagraphChunksWellFormed(body.paragraphs);
    TablesChunksWellFormed(body.tables);
    assert (a + b)[..|a|] == a;
    assert (a + b)[|a|..] == b;
  }

  // ----- XLSX -----

  /** What pandas reads from one sheet: its name, its column names and its rows, `None` for a null cell. */
  datatype Sheet = Sheet(name: string, columns: seq<string>, rows: seq<seq<Option<string>>>)

  /** At most this many data rows of each sheet are read (`df.head(100)`). */
  const MaxSheetRows := 100

  /** `xs[:n]` */
  function Head<T>(xs: seq<T>, n: nat): (r: seq<T>)
    ensures |r| <= n && r <= xs && (|xs| <= n ==> r == xs)
  {
    if |xs| <= n then xs else xs[..n]
  }

  /** The separator written before each sheet. */
  function SheetHeader(name: string): string {
    "\\n\\n--- Sheet: " + name + " ---\\n\\n"
  }

  /** The header chunk's text: `"Columns: "` and the column names joined by `", "`. */
  function HeaderText(columns: seq<string>): string {
    "Columns: " + Join(columns, ", ")
  }

  /** The non-null values of a row, in order. */
  function Present(values: seq<Option<string>>): (r: seq<string>)
    ensures |r| <= |values|
    decreases |values|
  {
    if values == [] then []
    else
      var v := values[|values| - 1];
      Present(values[..|values| - 1]) + (if v.Some? then [v.value] else [])
  }

  /** A row's text: its non-null values joined by `" | "`. */
  function RowText(values: seq<Option<string>>): string {
    Join(Present(values), " | ")
  }

  /** The data-row part of a sheet's text: each non-blank row's text on its own line. */
  function RowsText(rows: seq<seq<Option<string>>>): string
    decreases |rows|
  {
    if rows == [] then ""
    else
      var t := RowText(rows[|rows| - 1]);
      var prev := RowsText(rows[..|rows| - 1]);
      if Strip(t) != [] then prev + (t + "\\n") else prev
  }

  function RowsChunks(rows: seq<seq<Option<string>>>): seq<Chunk>
    decreases |rows|
  {
    if rows == [] then []
    else
      var t := RowText(rows[|rows| - 1]);
      var prev := RowsChunks(rows[..|rows| - 1]);
      if Strip(t) != [] then prev + Chunked(t, None, DataRow) else prev
  }

  /** The text of one sheet: its separator, its header line and its first rows. */
  function SheetText(sheet: Sheet): string {
    SheetHeader(sheet.name) + (HeaderText(sheet.columns) + "\\n\\n") + RowsText(Head(sheet.rows, MaxSheetRows))
  }

  /** The chunks of one sheet: its header's, then its first rows'. */
  function SheetChunks(sheet: Sheet): seq<Chunk> {
    Chunked(HeaderText(sheet.columns), None, Headers) + RowsChunks(Head(sheet.rows, MaxSheetRows))
  }

  function SheetsText(sheets: seq<Sheet>): string
    decreases |sheets|
  {
    if sheets == [] then "" else SheetsText(sheets[..|sheets| - 1]) + SheetText(sheets[|sheets| - 1])
  }

  function SheetsChunks(sheets: seq<Sheet>): seq<Chunk>
    decreases |sheets|
  {
    if sheets == [] then [] else SheetsChunks(sheets[..|sheets| - 1]) + SheetChunks(sheets[|sheets| - 1])
  }

  function SheetNames(sheets: seq<Sheet>): (names: seq<string>)
    ensures |names| == |sheets| && forall k :: 0 <= k < |sheets| ==> names[k] == sheets[k].name
  {
    seq(|sheets|, k requires 0 <= k < |sheets| => sheets[k].name)
  }

  function XlsxResult(sheets: seq<Sheet>): Processed {
    Processed(true, SheetsText(sheets), SheetsChunks(sheets), XlsxMeta(|sheets|, SheetNames(sheets)), None)
  }

  /** The fold over one more row. */
  lemma RowsStep(rows: seq<seq<Option<string>>>, i: nat)
    requires i < |rows|
    ensures var t := RowText(rows[i]);
      && RowsText(rows[..i + 1]) == (if Strip(t) != [] then RowsText(rows[..i]) + (t + "\\n") else RowsText(rows[..i]))
      && RowsChunks(rows[..i + 1]) == (if Strip(t) != [] then RowsChunks(rows[..i]) + Chunked(t, None, DataRow) else RowsChunks(rows[..i]))
  {
    assert rows[..i + 1][..i] == rows[..i];
  }

  /** The rows of one sheet: appends each non-blank row's line and chunks. */
  method ProcessRows(rows: seq<seq<Option<string>>>, text0: string, chunks0: seq<Chunk>)
    returns (text: string, chunks: seq<Chunk>)
    ensures text == text0 + RowsText(rows) && chunks == chunks0 + RowsChunks(rows)
  {
    text := text0;
    chunks := chunks0;
    assert text0 + "" == text0 && chunks0 + [] == chunks0;
    for i := 0 to |rows|
      invariant text == text0 + RowsText(rows[..i]) && chunks == chunks0 + RowsChunks(rows[..i])
    {
      RowsStep(rows, i);
      var rowText := RowText(rows[i]);
      if Strip(rowText) != "" {
        AppendAssoc(text0, RowsText(rows[..i]), rowText + "\\n");
        text := text + (rowText + "\\n");
        var rowChunks := CreateChunks(rowText, None, DataRow);
        AppendAssoc(chunks0, RowsChunks(rows[..i]), rowChunks);
        chunks := chunks + rowChunks;
      }
    }
    assert rows[..|rows|] == rows;
  }

  lemma SheetsStep(sheets: seq<Sheet>, i: nat)
    requires i < |sheets|
    ensures SheetsText(sheets[..i + 1]) == SheetsText(sheets[..i]) + SheetText(sheets[i])
    ensures SheetsChunks(sheets[..i + 1]) == SheetsChunks(sheets[..i]) + SheetChunks(sheets[i])
  {
    assert sheets[..i + 1][..i] == sheets[..i];
  }

  /** One sheet of `_process_xlsx`: its separator, its header line and chunks, then its first rows. */
  method ProcessSheet(sheet: Sheet, text0: string, chunks0: seq<Chunk>) returns (text: string, chunks: seq<Chunk>)
    ensures text == text0 + SheetText(sheet) && chunks == chunks0 + SheetChunks(sheet)
  {
    var headerText := HeaderText(sheet.columns);
    var rows := Head(sheet.rows, MaxSheetRows);
    text := text0 + SheetHeader(sheet.name);
    text := text + (headerText + "\\n\\n");
    var headerChunks := CreateChunks(headerText, None, Headers);
    chunks := chunks0 + headerChunks;
    text, chunks := ProcessRows(rows, text, chunks);
    AppendAssoc(text0, SheetHeader(sheet.name) + (headerText + "\\n\\n"), RowsText(rows));
    AppendAssoc(text0, SheetHeader(sheet.name), headerText + "\\n\\n");
    AppendAssoc(chunks0, headerChunks, RowsChunks(rows));
  }

  /** `_process_xlsx`: every sheet in turn. */
  method ProcessXlsx(sheets: seq<Sheet>) returns (r: Processed)
    ensures r == XlsxResult(sheets)
  {
    var text := "";
    var chunks := [];
    assert sheets[..0] == [];
    for i := 0 to |sheets|
      invariant text == SheetsText(sheets[..i]) && chunks == SheetsChunks(sheets[..i])
    {
      SheetsStep(sheets, i);
      text, chunks := ProcessSheet(sheets[i], text, chunks);
    }
    assert sheets[..|sheets|] == sheets;
    r := Processed(true, text, chunks, XlsxMeta(|sheets|, SheetNames(sheets)), None);
  }

  /** Rows after the first 100 of a sheet change neither its text nor its chunks. */
  lemma SheetRowCap(sheet: Sheet, extra: seq<seq<Option<string>>>)
    requires |sheet.rows| >= MaxSheetRows
    ensures SheetText(sheet.(rows := sheet.rows + extra)) == SheetText(sheet)
    ensures SheetChunks(sheet.(rows := sheet.rows + extra)) == SheetChunks(sheet)
  {
    assert Head(sheet.rows + extra, MaxSheetRows) == Head(sheet.rows, MaxSheetRows);
  }

  lemma {:induction false} PresentAllNull(values: seq<Option<string>>)
    requires forall k :: 0 <= k < |values| ==> values[k].None?
    ensures Present(values) == []
    decreases |values|
  {
    if values != [] {
      PresentAllNull(values[..|values| - 1]);
    }
  }

  /** A row whose cells are all null contributes neither text nor chunks. */
  lemma NullRowSkipped(rows: seq<seq<Option<string>>>, row: seq<Option<string>>)
    requires forall k :: 0 <= k < |row| ==> row[k].None?
    ensures RowsText(rows + [row]) == RowsText(rows)
    ensures RowsChunks(rows + [row]) == RowsChunks(rows)
  {
    PresentAllNull(row);
    assert (rows + [row])[..|rows|] == rows;
  }

  lemma {:induction false} RowsChunksWellFormed(rows: seq<seq<Option<string>>>)
    ensures WellFormed(RowsChunks(rows), None, DataRow)
    decreases |rows|
  {
    if rows != [] {
      var t := RowText(rows[|rows| - 1]);
      RowsChunksWellFormed(rows[..|rows| - 1]);
      if Strip(t) != [] {
        ChunkedWellFormed(t, None, DataRow);
        WellFormedAppend(RowsChunks(rows[..|rows| - 1]), Chunked(t, None, DataRow), None, DataRow);
      }
    }
  }

  /**
   * A sheet's chunks start with those of its `"Columns: ..."` header, tagged `headers`,
   * followed by its row chunks, tagged `data_row`; none has a page number.
   */
  lemma SheetChunksOrdered(sheet: Sheet)
    ensures var cs := SheetChunks(sheet);
      var h := Chunked("Columns: " + Join(sheet.columns, ", "), None, Headers);
      |h| <= |cs| && cs[..|h|] == h && WellFormed(h, None, Headers) && WellFormed(cs[|h|..], None, DataRow)
  {
    var h := Chunked(HeaderText(sheet.columns), None, Headers);
    var b := RowsChunks(Head(sheet.rows, MaxSheetRows));
    ChunkedWellFormed(HeaderText(sheet.columns), None, Headers);
    RowsChunksWellFormed(Head(sheet.rows, MaxSheetRows));
    assert (h + b)[..|h|] == h;
    assert (h + b)[|h|..] == b;
  }

  // ----- Dispatch -----

  /**
   * What each parsing library returns for the file at `file_path`: its page texts, its
   * paragraphs and tables, or its sheets, or the message of the exception it raises.
   */
  datatype SourceFile = SourceFile(pdf: Result<seq<string>>, docx: Result<DocxBody>, xlsx: Result<seq<Sheet>>)

  /** The dictionary `process_document` returns for `file` named `filename`. */
  function ProcessedDocument(file: SourceFile, filename: string): Processed {
    var ext := Extension(Lower(filename));
    if ext == ".pdf" then
      match file.pdf
      case Success(pages) => PdfResult(pages)
      case Failure(e) => Failed(e)
    else if ext == ".docx" then
      match file.docx
      case Success(body) => DocxResult(body)
      case Failure(e) => Failed(e)
    else if ext == ".xlsx" then
      match file.xlsx
      case Success(sheets) => XlsxResult(sheets)
      case Failure(e) => Failed(e)
    else Failed("Unsupported file format: " + ext)
  }

  /** `process_document`: choose the extractor by the lower-cased extension; any exception becomes a failure. */
  method ProcessDocument(file: SourceFile, filename: string) returns (r: Processed)
    ensures r == ProcessedDocument(file, filename)
  {
    var ext := Extension(Lower(filename));
    if ext == ".pdf" {
      match file.pdf
      case Success(pages) =>
        r := ProcessPdf(pages);
      case Failure(e) =>
        r := Failed(e);
    } else if ext == ".docx" {
      match file.docx
      case Success(body) =>
        r := ProcessDocx(body);
      case Failure(e) =>
        r := Failed(e);
    } else if ext == ".xlsx" {
      match file.xlsx
      case Success(sheets) =>
        r := ProcessXlsx(sheets);
      case Failure(e) =>
        r := Failed(e);
    } else {
      r := Failed("Unsupported file format: " + ext);
    }
  }

  /** Whether the library for the file's format parses it. */
  predicate Parses(file: SourceFile, ext: string) {
    if ext == ".pdf" then file.pdf.Success?
    else if ext == ".docx" then file.docx.Success?
    else file.xlsx.Success?
  }

  /**
   * An unsupported extension yields the failure dictionary naming it, with no text, no
   * chunks and no metadata.
   */
  lemma UnsupportedFormatFails(file: SourceFile, filename: string)
    requires !IsSupportedFormat(filename)
    ensures var r := ProcessedDocument(file, filename);
      && !r.success && r.extractedText == "" && r.chunks == [] && r.metadata == NoMetadata
      && r.error == Some("Unsupported file format: " + Extension(Lower(filename)))
  {
  }

  /**
   * Processing succeeds exactly when the format is supported and its library parses the
   * file; a failure carries a message and nothing else, a success carries no message.
   */
  lemma ProcessedSuccess(file: SourceFile, filename: string)
    ensures var r := ProcessedDocument(file, filename);
      && (r.success <==> IsSupportedFormat(filename) && Parses(file, Extension(Lower(filename))))
      && (!r.success ==> r.extractedText == "" && r.chunks == [] && r.metadata == NoMetadata && r.error.Some?)
      && (r.success ==> r.error == None)
  {
    var ext := Extension(Lower(filename));
    var r := ProcessedDocument(file, filename);
    if ext == ".pdf" {
      assert r == if file.pdf.Success? then PdfResult(file.pdf.value) else Failed(file.pdf.error);
    } else if ext == ".docx" {
      assert r == if file.docx.Success? then DocxResult(file.docx.value) else Failed(file.docx.error);
    } else if ext == ".xlsx" {
      assert r == if file.xlsx.Success? then XlsxResult(file.xlsx.value) else Failed(file.xlsx.error);
    } else {
      assert r == Failed("Unsupported file format: " + ext);
    }
  }

  /** Every chunk of a processed document has a non-empty stripped text whose length it records. */
  lemma ProcessedChunksWellFormed(file: SourceFile, filename: string)
    ensures WellFormedTexts(ProcessedDocument(file, filename).chunks)
  {
    var ext := Extension(Lower(filename));
    if ext == ".pdf" && file.pdf.Success? {
      PdfChunksTagged(file.pdf.value);
    } else if ext == ".docx" && file.docx.Success? {
      var body := file.docx.value;
      ParagraphChunksWellFormed(body.paragraphs);
      TablesChunksWellFormed(body.tables);
      WellFormedHasTexts(ParagraphChunks(body.paragraphs), None, Paragraph);
      WellFormedHasTexts(TablesChunks(body.tables), None, Table);
      WellFormedTextsAppend(ParagraphChunks(body.paragraphs), TablesChunks(body.tables));
    } else if ext == ".xlsx" && file.xlsx.Success? {
      SheetsChunksWellFormed(file.xlsx.value);
    }
  }

  lemma {:induction false} SheetsChunksWellFormed(sheets: seq<Sheet>)
    ensures WellFormedTexts(SheetsChunks(sheets))
    decreases |sheets|
  {
    if sheets != [] {
      var sheet := sheets[|sheets| - 1];
      SheetsChunksWellFormed(sheets[..|sheets| - 1]);
      var h := Chunked(HeaderText(sheet.columns), None, Headers);
      var rows := RowsChunks(Head(sheet.rows, MaxSheetRows));
      ChunkedWellFormed(HeaderText(sheet.columns), None, Headers);
      RowsChunksWellFormed(Head(sheet.rows, MaxSheetRows));
      WellFormedHasTexts(h, None, Headers);
      WellFormedHasTexts(rows, None, DataRow);
      WellFormedTextsAppend(h, rows);
      WellFormedTextsAppend(SheetsChunks(sheets[..|sheets| - 1]), SheetChunks(sheet));
    }
  }

  // ----- `_process_pdf` as written -----

  /**
   * `process_document` as written: `_process_pdf` reads `len(doc)` for `total_pages`
   * after `doc.close()`, and PyMuPDF refuses every operation on a closed document, so the
   * exception handler turns every parsed PDF into a failure.
   */
  function ProcessedDocumentAsWritten(file: SourceFile, filename: string): Processed {
    var ext := Extension(Lower(filename));
    if ext == ".pdf" then
      match file.pdf
      case Success(pages) => Failed(ClosedDocumentError)
      case Failure(e) => Failed(e)
    else ProcessedDocument(file, filename)
  }

  /** The message of PyMuPDF's exception for an operation on a closed document. */
  const ClosedDocumentError := "document closed"

  /**
   * As written, a PDF never processes successfully, not even one PyMuPDF parses; with
   * `total_pages` read before closing, it does, and only the PDF path differs.
   */
  lemma PdfAfterCloseFails(file: SourceFile, filename: string)
    ensures Extension(Lower(filename)) == ".pdf" ==> !ProcessedDocumentAsWritten(file, filename).success
    ensures Extension(Lower(filename)) == ".pdf" && file.pdf.Success? ==>
      ProcessedDocument(file, filename).success
      && ProcessedDocument(file, filename).metadata == PdfMeta(|file.pdf.value|)
    ensures Extension(Lower(filename)) != ".pdf" ==>
      ProcessedDocumentAsWritten(file, filename) == ProcessedDocument(file, filename)
  {
  }
}
