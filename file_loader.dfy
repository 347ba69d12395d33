/** `load_files`: one `{filename, content}` entry per uploaded file with a
    supported extension. The parsing libraries (PDF text extraction, UTF-8
    decoding, JSON, XML and spreadsheet reading) are not modelled: each upload
    carries what each library yields on its bytes, a value or an error
    message, and the model fixes how the loader dispatches on those outcomes
    and lays out the content. */
module FileLoader {
  import opened Wrappers
  import opened Text

  /** A spreadsheet as the first sheet reads: column names and, per row, the
      `str` rendering of each cell in column order. */
  datatype Sheet = Sheet(columns: seq<string>, rows: seq<seq<string>>)

  /** Every row has one cell per column, as in a data frame. */
  predicate Rectangular(s: Sheet) {
    forall i :: 0 <= i < |s.rows| ==> |s.rows[i]| == |s.columns|
  }

  /** An uploaded file: its name and the outcome of each extraction on its
      bytes — page texts, decoded text, re-serialised JSON, re-serialised XML
      and the sheet. */
  datatype Upload = Upload(
    name: string,
    pdfPages: Result<seq<string>, string>,
    text: Result<string, string>,
    json: Result<string, string>,
    xml: Result<string, string>,
    sheet: Result<Sheet, string>)

  /** A loaded file: `{"filename": ..., "content": ...}`. */
  datatype Entry = Entry(filename: string, content: string)

  datatype Format = Pdf | Txt | Json | Xml | Xlsx

  /** The extension dispatch, in the order the loader tests the suffixes;
      the test is case-sensitive, and other names are skipped. */
  function FormatOf(name: string): (r: Option<Format>)
    ensures r.None? <==>
      !EndsWith(name, ".pdf") && !EndsWith(name, ".txt") && !EndsWith(name, ".json")
      && !EndsWith(name, ".xml") && !EndsWith(name, ".xlsx")
  {
    if EndsWith(name, ".pdf") then Some(Pdf)
    else if EndsWith(name, ".txt") then Some(Txt)
    else if EndsWith(name, ".json") then Some(Json)
    else if EndsWith(name, ".xml") then Some(Xml)
    else if EndsWith(name, ".xlsx") then Some(Xlsx)
    else None
  }

  // ---------------------------------------------------------------------
  // Spreadsheet flattening
  // ---------------------------------------------------------------------

  /** One `col: value` line, both sides stripped. */
  function CellLine(column: string, cell: string): string {
    Strip(column) + ": " + Strip(cell)
  }

  /** The lines of one row: one per column, in column order. */
  function RowLines(columns: seq<string>, row: seq<string>): (r: seq<string>)
    requires |row| == |columns|
    ensures |r| == |columns|
  {
    seq(|columns|, j requires 0 <= j < |columns| => CellLine(columns[j], row[j]))
  }

  /** One row: its lines joined by newlines. */
  function RowText(columns: seq<string>, row: seq<string>): string
    requires |row| == |columns|
  {
    Join(RowLines(columns, row), "\n")
  }

  /** The text of every row, in row order. */
  function RowTexts(s: Sheet): (r: seq<string>)
    requires Rectangular(s)
    ensures |r| == |s.rows|
  {
    seq(|s.rows|, i requires 0 <= i < |s.rows| => RowText(s.columns, s.rows[i]))
  }

  /** The rows joined by blank lines. */
  function SheetText(s: Sheet): string
    requires Rectangular(s)
  {
    Join(RowTexts(s), "\n\n")
  }

  /** The flattening loop: one row text appended per row, then the row
      texts joined by blank lines. */
  method FlattenSheet(s: Sheet) returns (content: string)
    requires Rectangular(s)
    ensures content == SheetText(s)
  {
    var rowTexts: seq<string> := [];
    for i := 0 to |s.rows|
      invariant rowTexts == RowTexts(s)[..i]
    {
      var rowText := RowText(s.columns, s.rows[i]);
      RowTextsSnoc(s, i);
      rowTexts := rowTexts + [rowText];
    }
    assert RowTexts(s)[..|s.rows|] == RowTexts(s);
    content := Join(rowTexts, "\n\n");
  }

  lemma RowTextsSnoc(s: Sheet, i: nat)
    requires Rectangular(s) && i < |s.rows|
    ensures RowTexts(s)[..i + 1] == RowTexts(s)[..i] + [RowText(s.columns, s.rows[i])]
  {
    assert RowTexts(s)[i] == RowText(s.columns, s.rows[i]);
  }

  /** Every cell of every row appears in the flattened text as its
      `col: value` line. */
  lemma SheetContainsEveryCell(s: Sheet, i: nat, j: nat)
    requires Rectangular(s) && i < |s.rows| && j < |s.columns|
    ensures Contains(SheetText(s), CellLine(s.columns[j], s.rows[i][j]))
  {
    var lines := RowLines(s.columns, s.rows[i]);
    JoinContainsPart(lines, "\n", j);
    JoinContainsPart(RowTexts(s), "\n\n", i);
    ContainsTrans(SheetText(s), RowTexts(s)[i], lines[j]);
  }

  /** A sheet with a row and columns named `Year` and `Revenue` (up to
      surrounding whitespace) flattens to text containing `Year:` and
      `Revenue:`, the markers the app uses to recognise structured data. */
  lemma YearRevenueSheet(s: Sheet, y: nat, v: nat)
    requires Rectangular(s) && |s.rows| > 0
    requires y < |s.columns| && Strip(s.columns[y]) == "Year"
    requires v < |s.columns| && Strip(s.columns[v]) == "Revenue"
    ensures Contains(SheetText(s), "Year:")
    ensures Contains(SheetText(s), "Revenue:")
  {
    var row := s.rows[0];
    SheetContainsEveryCell(s, 0, y);
    SheetContainsEveryCell(s, 0, v);
    assert StartsWith(CellLine(s.columns[y], row[y]), "Year:");
    assert StartsWith(CellLine(s.columns[v], row[v]), "Revenue:");
    ContainsPrefix(CellLine(s.columns[y], row[y]), "Year:");
    ContainsPrefix(CellLine(s.columns[v], row[v]), "Revenue:");
    ContainsTrans(SheetText(s), CellLine(s.columns[y], row[y]), "Year:");
    ContainsTrans(SheetText(s), CellLine(s.columns[v], row[v]), "Revenue:");
  }

  // ---------------------------------------------------------------------
  // Loading
  // ---------------------------------------------------------------------

  /** Every spreadsheet that reads is rectangular. */
  predicate SheetsRectangular(files: seq<Upload>) {
    forall i :: 0 <= i < |files| ==> files[i].sheet.Ok? ==> Rectangular(files[i].sheet.value)
  }

  /** A text or JSON upload whose read raises. */
  predicate Aborts(f: Upload) {
    match FormatOf(f.name)
    case Some(Txt) => f.text.Err?
    case Some(Json) => f.json.Err?
    case _ => false
  }

  /** The error an aborting upload raises. */
  function AbortError(f: Upload): string
    requires Aborts(f)
  {
    if FormatOf(f.name) == Some(Txt) then f.text.error else f.json.error
  }

  /** The content of a PDF entry: the page texts joined by newlines, or
      the error text. */
  function PdfContent(pages: Result<seq<string>, string>): string {
    match pages
    case Ok(texts) => Join(texts, "\n")
    case Err(e) => "[Error reading PDF: " + e + "]"
  }

  /** The content of an XML entry: the re-serialised document, or the error
      text naming the file. */
  function XmlContent(name: string, xml: Result<string, string>): string {
    match xml
    case Ok(t) => t
    case Err(e) => "[Failed to parse XML file: " + name + "] Error: " + e
  }

  /** The content of a spreadsheet entry: the flattened sheet, or the error
      text naming the file. */
  function XlsxContent(name: string, sheet: Result<Sheet, string>): string
    requires sheet.Ok? ==> Rectangular(sheet.value)
  {
    match sheet
    case Ok(s) => SheetText(s)
    case Err(e) => "[Failed to parse Excel file: " + name + "] Error: " + e
  }

  /** What one file contributes: nothing for an unsupported name, an entry,
      or the error a text or JSON file raises, which aborts the load. PDF,
      XML and spreadsheet failures become the entry's content instead. */
  function Load(f: Upload): (r: Option<Result<Entry, string>>)
    requires f.sheet.Ok? ==> Rectangular(f.sheet.value)
    ensures r.None? <==> FormatOf(f.name).None?
    ensures r.Some? ==> (r.value.Err? <==> Aborts(f))
    ensures r.Some? && r.value.Err? ==> r.value.error == AbortError(f)
    ensures r.Some? && r.value.Ok? ==> r.value.value.filename == f.name
  {
    match FormatOf(f.name)
    case None => None
    case Some(Pdf) => Some(Ok(Entry(f.name, PdfContent(f.pdfPages))))
    case Some(Txt) => if f.text.Ok? then Some(Ok(Entry(f.name, f.text.value))) else Some(Err(f.text.error))
    case Some(Json) => if f.json.Ok? then Some(Ok(Entry(f.name, f.json.value))) else Some(Err(f.json.error))
    case Some(Xml) => Some(Ok(Entry(f.name, XmlContent(f.name, f.xml))))
    case Some(Xlsx) => Some(Ok(Entry(f.name, XlsxContent(f.name, f.sheet))))
  }

  /** One step of the load: a file's contribution followed by the rest. */
  function Then(o: Option<Result<Entry, string>>, rest: Result<seq<Entry>, string>): Result<seq<Entry>, string> {
    match o
    case None => rest
    case Some(Err(e)) => Err(e)
    case Some(Ok(entry)) => After([entry], rest)
  }

  /** `entries` followed by whatever the rest of the load yields. */
  function After(entries: seq<Entry>, rest: Result<seq<Entry>, string>): Result<seq<Entry>, string> {
    match rest
    case Ok(more) => Ok(entries + more)
    case Err(e) => Err(e)
  }

  lemma AfterSnoc(entries: seq<Entry>, e: Entry, rest: Result<seq<Entry>, string>)
    ensures After(entries, After([e], rest)) == After(entries + [e], rest)
  {
    if rest.Ok? {
      assert entries + ([e] + rest.value) == entries + [e] + rest.value;
    }
  }

  /** The whole load: the entries of the files in order, or the first error
      raised. */
  function LoadAll(files: seq<Upload>): Result<seq<Entry>, string>
    requires SheetsRectangular(files)
  {
    if files == [] then Ok([]) else Then(Load(files[0]), LoadAll(files[1..]))
  }

  lemma SuffixRectangular(files: seq<Upload>, i: nat)
    requires SheetsRectangular(files) && i <= |files|
    ensures SheetsRectangular(files[i..])
  {
    forall j | 0 <= j < |files[i..]| ensures files[i..][j] == files[i + j] { }
  }

  /** The load of a suffix takes one file, then the rest. */
  lemma LoadAllAt(files: seq<Upload>, i: nat)
    requires SheetsRectangular(files) && i < |files|
    ensures SheetsRectangular(files[i..]) && SheetsRectangular(files[i + 1..])
    ensures LoadAll(files[i..]) == Then(Load(files[i]), LoadAll(files[i + 1..]))
  {
    SuffixRectangular(files, i);
    SuffixRectangular(files, i + 1);
    assert files[i..][0] == files[i] && files[i..][1..] == files[i + 1..];
  }

  /** The body of the loop for one upload: the suffix dispatch and the
      per-format reading. */
  method LoadFile(file: Upload) returns (o: Option<Result<Entry, string>>)
    requires file.sheet.Ok? ==> Rectangular(file.sheet.value)
    ensures o == Load(file)
  {
    var filename := file.name;
    if EndsWith(filename, ".pdf") {
      var text;
      match file.pdfPages {
        case Ok(pages) => text := Join(pages, "\n");
        case Err(e) => text := "[Error reading PDF: " + e + "]";
      }
      o := Some(Ok(Entry(filename, text)));
    } else if EndsWith(filename, ".txt") {
      match file.text {
        case Err(e) => o := Some(Err(e));
        case Ok(content) => o := Some(Ok(Entry(filename, content)));
      }
    } else if EndsWith(filename, ".json") {
      match file.json {
        case Err(e) => o := Some(Err(e));
        case Ok(content) => o := Some(Ok(Entry(filename, content)));
      }
    } else if EndsWith(filename, ".xml") {
      var content;
      match file.xml {
        case Ok(t) => content := t;
        case Err(e) => content := "[Failed to parse XML file: " + filename + "] Error: " + e;
      }
      o := Some(Ok(Entry(filename, content)));
    } else if EndsWith(filename, ".xlsx") {
      var content;
      match file.sheet {
        case Ok(s) => content := FlattenSheet(s);
        case Err(e) => content := "[Failed to parse Excel file: " + filename + "] Error: " + e;
      }
      o := Some(Ok(Entry(filename, content)));
    } else {
      o := None;
    }
  }

  /** `load_files`: the loop over the uploads, appending one entry per
      supported file; a text or JSON error ends the load. */
  method LoadFiles(files: seq<Upload>) returns (r: Result<seq<Entry>, string>)
    requires SheetsRectangular(files)
    ensures r == LoadAll(files)
  {
    var allTexts: seq<Entry> := [];
    assert files[0..] == files;
    assert After([], LoadAll(files)) == LoadAll(files) by {
      if LoadAll(files).Ok? {
        assert [] + LoadAll(files).value == LoadAll(files).value;
      }
    }
    for i := 0 to |files|
      invariant SheetsRectangular(files[i..])
      invariant LoadAll(files) == After(allTexts, LoadAll(files[i..]))
    {
      LoadAllAt(files, i);
      var loaded := LoadFile(files[i]);
      match loaded {
        case None =>
        case Some(Err(e)) =>
          return Err(e);
        case Some(Ok(entry)) =>
          AfterSnoc(allTexts, entry, LoadAll(files[i + 1..]));
          allTexts := allTexts + [entry];
      }
    }
    assert files[|files|..] == [];
    assert allTexts + [] == allTexts;
    return Ok(allTexts);
  }

  // ---------------------------------------------------------------------
  // Properties of the load
  // ---------------------------------------------------------------------

  /** The uploads with a supported extension, in order. */
  function SupportedFiles(files: seq<Upload>): (r: seq<Upload>)
    ensures |r| <= |files|
    ensures forall f :: f in r ==> f in files && FormatOf(f.name).Some?
  {
    if files == [] then []
    else if FormatOf(files[0].name).Some? then [files[0]] + SupportedFiles(files[1..])
    else SupportedFiles(files[1..])
  }

  /** `entries` are, one for one and in order, what `Load` makes of the
      uploads `supported`. */
  predicate Describes(entries: seq<Entry>, supported: seq<Upload>)
    decreases |entries|
  {
    if entries == [] then supported == []
    else
      && supported != []
      && (supported[0].sheet.Ok? ==> Rectangular(supported[0].sheet.value))
      && Load(supported[0]) == Some(Ok(entries[0]))
      && Describes(entries[1..], supported[1..])
  }

  lemma DescribesCons(e: Entry, es: seq<Entry>, f: Upload, fs: seq<Upload>)
    requires Describes(es, fs)
    requires f.sheet.Ok? ==> Rectangular(f.sheet.value)
    requires Load(f) == Some(Ok(e))
    ensures Describes([e] + es, [f] + fs)
  {
    assert ([e] + es)[1..] == es && ([f] + fs)[1..] == fs;
  }

  /** Read index by index: one entry per upload, each named after its
      upload and holding what `Load` makes of it. */
  lemma {:induction false} DescribesAt(entries: seq<Entry>, supported: seq<Upload>, k: nat)
    requires Describes(entries, supported) && k < |entries|
    ensures |entries| == |supported|
    ensures supported[k].sheet.Ok? ==> Rectangular(supported[k].sheet.value)
    ensures Load(supported[k]) == Some(Ok(entries[k]))
    ensures entries[k].filename == supported[k].name
    decreases |entries|
  {
    DescribesLength(entries, supported);
    if k > 0 {
      DescribesAt(entries[1..], supported[1..], k - 1);
    }
  }

  lemma {:induction false} DescribesLength(entries: seq<Entry>, supported: seq<Upload>)
    requires Describes(entries, supported)
    ensures |entries| == |supported|
    decreases |entries|
  {
    if entries != [] {
      DescribesLength(entries[1..], supported[1..]);
    }
  }

  /** A successful load has exactly one entry per supported upload, in
      order, named after it and holding what `Load` makes of it; unsupported
      uploads leave no trace. */
  lemma {:induction false} LoadAllEntries(files: seq<Upload>)
    requires SheetsRectangular(files)
    requires LoadAll(files).Ok?
    ensures Describes(LoadAll(files).value, SupportedFiles(files))
    ensures |LoadAll(files).value| <= |files|
  {
    if files != [] {
      var rest := files[1..];
      SuffixRectangular(files, 1);
      var head := Load(files[0]);
      assert LoadAll(files) == Then(head, LoadAll(rest));
      if head.None? {
        assert SupportedFiles(files) == SupportedFiles(rest);
        LoadAllEntries(rest);
      } else {
        var e := head.value.value;
        LoadAllEntries(rest);
        assert LoadAll(files).value == [e] + LoadAll(rest).value;
        assert SupportedFiles(files) == [files[0]] + SupportedFiles(rest);
        DescribesCons(e, LoadAll(rest).value, files[0], SupportedFiles(rest));
      }
    }
  }

  /** Without a failing text or JSON upload the load succeeds: PDF, XML and
      spreadsheet failures never abort it. */
  lemma {:induction false} LoadAllSucceeds(files: seq<Upload>)
    requires SheetsRectangular(files)
    requires forall i :: 0 <= i < |files| ==> !Aborts(files[i])
    ensures LoadAll(files).Ok?
  {
    if files != [] {
      var rest := files[1..];
      assert !Aborts(files[0]);
      assert SheetsRectangular(rest) && forall i :: 0 <= i < |rest| ==> !Aborts(rest[i]) by {
        forall i | 0 <= i < |rest| ensures rest[i] == files[i + 1] { }
      }
      LoadAllSucceeds(rest);
    }
  }

  /** Otherwise the load fails with the error of the first failing text or
      JSON upload, whatever follows it. */
  lemma {:induction false} LoadAllFailsAtFirst(files: seq<Upload>, i: nat)
    requires SheetsRectangular(files)
    requires i < |files| && Aborts(files[i])
    requires forall j :: 0 <= j < i ==> !Aborts(files[j])
    ensures LoadAll(files) == Err(AbortError(files[i]))
  {
    if i > 0 {
      var rest := files[1..];
      assert !Aborts(files[0]);
      assert SheetsRectangular(rest) && forall j :: 0 <= j < i - 1 ==> !Aborts(rest[j]) by {
        forall j | 0 <= j < |rest| ensures rest[j] == files[j + 1] { }
      }
      assert rest[i - 1] == files[i];
      LoadAllFailsAtFirst(rest, i - 1);
    }
  }

  /** A spreadsheet that reads yields its flattened text. */
  lemma LoadsSheet(f: Upload)
    requires FormatOf(f.name) == Some(Xlsx) && f.sheet.Ok? && Rectangular(f.sheet.value)
    ensures Load(f) == Some(Ok(Entry(f.name, SheetText(f.sheet.value))))
  {
  }

  /** A PDF that reads yields its page texts joined by newlines. */
  lemma LoadsPdfPages(f: Upload)
    requires EndsWith(f.name, ".pdf") && f.pdfPages.Ok?
    requires f.sheet.Ok? ==> Rectangular(f.sheet.value)
    ensures Load(f) == Some(Ok(Entry(f.name, Join(f.pdfPages.value, "\n"))))
    ensures forall k :: 0 <= k < |f.pdfPages.value| ==>
      Contains(Load(f).value.value.content, f.pdfPages.value[k])
  {
    forall k | 0 <= k < |f.pdfPages.value|
      ensures Contains(Join(f.pdfPages.value, "\n"), f.pdfPages.value[k])
    {
      JoinContainsPart(f.pdfPages.value, "\n", k);
    }
  }
}
