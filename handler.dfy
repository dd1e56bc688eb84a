/**
 * The tool-call handler of build/index.js: one request (a tool name and its
 * arguments) in, one response envelope out. File existence and the
 * read-and-decode step are parameters: `fileExists` stands for `fs.existsSync`,
 * `load` for `fs.readFileSync` followed by the PDF decoder.
 */
module Handler {
  import opened JsText
  import opened Query

  /** The four tools the server offers. */
  datatype Tool = ReadPdf | GetPdfInfo | ReadPagesTool | SearchInPdf

  /** The `switch (name)` of the handler: which tool a name selects. */
  function ToolNamed(name: string): (r: Option<Tool>)
    ensures r == Some(ReadPdf) <==> name == "read_pdf"
    ensures r == Some(GetPdfInfo) <==> name == "get_pdf_info"
    ensures r == Some(ReadPagesTool) <==> name == "read_pages"
    ensures r == Some(SearchInPdf) <==> name == "search_in_pdf"
  {
    if name == "read_pdf" then Some(ReadPdf)
    else if name == "get_pdf_info" then Some(GetPdfInfo)
    else if name == "read_pages" then Some(ReadPagesTool)
    else if name == "search_in_pdf" then Some(SearchInPdf)
    else None
  }

  /** The request's `arguments` object. Each tool reads only its own fields:
      `file_path` always, `start_page`/`end_page` for `read_pages`,
      `search_text`/`case_sensitive` (default false) for `search_in_pdf`. */
  datatype Args = Args(
    filePath: string,
    startPage: int,
    endPage: Option<int>,
    searchText: string,
    caseSensitive: bool)

  /** The outcome of reading and decoding a file: the decoded document, or the
      message of the exception thrown on the way. */
  datatype Load = Loaded(doc: Document) | LoadFailed(message: string)

  /** What a response says, one variant per kind of answer the handler gives. */
  datatype Body =
    | FileMissing(path: string)
    | NotPdf(path: string)
    | FullText(numpages: nat, text: string)
    | Info(info: PdfInfo)
    | StartPageTooLarge(startPage: int, numpages: nat)
    | PageText(path: string, pageRange: PageLabel, text: string)
    | NoMatchesIn(path: string, searchText: string)
    | MatchesIn(path: string, total: nat, shown: seq<Match>, hasMore: bool)
    | ToolFailed(tool: Tool, message: string)
    | UnknownTool(name: string)
    | ArgumentsMissing

  /** The failures caught as exceptions, or the unknown tool name. */
  predicate HardFailure(b: Body)
  {
    b.ToolFailed? || b.UnknownTool? || b.ArgumentsMissing?
  }

  /** The single shape every call returns. */
  datatype Envelope = Envelope(body: Body, isError: bool)

  /** `file_path.toLowerCase().endsWith(".pdf")`. */
  predicate HasPdfSuffix(path: string)
  {
    EndsWith(Lower(path), ".pdf")
  }

  /** The answer of a known tool once its file has been found and decoded. */
  function Answer(tool: Tool, args: Args, doc: Document): (b: Body)
    ensures !HardFailure(b)
    ensures tool == ReadPdf ==> b == FullText(doc.numpages, doc.text)
    ensures tool == GetPdfInfo ==>
      (b == Info(InfoOf(args.filePath, doc)) && b.info.path == args.filePath && b.info.pages == doc.numpages
       && b.info.charCount == |doc.text| && b.info.lineCount == multiset(doc.text)['\n'] + 1)
    ensures tool == ReadPagesTool && args.startPage > doc.numpages ==>
      b == StartPageTooLarge(args.startPage, doc.numpages)
    ensures tool == ReadPagesTool && args.startPage <= doc.numpages ==>
      (var last := EffectiveEnd(args.startPage, args.endPage, doc.numpages);
       b == PageText(args.filePath, if args.startPage == last then SinglePage(args.startPage) else PageSpan(args.startPage, last), doc.text))
    ensures tool == SearchInPdf ==>
      (b.NoMatchesIn? <==> MatchingLines(Split(doc.text), args.searchText, args.caseSensitive) == {})
      && (b.NoMatchesIn? || b.MatchesIn?)
      && (b.NoMatchesIn? ==> b == NoMatchesIn(args.filePath, args.searchText))
    ensures tool == SearchInPdf && b.MatchesIn? ==>
      (var lines := Split(doc.text);
       b.path == args.filePath
       && b.total == |MatchingLines(lines, args.searchText, args.caseSensitive)|
       && b.shown <= Scan(lines, args.searchText, args.caseSensitive)
       && |b.shown| == Min(MaxShown, b.total)
       && (b.hasMore <==> b.total > MaxShown))
  {
    match tool
    case ReadPdf => FullText(doc.numpages, doc.text)
    case GetPdfInfo => Info(InfoOf(args.filePath, doc))
    case ReadPagesTool =>
      (match ReadPages(doc, args.startPage, args.endPage)
       case StartBeyondEnd(s, n) => StartPageTooLarge(s, n)
       case PagesText(pageRange, text) => PageText(args.filePath, pageRange, text))
    case SearchInPdf =>
      (match SearchText(doc.text, args.searchText, args.caseSensitive)
       case NoMatches => NoMatchesIn(args.filePath, args.searchText)
       case Found(total, shown, hasMore) => MatchesIn(args.filePath, total, shown, hasMore))
  }

  /** One tool call. A missing `arguments` object makes the destructuring of
      any known tool throw, which the outer `catch` reports. */
  function Handle(name: string, args: Option<Args>, fileExists: string -> bool, load: string -> Load): (r: Envelope)
    ensures r.isError <==> HardFailure(r.body)
    ensures ToolNamed(name).None? ==> r == Envelope(UnknownTool(name), true)
    ensures ToolNamed(name).Some? && args.None? ==> r == Envelope(ArgumentsMissing, true)
    ensures ToolNamed(name).Some? && args.Some? && !fileExists(args.value.filePath) ==>
      r == Envelope(FileMissing(args.value.filePath), false)
    ensures r.body.NotPdf? <==>
      ToolNamed(name) == Some(ReadPdf) && args.Some? && fileExists(args.value.filePath) && !HasPdfSuffix(args.value.filePath)
    ensures (ToolNamed(name).Some? && args.Some? && fileExists(args.value.filePath)
      && (ToolNamed(name) == Some(ReadPdf) ==> HasPdfSuffix(args.value.filePath))) ==>
      match load(args.value.filePath)
      case LoadFailed(message) => r == Envelope(ToolFailed(ToolNamed(name).value, message), true)
      case Loaded(doc) => r == Envelope(Answer(ToolNamed(name).value, args.value, doc), false)
    ensures r.body.ToolFailed? <==>
      ToolNamed(name).Some? && args.Some? && fileExists(args.value.filePath)
      && (ToolNamed(name) == Some(ReadPdf) ==> HasPdfSuffix(args.value.filePath))
      && load(args.value.filePath).LoadFailed?
  {
    match ToolNamed(name)
    case None => Envelope(UnknownTool(name), true)
    case Some(tool) =>
      if args.None? then Envelope(ArgumentsMissing, true)
      else
        var a := args.value;
        if !fileExists(a.filePath) then Envelope(FileMissing(a.filePath), false)
        else if tool == ReadPdf && !HasPdfSuffix(a.filePath) then Envelope(NotPdf(a.filePath), false)
        else
          match load(a.filePath)
          case LoadFailed(message) => Envelope(ToolFailed(tool, message), true)
          case Loaded(doc) => Envelope(Answer(tool, a, doc), false)
  }

  /** For every tool, a file that does not exist is reported without reading
      it: the answer does not depend on the loader at all. */
  lemma MissingFileIsNeverLoaded(name: string, args: Args, fileExists: string -> bool, load1: string -> Load, load2: string -> Load)
    requires ToolNamed(name).Some? && !fileExists(args.filePath)
    ensures Handle(name, Some(args), fileExists, load1) == Handle(name, Some(args), fileExists, load2)
    ensures Handle(name, Some(args), fileExists, load1) == Envelope(FileMissing(args.filePath), false)
  {
  }

  /** `read_pdf` turns away an existing file without the `.pdf` suffix before
      reading it. */
  lemma ReadPdfChecksSuffixBeforeLoading(args: Args, fileExists: string -> bool, load1: string -> Load, load2: string -> Load)
    requires fileExists(args.filePath) && !HasPdfSuffix(args.filePath)
    ensures Handle("read_pdf", Some(args), fileExists, load1) == Handle("read_pdf", Some(args), fileExists, load2)
    ensures Handle("read_pdf", Some(args), fileExists, load1) == Envelope(NotPdf(args.filePath), false)
  {
  }

  /** The other tools read any existing file, whatever its name: what they
      answer comes from the loader. */
  lemma OtherToolsIgnoreSuffix(name: string, args: Args, fileExists: string -> bool, load: string -> Load)
    requires ToolNamed(name).Some? && ToolNamed(name) != Some(ReadPdf)
    requires fileExists(args.filePath)
    ensures load(args.filePath).LoadFailed? ==>
      Handle(name, Some(args), fileExists, load) == Envelope(ToolFailed(ToolNamed(name).value, load(args.filePath).message), true)
    ensures load(args.filePath).Loaded? ==>
      Handle(name, Some(args), fileExists, load) == Envelope(Answer(ToolNamed(name).value, args, load(args.filePath).doc), false)
  {
  }

  /** A read or decode failure is a hard error carrying the tool and the
      exception's message. */
  lemma LoadFailureIsHardError(name: string, args: Args, fileExists: string -> bool, load: string -> Load)
    requires ToolNamed(name).Some? && fileExists(args.filePath)
    requires ToolNamed(name) == Some(ReadPdf) ==> HasPdfSuffix(args.filePath)
    requires load(args.filePath).LoadFailed?
    ensures Handle(name, Some(args), fileExists, load).isError
    ensures Handle(name, Some(args), fileExists, load).body == ToolFailed(ToolNamed(name).value, load(args.filePath).message)
  {
  }

  /** `read_pages` returns the same text as `read_pdf` for the same document:
      the page range is only a label. */
  lemma ReadPagesTextIsReadPdfText(args: Args, fileExists: string -> bool, load: string -> Load)
    requires fileExists(args.filePath) && HasPdfSuffix(args.filePath)
    requires load(args.filePath).Loaded?
    ensures var pages := Handle("read_pages", Some(args), fileExists, load).body;
      var full := Handle("read_pdf", Some(args), fileExists, load).body;
      full.FullText? && (pages.PageText? ==> pages.text == full.text)
  {
  }

  /** A search without hits is a normal answer, not an error. */
  lemma NoMatchesIsSoft(args: Args, fileExists: string -> bool, load: string -> Load)
    requires fileExists(args.filePath) && load(args.filePath).Loaded?
    requires MatchingLines(Split(load(args.filePath).doc.text), args.searchText, args.caseSensitive) == {}
    ensures Handle("search_in_pdf", Some(args), fileExists, load) == Envelope(NoMatchesIn(args.filePath, args.searchText), false)
  {
  }

  /** `read_pdf` on an existing `.pdf` file that decodes answers with the page
      count and the whole text. */
  lemma ReadPdfReturnsText(args: Args, fileExists: string -> bool, load: string -> Load)
    requires fileExists(args.filePath) && HasPdfSuffix(args.filePath)
    requires load(args.filePath).Loaded?
    ensures var doc := load(args.filePath).doc;
      Handle("read_pdf", Some(args), fileExists, load) == Envelope(FullText(doc.numpages, doc.text), false)
  {
  }

  /** The suffix test ignores letter case: a name passes exactly when its last
      four characters lower-case to ".pdf", so lower-casing the name first
      changes nothing. */
  lemma PdfSuffixSpec(path: string)
    ensures HasPdfSuffix(path) <==> |path| >= 4 && Lower(path[|path| - 4..]) == ".pdf"
    ensures HasPdfSuffix(Lower(path)) == HasPdfSuffix(path)
  {
    if |path| >= 4 {
      assert Lower(path)[|path| - 4..] == Lower(path[|path| - 4..]);
    }
    assert Lower(Lower(path)) == Lower(path);
  }

  /** Examples of the suffix test. */
  lemma PdfSuffixExamples()
    ensures HasPdfSuffix("Report.PDF") && HasPdfSuffix("a.pdf")
    ensures !HasPdfSuffix("notes.txt") && !HasPdfSuffix("pdf")
  {
    assert Lower("notes.txt")[6] == 't';
  }
}
