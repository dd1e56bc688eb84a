/**
 * The query layer of the tool handler in build/index.js: what `get_pdf_info`,
 * `read_pages` and `search_in_pdf` compute from the decoder's output once the
 * file has been found and decoded.
 */
module Query {
  import opened JsText

  datatype Option<T> = None | Some(value: T)

  /** What the PDF decoder hands back for one file: `data.text`,
      `data.numpages` and the optional `data.info` dictionary. */
  datatype Document = Document(text: string, numpages: nat, info: Option<map<string, string>>)

  function Min(a: int, b: int): (r: int)
  {
    if a <= b then a else b
  }

  // ---------------------------------------------------------------------------
  // get_pdf_info
  // ---------------------------------------------------------------------------

  /** The placeholder shown for a metadata field that is missing or empty. */
  const Unknown: string := "未知"

  /** The summary `get_pdf_info` reports (file size and base name are left to
      the presentation layer). */
  datatype PdfInfo = PdfInfo(
    path: string,
    pages: nat,
    title: string,
    author: string,
    creator: string,
    producer: string,
    creationDate: string,
    modDate: string,
    charCount: nat,
    lineCount: nat)

  /** `data.info?.[key] || "未知"`: the metadata value when there is one and it
      is not the empty string, the placeholder otherwise. */
  function MetaField(info: Option<map<string, string>>, key: string): (r: string)
    ensures r != []
    ensures info.Some? && key in info.value && info.value[key] != [] ==> r == info.value[key]
    ensures r != Unknown ==> info.Some? && key in info.value && r == info.value[key]
  {
    match info
    case Some(m) => if key in m && m[key] != [] then m[key] else Unknown
    case None => Unknown
  }

  /** The fields of `get_pdf_info` derived from a decoded document. The line
      count is the number of pieces of `text.split('\n')`. */
  function InfoOf(path: string, doc: Document): (r: PdfInfo)
    ensures r.path == path && r.pages == doc.numpages
    ensures r.charCount == |doc.text|
    ensures r.lineCount == multiset(doc.text)['\n'] + 1
    ensures r.title == MetaField(doc.info, "Title") && r.author == MetaField(doc.info, "Author")
    ensures r.creator == MetaField(doc.info, "Creator") && r.producer == MetaField(doc.info, "Producer")
    ensures r.creationDate == MetaField(doc.info, "CreationDate") && r.modDate == MetaField(doc.info, "ModDate")
  {
    SplitCount(doc.text);
    PdfInfo(
      path,
      doc.numpages,
      MetaField(doc.info, "Title"),
      MetaField(doc.info, "Author"),
      MetaField(doc.info, "Creator"),
      MetaField(doc.info, "Producer"),
      MetaField(doc.info, "CreationDate"),
      MetaField(doc.info, "ModDate"),
      |doc.text|,
      |Split(doc.text)|)
  }

  /** An empty document reports one line and no characters. */
  lemma EmptyDocumentInfo(path: string, numpages: nat)
    ensures InfoOf(path, Document([], numpages, None)).lineCount == 1
    ensures InfoOf(path, Document([], numpages, None)).charCount == 0
    ensures InfoOf(path, Document([], numpages, None)).title == Unknown
  {
  }

  // ---------------------------------------------------------------------------
  // read_pages
  // ---------------------------------------------------------------------------

  /** `end_page` is used only when it is truthy: present and not 0. */
  predicate Truthy(endPage: Option<int>)
  {
    endPage.Some? && endPage.value != 0
  }

  /** `end_page ? Math.min(end_page, data.numpages) : start_page`: an absent
      end page or an end page of 0 falls back to the start page. */
  function EffectiveEnd(startPage: int, endPage: Option<int>, numpages: nat): (r: int)
    ensures endPage.Some? && endPage.value != 0 ==> r <= endPage.value && r <= numpages
    ensures endPage.Some? && endPage.value != 0 ==> r == endPage.value || r == numpages
    ensures endPage == None || endPage == Some(0) ==> r == startPage
  {
    if Truthy(endPage) then Min(endPage.value, numpages) else startPage
  }

  /** The label attached to the text: one page, or a first-last range. */
  datatype PageLabel = SinglePage(page: int) | PageSpan(first: int, last: int)

  datatype PagesResult =
    | StartBeyondEnd(startPage: int, numpages: nat)
    | PagesText(pageRange: PageLabel, text: string)

  /** `read_pages` once the document is decoded. The decoder gives no page
      boundaries, so the body is always the whole text; only the label depends
      on the requested range. */
  function ReadPages(doc: Document, startPage: int, endPage: Option<int>): (r: PagesResult)
    ensures r.StartBeyondEnd? <==> startPage > doc.numpages
    ensures r.StartBeyondEnd? ==> r == StartBeyondEnd(startPage, doc.numpages)
    ensures r.PagesText? ==> r.text == doc.text
    ensures r.PagesText? ==> (r.pageRange.SinglePage? <==> startPage == EffectiveEnd(startPage, endPage, doc.numpages))
    ensures r.PagesText? && r.pageRange.SinglePage? ==> r.pageRange.page == startPage
    ensures r.PagesText? && r.pageRange.PageSpan? ==>
      r.pageRange.first == startPage && r.pageRange.last == EffectiveEnd(startPage, endPage, doc.numpages)
  {
    if startPage > doc.numpages then StartBeyondEnd(startPage, doc.numpages)
    else
      var last := EffectiveEnd(startPage, endPage, doc.numpages);
      PagesText(if startPage == last then SinglePage(startPage) else PageSpan(startPage, last), doc.text)
  }

  /** A start page past the end is refused whatever the end page is. */
  lemma StartBeyondEndIgnoresEndPage(doc: Document, startPage: int, e1: Option<int>, e2: Option<int>)
    requires startPage > doc.numpages
    ensures ReadPages(doc, startPage, e1) == ReadPages(doc, startPage, e2)
  {
  }

  /** For a sensible request (pages counted from 1, an end page not before the
      start), the labelled range lies inside the document and never past the
      requested end. */
  lemma LabelWithinDocument(doc: Document, startPage: int, endPage: Option<int>)
    requires 1 <= startPage <= doc.numpages
    requires endPage.Some? ==> endPage.value >= startPage
    ensures ReadPages(doc, startPage, endPage).PagesText?
    ensures var range := ReadPages(doc, startPage, endPage).pageRange;
      match range
      case SinglePage(p) => p == startPage
      case PageSpan(first, last) =>
        first == startPage < last <= doc.numpages && endPage.Some? && last <= endPage.value
  {
  }

  /** A start page of 5 in a three-page document is refused with both numbers. */
  lemma PagesExample(text: string, endPage: Option<int>)
    ensures ReadPages(Document(text, 3, None), 5, endPage) == StartBeyondEnd(5, 3)
    ensures ReadPages(Document(text, 3, None), 2, Some(9)).pageRange == PageSpan(2, 3)
    ensures ReadPages(Document(text, 3, None), 2, None).pageRange == SinglePage(2)
  {
  }

  // ---------------------------------------------------------------------------
  // search_in_pdf
  // ---------------------------------------------------------------------------

  /** At most this many matches are shown. */
  const MaxShown: nat := 10

  /** One hit: the 1-based line number and the trimmed original line. */
  datatype Match = Match(lineNumber: nat, text: string)

  /** Whether a line is a hit: the needle is a substring of the line, both
      lower-cased first unless the search is case-sensitive. */
  predicate LineMatches(line: string, needle: string, caseSensitive: bool)
  {
    if caseSensitive then Includes(line, needle) else Includes(Lower(line), Lower(needle))
  }

  /** `includes` on the line and the needle, both lower-cased first unless the
      search is case-sensitive, holds exactly when the needle occurs in the line. */
  lemma LineMatchesSpec(line: string, needle: string, caseSensitive: bool)
    ensures caseSensitive ==> (LineMatches(line, needle, true) <==> exists i :: OccursAt(line, needle, i))
    ensures !caseSensitive ==>
      (LineMatches(line, needle, false) <==> exists i :: OccursAt(Lower(line), Lower(needle), i))
  {
    if caseSensitive {
      IncludesSpec(line, needle);
    } else {
      IncludesSpec(Lower(line), Lower(needle));
    }
  }

  /** The hits among `lines`, in document order, at most one per line
      (ScanSound, ScanAscending, ScanComplete and ScanCount say which ones). */
  function Scan(lines: seq<string>, needle: string, caseSensitive: bool): (r: seq<Match>)
    ensures |r| <= |lines|
  {
    if lines == [] then []
    else
      var n := |lines|;
      Scan(lines[..n - 1], needle, caseSensitive)
        + (if LineMatches(lines[n - 1], needle, caseSensitive) then [Match(n, Trim(lines[n - 1]))] else [])
  }

  /** The 1-based numbers of the lines that are hits. */
  ghost function MatchingLines(lines: seq<string>, needle: string, caseSensitive: bool): set<nat>
  {
    set i | 0 <= i < |lines| && LineMatches(lines[i], needle, caseSensitive) :: i + 1
  }

  /** `m` names a line of `lines` that is a hit and carries that line trimmed. */
  ghost predicate ReportsHit(lines: seq<string>, needle: string, caseSensitive: bool, m: Match)
  {
    1 <= m.lineNumber <= |lines|
    && LineMatches(lines[m.lineNumber - 1], needle, caseSensitive)
    && m.text == Trim(lines[m.lineNumber - 1])
  }

  /** Every reported hit names a line of the text that is a hit, and carries
      that line trimmed. */
  lemma {:induction false} ScanSound(lines: seq<string>, needle: string, caseSensitive: bool)
    ensures forall m <- Scan(lines, needle, caseSensitive) :: ReportsHit(lines, needle, caseSensitive, m)
  {
    if lines != [] {
      var n := |lines|;
      var front := lines[..n - 1];
      ScanSound(front, needle, caseSensitive);
      var sf := Scan(front, needle, caseSensitive);
      forall m <- sf ensures ReportsHit(lines, needle, caseSensitive, m) {
        assert ReportsHit(front, needle, caseSensitive, m);
        assert front[m.lineNumber - 1] == lines[m.lineNumber - 1];
      }
    }
  }

  /** Hits come out in strictly increasing line order. */
  lemma {:induction false} ScanAscending(lines: seq<string>, needle: string, caseSensitive: bool)
    ensures forall j, k :: 0 <= j < k < |Scan(lines, needle, caseSensitive)| ==>
      Scan(lines, needle, caseSensitive)[j].lineNumber < Scan(lines, needle, caseSensitive)[k].lineNumber
  {
    if lines != [] {
      var n := |lines|;
      var front := lines[..n - 1];
      ScanAscending(front, needle, caseSensitive);
      ScanSound(front, needle, caseSensitive);
      var s := Scan(lines, needle, caseSensitive);
      var sf := Scan(front, needle, caseSensitive);
      assert s[..|sf|] == sf;
      forall j, k | 0 <= j < k < |s| ensures s[j].lineNumber < s[k].lineNumber {
        if k >= |sf| {
          assert s[j] == sf[j] && sf[j] in sf;
          assert ReportsHit(front, needle, caseSensitive, sf[j]);
        }
      }
    }
  }

  /** Adding one line adds its number to the hit lines exactly when it is a hit. */
  lemma MatchingLinesStep(lines: seq<string>, needle: string, caseSensitive: bool)
    requires lines != []
    ensures var n := |lines|;
      MatchingLines(lines, needle, caseSensitive)
        == MatchingLines(lines[..n - 1], needle, caseSensitive)
           + (if LineMatches(lines[n - 1], needle, caseSensitive) then {n} else {})
    ensures |lines| !in MatchingLines(lines[..|lines| - 1], needle, caseSensitive)
  {
    var n := |lines|;
    var front := lines[..n - 1];
    forall k | 0 <= k < n - 1 ensures front[k] == lines[k] { }
  }

  /** The line numbers carried by a list of hits. */
  ghost function LineNumbers(ms: seq<Match>): set<nat>
  {
    set m | m in ms :: m.lineNumber
  }

  lemma LineNumbersPush(ms: seq<Match>, m: Match)
    ensures LineNumbers(ms + [m]) == LineNumbers(ms) + {m.lineNumber}
  {
    assert m in ms + [m];
    assert forall x :: x in ms + [m] <==> x in ms || x == m;
  }

  /** The reported line numbers are exactly the hit lines: nothing is missed
      and nothing is made up. */
  lemma {:induction false} ScanComplete(lines: seq<string>, needle: string, caseSensitive: bool)
    ensures LineNumbers(Scan(lines, needle, caseSensitive)) == MatchingLines(lines, needle, caseSensitive)
  {
    if lines != [] {
      var n := |lines|;
      var front := lines[..n - 1];
      ScanComplete(front, needle, caseSensitive);
      ScanCompleteStep(lines, needle, caseSensitive);
    }
  }

  /** The inductive step of ScanComplete: one more line. */
  lemma ScanCompleteStep(lines: seq<string>, needle: string, caseSensitive: bool)
    requires lines != []
    requires LineNumbers(Scan(lines[..|lines| - 1], needle, caseSensitive))
      == MatchingLines(lines[..|lines| - 1], needle, caseSensitive)
    ensures LineNumbers(Scan(lines, needle, caseSensitive)) == MatchingLines(lines, needle, caseSensitive)
  {
    ScanNumbersStep(lines, needle, caseSensitive);
    MatchingLinesStep(lines, needle, caseSensitive);
  }

  /** Adding one line adds its number to the reported numbers exactly when it
      is a hit. */
  lemma ScanNumbersStep(lines: seq<string>, needle: string, caseSensitive: bool)
    requires lines != []
    ensures var n := |lines|;
      LineNumbers(Scan(lines, needle, caseSensitive))
        == LineNumbers(Scan(lines[..n - 1], needle, caseSensitive))
           + (if LineMatches(lines[n - 1], needle, caseSensitive) then {n} else {})
  {
    var n := |lines|;
    var front := lines[..n - 1];
    if LineMatches(lines[n - 1], needle, caseSensitive) {
      var m := Match(n, Trim(lines[n - 1]));
      assert Scan(lines, needle, caseSensitive) == Scan(front, needle, caseSensitive) + [m];
      LineNumbersPush(Scan(front, needle, caseSensitive), m);
    } else {
      assert Scan(lines, needle, caseSensitive) == Scan(front, needle, caseSensitive);
    }
  }

  /** The number of hits is the number of lines that are hits. */
  lemma {:induction false} ScanCount(lines: seq<string>, needle: string, caseSensitive: bool)
    ensures |Scan(lines, needle, caseSensitive)| == |MatchingLines(lines, needle, caseSensitive)|
  {
    if lines != [] {
      var n := |lines|;
      ScanCount(lines[..n - 1], needle, caseSensitive);
      MatchingLinesStep(lines, needle, caseSensitive);
    }
  }

  /** With case-insensitive search only the lower-cased needle matters. */
  lemma {:induction false} CaseInsensitiveNeedle(lines: seq<string>, n1: string, n2: string)
    requires Lower(n1) == Lower(n2)
    ensures Scan(lines, n1, false) == Scan(lines, n2, false)
  {
    if lines != [] {
      CaseInsensitiveNeedle(lines[..|lines| - 1], n1, n2);
    }
  }

  /** Every case-sensitive hit is also a case-insensitive hit. */
  lemma CaseSensitiveHitsAreInsensitiveHits(lines: seq<string>, needle: string)
    ensures MatchingLines(lines, needle, true) <= MatchingLines(lines, needle, false)
  {
    forall i | 0 <= i < |lines| && LineMatches(lines[i], needle, true)
      ensures LineMatches(lines[i], needle, false)
    {
      IncludesLower(lines[i], needle);
    }
  }

  /** What `search_in_pdf` reports about a decoded text. */
  datatype SearchResult =
    | NoMatches
    | Found(total: nat, shown: seq<Match>, hasMore: bool)

  /** `search_in_pdf` once the document is decoded: no hit gives `NoMatches`;
      otherwise the total count, the first ten hits and whether there are more. */
  function SearchText(text: string, needle: string, caseSensitive: bool): (r: SearchResult)
    ensures r.NoMatches? <==> MatchingLines(Split(text), needle, caseSensitive) == {}
    ensures r.Found? ==> r.total == |MatchingLines(Split(text), needle, caseSensitive)| > 0
    ensures r.Found? ==> |r.shown| == Min(MaxShown, r.total)
    ensures r.Found? ==> r.shown <= Scan(Split(text), needle, caseSensitive)
    ensures r.Found? ==> (r.hasMore <==> r.total > MaxShown)
  {
    var matches := Scan(Split(text), needle, caseSensitive);
    ScanCount(Split(text), needle, caseSensitive);
    if |matches| == 0 then NoMatches
    else Found(|matches|, matches[..Min(MaxShown, |matches|)], |matches| > MaxShown)
  }

  /** The search branch as the handler runs it: split the text, walk the lines
      once collecting hits, then cut the list at ten. */
  method SearchLines(text: string, needle: string, caseSensitive: bool) returns (r: SearchResult)
    ensures r == SearchText(text, needle, caseSensitive)
  {
    var term := if caseSensitive then needle else Lower(needle);
    var matches: seq<Match> := [];
    var lines := Split(text);
    for i := 0 to |lines|
      invariant matches == Scan(lines[..i], needle, caseSensitive)
    {
      var line := lines[i];
      var lineToCheck := if caseSensitive then line else Lower(line);
      ScanAppend(lines[..i], line, needle, caseSensitive);
      assert lines[..i + 1] == lines[..i] + [line];
      if Includes(lineToCheck, term) {
        matches := matches + [Match(i + 1, Trim(line))];
      }
    }
    assert lines[..|lines|] == lines;
    if |matches| == 0 {
      return NoMatches;
    }
    var displayMatches := matches[..Min(MaxShown, |matches|)];
    var hasMore := |matches| > MaxShown;
    r := Found(|matches|, displayMatches, hasMore);
  }

  /** The example text, three lines and a trailing newline, splits back into
      its lines and an empty last piece. */
  lemma ExampleLines()
    ensures Split(Join(["Alpha", "Beta", "alpha again", ""])) == ["Alpha", "Beta", "alpha again", ""]
  {
    var lines := ["Alpha", "Beta", "alpha again", ""];
    assert forall k :: 0 <= k < |lines| ==> '\n' !in lines[k];
    SplitJoin(lines);
  }

  /** Which of the example lines are hits for "alpha", with and without case. */
  lemma ExampleHits()
    ensures LineMatches("Alpha", "alpha", false) && LineMatches("alpha again", "alpha", false)
    ensures !LineMatches("Beta", "alpha", false) && !LineMatches("", "alpha", false)
    ensures LineMatches("alpha again", "alpha", true)
    ensures !LineMatches("Alpha", "alpha", true) && !LineMatches("Beta", "alpha", true) && !LineMatches("", "alpha", true)
  {
    assert Lower("Alpha") == "alpha";
    assert Lower("alpha again") == "alpha again";
    assert Lower("alpha") == "alpha";
    assert Lower("Beta") == "beta";
    assert Includes("alpha", "alpha");
    assert Includes("alpha again", "alpha");
    assert "alpha" != "Alpha";
  }

  /** The example hits have nothing to trim. */
  lemma ExampleTrim()
    ensures Trim("Alpha") == "Alpha" && Trim("alpha again") == "alpha again"
  {
    TrimKeepsTrimmed("Alpha");
    TrimKeepsTrimmed("alpha again");
  }

  /** Scanning one more line appends its hit, if it is one, after the hits
      so far. */
  lemma ScanAppend(front: seq<string>, line: string, needle: string, caseSensitive: bool)
    ensures Scan(front + [line], needle, caseSensitive)
      == Scan(front, needle, caseSensitive)
         + (if LineMatches(line, needle, caseSensitive) then [Match(|front| + 1, Trim(line))] else [])
  {
    assert (front + [line])[..|front|] == front;
  }

  /** The hits among the example lines, without case. */
  lemma ExampleScanInsensitive()
    ensures Scan(["Alpha", "Beta", "alpha again", ""], "alpha", false) == [Match(1, "Alpha"), Match(3, "alpha again")]
  {
    assert Scan(["Alpha"], "alpha", false) == [Match(1, "Alpha")] by {
      ScanAppend([], "Alpha", "alpha", false);
      assert [] + ["Alpha"] == ["Alpha"];
      ExampleHits();
      ExampleTrim();
    }
    assert Scan(["Alpha", "Beta"], "alpha", false) == [Match(1, "Alpha")] by {
      ScanAppend(["Alpha"], "Beta", "alpha", false);
      assert ["Alpha"] + ["Beta"] == ["Alpha", "Beta"];
      ExampleHits();
    }
    assert Scan(["Alpha", "Beta", "alpha again"], "alpha", false) == [Match(1, "Alpha"), Match(3, "alpha again")] by {
      ScanAppend(["Alpha", "Beta"], "alpha again", "alpha", false);
      assert ["Alpha", "Beta"] + ["alpha again"] == ["Alpha", "Beta", "alpha again"];
      ExampleHits();
      ExampleTrim();
    }
    ScanAppend(["Alpha", "Beta", "alpha again"], "", "alpha", false);
    assert ["Alpha", "Beta", "alpha again"] + [""] == ["Alpha", "Beta", "alpha again", ""];
    ExampleHits();
  }

  /** The hits among the example lines, with case. */
  lemma ExampleScanSensitive()
    ensures Scan(["Alpha", "Beta", "alpha again", ""], "alpha", true) == [Match(3, "alpha again")]
  {
    assert Scan(["Alpha"], "alpha", true) == [] by {
      ScanAppend([], "Alpha", "alpha", true);
      assert [] + ["Alpha"] == ["Alpha"];
      ExampleHits();
    }
    assert Scan(["Alpha", "Beta"], "alpha", true) == [] by {
      ScanAppend(["Alpha"], "Beta", "alpha", true);
      assert ["Alpha"] + ["Beta"] == ["Alpha", "Beta"];
      ExampleHits();
    }
    assert Scan(["Alpha", "Beta", "alpha again"], "alpha", true) == [Match(3, "alpha again")] by {
      ScanAppend(["Alpha", "Beta"], "alpha again", "alpha", true);
      assert ["Alpha", "Beta"] + ["alpha again"] == ["Alpha", "Beta", "alpha again"];
      ExampleHits();
      ExampleTrim();
    }
    ScanAppend(["Alpha", "Beta", "alpha again"], "", "alpha", true);
    assert ["Alpha", "Beta", "alpha again"] + [""] == ["Alpha", "Beta", "alpha again", ""];
    ExampleHits();
  }

  /** Searching "alpha" in "Alpha\nBeta\nalpha again\n" (three lines and a
      trailing newline): without case sensitivity lines 1 and 3 are hits, with
      it only line 3. */
  lemma SearchExample()
    ensures SearchText(Join(["Alpha", "Beta", "alpha again", ""]), "alpha", false)
      == Found(2, [Match(1, "Alpha"), Match(3, "alpha again")], false)
    ensures SearchText(Join(["Alpha", "Beta", "alpha again", ""]), "alpha", true)
      == Found(1, [Match(3, "alpha again")], false)
  {
    ExampleLines();
    ExampleScanInsensitive();
    ExampleScanSensitive();
  }
}
