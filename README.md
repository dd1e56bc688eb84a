# mcp-pdf-reader query layer, in Dafny

This project models the tool-call handler of the `mcp-pdf-reader` server
(`build/index.js`). The handler answers four tools:

- `read_pdf` returns the full text and the page count.
- `get_pdf_info` returns the metadata summary.
- `read_pages` returns the text labelled with a page range.
- `search_in_pdf` returns line-level matches.

Every answer comes back as one envelope `{ text, isError? }`.

The PDF decoder and the file system are not modelled. They are parameters:

- `fileExists: string -> bool` stands for `fs.existsSync`.
- `load: string -> Load` stands for `fs.readFileSync` followed by the decoder.
  It yields either the decoded document (`text`, `numpages`, optional `info`
  dictionary) or the message of the exception thrown on the way.

Files:

- `text.dfy` (module `JsText`): the JavaScript string built-ins the handler
  relies on. These are `split('\n')` with its inverse `join('\n')`,
  `toLowerCase`, `includes`, `trim` (with the exact ECMAScript white-space set)
  and `endsWith`.
- `query.dfy` (module `Query`): what the tools compute from a decoded document.
  This covers the `get_pdf_info` fields, the `read_pages` range policy and the
  `search_in_pdf` scan. The scan has two forms: a specification function
  (`Scan`, `SearchText`) and an imperative method with a loop over the lines
  (`SearchLines`), which is proved equal to it.
- `handler.dfy` (module `Handler`): the dispatcher. It is a pure function from
  the tool name, the arguments, `fileExists` and `load` to an envelope whose
  body is a tagged datatype, one variant per kind of answer.

An unknown tool name gets `isError: true` (`build/index.js:320`), like the
caught exceptions; a missing file, a name without the `.pdf` suffix, a start
page past the end and a search without hits are normal answers.

## Model

| member | source | states |
|---|---|---|
| JsText.Split | build/index.js:271 | `split('\n')` always returns at least one piece, and no piece contains a newline |
| JsText.JoinSplit | build/index.js:271 | joining the pieces of a split with `'\n'` gives back the original text |
| JsText.SplitJoin | build/index.js:271 | splitting the join of newline-free pieces gives back exactly those pieces |
| JsText.SplitCount | build/index.js:178 | the number of pieces equals the number of `'\n'` characters plus one, so it is 1 for empty text and never 0 |
| JsText.IncludesSpec | build/index.js:274 | `includes` holds iff the needle occurs at some index of the line; the empty needle occurs in every line |
| JsText.IncludesLower | build/index.js:273-274 | an occurrence survives lower-casing both sides, so a case-sensitive hit is also a case-insensitive hit |
| JsText.LowerSpec | build/index.js:273 | `toLowerCase` keeps the length, maps each letter A-Z to its lower-case partner, keeps every other character and leaves no upper-case letter |
| JsText.TrimSpec | build/index.js:275 | `trim` removes only white space, from both ends, and leaves neither end white |
| JsText.TrimKeepsTrimmed | build/index.js:275 | a text whose ends are not white space is its own trim |
| JsText.TrimIdempotent | build/index.js:275 | trimming twice equals trimming once |
| Query.MetaField | build/index.js:171-176 | a metadata field is the dictionary's value when present and non-empty, otherwise "未知"; the result is never empty |
| Query.InfoOf | build/index.js:166-179 | page count is `numpages`; character count is the text length; line count is the newline count plus one; each of the six metadata fields falls back to "未知" |
| Query.EmptyDocumentInfo | build/index.js:177-178 | an empty text reports 1 line and 0 characters |
| Query.EffectiveEnd | build/index.js:226 | with an `end_page` that is present and not 0 (truthy) the end is `min(end_page, numpages)`; an absent or 0 `end_page` falls back to `start_page` |
| Query.ReadPages | build/index.js:216-236 | refused iff `start_page > numpages`; otherwise the body is the full text, and the label is a single page iff start equals the effective end, else the range start..effective end |
| Query.StartBeyondEndIgnoresEndPage | build/index.js:216-225 | a start page past the end is refused whatever `end_page` is |
| Query.LabelWithinDocument | build/index.js:226-231 | for 1 <= start <= numpages and an end not before start, the labelled range lies inside the document and not past the requested end |
| Query.PagesExample | build/index.js:216-231 | start 5 in a 3-page document is refused with 5 and 3; start 2, end 9 is labelled 2-3; start 2 alone is labelled page 2 |
| Query.LineMatchesSpec | build/index.js:273-274 | a line is a hit iff the needle occurs in it, both lower-cased first when the search is not case-sensitive |
| Query.Scan | build/index.js:270-277 | the `forEach` over the lines pushes at most one hit per line |
| Query.ScanSound | build/index.js:272-276 | every reported hit names an existing 1-based line that contains the (lower-cased) needle, and carries that line trimmed |
| Query.ScanAscending | build/index.js:272-276 | hits come out in strictly increasing line order |
| Query.ScanComplete | build/index.js:272-277 | the reported line numbers are exactly the lines that match: none missed, none invented |
| Query.ScanCount | build/index.js:272-278 | the number of hits equals the number of matching lines |
| Query.CaseInsensitiveNeedle | build/index.js:269-274 | a case-insensitive search gives the same hits for any two needles that lower-case alike |
| Query.CaseSensitiveHitsAreInsensitiveHits | build/index.js:268-274 | every line hit by a case-sensitive search is also hit by the case-insensitive one |
| Query.SearchText | build/index.js:278-298 | "no matches" iff no line matches; otherwise the total is the number of matching lines, the first min(10, total) hits are shown in order, and "more" is flagged iff total > 10 |
| Query.SearchLines | build/index.js:268-298 | the loop that pushes each matching line's number and trimmed text, followed by the slice to ten, computes exactly `SearchText` |
| Query.SearchExample | build/index.js:268-298 | searching "alpha" in "Alpha\nBeta\nalpha again\n" hits lines 1 and 3 case-insensitively (2 in total, no truncation) and only line 3 case-sensitively |
| Handler.ToolNamed | build/index.js:104-312 | each of the four tool names selects its tool and every other name selects none |
| Handler.Answer | build/index.js:127-298 | the answer after a successful load is never an error. `read_pdf` carries the page count and the text unchanged. `get_pdf_info` carries the whole `InfoOf` summary (path, page count, character and line counts, six metadata fields). `read_pages` refuses a start past the end with both numbers, and otherwise labels the full text with a single page iff the start equals the effective end, else the span start..effective end. `search_in_pdf` answers "no matches" with the path and search text exactly when no line matches; otherwise it gives the total number of matching lines, the first min(10, total) hits in order, and "more" iff total > 10 |
| Handler.Handle | build/index.js:101-335 | `isError` is set exactly for load failures, missing arguments and unknown tools; an unknown name gives the unknown-tool error; a missing file gives the soft not-found answer for every tool; only `read_pdf` rejects a name without a case-insensitive ".pdf" suffix; past those checks a load failure gives the tool's error with the exception's message, and a decoded document gives the tool's `Answer` without `isError`; the tool error arises exactly from a load failure |
| Handler.MissingFileIsNeverLoaded | build/index.js:104-264 | for every tool a nonexistent path gives the not-found answer without `isError`, whatever the loader would do |
| Handler.ReadPdfChecksSuffixBeforeLoading | build/index.js:117-126 | `read_pdf` on an existing file without the ".pdf" suffix answers "not a PDF" without `isError`, whatever the loader would do |
| Handler.OtherToolsIgnoreSuffix | build/index.js:151-165 | the other three tools load any existing file whatever its name and answer from what the loader returns |
| Handler.ReadPdfReturnsText | build/index.js:127-137 | `read_pdf` on an existing `.pdf` file that decodes answers with the page count and the whole text, without `isError` |
| Handler.LoadFailureIsHardError | build/index.js:139-148 | a read or decode exception gives `isError: true` with the tool and the exception's message |
| Handler.ReadPagesTextIsReadPdfText | build/index.js:232-236 | `read_pages` returns the same text as `read_pdf` for the same document; the range is only a label |
| Handler.NoMatchesIsSoft | build/index.js:278-287 | a search without hits answers "not found" without `isError` |
| Handler.PdfSuffixSpec | build/index.js:117 | a path passes the suffix test iff its last four characters lower-case to ".pdf"; lower-casing the path first changes nothing |
| Handler.PdfSuffixExamples | build/index.js:117 | "Report.PDF" and "a.pdf" pass the suffix test; "notes.txt" and "pdf" fail it |

## Left out

- The server setup, the tool listing and `main()` (lines 2-99 and 336-344) are transport and registration.
- `fs.existsSync`, `fs.readFileSync` and the `pdf-parse` decoder are I/O and a foreign library. They are the `fileExists` and `load` parameters.
- The file size in MiB (line 169) is floating-point formatting, and `path.basename` (lines 168, 236, 283, 295) is a library call. Answers carry the full path instead.
- The message templates (Chinese text, `JSON.stringify` layout, the "line N:" prefix and the `join('\n')` of the shown matches) are presentation. Bodies keep the fields those messages interpolate.
- The text of a runtime exception is not modelled. A missing `arguments` object is modelled as `ArgumentsMissing`, without the engine's message.
- Missing individual arguments (`file_path`, `start_page`, `search_text`) are not modelled. The tool schemas mark them required, and the model's `Args` always holds them. Non-numeric page values and NaN are not modelled either. Page numbers are modelled as integers; fractional values such as 2.5, which the `number` schema type admits, are not. `end_page` is falsy only when absent or 0.
- JsText.Lower: maps only the ASCII letters A-Z. JavaScript's `toLowerCase` applies full Unicode case mapping, including context-dependent rules.
- JsText.IncludesLower, Query.CaseSensitiveHitsAreInsensitiveHits: these hold only under the model's letter-by-letter ASCII lower-casing. Under JavaScript's Greek final-sigma rule, the line "ΑΣ" with search text "Σ" is a case-sensitive hit ("ΑΣ" includes "Σ"). It is a case-insensitive miss, because "ας" does not include "σ".
- JsText.Split, Query.InfoOf: a Dafny `char` is a Unicode scalar value. JavaScript's `length` counts UTF-16 code units, so characters outside the Basic Multilingual Plane count once here and twice in the source.
- The metadata dictionary is modelled as string to string. Non-string values that `pdf-parse` may put there are not modelled.
- Line 268 computes a lower-cased copy of the whole text that is never read. It has no effect and is not modelled.
- `async`/`await` brings no concurrency to one request and is not modelled.
