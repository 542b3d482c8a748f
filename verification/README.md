# Intelligent Document Processing — response normalisation and page aggregation

This project models the core of the repository's two front ends, the Tk GUI
`idpDropGUI.py` and the Flask service `app.py`. That core turns a language
model's free-text reply into a JSON record and combines per-page records into
one document. It is written in Dafny as pure functions over strings,
sequences and maps.

What is modelled:

- **Text or image.** The GUI collects the text of every non-blank page. The
  PDF counts as image-based when it cannot be read or the collected text is
  blank (`GuiText`).
- **The GUI text ladder.** The reply is stripped, then tried in three stages:
  1. `json.loads` on the whole reply;
  2. a left-to-right scan with the pattern `({(?:[^{}]|{[^{}]*})*})`, which
     stops at the first candidate that is a dict with `document_type`;
  3. a three-step textual repair of the whole reply.

  If the value is still falsy, the ladder raises. Metadata is then added when
  missing (`GuiText`, `BraceScan`, `Repair`).
- **The GUI image path.** Each page reply is parsed directly, else from the
  greedy span between the first `{` and the last `}`. Pages are then merged
  (`GuiVision`):
  - document fields come from page 0 only;
  - items come from every page, in order;
  - the metadata is fixed before any page is processed.
- **The Flask helper.** It parses directly, else takes the first scan
  candidate that is a dict with `document_type`, else returns the degraded
  record `{"page_number": 1, "raw_output": <stripped reply>}`. Pages are then
  collected: each kept record is renumbered `page_number = index + 1`, and
  the page counts are recorded (`FlaskPages`).
- **The export route.** The model covers which worksheets the route writes,
  in which order, under which names, and which inputs make it fail
  (`FlaskExport`).
- **Top level.** `Pipelines` joins the GUI's two paths and compares the GUI's
  ladder with the Flask helper's.

Modelling choices:

- `json.loads` is a function parameter `parse: string -> Option<Json>`. `None`
  stands for a raised decode error.
- Python's JSON values are the datatype `Json`. Objects are maps, and
  `JNull` is also Python's `None`.
- A Python exception is an `Option` that is `None`, or an outcome
  constructor such as `Unparseable` or `Abort`.
- The regular expression of the scan is modelled twice:
  - a grammar, `BraceScan.InPattern`;
  - a depth-bounded matcher, `BraceScan.MatchAt`.

  `BraceScan.MatchAtIffPattern` proves the two agree. `BraceScan.ScanFrom`
  is `re.finditer`: leftmost match first, then resume at its end.
- The two `re.sub` calls of the repair are left-to-right rewriting
  functions. Their effect is stated through `Text.Erase` (the text with a
  class of characters removed) and `Text.Count`.
- Iterating a dict in insertion order matters in one place: `list.extend`
  with a dict value in the image merge. There the order is a parameter,
  `GuiVision.KeyOrder`. It is meant to list each key of the dict once
  (`GuiVision.ListsKeys`), and `GuiVision.Extension` states the dict case
  under that condition.
- The processing date is a parameter.

Quirks of the code that the model keeps:

- The Flask degraded record holds the *stripped* reply.
- `processed_pages` counts degraded pages too (`FlaskPages.DegradedPageIsCounted`).
- A parse result that is an empty dict is dropped as falsy, both by the GUI's
  later stages and by the Flask page collection.
- idpDropGUI.py does not compile as written. Lines 227 (`with fitz.open(pdf_path)
  as doc:`) and 228 (`for page_num ...`) have the same indentation, so Python
  rejects the whole module with an `IndentationError`, and none of its code,
  `_process_pdf_with_groq` included, can run. Every member of `GuiText`,
  `GuiVision` and `Pipelines` models the file with line 228 indented under
  the `with`.

## Model

| member | source | states |
|---|---|---|
| Text.Strip | idpDropGUI.py:464 | `str.strip()`: the result is empty iff the reply is all whitespace; otherwise it is the slice between the leading and trailing whitespace, and it neither starts nor ends with whitespace |
| Text.JoinSplit | idpDropGUI.py:501 | splitting on the form feed loses nothing: joining the pieces back gives the content |
| Text.IsSubstringAt | app.py:350 | `sub in s` holds exactly when `sub` occurs at some position of `s` |
| Text.Split | idpDropGUI.py:501 | `split('\f')` yields one more piece than there are form feeds, and no piece contains one |
| JsonValues.Truthy | app.py:348-350 | a value is falsy exactly when it is the false value of its own kind: `None`, `False`, `0`, `0.0`, or an empty string, list or dict |
| JsonValues.Contains | app.py:348-350 | `in` raises on `None`, booleans and numbers; on a dict it tests the keys, on a list the elements, and on a string the substrings at every position |
| JsonValues.Index | app.py:350-351 | `[key]` succeeds exactly on a dict holding the key, where `in` also holds; where `in` holds and indexing fails, the container is a list or a string |
| JsonValues.FirstDocIndex | app.py:268-276 | the position of the first candidate that parses to a dict with `document_type`; no earlier candidate does, and `None` only when no candidate does |
| BraceScan.MatchAt | idpDropGUI.py:474 | the scan's pattern tried at one position; `BraceScan.MatchAtIffPattern` states that it matches exactly the texts of the pattern's language |
| BraceScan.ScanFrom | idpDropGUI.py:474-475 | `re.finditer` from a position: every span lies within the text after that position; `BraceScan.ScanFromScanned` states that the spans are the leftmost non-overlapping matches |
| BraceScan.MatchAtIffPattern | idpDropGUI.py:474 | the depth-bounded matcher matches from `i` to `e` exactly when `s[i..e]` is in the language of `({(?:[^{}]|{[^{}]*})*})` |
| BraceScan.ScanFromScanned | idpDropGUI.py:474-475 | the `finditer` spans are genuine matches, non-overlapping, in increasing order, and no position where the pattern matches is skipped |
| BraceScan.Candidates | idpDropGUI.py:474-477 | each candidate is the text of its span and is in the pattern's language |
| BraceScan.PatternIsBalanced | idpDropGUI.py:474 | a matched text starts with `{`, ends with `}`, is brace-balanced, and its nesting depth stays between 1 and 2 inside it |
| BraceScan.CandidatesAreBalanced | idpDropGUI.py:474 | every scan candidate is brace-balanced with nesting depth at most 2 |
| BraceScan.ProseThenObject | idpDropGUI.py:474-478 | brace-free prose followed by a pattern-shaped object yields exactly that object as the first candidate, whatever trails it |
| Repair.ReplaceQuotes | idpDropGUI.py:488 | `replace("'", '"')`: same length, every single quote becomes a double quote, every other character is kept |
| Repair.QuoteKeys | idpDropGUI.py:489 | the `re.sub(r'(\w+):', r'"\1":', s)` rewrite, left to right; its properties are stated by `Repair.QuoteKeysOnlyAddsQuotes` (only double quotes are inserted) and `Repair.QuoteKeysQuotesBareKey` (a bare key is quoted) |
| Repair.QuoteKeysOnlyAddsQuotes | idpDropGUI.py:489 | quoting bare keys only inserts double quotes: the reply survives in order inside the result (a subsequence of it, so never longer), and with double quotes erased the two are equal |
| Repair.QuoteKeysQuotesBareKey | idpDropGUI.py:489 | a bare word key `w:` at the front comes out as `"w":` |
| Repair.DropTrailingCommas | idpDropGUI.py:490 | the `re.sub(r',\s*}', '}', s)` rewrite, left to right; its properties are stated by `Repair.DropOnlyCommasAndSpace` (only commas and whitespace are deleted) and `Repair.DropsTrailingComma` (a trailing comma collapses) |
| Repair.DropOnlyCommasAndSpace | idpDropGUI.py:490 | removing trailing commas only deletes, and only commas and whitespace: the result is a subsequence of the text (never longer), and with commas and whitespace erased the two are equal |
| Repair.DropsTrailingComma | idpDropGUI.py:490 | a comma followed only by whitespace and then `}` collapses to the `}` |
| Repair.RepairText | idpDropGUI.py:487-490 | the repaired reply has no single quote; it keeps the counts of `{`, `}` and `:`; up to quotes, commas and spaces, it equals the reply |
| GuiText.PdfContent | idpDropGUI.py:263-271 | the non-blank page texts, each followed by a blank line; `GuiText.ContentBlankIffPagesBlank` states that it is blank exactly when every page is |
| GuiText.IsImageBased | idpDropGUI.py:263-274 | the switch to the image path; `GuiText.ImageBasedIff` states it in terms of the pages |
| GuiText.ContentBlankIffPagesBlank | idpDropGUI.py:263-271 | the collected content is blank exactly when every page's text is blank |
| GuiText.ImageBasedIff | idpDropGUI.py:263-274 | the image path is taken iff the PDF cannot be read or every page's text is whitespace only |
| GuiText.ScanSelect | idpDropGUI.py:473-482 | the scan stops at the first candidate that is a dict with `document_type`; if there is none, it leaves the last candidate that parsed, or the initial value when none parsed |
| GuiText.TextLadder | idpDropGUI.py:464-496 | a direct parse is taken whatever it is; the scan runs only after the direct parse fails; the repair runs only if the scan left a falsy value, and a truthy parse of the repaired reply is then the result; a later-stage result is truthy; the ladder fails exactly when all three stages fail |
| GuiText.LadderFindsEmbeddedObject | idpDropGUI.py:470-482 | a reply of brace-free prose followed by a document object is recovered by the scan stage |
| GuiText.BlankReplyFails | idpDropGUI.py:464-496 | a blank reply never yields a record when parsing the empty string fails (a corollary of the ladder's contract) |
| GuiText.DefaultMetadata | idpDropGUI.py:500-504 | the default metadata has exactly three keys: `page_count` (form feeds in the content plus one), the processing date, and confidence 0.8 |
| GuiText.PageCountWithoutFormFeeds | idpDropGUI.py:263-267 | page texts are joined with blank lines, so without form feeds in them the default `page_count` is 1 whatever the page count |
| GuiText.AddMetadata | idpDropGUI.py:499-504 | existing metadata is left unchanged; a dict without it gains exactly the default metadata with every other key unchanged; strings and lists that contain `'metadata'` pass through; anything else raises |
| GuiText.ProcessTextPdf | idpDropGUI.py:412-520 | no record when the call raised or the ladder failed, so no degraded record exists on this path; when the model replied and the ladder succeeded, the record is the ladder's value with metadata added |
| GuiText.TextRecordHasMetadata | idpDropGUI.py:499-504 | a dict record from the text path carries metadata and, apart from it, exactly the ladder's fields |
| GuiVision.GreedySpan | idpDropGUI.py:361 | the `({[\s\S]*})` match runs from the first `{` to the last `}`; there is none iff no `{` is followed by a `}` |
| GuiVision.PageData | idpDropGUI.py:356-371 | the direct parse wins; otherwise the page's record is the parse of the greedy span |
| GuiVision.PageDataUnwrapsProse | idpDropGUI.py:361-364 | a reply that wraps one `{...}` text in brace-free prose is parsed from exactly that text |
| GuiVision.DocLevel | idpDropGUI.py:376-377 | the first page's fields except `items` and `metadata`, with their values |
| GuiVision.Extension | idpDropGUI.py:381 | `extend` appends a list's elements, a string's characters, or a dict's keys in iteration order, and raises on anything else; when the iteration order lists each key once (`GuiVision.ListsKeys`), a dict adds each of its keys exactly once and nothing else |
| GuiVision.PageItems | idpDropGUI.py:380-381 | a dict without `items` adds nothing; a dict with it adds its extension; a string or list containing `'items'` raises on indexing; other scalars raise on `in` |
| GuiVision.StepOf | idpDropGUI.py:294-381 | an unencodable page or an unparseable reply is skipped; a failed call aborts; only page 0 contributes document fields and must be a dict; the abort conditions are exactly these; a reply that parses and does not abort contributes exactly the items its record adds |
| GuiVision.Steps | idpDropGUI.py:294-381 | the per-page loop: one step per rendered page, page `k`'s step decided by its own outcome and position; `GuiVision.MergeSteps` and `GuiVision.MergeCollectsAllItems` state what the merge makes of them |
| GuiVision.MergeSteps | idpDropGUI.py:294-401 | the merge fails iff some page aborts |
| GuiVision.MergeCollectsAllItems | idpDropGUI.py:380-381 | the merged items are every page's items concatenated in page order |
| GuiVision.MergeDocFromFirst | idpDropGUI.py:374-377 | the merged document fields are `document_type: null` overridden by the first page's fields |
| GuiVision.VisionMetadata | idpDropGUI.py:287-291 | the image path's metadata: the rendered page count, the date and confidence 0.0 |
| GuiVision.VisionMerge | idpDropGUI.py:276-401 | no record when no page was rendered or some page aborts, and only then |
| GuiVision.VisionRecordShape | idpDropGUI.py:284-381 | the combined record's metadata is the fixed one, never taken from a page; its items are all pages' items in order; its other fields are `document_type: null` overridden by page 0's fields |
| GuiVision.VisionDocumentType | idpDropGUI.py:284-377 | `document_type` is always present, and it is `null` unless page 0 supplies one |
| FlaskPages.Degraded | app.py:278-282 | the degraded record has exactly `page_number` 1 and `raw_output` holding the stripped reply |
| FlaskPages.ScoutReply | app.py:256-288 | a direct parse is returned unchanged; otherwise the first candidate that is a dict with `document_type`, skipping earlier ones that fail or lack it; otherwise exactly the degraded record; it never raises |
| FlaskPages.ScoutDegradesProse | app.py:261-282 | a reply with no braces that does not parse directly comes back as the degraded record (a corollary of `ScoutReply`'s contract) |
| FlaskPages.ScoutFindsEmbeddedObject | app.py:268-274 | brace-free prose followed by a document object yields that object |
| FlaskPages.ScoutOutcome | app.py:144-293 | a value reaches the caller only for a page whose model call replied |
| FlaskPages.Outcomes | app.py:74-121 | the per-page loop: one outcome per page, page `k`'s outcome decided by its own attempt; `FlaskPages.Collect` and `FlaskPages.KeptIsCollected` state which records are kept |
| FlaskPages.KeptPage | app.py:115-121 | a page's record is kept iff it is a non-empty dict, and it is then renumbered `index + 1` with every other key unchanged |
| FlaskPages.Collect | app.py:74-121 | no more records than pages; each record is the kept record of the page its number names, numbers lie in `1..n`, and they strictly increase |
| FlaskPages.KeptIsCollected | app.py:115-117 | every kept page record is among the collected pages |
| FlaskPages.ProcessPdf | app.py:66-142 | no record iff the PDF cannot be opened; otherwise exactly `pages` and `metadata`, with `total_pages` the page count and `processed_pages` the number of collected records |
| FlaskPages.ProcessedAtMostTotal | app.py:127-132 | `processed_pages` never exceeds `total_pages` |
| FlaskPages.DegradedPageIsCounted | app.py:115-131 | a page whose reply degrades is still collected, renumbered, and so counted as processed |
| FlaskExport.DigitsRoundTrip | app.py:354 | the decimal text of a number reads back as that number |
| FlaskExport.IntText | app.py:341-354 | `str` of an int is its digits, with a minus sign when negative, and `int` reads it back as the same number |
| FlaskExport.Str | app.py:341-354 | an f-string writes a string as itself, an int as exactly `IntText` of it (its digits without leading zeros, minus sign when negative, read back by `int` as the same number), and `None` and booleans as `None`, `True`, `False` |
| FlaskExport.TableSheetName | app.py:351-354 | `Page N - <table_name>` is kept when it has at most 31 characters, and replaced by `Page N - Table K` otherwise |
| FlaskExport.FallbackNamesTable | app.py:354 | a fallback name ends with the table's 1-based position in decimal |
| FlaskExport.TableEntrySheet | app.py:350-356 | a dict table gets a sheet iff its `items` are present and truthy, and then needs `table_name`; string and list entries raise only when they contain `'items'` |
| FlaskExport.TableListSheets | app.py:349-356 | the route raises iff some table entry raises; otherwise the table sheets come in table order, each naming a table of the list |
| FlaskExport.TableListSheetsFromEntries | app.py:349-356 | every table sheet is exactly the sheet its own table entry produces, name included |
| FlaskExport.TableListSheetsCoverEntries | app.py:349-356 | every sheet a table entry produces is among the table sheets |
| FlaskExport.TableSheetIffItems | app.py:349-356 | for named dict tables, table K gets a sheet exactly when its `items` are present and truthy |
| FlaskExport.PageList | app.py:340 | a list of pages is iterated as is |
| FlaskExport.TablesSheets | app.py:348-356 | a list of tables gives its entries' sheets in table order; a string gives no sheet; a dict of tables raises iff some key contains `items` and gives no sheet otherwise; scalars raise |
| FlaskExport.PageSheets | app.py:340-361 | every page gets its `Page N - Fields` sheet first; with truthy `tables` the rest are exactly the tables' sheets; otherwise the legacy `Page N - Items` sheet follows iff `items` is truthy, and nothing else |
| FlaskExport.AllPageSheets | app.py:339-361 | the sheets of the page records, page after page; `FlaskExport.AllPageSheetsIffPages` and `FlaskExport.AllPageSheetsAppend` state when it fails and that it concatenates |
| FlaskExport.AllPageSheetsIffPages | app.py:339-361 | the export of the pages fails iff the sheets of some page fail |
| FlaskExport.AllPageSheetsAppend | app.py:339-361 | the sheets of two runs of pages are the first run's followed by the second's, and the joined run fails iff one of them fails |
| FlaskExport.EveryPageHasFieldsSheet | app.py:341-345 | each page of a successful export has its fields sheet in the workbook |
| FlaskExport.ExportSheets | app.py:331-361 | success needs `metadata` with the three summary keys and `pages`; the workbook is the `Summary` sheet followed by the pages' sheets in page order, so `Summary` comes first and only once |
| FlaskExport.NoSummaryAmongPages | app.py:339-361 | page records never produce a summary sheet |
| Pipelines.ProcessPdfWithGroq | idpDropGUI.py:255-525 | an unreadable PDF, or one whose every page is blank, goes down the image path (the vision merge); a readable PDF with some non-blank page goes down the text path on its joined page text |
| Pipelines.TextPdfUsesTextPath | idpDropGUI.py:263-276 | a readable PDF with one non-blank page takes the text path (a corollary of `ProcessPdfWithGroq`'s contract) |
| Pipelines.BlankPdfUsesImagePath | idpDropGUI.py:263-276 | a readable PDF whose pages are all blank takes the image path (a corollary of `ProcessPdfWithGroq`'s contract) |
| Pipelines.LaddersAgreeOnDirectParse | app.py:261-263 | on a reply that parses directly, the GUI ladder and the Flask helper return the same value (a corollary of both ladders' contracts) |
| Pipelines.LaddersAgreeOnDocCandidate | app.py:268-274 | when a scan candidate is a document object, both ladders return the first such candidate |
| Pipelines.LaddersPartOtherwise | app.py:278-282 | otherwise the Flask helper degrades, while a GUI scan result is never a document object |

## Left out

- Model calls, prompts, OCR and PDF rendering are left out. They are network
  or foreign-library I/O. Their outcomes are inputs instead:
  - page texts (`GuiText.PdfText`);
  - the text-path reply, or its absence;
  - per-page outcomes (`GuiVision.VisionPage`, `FlaskPages.PageAttempt`).
- Writing JSON and Excel files, temporary-image cleanup, dialogs and console
  output are left out; they are I/O.
- The Flask route wrappers (`/process` upload checks, `jsonify`,
  `send_file`) are left out; they are framework code.
- `datetime.now()` is not modelled; the date is a parameter.
- `json.loads` is not defined. It is a parameter, and no property depends on
  how it parses.
- Python dicts keep insertion order; the model's maps do not. Key order only
  matters for the dict case of `list.extend`, and there it is a parameter.
  The parameter is not constrained, so the merge's contracts hold for any
  order; that a dict adds each key once is stated only under
  `GuiVision.ListsKeys`.
- FlaskExport.IntValue reads only the texts `str` writes for an int. Python's
  `int` also accepts surrounding whitespace, a `+` sign and underscores.
- `Text.IsWordChar` approximates `\w` by ASCII letters, digits and `_`.
  Python's `\w` on `str` also matches other Unicode letters and digits.
- JSON `NaN` and the infinities are not distinguished from other floats by
  truthiness.
- `FlaskExport.Str` computes `str()` of floats, lists and dicts through a
  `show` parameter; it is exact for strings, ints, `None` and booleans.
- FlaskExport: pandas and xlsxwriter may reject a sheet name (too long,
  forbidden characters, duplicates) or an `items` value. Those library
  checks are not modelled, so a sheet listed by the model may still fail to
  be written. `FlaskExport.SheetNamesCanCollide` shows two tables that get
  the same name.
- Iterating a non-empty dict of tables or pages is summarised by its
  outcome: a key containing `items` raises for tables, any key raises for
  pages, and no sheet is written either way.
- The images `_convert_pdf_to_images` renders are an input of their own
  (the `GuiVision.VisionPage` list); nothing ties their number to the PDF's
  page texts.
- The `except json.JSONDecodeError` clauses are modelled as catching every
  parse failure of the reply.
- The GUI's display and export helpers (`export_excel` and the results view)
  are not part of this model.
