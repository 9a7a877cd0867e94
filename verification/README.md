# Web scraper dashboard session and result writers — a Dafny model

This project models the bookkeeping of the web scraper. The model has three parts.

**The browser dashboard.** A scrape is started from a text box that holds one URL per line. The dashboard keeps a list of per-URL items and counts them by status: pending, scraping, success or error. Status patches pushed by the server are merged into that list: an unknown URL is appended and a known one is merged in place. A failed start request marks every item as failed. The successful items can be downloaded as CSV text.

**The URL text box.** It splits the text into lines, trims them and drops the blank ones. It also shows a URL count and enables the start button only when the text is not blank.

**The Go result writers.** They normalise output paths to `.csv` and `.json`. The CSV writer lays out a header and one row per record.

Modules, one per file:

- `Wrappers` (wrappers.dfy): `Option`.
- `Text` (text.dfy): the JavaScript and Go string primitives used by the core.
  - `String.prototype.split` on one character.
  - `String.prototype.trim`, using the ECMAScript WhiteSpace and LineTerminator code points.
  - `Array.prototype.join` and Go `strings.Join`.
  - Go `strings.HasSuffix`.
  - Decimal rendering of integers, as `strconv.Itoa` does it and as `String(number)` does it for integers below 10^21 in magnitude, with a parser that proves the rendering can be read back.
- `Session` (session.dfy): the item list and the patches that update it.
  - `handleUpdate`'s find-then-merge-or-append.
  - The initial pending list built by `startScraping`.
  - The start-failure mapping.
- `Aggregator` (aggregator.dfy): the stats reducer, the `active` flag (`isScraping`) and `isComplete`.
- `Export` (export.dfy): `downloadResults` in CSV format, as one string of text.
- `UrlInput` (url_input.dfy): `handleSubmit`, the URL counter and the submit button's enabled condition.
- `Writer` (writer.dfy): `NewCSVWriter` and `NewJSONWriter` path handling, and the CSV header and rows that `CSVWriter.Write` hands to `encoding/csv`.
- `Dashboard` (dashboard.dfy): the session driven by a sequence of events: start, start failed, patch. Its start event uses the corrected start that collapses repeated URLs (see Findings), so `Dashboard.Run` models the corrected program; the start as written is `Session.Initialise`. The module holds both halves of the duplicate-URL finding and the concrete scenarios.

## Model

| member | source | states |
|---|---|---|
| Session.PendingItem | web/src/components/ScraperDashboard.tsx:105-111 | the record a requested URL starts with is pending, holds that URL, no error, no headings and zero links |
| Session.Initialise | web/src/components/ScraperDashboard.tsx:104-113 | one blank pending item per requested URL, in request order; the item URLs are exactly the request list |
| Session.FindIndex | web/src/components/ScraperDashboard.tsx:58 | returns the first position whose URL matches; no earlier item has that URL; the result is absent exactly when the URL is not in the session |
| Session.ApplyUpdate | web/src/components/ScraperDashboard.tsx:56-71 | a known URL keeps the length; an unknown URL appends the patch's item and keeps the old list as a prefix; items with other URLs are unchanged; no URL moves; the patched URL is present afterwards |
| Session.ApplyUpdateMerges | web/src/components/ScraperDashboard.tsx:58-65 | the first item holding the patched URL becomes the shallow merge of old item and patch; every other item, a later one with the same URL included, is untouched |
| Session.Merge | web/src/components/ScraperDashboard.tsx:64 | definition of `{ ...item, ...update }`: fields the patch carries replace the item's; its laws are MergeFields, MergeLastWriteWins and MergeIdempotent |
| Session.FromPatch | web/src/components/ScraperDashboard.tsx:69 | definition of the item appended for an unseen URL: the patch merged over a blank pending item (see Left out) |
| Session.ApplyAll | web/src/components/ScraperDashboard.tsx:56-71 | definition of a stream of `handleUpdate` calls, folded left to right; its laws are ApplyAllKeepsDistinct, ApplyAllStatus and ApplyAllAppended |
| Session.LastStatus | web/src/components/ScraperDashboard.tsx:64 | reference definition: the status of the last patch in a stream naming a URL, or a given status when none does |
| Session.ApplyUpdateStatus | web/src/components/ScraperDashboard.tsx:58-69 | with distinct URLs, one update gives the patch's status to the item with its URL and changes no other status; an appended item has the patch's URL and status |
| Session.ApplyAllStatus | web/src/components/ScraperDashboard.tsx:56-71 | with distinct URLs, after any stream every item has the status of the last patch naming its URL, or its starting status (pending for an appended item) when none does |
| Session.ApplyAllAppended | web/src/components/ScraperDashboard.tsx:66-69 | in any session, repeated URLs included, every item a stream appends holds a URL some patch of the stream named |
| Session.ApplyAllGrows | web/src/components/ScraperDashboard.tsx:56-71 | in any session, repeated URLs included, a stream of updates removes no item and keeps the URL at every existing position |
| Session.MergeFields | web/src/components/ScraperDashboard.tsx:64 | object spread: the URL is kept, the status is the patch's, each other field is the patch's when present and the old one otherwise (headings replaced whole) |
| Session.MergeLastWriteWins | web/src/components/ScraperDashboard.tsx:64 | merging p and then a patch that sets every field p sets equals merging only the later patch |
| Session.MergeIdempotent | web/src/components/ScraperDashboard.tsx:64 | a patch delivered twice has the effect of delivering it once |
| Session.ApplyUpdateKeepsDistinct | web/src/components/ScraperDashboard.tsx:58-70 | merge-or-append never creates a second item for a URL |
| Session.ApplyAllKeepsDistinct | web/src/components/ScraperDashboard.tsx:56-71 | over any sequence of patches the URLs stay distinct, no item is removed, and the existing URLs keep their positions |
| Session.FailStart | web/src/components/ScraperDashboard.tsx:125-129 | every item becomes an error carrying "Failed to start request"; the length, the URLs and every other field are kept |
| Session.Dedup | web/src/components/ScraperDashboard.tsx:104 | corrected start: the result has no repeats and the same URLs as the input |
| Session.DedupKeepsDistinct | web/src/components/ScraperDashboard.tsx:104 | a list without repeats is left unchanged |
| Session.DedupPrefix | web/src/components/ScraperDashboard.tsx:104 | deduplicating a prefix gives a prefix of the deduplicated list, so first occurrences keep their order |
| Session.InitialiseUnique | web/src/components/ScraperDashboard.tsx:104-113 | corrected start: pending items with pairwise distinct URLs, covering exactly the requested URLs |
| Session.InitialiseUniqueAgrees | web/src/components/ScraperDashboard.tsx:104-113 | on a request without repeats the corrected start equals the original one |
| Aggregator.CountItem | web/src/components/ScraperDashboard.tsx:82-86 | definition of the reducer step: count the item, then bump the counter its status selects; Tally and TallyCounts state its effect |
| Aggregator.IsActive | web/src/components/ScraperDashboard.tsx:95 | definition of `some(status is pending or scraping)`; ActiveIffInProgress relates it to the counters |
| Aggregator.IsComplete | web/src/components/ScraperDashboard.tsx:203 | definition of `!isScraping && length > 0`; CompleteIffAllSettled relates it to the counters |
| Aggregator.InFlight | web/src/components/ScraperDashboard.tsx:85-95 | a status counts as in progress (and makes the session active) exactly when it is neither success nor error |
| Aggregator.Tally | web/src/components/ScraperDashboard.tsx:81-90 | total is the number of items, and completed + failed + inProgress equals total |
| Aggregator.TallyCounts | web/src/components/ScraperDashboard.tsx:82-86 | completed counts the success items, failed the error items, inProgress the pending plus scraping items |
| Aggregator.ActiveIffInProgress | web/src/components/ScraperDashboard.tsx:85-86 | the session is active (some item pending or scraping) exactly when the in-progress counter is positive |
| Aggregator.CompleteIffAllSettled | web/src/components/ScraperDashboard.tsx:203 | complete exactly when there are items and every one is counted completed or failed; an empty session is neither active nor complete |
| Aggregator.InitialiseStats | web/src/components/ScraperDashboard.tsx:104-113 | right after a start of n URLs the stats are (n, 0, 0, n), and the session is active exactly when n > 0 |
| Aggregator.FailStartStats | web/src/components/ScraperDashboard.tsx:125-129 | after a failed start the stats are (n, 0, n, 0) and nothing is active |
| Export.Successful | web/src/components/ScraperDashboard.tsx:134 | every exported item has status success |
| Export.SuccessfulMembers | web/src/components/ScraperDashboard.tsx:134 | an item is exported exactly when it is in the session with status success |
| Export.SuccessfulAppend | web/src/components/ScraperDashboard.tsx:134 | the filter distributes over concatenation, so it keeps session order |
| Export.SuccessfulCount | web/src/components/ScraperDashboard.tsx:134 | the export has exactly as many items as the completed counter |
| Export.Quote | web/src/components/ScraperDashboard.tsx:160 | definition of the template literal that wraps a cell in double quotes without escaping |
| Export.Cells | web/src/components/ScraperDashboard.tsx:148-156 | definition of a row's seven cells: URL, title, description, H1 count, H2 count, links, scraped-at; RowCells reads the numbers back |
| Export.QuoteAll | web/src/components/ScraperDashboard.tsx:160 | the `map` over a row's cells: same number of cells, each wrapped by Quote, in order |
| Export.HeaderLine | web/src/components/ScraperDashboard.tsx:159 | definition of the header joined by commas; HeaderFields splits it back into the seven column names |
| Export.Row | web/src/components/ScraperDashboard.tsx:160 | definition of one data line: the quoted cells joined by commas; RowCells splits it back |
| Export.Rows | web/src/components/ScraperDashboard.tsx:160 | the `map` over exported items: one line per item, in order, each the Row of that item |
| Export.Lines | web/src/components/ScraperDashboard.tsx:158-161 | the header line comes first and there are 1 + completed lines in all, one per successful item after the header |
| Export.CsvText | web/src/components/ScraperDashboard.tsx:158-161 | definition of the download text: header line and rows joined by newlines; CsvLayout splits it back |
| Export.HeaderFields | web/src/components/ScraperDashboard.tsx:147-159 | the header line splits on commas back into the seven column names |
| Export.RowCells | web/src/components/ScraperDashboard.tsx:148-160 | a row whose text fields hold no comma splits into the seven quoted cells; the H1 count, H2 count and links cells read back as those numbers |
| Export.CsvLayout | web/src/components/ScraperDashboard.tsx:158-161 | when no text field holds a newline, the CSV text splits on newlines into the header and one row per successful item, so it has 1 + completed lines |
| Export.EmptyExport | web/src/components/ScraperDashboard.tsx:158-161 | with nothing completed the download is the header line alone |
| Text.Join | web/src/components/ScraperDashboard.tsx:159-161 | definition of `Array.prototype.join` / `strings.Join`; JoinSplit, SplitJoin and JoinAppend state its laws |
| Text.HasSuffix | internal/writer/csv_writer.go:16 | definition of `strings.HasSuffix`: the suffix is the tail of the string |
| Text.Split | web/src/components/URLInput.tsx:18 | split always yields at least one piece and no piece contains the separator |
| Text.JoinSplit | web/src/components/URLInput.tsx:18 | joining the pieces of a split with the separator gives back the original text |
| Text.SplitJoin | web/src/components/ScraperDashboard.tsx:159-161 | splitting the join of separator-free parts gives back the parts |
| Text.SplitConcat | web/src/components/URLInput.tsx:18 | splitting a + sep + b gives the pieces of a followed by the pieces of b |
| Text.Trim | web/src/components/URLInput.tsx:19 | a non-empty trimmed string neither starts nor ends with whitespace |
| Text.TrimIsMiddle | web/src/components/URLInput.tsx:19 | the trimmed string is a contiguous slice of the input whose margins are all whitespace |
| Text.TrimEmptyIffAllSpace | web/src/components/URLInput.tsx:74 | trimming yields the empty string exactly when the input is all whitespace |
| Text.TrimIdempotent | web/src/components/URLInput.tsx:19 | trimming twice equals trimming once |
| Text.NatToDecimal | web/src/components/ScraperDashboard.tsx:152-154 | at least one digit, only digits, and no leading zero except for "0" itself |
| Text.IntToDecimal | internal/writer/csv_writer.go:45 | the canonical decimal text: a single leading minus sign exactly for negative numbers, then at least one digit and only digits, with no leading zero unless the digits are just "0" |
| Text.DecimalRoundTrip | internal/writer/csv_writer.go:45 | parsing the rendering of any integer gives that integer back |
| UrlInput.TrimEach | web/src/components/URLInput.tsx:19 | each line is replaced by its trimmed form, position by position |
| UrlInput.DropEmpty | web/src/components/URLInput.tsx:20 | no empty string survives the filter |
| UrlInput.DropEmptyAppend | web/src/components/URLInput.tsx:20 | the filter distributes over concatenation, so it keeps order |
| UrlInput.DropEmptyNone | web/src/components/URLInput.tsx:20 | the filter yields nothing exactly when every element is empty |
| UrlInput.ParseUrls | web/src/components/URLInput.tsx:17-20 | definition of split on newlines, trim each, drop empties; ParsedUrlsTrimmed, ParseLine, ParseConcat and ParseEmptyIffBlank state its behaviour |
| UrlInput.ParsedUrlsTrimmed | web/src/components/URLInput.tsx:17-20 | every parsed URL is non-empty and neither starts nor ends with whitespace |
| UrlInput.ParseLine | web/src/components/URLInput.tsx:17-20 | a single line parses to its trimmed form, or to nothing when it is blank |
| UrlInput.ParseConcat | web/src/components/URLInput.tsx:17-20 | parsing a + newline + b gives the URLs of a followed by the URLs of b |
| UrlInput.HandleSubmit | web/src/components/URLInput.tsx:15-25 | a scrape starts exactly when the parsed list is non-empty, and with that list |
| UrlInput.NonBlankLines | web/src/components/URLInput.tsx:70 | definition of the counter's filter: the lines, untrimmed, whose trimmed form is non-empty; UrlCountMatchesSubmit relates it to the submit path |
| UrlInput.UrlCount | web/src/components/URLInput.tsx:70 | definition of the label's count: lines whose trimmed form is non-empty; UrlCountMatchesSubmit relates it to submit |
| UrlInput.NonBlankTrimmed | web/src/components/URLInput.tsx:70 | trimming the lines kept by the counter's filter gives the submit handler's list |
| UrlInput.UrlCountMatchesSubmit | web/src/components/URLInput.tsx:70 | the displayed count equals the number of URLs a submit would start |
| UrlInput.ParseEmptyIffBlank | web/src/components/URLInput.tsx:17-22 | the parsed list is empty exactly when the whole text is whitespace |
| UrlInput.SubmitEnabled | web/src/components/URLInput.tsx:74 | definition of `!(isDisabled \|\| !urlText.trim())`; SubmitEnabledIffStarts relates it to submit |
| UrlInput.SubmitEnabledIffStarts | web/src/components/URLInput.tsx:74 | the start button is enabled exactly when the input is not disabled and a submit would start a scrape |
| Writer.EnsureSuffix | internal/writer/csv_writer.go:16-18 | the result ends with the extension; a path that already has it is kept, any other gets it appended |
| Writer.CsvPath | internal/writer/csv_writer.go:15-20 | the CSV writer's file path ends in ".csv" and is the given path when that already does |
| Writer.JsonPath | internal/writer/json_writer.go:14-19 | the JSON writer's file path ends in ".json" and is the given path when that already does |
| Writer.CsvPathIdempotent | internal/writer/csv_writer.go:15-20 | normalising a CSV path twice equals normalising it once |
| Writer.JsonPathIdempotent | internal/writer/json_writer.go:14-19 | normalising a JSON path twice equals normalising it once |
| Writer.EnsureSuffixOnce | internal/writer/csv_writer.go:16-18 | the path is a prefix of the result, and at most one copy of the extension is added |
| Writer.Header | internal/writer/csv_writer.go:33 | the seven column names written as the first record: URL, Title, Description, H1s, H2s, Links, ScrapedAt; Writer.Rows puts it first |
| Writer.HeadingCell | internal/writer/csv_writer.go:43-44 | definition of `strings.Join(headings, " \| ")`; HeadingCellLaws states its laws |
| Writer.Row | internal/writer/csv_writer.go:39-47 | definition of one record's seven cells; RowCells reads them back |
| Writer.Rows | internal/writer/csv_writer.go:33-51 | one header row of seven cells, then one seven-cell row per record, in input order |
| Writer.RowCells | internal/writer/csv_writer.go:39-47 | the URL, title, description and timestamp cells are the record's fields; the links cell reads back as the link count; no headings give an empty heading cell |
| Writer.HeadingCellLaws | internal/writer/csv_writer.go:43-44 | the heading cell is empty for no headings and the heading itself for one; it joins two non-empty lists with " \| " between them |
| Writer.RowsAppend | internal/writer/csv_writer.go:38-51 | rows for a + b are the rows for a followed by the data rows for b |
| Dashboard.RunKeepsDistinct | web/src/components/ScraperDashboard.tsx:56-130 | no sequence of corrected starts, start failures and patches puts two items with one URL in the session |
| Dashboard.Step | web/src/components/ScraperDashboard.tsx:56-130 | definition of one event: corrected start, start failure, or patch (see Left out) |
| Dashboard.Run | web/src/components/ScraperDashboard.tsx:56-130 | definition of a sequence of events applied in order; RunKeepsDistinct is its invariant |
| Dashboard.FromPendingStatus | web/src/components/ScraperDashboard.tsx:56-71 | from an all-pending session with distinct URLs, every item ends with its URL's last patched status and holds a requested or patched URL |
| Dashboard.UniqueStartCompletes | web/src/components/ScraperDashboard.tsx:203 | with the corrected start, once the last patch for every requested URL and every patched URL is success or error, the session is complete; earlier `scraping` patches are allowed |
| Dashboard.LastStatusOfStream | web/src/components/ScraperDashboard.tsx:64 | the stream `scraping` then `success` leaves its URL's status as success |
| Dashboard.ScenarioStreamCompletes | web/src/components/ScraperDashboard.tsx:203 | a corrected one-URL session that receives `scraping` and then `success` is complete |
| Dashboard.DuplicateStartNeverCompletes | web/src/components/ScraperDashboard.tsx:104-113 | with the start as written, a URL entered twice leaves the second item pending whatever patches arrive, so the session stays active and never completes |
| Dashboard.FailedStartReenablesInput | web/src/components/ScraperDashboard.tsx:125-129 | after a failed start the start button is enabled exactly when the text is not all whitespace |
| Dashboard.ScenarioStart | web/src/components/ScraperDashboard.tsx:100-113 | starting two URLs gives stats (2, 0, 0, 2) and an active session |
| Dashboard.ScenarioSuccess | web/src/components/ScraperDashboard.tsx:56-90 | a success patch for the first URL merges into its item and gives stats (2, 1, 0, 1) |
| Dashboard.ScenarioStartFailure | web/src/components/ScraperDashboard.tsx:125-129 | a failed start of one URL leaves one error item with the generic message and nothing active |
| Dashboard.ScenarioExport | web/src/components/ScraperDashboard.tsx:147-161 | the download after that patch is the header plus the one successful row, whose heading counts are "1" and "0" |

## Left out

- The WebSocket connection, reconnection and JSON parsing of pushed messages are left out: each message is a `Patch` event.
- The `fetch` POST to start a scrape is left out. Only its outcome is modelled: the `StartFailed` event stands for a network error or a non-ok response.
- React state scheduling is left out: `setScrapedData`, the effect that recomputes the stats, and the order of renders. The `isScraping` flag is modelled as the effect's value, derived from the item list. The optimistic `setIsScraping(true)` before the list is set and the explicit `setIsScraping(false)` on failure agree with that value once the effect runs.
- The JSON download format is left out (`JSON.stringify`, `Blob`, object URLs, `Date.now()` file names), and so is the browser download itself. The CSV download is modelled as its text.
- Go file creation and error returns are left out. So are `encoding/json` output and the quoting rules of `encoding/csv`. `Writer.Rows` stops at the cells handed to the CSV encoder.
- Timestamp formatting is left out: `ScrapedAt.Format(...)` in the Go writer and `scraped_at` on the web side are opaque strings.
- The worker pool, the rate limiter, the HTTP fetcher, the HTML parser, the hub and the command-line entry points are left out, because they are not part of this model.
- Rendering and styling are left out, and so is the sample-URL button. The progress percentage is floating point and is not modelled.
- Session.Merge: a patch always carries a status, because the TypeScript type declares `status` as required and every server message sets it. Status strings outside the four enum values are not modelled.
- Session.FromPatch: the source appends the raw message for an unseen URL, so fields the message lacks are `undefined`. The model fills them with a pending item's blank values, and export cells for such fields are modelled over those blanks.
- Export.Cells: `links` is a JavaScript number. Only integer values are modelled, rendered as decimal integers.
- Export.CsvLayout: the layout is stated only for sessions whose text fields hold no newline, and `Export.RowCells` only for rows whose text fields hold no comma. Splitting on newlines and commas, as these lemmas do, no longer recovers the lines and cells when a field holds either character, so no layout is stated for such text. To a CSV reader a comma or newline inside the double quotes stays in one cell. What breaks a cell there is a double quote inside a field, which the source does not double; the model writes it through unchanged and states no reading of it.
- Session.Headings: heading lists are sequences, as the `ScrapedData` type in web/src/types/index.ts declares. The Go parser leaves a list nil when a page has no `<h1>` or `<h2>`, and `encoding/json` sends a nil slice as `null`. On such an item the CSV download would fail at `d.headings.h1.length`; that case is not modelled.
- Dashboard.Step: the start event uses `Session.InitialiseUnique`, the corrected start, not the source's `Session.Initialise`. So `Dashboard.Run` and `Dashboard.RunKeepsDistinct` describe the corrected program. The start as written is covered by `Dashboard.DuplicateStartNeverCompletes`.
- Text.IntToDecimal: JavaScript's `String(number)` switches to exponent notation at 10^21 in magnitude. The web export's number cells agree with this rendering only below that bound.
- Text.Trim: it works on whole code points. JavaScript strings are UTF-16, so characters outside the Basic Multilingual Plane are not modelled as surrogate pairs.

## Findings

| source | as written | input that shows it | evidently intended | confidence | as-written member | corrected member |
|---|---|---|---|---|---|---|
| web/src/components/ScraperDashboard.tsx:104-113 | the start maps every line of the request to its own pending item, repeated URLs included; `findIndex` (line 58) then merges every patch for that URL into the first such item | the text `https://a.test` twice on two lines: the second item stays pending whatever the server sends, so the session never leaves "scraping" and results never become downloadable | one item per distinct URL, so that a session whose URLs all end with a final status completes, whatever `scraping` patches come first | not executed | Dashboard.DuplicateStartNeverCompletes | Dashboard.UniqueStartCompletes |
