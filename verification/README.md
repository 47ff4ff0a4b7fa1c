# Document extraction tool: a verified model of its core

The document extraction tool takes uploaded PDF files of watershed plans and
turns them into structured records. Its core is a set of small sequential
algorithms sitting between the I/O and the library calls, and this project
models them in Dafny:

- **Job queue and worker.** A file-backed job queue (`enqueue`,
  `claimNextPending`, `markCompleted`, `markFailed`) and one iteration of the
  worker loop: claim a job, dispatch on its name, then complete or fail it.
- **Page splitting and extraction.**
  - Page records are upserted in two phases, keyed by `(uploadId, pageNumber)`.
  - Page text is laid out as HTML with lines and headings.
  - A text heuristic detects tables, and JPEG/JPEG 2000 image streams are
    selected.
  - Visual tables from the external extractor are saved, with per-page
    table index counters.
- **Reconciliation.** The merge engine persists a model's extraction result.
  For each incoming instance it finds the row with the same normalised key
  and then inserts, ignores, merges conservatively or applies updates.
- **Utilities.** Artifact file names, `slugify`, `uniqueSlug`, the upload
  listing clamps, the report summary and the front end's pagination
  arithmetic.

Each source file becomes one module:
- `queue.dfy`, `worker.dfy`
- `reconcile.dfy` (extraction persistence)
- `html_from_text.dfy`, `table_text.dfy`, `image_extract.dfy`
- `pdf_page.dfy`
- `file_names.dfy`, `slugify.dfy`, `upload.dfy`, `report.dfy`, `pagination.dfy`

Three helper modules support them: `wrappers.dfy` (Option and Result),
`strings.dfy` (JavaScript's `trim`, `toLowerCase` and `join`, and number
rendering) and `json.dfy` (JSON values with `?.`, `??`, `||` and `String(x)`).

State is modelled as follows:
- **Classes.** Code that mutates state becomes a class: `Queue.JobQueue`,
  `Reconcile.Repositories` and `PdfPage.PdfPageService`.
- **Specifications.** Each method is proved equal to a pure specification
  function of the old state, and the source's promises are lemmas about
  those functions.
- **Repositories.** TypeORM repositories are maps or sequences of records in
  the model, and the file system is a map from paths to contents.
- **Parameters.** Clocks, generated ids, the merge oracle, the PDF libraries
  and the PDF processor run by the worker all become parameters.

Two behaviours of the code are worth knowing, and the model keeps both:
- **Existing rows are re-read.** `reconcileOne` re-reads the existing rows
  for every incoming instance (extraction-persist.service.ts:84), so a row
  inserted for one instance is a candidate for the next: a goal repeated in
  one result is saved once (`Reconcile.RepeatedGoalSavedOnce`).
- **Table index counters.** The visual pass restarts its table counter at 1
  for each page (pdf-page.service.ts:188), so a visual table can reuse the
  index and file name of the page's first text-heuristic table
  (`PdfPage.FirstVisualTableIsOne`).

## Model

| member | source | states |
|---|---|---|
| Queue.ReadQueue | backend/src/queue/queue.service.ts:18-27 | a missing, unparsable or non-array store reads as the empty list; a stored list reads as itself |
| Queue.UnreadableStoreHasNothingToClaim | backend/src/queue/queue.service.ts:18-27 | on an unreadable store a claim finds nothing and writes nothing, instead of throwing |
| Queue.FirstPending | backend/src/queue/queue.service.ts:59-60 | the lowest index whose job is pending, and none exactly when no job is pending |
| Queue.NewJob | backend/src/queue/queue.service.ts:38-48 | a new job is pending with zero attempts, no error, and both timestamps set to now |
| Queue.AfterEnqueue | backend/src/queue/queue.service.ts:49-51 | exactly one job is appended at the end and all earlier jobs are unchanged |
| Queue.AfterClaim | backend/src/queue/queue.service.ts:57-68 | nothing is claimed iff no job is pending; otherwise the first pending job becomes processing and is returned, every other job stays as it was, and no id, name or payload changes |
| Queue.AfterComplete | backend/src/queue/queue.service.ts:70-81 | an unknown id changes nothing; the first job with the id becomes completed with no error, whatever its prior status; ids, names and payloads are kept |
| Queue.AfterFail | backend/src/queue/queue.service.ts:83-96 | an unknown id changes nothing; the first job with the id becomes failed, its attempts grow by exactly one, and the message is recorded |
| Queue.JobQueue.Enqueue | backend/src/queue/queue.service.ts:34-54 | the stored list becomes the read list with the new job appended, and that job is returned |
| Queue.JobQueue.ClaimNextPending | backend/src/queue/queue.service.ts:57-68 | returns the claimed job; the store is untouched when there is nothing to claim, and is the claimed list otherwise |
| Queue.JobQueue.MarkCompleted | backend/src/queue/queue.service.ts:70-81 | an unknown id leaves the store untouched; otherwise the store holds the completed list |
| Queue.JobQueue.MarkFailed | backend/src/queue/queue.service.ts:83-96 | an unknown id leaves the store untouched; otherwise the store holds the failed list |
| Queue.UniqueIdsPreserved | backend/src/queue/queue.service.ts:49-51 | enqueueing a fresh id keeps ids unique, and claiming, completing and failing keep them unique |
| Queue.EnqueueAll | backend/src/queue/queue.service.ts:50 | successive enqueues append the jobs in order |
| Queue.ClaimsInListOrder | backend/src/queue/queue.service.ts:59-61 | once the jobs before index k are no longer pending and the rest are, successive claims return the jobs from index k on, one per claim and in list order, each marked processing at its claim time |
| Queue.ClaimsLeaveRest | backend/src/queue/queue.service.ts:59-66 | the same claims keep the list's length, leave none of the claimed jobs pending, and leave every job after them as it was |
| Queue.FirstInFirstOut | backend/src/queue/queue.service.ts:50 | after n enqueues on an empty store, n claims return those jobs in enqueue order, each once, and the next claim returns nothing |
| Worker.UploadIdOf | backend/src/worker/worker.runner.ts:36 | the upload id is present exactly when the payload carries one |
| Worker.Run | backend/src/worker/worker.runner.ts:35-40 | an `extract_pdf` job runs the processor on its upload id; any other name throws `Unknown job type: <name>` |
| Worker.StepSpec | backend/src/worker/worker.runner.ts:26-45 | the iteration sleeps with the queue unchanged iff no job is pending; otherwise it handles the job a claim returns, done exactly when running it returned and failed with the thrown message otherwise |
| Worker.Step | backend/src/worker/worker.runner.ts:26-45 | the iteration on the queue object does what StepSpec says, leaving the store untouched when it sleeps |
| Worker.Finished | backend/src/queue/queue.service.ts:70-96 | a marked job keeps its id, name and payload; completed means no error and the same attempts, failed means the thrown message and one more attempt |
| Worker.StepRewritesClaimedJob | backend/src/worker/worker.runner.ts:27-45 | with unique ids, an iteration that claims a job replaces the first pending job by its completed or failed form and leaves every other position as it was |
| Worker.StepTouchesOnlyClaimedJob | backend/src/worker/worker.runner.ts:27-45 | with unique ids an iteration changes only the first pending job, which ends completed or failed; every other job is unchanged |
| Worker.ReturningExtractionCompletes | backend/src/worker/worker.runner.ts:35-41 | a claimed `extract_pdf` job whose processing returns ends completed |
| Worker.ThrowingExtractionFails | backend/src/worker/worker.runner.ts:42-45 | a claimed job whose processing throws ends failed, with one more attempt and the thrown message |
| Worker.UnknownJobFails | backend/src/worker/worker.runner.ts:38-45 | a claimed job with another name ends failed with an `Unknown job type` error |
| Strings.TrimSlice | backend/src/processing/services/extraction-persist.service.ts:41 | `trim` removes exactly the leading and trailing whitespace: the result is the slice between them |
| Strings.TrimIdempotent | backend/src/processing/services/extraction-persist.service.ts:41 | trimming twice is trimming once |
| Strings.ToLower | backend/src/processing/services/extraction-persist.service.ts:41 | lower-casing keeps the length, leaves no ASCII capital, keeps every other character in place and turns a capital into its small letter (32 code points on) |
| Strings.ToLowerIdempotent | backend/src/upload/utils/slugify.ts:3 | lower-casing twice is lower-casing once |
| Strings.ParseNatToString | backend/src/utils/file-names.ts:10-16 | a rendered number reads back as itself |
| Strings.NatToStringInjective | backend/src/utils/file-names.ts:10-16 | distinct numbers render differently |
| FileNames.PagePdfNameInjective | backend/src/utils/file-names.ts:9-11 | `page-N.pdf` determines N |
| FileNames.ImageNameInjective | backend/src/utils/file-names.ts:12-14 | `image-pP-I.ext` determines page, index and extension |
| FileNames.TableNameInjective | backend/src/utils/file-names.ts:15-17 | `table-pP-tI.html` determines page and index |
| FileNames.NamesNeverCoincide | backend/src/utils/file-names.ts:10-16 | page, image and table names never coincide |
| Slugify.DropRun | backend/src/upload/utils/slugify.ts:6 | removes exactly the leading run of non-alphanumerics |
| Slugify.Hyphenate | backend/src/upload/utils/slugify.ts:6 | the result is empty iff the input is, keeps a leading letter or digit, has only `a-z`, `0-9` and `-`, and has no `--` |
| Slugify.HyphenateAppend | backend/src/upload/utils/slugify.ts:6 | the replacement works piecewise across a boundary just after a letter or digit |
| Slugify.RunBecomesHyphen | backend/src/upload/utils/slugify.ts:6 | a maximal run of characters outside `[a-z0-9]` becomes exactly one hyphen between the replaced text before it and after it |
| Slugify.SlugifyJoinsWithHyphen | backend/src/upload/utils/slugify.ts:3-8 | two non-empty slugs joined by anything without ASCII letters or digits slugify to the two slugs joined by one hyphen (so `a b` gives `a-b`) |
| Slugify.TrimLeadingHyphens | backend/src/upload/utils/slugify.ts:7 | drops exactly the leading hyphens |
| Slugify.TrimTrailingHyphens | backend/src/upload/utils/slugify.ts:7 | drops exactly the trailing hyphens |
| Slugify.CollapseWithoutDoubles | backend/src/upload/utils/slugify.ts:8 | collapsing leaves a text without `--` unchanged |
| Slugify.SlugifyIsSlug | backend/src/upload/utils/slugify.ts:3-8 | the output has only `a-z`, `0-9` and `-`, neither starts nor ends with `-`, and has no `--` |
| Slugify.SlugifyKeepsAlphanumerics | backend/src/upload/utils/slugify.ts:3-6 | the letters and digits of the output are those of the lower-cased input, in order |
| Slugify.SlugifyWithoutAlphanumerics | backend/src/upload/utils/slugify.ts:6-7 | an input with no ASCII letter or digit gives the empty slug |
| Slugify.SlugIsFixpoint | backend/src/upload/utils/slugify.ts:3-8 | a slug is its own slug |
| Slugify.SlugifyIdempotent | backend/src/upload/utils/slugify.ts:3-8 | slugifying twice is slugifying once |
| Upload.TryNumberOfSuffixed | backend/src/upload/upload.service.ts:30 | the suffix number of `base-n` plus the extension reads back as n |
| Upload.UniqueSlug | backend/src/upload/upload.service.ts:22-35 | the returned name with its extension is not taken; it is the base slug when that is free, and otherwise `base-n` for the smallest n of at least 2 that is free; the loop terminates on a finite taken set |
| Upload.Take | backend/src/upload/upload.service.ts:45 | the page size is the limit clamped into [1, 100] |
| Upload.Skip | backend/src/upload/upload.service.ts:46 | the offset is 0 for page 1 or below and otherwise the `(page − 1) · take` rows of the pages before the requested one |
| Upload.ListUploads | backend/src/upload/upload.service.ts:44-53 | the total is the number of rows and the items are at most one page of consecutive rows starting at the offset |
| Upload.ListUploadsCoversEveryRow | backend/src/upload/upload.service.ts:44-53 | every row is shown on page `i / take + 1`, at position `i % take` |
| Upload.AssertUploadExists | backend/src/upload/upload.service.ts:55-59 | not found iff no row has the id; otherwise the first row with that id |
| Report.Percent | backend/src/processing/services/report.service.ts:77-88 | a numeric `progressPercent` wins; otherwise `progress.value` when the unit contains `%`; otherwise nothing |
| Report.Percents | backend/src/processing/services/report.service.ts:72-91 | every contributing goal's percent is collected and nothing else is; empty iff no goal contributes |
| Report.PercentsOnePerGoal | backend/src/processing/services/report.service.ts:72-91 | each goal adds exactly its own percent, if it has one, at its own place in goal order |
| Report.Mean | backend/src/processing/services/report.service.ts:93-101 | the mean is 0 for no values |
| Report.MeanBetween | backend/src/processing/services/report.service.ts:93-100 | the mean lies between any lower and upper bound of the values |
| Report.MeanOfConstant | backend/src/processing/services/report.service.ts:93-100 | the mean of equal values is that value |
| Report.CollectPercents | backend/src/processing/services/report.service.ts:72-91 | the loop collects exactly the contributing percents, in goal order |
| Report.GetExtractedReport | backend/src/processing/services/report.service.ts:67-115 | the totals count the goals and BMPs, the completion rate is the mean of the contributing percents (0 when none), and the six lists are returned as fetched |
| Report.CompletionRateBetween | backend/src/processing/services/report.service.ts:93-100 | when every contributing percent lies in [lo, hi], so does the completion rate |
| Pagination.PageParam | frontend/src/app/pdfs/page.tsx:142 | NaN exactly when the parameter is not a number; otherwise at least 1: the requested page when it is 1 or more, 1 when it is absent or below 1 |
| Pagination.LimitParam | frontend/src/app/pdfs/page.tsx:143 | NaN exactly when the parameter is not a number; otherwise at least 1 and uncapped: the requested limit when it is 1 or more, 20 when absent, 1 below 1 |
| Pagination.TotalPages | frontend/src/app/pdfs/page.tsx:146 | there is at least one page, the pages hold every item, and no page after the first is empty |
| Pagination.Window | frontend/src/app/pdfs/page.tsx:150 | the links are the consecutive numbers from start to end, and none when end < start |
| Pagination.Paginate | frontend/src/app/pdfs/page.tsx:146-329 | First and Prev are disabled iff on page 1, Next and Last iff on the last page; Prev targets the page before, or page 1 when on page 1; Next targets the page after, or the last page when on or past it; both stay within [1, totalPages] |
| Pagination.WindowAroundPage | frontend/src/app/pdfs/page.tsx:147-315 | the window has at most 5 consecutive pages, all within [1, totalPages], starts two before the current page when there is room and holds it; each ellipsis shows iff pages lie beyond the window on that side |
| Pagination.UncappedLimitHidesUploads | frontend/src/app/pdfs/page.tsx:143-146 | with limit 500 and 1000 uploads two pages are offered, and upload 200 is on neither page as the backend serves them |
| Pagination.ServedLimitReachesEveryUpload | backend/src/upload/upload.service.ts:45-46 | counting pages with the limit the backend applies puts every upload on an offered page |
| HtmlFromText.ReplaceChar | backend/src/utils/html-from-text.ts:4 | after replacing a character by text without it, the character is gone and no new characters appear except from the replacement |
| HtmlFromText.EscapeHtmlIsEscapeEach | backend/src/utils/html-from-text.ts:3-5 | the three global replacements, with `&` first, escape each character on its own, so nothing is escaped twice |
| HtmlFromText.EscapedHasNoAngleBrackets | backend/src/utils/html-from-text.ts:3-5 | the escaped text contains no `<` and no `>` |
| HtmlFromText.EscapeHtmlPlainText | backend/src/utils/html-from-text.ts:3-5 | a text with no `&`, `<` or `>` is returned unchanged |
| HtmlFromText.UnescapeEscapeHtml | backend/src/utils/html-from-text.ts:3-5 | unescaping the three entities restores the original text |
| HtmlFromText.FindLine | backend/src/utils/html-from-text.ts:23 | the first line whose y is within 2.0 of the item's, and none iff no line is that close |
| HtmlFromText.Place | backend/src/utils/html-from-text.ts:19-29 | an item without text changes nothing; an item that opens a new line is far from every existing line, the new line holds just its part and comes after the existing lines, which are kept unchanged; existing lines keep their y |
| HtmlFromText.PlaceJoinsFirstCloseLine | backend/src/utils/html-from-text.ts:23-28 | an item that opens no new line is appended to the parts of the first line within 2.0 of its y, and no other line changes |
| HtmlFromText.PlaceKeepsLinesApart | backend/src/utils/html-from-text.ts:19-29 | placing an item keeps every two lines more than 2.0 apart, keeps lines non-empty and parts with text |
| HtmlFromText.Cluster | backend/src/utils/html-from-text.ts:19-29 | no two lines lie within 2.0 of each other, every line has a part and every part has text, and there are as many parts as items with text |
| HtmlFromText.PlaceAddsItsPart | backend/src/utils/html-from-text.ts:19-29 | placing an item adds exactly its part, if it has text, to the parts of the lines |
| HtmlFromText.ClusterKeepsEveryPart | backend/src/utils/html-from-text.ts:19-29 | the parts of all lines are, as a multiset, exactly the parts of the items with text: each such item lands in one line and nothing else appears |
| HtmlFromText.ClusterLines | backend/src/utils/html-from-text.ts:19-29 | the loop builds the lines Cluster describes |
| HtmlFromText.NoTextNoLines | backend/src/utils/html-from-text.ts:20 | items without text give no lines |
| HtmlFromText.SortTopToBottom | backend/src/utils/html-from-text.ts:32 | the lines end in non-increasing y order and are a permutation of the clustered lines |
| HtmlFromText.InsertPermutes | backend/src/utils/html-from-text.ts:32 | inserting one line into sorted lines adds exactly that line to the multiset of lines |
| HtmlFromText.MaxOf | backend/src/utils/html-from-text.ts:38 | the largest font size bounds every size and is one of them |
| HtmlFromText.ThresholdsOrdered | backend/src/utils/html-from-text.ts:34-41 | for non-negative font sizes `h1Thresh >= h2Thresh` |
| HtmlFromText.Classify | backend/src/utils/html-from-text.ts:58-60 | a line is h1 iff its mean size reaches the h1 threshold, and p iff it reaches neither threshold; otherwise it is h2 |
| HtmlFromText.Kept | backend/src/utils/html-from-text.ts:46-51 | a line of the page is kept iff its trimmed text is not empty |
| HtmlFromText.KeptInPlace | backend/src/utils/html-from-text.ts:46-51 | a line is kept exactly when its text is not blank, in its own place among the kept lines |
| HtmlFromText.ElementsFollowKeptLines | backend/src/utils/html-from-text.ts:46-61 | one element per kept line, in order, with that line's text and the tag of its mean font size |
| HtmlFromText.Render | backend/src/utils/html-from-text.ts:46-61 | the loop appends the elements' html to the page div and collects the same lines' texts |
| HtmlFromText.BuildHtmlFromTextItems | backend/src/utils/html-from-text.ts:7-65 | the html is the page div, the elements of the sorted lines and `</div>`; plain is the same lines' texts joined by newlines |
| HtmlFromText.PageHtmlFramed | backend/src/utils/html-from-text.ts:44-63 | the page html starts with the page div carrying the width and height and ends with `</div>` |
| TableText.SplitWideClean | backend/src/utils/table-text-heuristic.ts:6 | no piece of the split holds two consecutive whitespace characters |
| TableText.CellsAreClean | backend/src/utils/table-text-heuristic.ts:4-9 | every column is non-empty, trimmed, and free of two consecutive whitespace characters |
| TableText.SplitColumnsKeepsText | backend/src/utils/table-text-heuristic.ts:4-9 | the columns hold all the visible characters of the line, in order |
| TableText.DoubleSpaceSplits | backend/src/utils/table-text-heuristic.ts:4-9 | two clean cells with two spaces between them split into exactly those two columns |
| TableText.SingleSpacesDoNotSplit | backend/src/utils/table-text-heuristic.ts:4-9 | a non-empty trimmed line with no two white-space characters in a row, such as ordinary prose, is its own single column: only runs of two or more split |
| TableText.SplitLines | backend/src/utils/table-text-heuristic.ts:12 | at least one line, none containing a newline |
| TableText.JoinSplitLines | backend/src/utils/table-text-heuristic.ts:12 | joining the lines back gives the text with the carriage returns before newlines dropped |
| TableText.TablesAreGood | backend/src/utils/table-text-heuristic.ts:15-32 | every detected table has a row and every row at least 3 columns |
| TableText.NarrowLineSplitsTables | backend/src/utils/table-text-heuristic.ts:17-31 | a blank or narrow line closes the run: the tables of the text are those before it followed by those after it |
| TableText.WideRunIsOneTable | backend/src/utils/table-text-heuristic.ts:17-32 | a non-empty run of lines of at least 3 columns is exactly one table of those rows |
| TableText.NoWideLineNoTables | backend/src/utils/table-text-heuristic.ts:25-33 | text without a line of at least 3 columns has no table |
| TableText.GroupTables | backend/src/utils/table-text-heuristic.ts:13-32 | the loop's tables are the runs of wide lines, in text order |
| TableText.MaxCols | backend/src/utils/table-text-heuristic.ts:35 | the width bounds every row and is reached by one |
| TableText.Padded | backend/src/utils/table-text-heuristic.ts:40-45 | a row is padded with empty cells to the given width, keeping its cells |
| TableText.LayOut | backend/src/utils/table-text-heuristic.ts:35-47 | the first row is the header and the rest are body rows, all padded with empty cells to the widest row |
| TableText.EmitCells | backend/src/utils/table-text-heuristic.ts:39-45 | the loop emits one escaped cell per column of the padded row |
| TableText.EmitBody | backend/src/utils/table-text-heuristic.ts:42-47 | the loop over the body rows appends one `<tr>` of escaped cells per padded row, in order |
| TableText.RenderTable | backend/src/utils/table-text-heuristic.ts:35-49 | the html is the table markup of the laid-out rows, every cell escaped |
| TableText.BuildTablesFromPlainText | backend/src/utils/table-text-heuristic.ts:11-51 | one html table per detected run, in text order |
| ImageExtract.ToName | backend/src/utils/image-extract.ts:20 | a value with a name renders as `/name`, any other as `String(v)` |
| ImageExtract.GetFilters | backend/src/utils/image-extract.ts:17-24 | no dictionary or no filter gives no names, a single filter one name, an array one name per element |
| ImageExtract.SelectionRules | backend/src/utils/image-extract.ts:62-80 | an entry is kept iff it has a dictionary of subtype `/Image`, a `/DCTDecode` or `/JPXDecode` filter and non-empty bytes; it is `jpg` iff `/DCTDecode` is among the filters |
| ImageExtract.ExtractImages | backend/src/utils/image-extract.ts:52-58 | a page without resources or XObjects yields no images |
| ImageExtract.CollectedNumbersKept | backend/src/utils/image-extract.ts:60-80 | the images are the kept entries in key order, numbered exactly 1..n |
| ImageExtract.KeptInOrder | backend/src/utils/image-extract.ts:61-81 | a kept entry lands right after what the entries before it gave |
| ImageExtract.SkippedLeavesNoTrace | backend/src/utils/image-extract.ts:63-77 | a skipped entry, an empty stream included, contributes nothing and consumes no index |
| ImageExtract.VisitEntry | backend/src/utils/image-extract.ts:62-80 | one pass of the loop body: a skipped entry leaves the images and `idx` alone, a kept one is appended under the next number |
| ImageExtract.ExtractImagesFromPage | backend/src/utils/image-extract.ts:44-84 | the loop with its `idx` counter returns the collected images |
| Reconcile.Norm | backend/src/processing/services/extraction-persist.service.ts:40-42 | null and undefined normalise to ''; a string is trimmed then lower-cased; any other value throws |
| Reconcile.NormIdempotent | backend/src/processing/services/extraction-persist.service.ts:40-42 | normalising a normalised key changes nothing |
| Reconcile.NormIgnoresCase | backend/src/processing/services/extraction-persist.service.ts:87-89 | keys that differ only in ASCII case match |
| Reconcile.DedupSpec | backend/src/processing/services/extraction-persist.service.ts:55 | the set keeps every value, once, and nothing else |
| Reconcile.UnionArraySpec | backend/src/processing/services/extraction-persist.service.ts:52-56 | the union has no duplicates, holds exactly the elements of both lists (a non-array counts as empty), and starts with the distinct elements of the first list in order |
| Reconcile.UnionAbsorbs | backend/src/processing/services/extraction-persist.service.ts:52-56 | unioning a list with a union that already contains it changes nothing |
| Reconcile.UpdatedRules | backend/src/processing/services/extraction-persist.service.ts:58-72 | non-object updates change nothing; otherwise the keys are those of both, an untouched key keeps its value, two arrays are unioned and any other defined value overwrites |
| Reconcile.ApplyUpdates | backend/src/processing/services/extraction-persist.service.ts:58-72 | the loop over the entries yields the updated record |
| Reconcile.OutreachKeyNeverFallsBack | backend/src/processing/services/extraction-persist.service.ts:259-263 | the outreach key always holds a `\|`, so its `\|\| id` fallback never applies |
| Reconcile.MapToRow | backend/src/processing/services/extraction-persist.service.ts:165-297 | mapping fails only for a geographic area whose name cannot be trimmed |
| Reconcile.OrNullKeys | backend/src/processing/services/extraction-persist.service.ts:165-175 | the mapped fields are exactly the listed ones |
| Reconcile.MapToRowHasNoKey | backend/src/processing/services/extraction-persist.service.ts:98-99 | a mapped row has no primary key, so saving it inserts a new row |
| Reconcile.RowsOf | backend/src/processing/services/extraction-persist.service.ts:84 | the existing rows are the rows of the upload, in stored order |
| Reconcile.IndexOfKey | backend/src/processing/services/extraction-persist.service.ts:99-137 | the first row with the given primary key, or none |
| Reconcile.Save | backend/src/processing/services/extraction-persist.service.ts:99-137 | saving replaces the row with the same primary key or appends one; other tables are unchanged |
| Reconcile.FindCandidate | backend/src/processing/services/extraction-persist.service.ts:84-89 | a candidate it returns is a row whose normalised key equals the incoming one after rows whose keys all differ; none only when every key differs; a throw needs a row |
| Reconcile.FindCandidateHead | backend/src/processing/services/extraction-persist.service.ts:87-89 | the first row decides the search: a key that does not normalise throws, a matching key is the candidate, a different key passes the search on to the remaining rows |
| Reconcile.FindCandidateFails | backend/src/processing/services/extraction-persist.service.ts:87-89 | the search throws iff there is a row and either the incoming key or the key of a row reached before any match is not a string |
| Reconcile.FindCandidateNone | backend/src/processing/services/extraction-persist.service.ts:87-89 | when every row's key differs from the incoming one there is no candidate |
| Reconcile.FindCandidateFinds | backend/src/processing/services/extraction-persist.service.ts:87-89 | the first row whose key matches, after rows whose keys all differ, is the candidate |
| Reconcile.ConservativeMerge | backend/src/processing/services/extraction-persist.service.ts:109-121 | the conservative merge equals the candidate except that evidence and relatedGoals become the unions of its own and the incoming lists |
| Reconcile.InsertRow | backend/src/processing/services/extraction-persist.service.ts:98-128 | inserting touches no other category |
| Reconcile.ReconcileOneSpec | backend/src/processing/services/extraction-persist.service.ts:75-139 | reconciling one instance touches no other category |
| Reconcile.InsertAppends | backend/src/processing/services/extraction-persist.service.ts:98-99 | inserting appends the mapped row tagged with the upload id under a fresh key, and fails exactly when mapping fails |
| Reconcile.NoCandidateRules | backend/src/processing/services/extraction-persist.service.ts:91-101 | without a candidate, `ignore` saves nothing and any other answer, none included, inserts the mapped row |
| Reconcile.ConservativeRule | backend/src/processing/services/extraction-persist.service.ts:109-121 | with a candidate and no answer, the conservative merge of the candidate is saved |
| Reconcile.CandidateIgnored | backend/src/processing/services/extraction-persist.service.ts:124 | with a candidate, an `ignore` answer saves nothing |
| Reconcile.CandidateInserted | backend/src/processing/services/extraction-persist.service.ts:126-130 | with a candidate, an `insert` answer saves a new row just as if no candidate had been found |
| Reconcile.CandidateUpdated | backend/src/processing/services/extraction-persist.service.ts:132-138 | with a candidate, a `match` or `update` answer saves the candidate with its updates applied |
| Reconcile.ConservativeReplacesInPlace | backend/src/processing/services/extraction-persist.service.ts:109-121 | the merged candidate replaces its own row in place, keeping the table's length |
| Reconcile.ReconcileAll | backend/src/processing/services/extraction-persist.service.ts:157-176 | the instances of a category are reconciled in order and touch no other category |
| Reconcile.SaveAllFrom | backend/src/processing/services/extraction-persist.service.ts:149-299 | the categories run in their fixed order and categories outside the remaining ones are unchanged |
| Reconcile.NonArraySkipped | backend/src/processing/services/extraction-persist.service.ts:36-38 | a category whose value is not an array is skipped |
| Reconcile.RepeatedGoalSavedOnce | backend/src/processing/services/extraction-persist.service.ts:84-176 | two identical goals with no oracle answer give a single row, because the second sees the first |
| Reconcile.Repositories.ReconcileOne | backend/src/processing/services/extraction-persist.service.ts:75-139 | the repositories end as ReconcileOneSpec says, or are untouched with its error |
| Reconcile.Repositories.ReconcileCategory | backend/src/processing/services/extraction-persist.service.ts:157-177 | reconciling a category's instances one by one ends as ReconcileAll says, stopping at the first error |
| Reconcile.Repositories.SaveFromAiResult | backend/src/processing/services/extraction-persist.service.ts:142-300 | the repositories and the error end as `SaveFromAiResultSpec` of the old repositories says |
| PdfPage.PageIndex | backend/src/processing/services/pdf-page.service.ts:92-102 | the first record with the `(uploadId, pageNumber)` key, and none iff no record has it |
| PdfPage.Upsert | backend/src/processing/services/pdf-page.service.ts:92-136 | after an upsert a record with the key exists. When a record already had the key, it alone is replaced by the update applied to it; the length and next id are kept. Otherwise one record, the update applied to a fresh pending record with the next id, is appended after the unchanged existing records. Tables, images and files are unchanged |
| PdfPage.UpsertOtherKey | backend/src/processing/services/pdf-page.service.ts:92-136 | an upsert does not change what a lookup of any other page number of the upload returns |
| PdfPage.UpsertSameKey | backend/src/processing/services/pdf-page.service.ts:92-136 | after an upsert, looking up its key returns the old record, or a fresh one with the next id, with the update applied |
| PdfPage.OnlyRecordWithKey | backend/src/processing/services/pdf-page.service.ts:92-136 | with unique keys, the record a lookup finds is the only record with that key |
| PdfPage.PendingPhaseRecords | backend/src/processing/services/pdf-page.service.ts:83-103 | after the first loop over n pages, pages 1..n each have a record whose page PDF path is that page's file under the slug directory; unique keys stay unique |
| PdfPage.PageStepRecords | backend/src/processing/services/pdf-page.service.ts:115-165 | one per-page step leaves the records of other pages unchanged, marks its own page's record done with the page's section html and plain text, and keeps keys unique |
| PdfPage.TextPhaseRecords | backend/src/processing/services/pdf-page.service.ts:115-165 | when pages 1..n have records, after the second loop each of them is its old record marked done with its own section html and plain text; records of higher page numbers are unchanged; unique keys stay unique |
| PdfPage.TextPassesPageRecords | backend/src/processing/services/pdf-page.service.ts:83-136 | after both loops, each page 1..n of the upload has a record that is done, with its page PDF path, its `<section data-page>` html and its plain text; with unique keys before, keys stay unique and that record is the only one for the page |
| PdfPage.UpsertKeepsPagesUnique | backend/src/processing/services/pdf-page.service.ts:92-136 | an upsert keeps the `(uploadId, pageNumber)` keys unique |
| PdfPage.TwoPhaseUpsert | backend/src/processing/services/pdf-page.service.ts:92-136 | with unique keys, the two upserts leave exactly one record for the page, done, with the path, text and html; an existing record keeps its id; a new one is appended; all other records are unchanged |
| PdfPage.PathJoinInjective | backend/src/processing/services/pdf-page.service.ts:147-218 | joined paths under one directory differ when the names differ |
| PdfPage.TextTablesNumbered | backend/src/processing/services/pdf-page.service.ts:48-61 | the text tables of a page are recorded after all earlier tables, with indices 1..k in detection order, each with its file written |
| PdfPage.NormaliseRows | backend/src/processing/services/pdf-page.service.ts:195-213 | an array of arrays is kept as rows; any other array becomes one row; anything else becomes one cell `String(x ?? '')`; a kept row that is not an array throws; every table has at least one row |
| PdfPage.IdByPage | backend/src/processing/services/pdf-page.service.ts:169-173 | the map's keys are exactly the page numbers of the records |
| PdfPage.IdByPageLastRecord | backend/src/processing/services/pdf-page.service.ts:172-173 | each page maps to the id of the last record with that page number |
| PdfPage.IdByPageOfUniquePages | backend/src/processing/services/pdf-page.service.ts:169-173 | over one upload's records with unique keys, each page maps to its own record's id |
| PdfPage.FirstVisualTableIsOne | backend/src/processing/services/pdf-page.service.ts:188-217 | the first visual table of a page gets index 1 and the first text table's file name, whatever the text pass recorded |
| PdfPage.VisualTablesPrefix | backend/src/processing/services/pdf-page.service.ts:191-228 | later visual tables only append to what earlier ones recorded |
| PdfPage.UnknownPageSkipped | backend/src/processing/services/pdf-page.service.ts:184-186 | a result for a page number without a record changes nothing |
| PdfPage.SortByPage | backend/src/processing/services/pdf-page.service.ts:241-244 | the result is in ascending page order and is a permutation of the upload's records |
| PdfPage.TextTablesSurvive | backend/src/processing/services/pdf-page.service.ts:175-244 | whatever the visual extractor does, the text-heuristic table records stay in place, the page records are unchanged, and a returned result is the upload's records sorted by page; the files behind those records are not protected, since a visual table with the same index overwrites the text table's file (`PdfPage.FirstVisualTableIsOne`) |
| PdfPage.PdfPageService.DetectAndSaveTablesForPage | backend/src/processing/services/pdf-page.service.ts:41-63 | the loop leaves the state `SaveTextTables` gives for the page's detected tables, numbered from 1 |
| PdfPage.PdfPageService.OnPageTables | backend/src/processing/services/pdf-page.service.ts:180-231 | the callback's loops leave the state `VisualAll` gives for the extractor's page entries, and report a throw |
| PdfPage.PdfPageService.OnTablesOfPage | backend/src/processing/services/pdf-page.service.ts:191-228 | the loop over one page's tables leaves the state `SaveVisualTables` gives and stops at the first throw |
| PdfPage.PdfPageService.OnTable | backend/src/processing/services/pdf-page.service.ts:192-227 | one table moves its page's counter on, then is written and recorded under the new number, or throws and leaves the files and repositories as they were |
| PdfPage.PdfPageService.PendingPass | backend/src/processing/services/pdf-page.service.ts:83-103 | the first loop writes each page's single-page PDF and upserts it as pending, in page order |
| PdfPage.PdfPageService.TextPass | backend/src/processing/services/pdf-page.service.ts:115-165 | the second loop runs the per-page step on the pages in order |
| PdfPage.PdfPageService.ExtractPage | backend/src/processing/services/pdf-page.service.ts:116-164 | one page is upserted as done with its section html and plain text, then its images and text tables are saved against the record the lookup finds |
| PdfPage.PdfPageService.SavePageImages | backend/src/processing/services/pdf-page.service.ts:145-156 | each extracted image is written and recorded under its own index, in extraction order |
| PdfPage.PdfPageService.RunTextPasses | backend/src/processing/services/pdf-page.service.ts:83-165 | the two page loops together leave the state `TextPasses` gives |
| PdfPage.PdfPageService.SplitAndExtract | backend/src/processing/services/pdf-page.service.ts:69-245 | the repositories, the files and the outcome end as `SplitAndExtractSpec` gives |
| PdfPage.IdsByPage | backend/src/processing/services/pdf-page.service.ts:172-173 | the `forEach` builds the page-number-to-id map IdByPage describes |

## Left out

- **Files, database and network.**
  - File I/O, the database and the network are not modelled; nor are
    `readQueue`/`writeQueue`, TypeORM `find`/`save`/`upsert`/`findOneOrFail`
    or `fsp`.
  - Stores become values: a `Stored` queue file, maps of record sequences,
    and a map from paths to file contents.
  - TypeORM column projection, coercion and constraints are not modelled: a
    saved record is stored as given, and `save` replaces the row with the
    same primary key or appends one with a generated key `uuid-N`.
- **Generated values.** Clocks, `randomUUID`, generated primary keys and
  environment variables (`UPLOAD_DIR`, `STORAGE_DIR`) are parameters.
  `path.join` is plain concatenation with `/`, without normalisation.
- **Concurrency.** There is no cross-process locking and no multi-worker
  atomicity for `claimNextPending`. The worker's sleep is a no-op step, and
  the `while (true)` loop is one iteration (`Worker.Step`).
- **The merge oracle.** `decideMerge` (backend/src/ai/openai.service.ts) is
  a network call and is not part of this model. It is a pure function
  parameter returning an optional decision, and decision actions other than
  the four known ones are not modelled.
- **PDF libraries.**
  - pdf-lib splitting and copying, pdf.js text extraction and the
    pdf-table-extractor loader are left out. Page text items, image
    resources and extractor results are inputs, and both libraries are
    taken to see the same pages.
  - Page PDF bytes are not modelled; a page PDF file is recorded as such.
  - A visual-table callback that throws after `await` leaves the promise
    unsettled in the source; the model reports this as `NeverSettles`.
- **PDF objects.** `getDict` and `tryGetStreamBytes` are abstracted: each
  XObject entry is reduced to whether it has a dictionary, its rendered
  `Subtype` and `Filter`, and its bytes.
- **Floating point.**
  - `Math.hypot` font sizes are left out: the font size is an input.
  - Report `toFixed(2)` rounding and `isFinite` are left out: percents are
    exact reals, and the completion rate is the exact mean.
  - `formatBytes`/`formatDate` are left out.
  - JSON numbers are integers; fractional numbers are not modelled.
  - Page width and height arrive already rendered as text.
- **Unicode.** NFKD normalisation and diacritic stripping in `slugify` are
  left out, and lower-casing maps only ASCII `A-Z`. `trim` and `\s` use
  JavaScript's full whitespace set.
- **Set identity.** JavaScript's `Set` compares objects by reference. The
  model compares all values structurally, which differs only for object
  elements of `evidence`/`relatedGoals` lists.
- **Unused helper.** The sha1 `slug` helper
  (backend/src/processing/services/extraction-persist.service.ts:44-50) is
  unused and not modelled.
- Pagination.PageParam: a query value that `Number()` turns into a fraction
  (`?page=2.5`) is not modelled. For NaN the parse gives `None`. The controls
  the page then draws from a NaN page (no page links, no disabled button,
  NaN link targets) are not modelled: `Paginate` takes whole pages of 1 or
  more.
- Pagination.LimitParam: likewise, fractional limits are not modelled, and a
  NaN limit gives `None`; the NaN page count the page would then show is not
  modelled.
- Queue.ReadQueue: a stored array whose elements are not job objects (such
  as `[null]`) is not modelled; a stored list is taken to hold jobs. On such
  an array the `findIndex` callbacks of the source
  (backend/src/queue/queue.service.ts:59, 72 and 85) throw a `TypeError`.
- **UI and plumbing.** React components, JSX and CSS, `upload.controller.ts`,
  entities, migrations, Nest modules, `main.ts`, `worker.ts` and scripts
  are left out.
- **CRUD services.** The thin CRUD services and
  backend/src/worker/processor/pdf-extract.processor.ts are not part of this
  model: the worker takes the processor's outcome as a parameter.

## Findings

| source | as written | input that shows it | evidently intended | confidence | as-written member | corrected member |
|---|---|---|---|---|---|---|
| frontend/src/app/pdfs/page.tsx:143-146 | the list page counts pages with the requested limit, with no upper cap, while the backend serves at most 100 uploads per page (backend/src/upload/upload.service.ts:45) | `limit=500` with 1000 uploads: two pages are offered, the backend serves uploads 0-199 on them, and uploads 200-999 are on no page | count pages with the limit the backend applies, `min(100, limit)` | not executed | Pagination.UncappedLimitHidesUploads | Pagination.ServedLimitReachesEveryUpload |
