# PDF Snap: the work-item queue, in Dafny

PDF Snap is a browser app. The user picks PDF files, and the app renders page 1
of each file to a PNG. The user can then download each PNG, or all of them as one
ZIP archive. Almost all of the code is markup and calls into PDF.js, the canvas
and JSZip. This project models the part that has behaviour of its own:

- the queue of work items and the state machine of each item
  (PENDING → PROCESSING → COMPLETED or FAILED);
- the batch run and the single-item run over that queue;
- the choice of results that go into the archive;
- the rule that names each PNG, and the error messages of a failed render;
- what the processing table offers for each row.

## Layout

| file | module | models |
|---|---|---|
| `types.dfy` | `Types` | `types.ts`: the status enum, the `PDFFile` and `RenderResult` records, `Option`/`Result`, JavaScript truthiness of optional strings |
| `pdf_processor.dfy` | `PdfProcessor` | `services/pdfProcessor.ts`: `lastIndexOf`, `substring`, the output-filename rule, and `renderFirstPage` with the engine as an oracle |
| `processing_table.dfy` | `ProcessingTable` | `components/ProcessingTable.tsx`: the action per row, `handleDownload`, the "Renamed from" note, the error line, the empty table |
| `app.dfy` | `App` | `App.tsx`: the queue invariants, the per-item transition, the batch, the counts, the archive selection, and class `AppState` with the handlers as methods |

How it is modelled:

- **The renderer is an oracle.** PDF.js, the canvas and the PNG encoder are
  replaced by a value of type `EngineOutcome`, one per item that is run. It says
  how the attempt ended: the file could not be read, the library threw, the
  document is locked, there is no 2D context, or `toBlob` gave a blob or `null`.
  `RenderFirstPage` maps each outcome to a `RenderResult` or to an error message,
  as `renderFirstPage` does.
- **The component's state is a class.** `AppState` holds `files` (a `seq`) and
  `isProcessing`. Each handler is a method that runs as one sequential step.
  `ProcessBatch` walks a copy of the list with a loop, as the source does. After
  each change it publishes the copy to `files`, as `setFiles` does.
- **Ids are inputs.** `HandleFileChange` takes the new ids as a parameter and
  requires them to be distinct and unused. They stand for `crypto.randomUUID`.
- **Downloads are results.** Each call to `triggerDownload` for a rendered PNG
  (App.tsx:42 and 92) appears as a `Download` value that the method returns.
  The archive download (App.tsx:74) is the exception: `DownloadAllAsZip`
  returns the archive's contents, a map from names to blobs, and the
  timestamped archive name is not modelled. The DOM work of `triggerDownload`
  is not modelled.

The queue invariant `QueueValid` holds after every handler. It says that ids are
distinct and that every item is `WellFormed`:

- no original name is recorded;
- an error is present exactly on a FAILED item, and it is never empty;
- a COMPLETED item has a blob;
- a blob and a `.png` result name are present together.

A FAILED item, or an item being run again, may still hold the blob of an earlier
successful run. The source never clears these fields.

The model follows the code, also where it does less than a tool like this
might be expected to do:

- There is no type filter and no filename sanitisation. `handleFileChange`
  accepts every picked file unchanged.
- `originalFilename` is never set. The table's "Renamed from" note therefore
  shows for every item: for new items (`NewItemsInTable`), and for every item of
  a valid queue, however often it has been run (`WellFormedRow`).
- The archive holds only the PNGs, in one flat namespace keyed by
  `resultFilename`. Two results with the same name leave one entry, holding the
  later image (`SameNameOverwrites`). There are no separate partitions, and the
  source PDFs are not included.
- After a batch, the archive is offered only when MORE than one item is
  COMPLETED. The count includes items that were completed before the run.
- The result blob and result name are not cleared when an item fails. So
  "has a rendered output" is not the same as "is COMPLETED".
- The read error of `file.arrayBuffer()` (services/pdfProcessor.ts:11) happens
  outside the `try`, so its message is passed on unchanged, and it may be empty.
  The app then shows "Processing failed".

## Model

| member | source | states |
|---|---|---|
| `PdfProcessor.LastIndexOf` | services/pdfProcessor.ts:63 | -1 exactly when the character is absent; otherwise the index of that character, with none after it |
| `PdfProcessor.Substring` | services/pdfProcessor.ts:63 | both bounds are clamped into the string and swapped when reversed: an in-range pair gives that slice, a start at or below 0 with an end past the string gives the whole string |
| `PdfProcessor.BaseName` | services/pdfProcessor.ts:63 | empty only for an empty name; the text before the last dot when that dot is after the first character, otherwise the whole name |
| `PdfProcessor.OutputFilename` | services/pdfProcessor.ts:62-64 | the output name ends in ".png", and is just ".png" only for an empty input name |
| `PdfProcessor.BaseNameShape` | services/pdfProcessor.ts:63 | the base is the whole name, or a non-empty prefix that ends right before the last dot |
| `PdfProcessor.BaseNameKeepsWholeName` | services/pdfProcessor.ts:63 | the whole name is kept exactly when no dot appears after the first character |
| `PdfProcessor.OutputFilenameNoDot` | services/pdfProcessor.ts:63-64 | a name without a dot gets ".png" appended ("report" → "report.png") |
| `PdfProcessor.OutputFilenameStripsLastExtension` | services/pdfProcessor.ts:63-64 | with the last dot at k > 0, the output is the text before k plus ".png" |
| `PdfProcessor.OutputFilenameLeadingDotOnly` | services/pdfProcessor.ts:63 | when the only dot is the first character, the empty prefix falls back to the whole name |
| `PdfProcessor.OutputFilenameExampleTwoDots` | services/pdfProcessor.ts:63-64 | "a.b.pdf" becomes "a.b.png" |
| `PdfProcessor.OutputFilenameExampleDotFile` | services/pdfProcessor.ts:63-64 | ".pdf" becomes ".pdf.png" |
| `PdfProcessor.OutputFilenameExampleTrailingDot` | services/pdfProcessor.ts:63-64 | "notes." becomes "notes.png" |
| `PdfProcessor.RenderFirstPage` | services/pdfProcessor.ts:10-75 | success exactly when the encoder gives a blob, and then the result carries that blob and the output name; every failure inside the try has a non-empty message |
| `PdfProcessor.RenderFailureMessages` | services/pdfProcessor.ts:11-74 | the locked, no-context and encoding failures carry their fixed messages; a library error keeps its message or becomes "Rendering pipeline failed."; a read error passes unchanged |
| `PdfProcessor.RenderedNameEndsPng` | services/pdfProcessor.ts:62-65 | every successful result's filename ends in ".png" |
| `ProcessingTable.ActionFor` | components/ProcessingTable.tsx:52-70 | DOWNLOAD PNG exactly for a COMPLETED item with a blob; PROCESS exactly for PENDING; RETRY exactly for FAILED, both on the item's id; the busy indicator exactly for PROCESSING and for COMPLETED without a blob |
| `ProcessingTable.RunOfferedOnlyWhenPendingOrFailed` | components/ProcessingTable.tsx:59-65 | a row starts a run exactly when its item is PENDING or FAILED, and always on that item's own id |
| `ProcessingTable.HandleDownload` | components/ProcessingTable.tsx:14-18 | a download happens exactly when the blob and a non-empty result name are both present, with those values |
| `ProcessingTable.ErrorLine` | components/ProcessingTable.tsx:72-74 | the error line is shown exactly when the error is a non-empty string, whatever the status |
| `ProcessingTable.ShowsRenamedNote` | components/ProcessingTable.tsx:37-41 | an item without an original name always shows the note |
| `ProcessingTable.RenamedNoteWhenNamesDiffer` | components/ProcessingTable.tsx:37-41 | the note shows exactly when the original name is absent or differs from the file's name |
| `ProcessingTable.Table` | components/ProcessingTable.tsx:12-77 | no table for an empty queue; otherwise one row per item, in queue order, keyed by its id, showing its name, status, action, error line and note exactly as `ActionFor`, `ErrorLine` and `ShowsRenamedNote` give them for that item |
| `App.NewItems` | App.tsx:15-20 | one item per picked file, in order: the given id, that file, PENDING, progress 0, no original name, no error and no result |
| `App.AppendKeepsQueueValid` | App.tsx:21 | appending items with fresh ids keeps ids distinct and every item well formed |
| `App.NewItemsInTable` | App.tsx:15-20 | a new item shows the "Renamed from" note (its original name is never set), offers PROCESS on its own id, and shows no error |
| `App.FailureText` | App.tsx:55 | the stored error is the thrown message, or "Processing failed" when that is empty, and is never empty |
| `App.StartProcessing` | App.tsx:37 | entering PROCESSING clears the error and changes nothing else |
| `App.Settle` | App.tsx:44-56 | COMPLETED exactly on a render result, with its blob and name and the error untouched; FAILED exactly on an error, with the failure text and the earlier result fields kept; id, file, original name and progress unchanged |
| `App.ProcessItem` | App.tsx:37-57 | a run ends COMPLETED exactly when the render succeeds, with the rendered blob and name and no error; otherwise FAILED with the failure text and the earlier result fields kept; id, file and progress are unchanged; well-formedness is kept |
| `App.RetryAfterFailure` | App.tsx:37-49 | a FAILED item whose rerun renders becomes COMPLETED and its error is gone |
| `App.RunDownload` | App.tsx:41-42 | a run triggers a download exactly when it completes the item, with the item's new blob and name |
| `App.TableAfterRun` | components/ProcessingTable.tsx:52-74 | whatever the item was, after a run the row offers DOWNLOAD PNG exactly on success, with the same file as the run's download, and RETRY with an error line exactly on failure |
| `App.WellFormedRow` | components/ProcessingTable.tsx:37-74 | for a well-formed item the "Renamed from" note always shows, the busy indicator means PROCESSING, DOWNLOAD PNG means COMPLETED and always finds a file, and the error line means FAILED |
| `App.FindIndex` | App.tsx:31-32 | -1 exactly when no item has the id; otherwise the first index with that id |
| `App.BatchItem` | App.tsx:84-107 | a COMPLETED item is left exactly as it was; any other item is run; either way it ends COMPLETED or FAILED, with id and file unchanged |
| `App.BatchSpec` | App.tsx:81-110 | after a batch the queue has the same length and order, and each item is what `BatchItem` makes of it |
| `App.BatchKeepsQueueValid` | App.tsx:81-110 | a batch keeps ids distinct and every item well formed |
| `App.BatchItemDownloads` | App.tsx:90-92 | at most one download per item, exactly when the batch moves it from not completed to COMPLETED, and then carrying the item's new blob and name |
| `App.BatchItemDownloadsMembership` | App.tsx:90-92 | a download belongs to one item's downloads exactly when it is that item's new result |
| `App.BatchDownloads` | App.tsx:83-110 | no more downloads than items, and each download's name ends in ".png" |
| `App.BatchDownloadsMembership` | App.tsx:83-110 | a download is triggered by the batch exactly when it is the new blob and name of an item the batch moves from not completed to COMPLETED |
| `App.BatchDownloadsStep` | App.tsx:83-110 | the downloads of one more item come after those of the items before it |
| `App.CountStatus` | App.tsx:115 | the count of items with a status is at most the queue length |
| `App.CountStatusAppend` | App.tsx:115 | the count over two parts of a queue is the sum of their counts |
| `App.CountStatusPositive` | App.tsx:125 | the count is positive exactly when some item has that status |
| `App.RemainingCount` | App.tsx:184 | the START BATCH count is at most the queue length |
| `App.RemainingCountZero` | App.tsx:184 | the START BATCH count is 0 exactly when every item is COMPLETED |
| `App.CountsPartition` | App.tsx:125 | the completed count plus the START BATCH count is the queue length |
| `App.BatchCounts` | App.tsx:83-115 | after a batch no item is PENDING or PROCESSING; with D downloads, D more items are COMPLETED and the rest of the not-completed items are FAILED |
| `App.BatchItemCounts` | App.tsx:84-107 | one item adds to the completed count the download it triggers, and otherwise ends FAILED unless it was already COMPLETED |
| `App.BatchPromptCountsEarlierCompletions` | App.tsx:115-116 | one earlier completion plus one new one is enough to offer the archive, although the run rendered a single file |
| `App.ZippableItems` | App.tsx:63-64 | the filtered items are all COMPLETED with a blob, and none is selected exactly when no item is |
| `App.ZipEntries` | App.tsx:63-71 | no more entries than items, and every entry has a non-empty name |
| `App.ArchiveOf` | App.tsx:67-71 | every entry's name is in the archive, and the last entry's name holds its blob |
| `App.ZipEntriesStep` | App.tsx:67-71 | one more zippable item adds its entry, when it has a name, after the earlier entries |
| `App.ArchiveOfStep` | App.tsx:69 | one more entry sets its name to its blob in the archive |
| `App.ZipEntriesMembership` | App.tsx:63-71 | an entry is added exactly for a COMPLETED item that has a blob and a non-empty result name, under that name with that blob |
| `App.ZipEntriesInQueueOrder` | App.tsx:67-71 | entries are added in queue order |
| `App.ZipEntriesOfZippable` | App.tsx:63-68 | filtering first and checking again in the loop adds the same entries as checking once |
| `App.ArchiveNames` | App.tsx:69 | a name is in the archive exactly when some entry carries it |
| `App.ArchiveLastEntryWins` | App.tsx:67-71 | each name holds the blob of the last entry with that name |
| `App.SameNameOverwrites` | App.tsx:69 | two completed results with the same name leave a single entry, holding the later blob |
| `App.ZipButtonShownExactly` | App.tsx:189 | the DOWNLOAD ALL button is shown exactly when some item is COMPLETED and no batch is running |
| `App.ZipButtonMeansArchive` | App.tsx:189-191 | on a valid queue, a visible DOWNLOAD ALL button always produces an archive |
| `App.AppState.constructor` | App.tsx:9-10 | the queue starts empty and not processing |
| `App.AppState.HandleFileChange` | App.tsx:13-22 | with a file list, the new items are appended after the existing ones, which are unchanged; without one, nothing changes; the queue stays valid |
| `App.AppState.ClearList` | App.tsx:25-28 | the queue is empty afterwards |
| `App.AppState.ProcessFileById` | App.tsx:30-60 | an unknown id changes nothing; otherwise only the item with that id is replaced by its run, whatever its status; the queue stays valid |
| `App.AppState.RunItemAt` | App.tsx:37-59 | the item at the index is replaced by its run, the list is published, and the run's download is returned |
| `App.AppState.ProcessBatch` | App.tsx:77-123 | an empty queue is left alone; otherwise the queue becomes the batch result, processing is off at the end, and the archive is offered exactly when more than one item is COMPLETED |
| `App.AppState.BatchStepAt` | App.tsx:84-109 | one pass of the loop: the item at the index becomes what `BatchItem` makes of it, and its download is returned |
| `App.AppState.RunBatch` | App.tsx:81-110 | the loop leaves the batch result in the list and returns the batch's downloads in queue order |
| `App.AppState.DownloadAllAsZip` | App.tsx:62-75 | no archive when no item is COMPLETED with a blob; otherwise the archive built from the entries in queue order, later names replacing earlier ones |

## Left out

- PDF.js loading, page rendering and the viewport (services/pdfProcessor.ts:14-56) are library calls. They are replaced by the `EngineOutcome` oracle.
- The scale factor 300/72 and the canvas width and height (services/pdfProcessor.ts:32, 47-48) are floating-point work done by the library.
- PNG encoding by `canvas.toBlob` and archive generation by `JSZip.generateAsync` are library internals. Blobs are opaque byte values, and the archive is the map of names to blobs that JSZip is given.
- `triggerDownload` (services/pdfProcessor.ts:81-103) is DOM and timer work: the anchor element, the object URL and the 60-second cleanup. Only the request it receives is modelled, as a `Download` value.
- The timestamped archive name (App.tsx:74) reads the clock and is not modelled.
- The `setTimeout` and `confirm` around the archive prompt (App.tsx:117-121) are timer and dialog work. Only the `> 1` decision is modelled, as `offerZip`.
- React state, `async`/`await` and stale closures are not modelled. Each handler is one sequential step over the current list. So the model does not capture a single-item run started from the table while a batch is in progress; the source does not check `isProcessing` there.
- Resetting the file input (App.tsx:27) is DOM work.
- The console messages (App.tsx:51, 101; services/pdfProcessor.ts:72) are logging.
- `crypto.randomUUID` (App.tsx:16) is randomness. Ids are parameters, required to be distinct and unused.
- The KB size column (components/ProcessingTable.tsx:45) uses floating point and `toFixed`.
- Icons, styling and the `StatusBadge` colour map are presentation.
- `progress` is a JavaScript number. It is an `int` here, which is enough because the code only ever sets it to 0.
