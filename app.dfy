/** The application's queue of work items and its per-item state machine
    (App.tsx). The renderer is an oracle: every processed item is given one
    `EngineOutcome`. Each React handler is one sequential step over the list. */
module App {
  import opened Types
  import opened PdfProcessor
  import opened ProcessingTable

  const ProcessingFallback: string := "Processing failed"

  // ---------------------------------------------------------------------------
  // Queue invariants

  /** No two items share an id (ids come from `crypto.randomUUID`). */
  predicate DistinctIds(files: seq<PdfFile>)
  {
    forall i, j :: 0 <= i < j < |files| ==> files[i].id != files[j].id
  }

  /** What every item of a queue built only by these handlers satisfies: no
      original name is ever recorded; an
      error is present exactly on a failed item and is never empty; a completed
      item has a blob; a blob and a `.png` result name come and go together.
      A failed or re-processing item may still hold the result of an earlier run. */
  predicate WellFormed(item: PdfFile)
  {
    item.originalFilename.None?
    && (item.error.Some? <==> item.status.FAILED?)
    && (item.error.Some? ==> item.error.value != "")
    && (item.status.COMPLETED? ==> item.resultBlob.Some?)
    && (item.resultBlob.Some? <==> item.resultFilename.Some?)
    && (item.resultFilename.Some? ==> EndsWith(item.resultFilename.value, ".png"))
  }

  predicate QueueValid(files: seq<PdfFile>)
  {
    DistinctIds(files) && forall i :: 0 <= i < |files| ==> WellFormed(files[i])
  }

  // ---------------------------------------------------------------------------
  // handleFileChange (App.tsx:13-22)

  /** The item made for a picked file: pending, progress 0, nothing else set. */
  function NewItem(f: SourceFile, id: string): PdfFile
  {
    PdfFile(id, f, None, PENDING, None, 0, None, None)
  }

  /** The items made for the picked files, in the order they were picked. */
  function NewItems(picked: seq<SourceFile>, ids: seq<string>): (items: seq<PdfFile>)
    requires |ids| == |picked|
    ensures |items| == |picked|
    ensures forall i :: 0 <= i < |items| ==>
      items[i].id == ids[i] && items[i].file == picked[i] && items[i].status == PENDING
      && items[i].progress == 0 && items[i].error.None?
      && items[i].resultBlob.None? && items[i].resultFilename.None?
      && items[i].originalFilename.None?
  {
    seq(|picked|, i requires 0 <= i < |picked| => NewItem(picked[i], ids[i]))
  }

  /** `ids` are distinct and not used by any item of `files`. */
  predicate FreshIds(files: seq<PdfFile>, ids: seq<string>)
  {
    (forall i, j :: 0 <= i < j < |ids| ==> ids[i] != ids[j])
    && (forall i, k :: 0 <= i < |ids| && 0 <= k < |files| ==> ids[i] != files[k].id)
  }

  /** Appending fresh pending items keeps the queue valid. */
  lemma AppendKeepsQueueValid(files: seq<PdfFile>, picked: seq<SourceFile>, ids: seq<string>)
    requires QueueValid(files) && |ids| == |picked| && FreshIds(files, ids)
    ensures QueueValid(files + NewItems(picked, ids))
  {
  }

  /** Freshly added items show the "Renamed from" note, because
      `originalFilename` is never set, and offer PROCESS on their own id. */
  lemma NewItemsInTable(picked: seq<SourceFile>, ids: seq<string>, i: nat)
    requires |ids| == |picked| && i < |picked|
    ensures ShowsRenamedNote(NewItems(picked, ids)[i])
    ensures ActionFor(NewItems(picked, ids)[i]) == Process(ids[i])
    ensures ErrorLine(NewItems(picked, ids)[i]).None?
  {
  }

  // ---------------------------------------------------------------------------
  // The per-item transition (App.tsx:37-57 and 86-106)

  /** `err.message || "Processing failed"`. */
  function FailureText(e: RenderError): (t: string)
    ensures t != ""
    ensures Truthy(e.message) ==> t == e.message.value
    ensures !Truthy(e.message) ==> t == ProcessingFallback
  {
    MessageOr(e.message, ProcessingFallback)
  }

  /** Entering PROCESSING: the status changes and any earlier error is dropped. */
  function StartProcessing(item: PdfFile): (p: PdfFile)
    ensures p.status == PROCESSING && p.error.None?
    ensures p.id == item.id && p.file == item.file && p.originalFilename == item.originalFilename
      && p.progress == item.progress
      && p.resultBlob == item.resultBlob && p.resultFilename == item.resultFilename
  {
    item.(status := PROCESSING, error := None)
  }

  /** Leaving PROCESSING with the render result `r`. */
  function Settle(item: PdfFile, r: Result<RenderResult, RenderError>): (p: PdfFile)
    ensures p.id == item.id && p.file == item.file && p.originalFilename == item.originalFilename
      && p.progress == item.progress
    ensures p.status == COMPLETED <==> r.Ok?
    ensures p.status == FAILED <==> r.Err?
    ensures r.Ok? ==>
      p.error == item.error && p.resultBlob == Some(r.value.blob) && p.resultFilename == Some(r.value.filename)
    ensures r.Err? ==>
      p.error == Some(FailureText(r.error))
      && p.resultBlob == item.resultBlob && p.resultFilename == item.resultFilename
  {
    match r
    case Ok(res) => item.(status := COMPLETED, resultBlob := Some(res.blob), resultFilename := Some(res.filename))
    case Err(e) => item.(status := FAILED, error := Some(FailureText(e)))
  }

  /** One full run of an item through PROCESSING, with the engine ending in
      `outcome`. There is no status guard: a completed item is rendered again. */
  function ProcessItem(item: PdfFile, outcome: EngineOutcome): (p: PdfFile)
    ensures p.id == item.id && p.file == item.file
    ensures p.originalFilename == item.originalFilename && p.progress == item.progress
    ensures p.status.COMPLETED? || p.status.FAILED?
    ensures p.status.COMPLETED? <==> outcome.Encoded? && outcome.png.Some?
    ensures p.status.COMPLETED? ==>
      p.error.None? && p.resultBlob == Some(outcome.png.value)
      && p.resultFilename == Some(OutputFilename(item.file.name))
    ensures p.status.FAILED? ==>
      p.error == Some(FailureText(RenderFirstPage(item.file, outcome).error))
      && p.resultBlob == item.resultBlob && p.resultFilename == item.resultFilename
    ensures WellFormed(item) ==> WellFormed(p)
  {
    Settle(StartProcessing(item), RenderFirstPage(item.file, outcome))
  }

  /** A failed item whose retry renders becomes completed and loses its error. */
  lemma RetryAfterFailure(item: PdfFile, png: Blob)
    requires item.status == FAILED
    ensures ProcessItem(item, Encoded(Some(png))).status == COMPLETED
    ensures ProcessItem(item, Encoded(Some(png))).error.None?
  {
  }

  /** The download triggered by a run of `item`: one exactly when it renders. */
  function RunDownload(item: PdfFile, outcome: EngineOutcome): (d: Option<Download>)
    ensures d.Some? <==> ProcessItem(item, outcome).status.COMPLETED?
    ensures d.Some? ==>
      d.value.blob == ProcessItem(item, outcome).resultBlob.value
      && d.value.filename == ProcessItem(item, outcome).resultFilename.value
  {
    match RenderFirstPage(item.file, outcome)
    case Ok(res) => Some(Download(res.blob, res.filename))
    case Err(_) => None
  }

  /** After a run, the table offers the PNG download (and it works) when the
      render succeeded, and RETRY with the error line when it failed. */
  lemma TableAfterRun(item: PdfFile, outcome: EngineOutcome)
    ensures var p := ProcessItem(item, outcome);
      (ActionFor(p) == DownloadPng <==> outcome.Encoded? && outcome.png.Some?)
      && (ActionFor(p) == DownloadPng ==> HandleDownload(p) == RunDownload(item, outcome))
      && (ActionFor(p) == Retry(item.id) <==> !(outcome.Encoded? && outcome.png.Some?))
      && (ErrorLine(p).Some? <==> p.status.FAILED?)
  {
  }

  /** For a well-formed item the busy indicator means PROCESSING, the error line
      means FAILED, and the DOWNLOAD PNG button always finds a file to download. */
  lemma WellFormedRow(item: PdfFile)
    requires WellFormed(item)
    ensures ActionFor(item) == EngineActive <==> item.status == PROCESSING
    ensures ActionFor(item) == DownloadPng <==> item.status == COMPLETED
    ensures ActionFor(item) == DownloadPng ==> HandleDownload(item).Some?
    ensures ErrorLine(item).Some? <==> item.status == FAILED
    ensures ShowsRenamedNote(item)
  {
  }

  // ---------------------------------------------------------------------------
  // findIndex (App.tsx:31)

  /** `files.findIndex(f => f.id === id)`: the first index with that id, or -1. */
  function FindIndex(files: seq<PdfFile>, id: string): (i: int)
    ensures -1 <= i < |files|
    ensures i == -1 <==> forall k :: 0 <= k < |files| ==> files[k].id != id
    ensures 0 <= i ==> files[i].id == id && forall k :: 0 <= k < i ==> files[k].id != id
  {
    if files == [] then -1
    else if files[0].id == id then 0
    else
      var j := FindIndex(files[1..], id);
      if j == -1 then -1 else j + 1
  }

  // ---------------------------------------------------------------------------
  // processBatch (App.tsx:77-123)

  /** What the batch does to one item: a completed item is skipped, any other
      item is run. */
  function BatchItem(item: PdfFile, outcome: EngineOutcome): (p: PdfFile)
    ensures item.status.COMPLETED? ==> p == item
    ensures !item.status.COMPLETED? ==> p == ProcessItem(item, outcome)
    ensures p.id == item.id && p.file == item.file
    ensures p.status.COMPLETED? || p.status.FAILED?
  {
    if item.status.COMPLETED? then item else ProcessItem(item, outcome)
  }

  /** The queue after a batch: same length, same order, each item as `BatchItem`
      leaves it. */
  function BatchSpec(files: seq<PdfFile>, outcomes: seq<EngineOutcome>): (r: seq<PdfFile>)
    requires |outcomes| == |files|
    ensures |r| == |files|
    ensures forall i :: 0 <= i < |r| ==> r[i] == BatchItem(files[i], outcomes[i])
  {
    seq(|files|, i requires 0 <= i < |files| => BatchItem(files[i], outcomes[i]))
  }

  /** A batch keeps the queue valid. */
  lemma BatchKeepsQueueValid(files: seq<PdfFile>, outcomes: seq<EngineOutcome>)
    requires |outcomes| == |files| && QueueValid(files)
    ensures QueueValid(BatchSpec(files, outcomes))
  {
  }

  /** The download a batch triggers for one item. */
  function BatchItemDownloads(item: PdfFile, outcome: EngineOutcome): (ds: seq<Download>)
    ensures |ds| <= 1
    ensures |ds| == 1 <==> !item.status.COMPLETED? && BatchItem(item, outcome).status.COMPLETED?
    ensures |ds| == 1 ==>
      ds[0] == Download(BatchItem(item, outcome).resultBlob.value, BatchItem(item, outcome).resultFilename.value)
  {
    if item.status.COMPLETED? then []
    else match RunDownload(item, outcome)
      case Some(d) => [d]
      case None => []
  }

  /** The downloads a batch triggers, in queue order. */
  function BatchDownloads(files: seq<PdfFile>, outcomes: seq<EngineOutcome>): (ds: seq<Download>)
    requires |outcomes| == |files|
    ensures |ds| <= |files|
    ensures forall k :: 0 <= k < |ds| ==> EndsWith(ds[k].filename, ".png")
  {
    if files == [] then []
    else
      var n := |files| - 1;
      BatchDownloads(files[..n], outcomes[..n]) + BatchItemDownloads(files[n], outcomes[n])
  }

  /** One more item adds its own downloads at the end. */
  lemma BatchDownloadsStep(files: seq<PdfFile>, outcomes: seq<EngineOutcome>, i: nat)
    requires |outcomes| == |files| && i < |files|
    ensures BatchDownloads(files[..i + 1], outcomes[..i + 1])
      == BatchDownloads(files[..i], outcomes[..i]) + BatchItemDownloads(files[i], outcomes[i])
  {
    assert files[..i + 1][..i] == files[..i] && outcomes[..i + 1][..i] == outcomes[..i];
  }

  /** `d` is the new result of `item`, which the batch completes in this run. */
  predicate NewResult(item: PdfFile, outcome: EngineOutcome, d: Download)
  {
    !item.status.COMPLETED? && BatchItem(item, outcome).status.COMPLETED?
    && d == Download(BatchItem(item, outcome).resultBlob.value, BatchItem(item, outcome).resultFilename.value)
  }

  /** One item's downloads are exactly its new result, when the batch completes it. */
  lemma BatchItemDownloadsMembership(item: PdfFile, outcome: EngineOutcome, d: Download)
    ensures d in BatchItemDownloads(item, outcome) <==> NewResult(item, outcome, d)
  {
  }

  /** The batch downloads exactly the new results of the items it completes. */
  lemma {:induction false} BatchDownloadsMembership(files: seq<PdfFile>, outcomes: seq<EngineOutcome>, d: Download)
    requires |outcomes| == |files|
    ensures d in BatchDownloads(files, outcomes) <==>
      exists i :: 0 <= i < |files| && NewResult(files[i], outcomes[i], d)
  {
    if files != [] {
      var n := |files| - 1;
      var fs, os := files[..n], outcomes[..n];
      BatchDownloadsMembership(fs, os, d);
      BatchItemDownloadsMembership(files[n], outcomes[n], d);
      var before, last := BatchDownloads(fs, os), BatchItemDownloads(files[n], outcomes[n]);
      assert BatchDownloads(files, outcomes) == before + last;
      if d in before {
        var i :| 0 <= i < n && NewResult(fs[i], os[i], d);
        assert fs[i] == files[i] && os[i] == outcomes[i];
        assert 0 <= i < |files| && NewResult(files[i], outcomes[i], d);
      } else if d in last {
        assert 0 <= n < |files| && NewResult(files[n], outcomes[n], d);
      }
      if exists i :: 0 <= i < |files| && NewResult(files[i], outcomes[i], d) {
        var i :| 0 <= i < |files| && NewResult(files[i], outcomes[i], d);
        if i < n {
          assert fs[i] == files[i] && os[i] == outcomes[i];
          assert 0 <= i < n && NewResult(fs[i], os[i], d);
          assert d in before;
        } else {
          assert i == n;
          assert NewResult(files[n], outcomes[n], d);
        }
        assert d in before + last;
      }
    }
  }

  // ---------------------------------------------------------------------------
  // Counts (App.tsx:115, 125, 184)

  /** `files.filter(f => f.status === s).length`. */
  function CountStatus(files: seq<PdfFile>, s: ProcessingStatus): (n: nat)
    ensures n <= |files|
  {
    if files == [] then 0
    else CountStatus(files[..|files| - 1], s) + (if files[|files| - 1].status == s then 1 else 0)
  }

  /** The START BATCH label: `files.filter(f => f.status !== COMPLETED).length`. */
  function RemainingCount(files: seq<PdfFile>): (n: nat)
    ensures n <= |files|
  {
    if files == [] then 0
    else RemainingCount(files[..|files| - 1]) + (if files[|files| - 1].status != COMPLETED then 1 else 0)
  }

  /** Counting distributes over concatenation. */
  lemma {:induction false} CountStatusAppend(a: seq<PdfFile>, b: seq<PdfFile>, s: ProcessingStatus)
    ensures CountStatus(a + b, s) == CountStatus(a, s) + CountStatus(b, s)
  {
    if b == [] {
      assert a + b == a;
    } else {
      var n := |b| - 1;
      assert (a + b)[..|a + b| - 1] == a + b[..n];
      CountStatusAppend(a, b[..n], s);
    }
  }

  /** The count is positive exactly when some item has that status. */
  lemma {:induction false} CountStatusPositive(files: seq<PdfFile>, s: ProcessingStatus)
    ensures CountStatus(files, s) > 0 <==> exists i :: 0 <= i < |files| && files[i].status == s
  {
    if files != [] {
      var n := |files| - 1;
      CountStatusPositive(files[..n], s);
      if CountStatus(files[..n], s) > 0 {
        var i :| 0 <= i < n && files[..n][i].status == s;
        assert files[i] == files[..n][i];
      }
      if exists i :: 0 <= i < |files| && files[i].status == s {
        var i :| 0 <= i < |files| && files[i].status == s;
        if i < n { assert files[..n][i] == files[i]; }
      }
    }
  }

  /** Nothing remains for START BATCH exactly when every item is completed. */
  lemma {:induction false} RemainingCountZero(files: seq<PdfFile>)
    ensures RemainingCount(files) == 0 <==> forall i :: 0 <= i < |files| ==> files[i].status == COMPLETED
  {
    if files != [] {
      var n := |files| - 1;
      RemainingCountZero(files[..n]);
      if forall i :: 0 <= i < |files| ==> files[i].status == COMPLETED {
        forall i | 0 <= i < n ensures files[..n][i].status == COMPLETED {
          assert files[..n][i] == files[i];
        }
      }
      if RemainingCount(files) == 0 {
        forall i | 0 <= i < |files| ensures files[i].status == COMPLETED {
          if i < n { assert files[i] == files[..n][i]; }
        }
      }
    }
  }

  /** Every item is counted either as completed or as remaining. */
  lemma {:induction false} CountsPartition(files: seq<PdfFile>)
    ensures CountStatus(files, COMPLETED) + RemainingCount(files) == |files|
  {
    if files != [] {
      CountsPartition(files[..|files| - 1]);
    }
  }

  /** After a batch, each download stands for one newly completed item and every
      other item that was not completed has failed: with N items still to do and
      D downloads, D more items are completed and N - D are failed. */
  lemma {:induction false} BatchCounts(files: seq<PdfFile>, outcomes: seq<EngineOutcome>)
    requires |outcomes| == |files|
    ensures var after, d := BatchSpec(files, outcomes), |BatchDownloads(files, outcomes)|;
      CountStatus(after, COMPLETED) == CountStatus(files, COMPLETED) + d
      && CountStatus(after, FAILED) + d == RemainingCount(files)
      && CountStatus(after, PENDING) == 0 && CountStatus(after, PROCESSING) == 0
  {
    if files != [] {
      var n := |files| - 1;
      var after := BatchSpec(files, outcomes);
      assert after[..n] == BatchSpec(files[..n], outcomes[..n]);
      BatchCounts(files[..n], outcomes[..n]);
      assert after[n] == BatchItem(files[n], outcomes[n]);
      BatchItemCounts(files[n], outcomes[n]);
    }
  }

  /** The contribution of one item to the counts of `BatchCounts`. */
  lemma BatchItemCounts(item: PdfFile, outcome: EngineOutcome)
    ensures var p, d := BatchItem(item, outcome), |BatchItemDownloads(item, outcome)|;
      (if p.status == COMPLETED then 1 else 0) == (if item.status == COMPLETED then 1 else 0) + d
      && (if p.status == FAILED then 1 else 0) + d == (if item.status != COMPLETED then 1 else 0)
      && p.status != PENDING && p.status != PROCESSING
  {
  }

  /** The archive prompt after a batch counts items completed before the run
      too, so it can appear even when the run itself completed a single item. */
  lemma BatchPromptCountsEarlierCompletions(done: PdfFile, todo: PdfFile, png: Blob)
    requires done.status == COMPLETED && todo.status == PENDING
    ensures CountStatus(BatchSpec([done, todo], [LoadFailed(None), Encoded(Some(png))]), COMPLETED) > 1
    ensures |BatchDownloads([done, todo], [LoadFailed(None), Encoded(Some(png))])| == 1
  {
  }

  // ---------------------------------------------------------------------------
  // downloadAllAsZip (App.tsx:62-75)

  /** The filter at App.tsx:63: completed and holding a blob. */
  predicate Zippable(f: PdfFile)
  {
    f.status.COMPLETED? && f.resultBlob.Some?
  }

  /** `files.filter(Zippable)`, in queue order. */
  function ZippableItems(files: seq<PdfFile>): (r: seq<PdfFile>)
    ensures |r| <= |files|
    ensures forall k :: 0 <= k < |r| ==> Zippable(r[k])
    ensures r == [] <==> forall i :: 0 <= i < |files| ==> !Zippable(files[i])
  {
    if files == [] then []
    else
      var n := |files| - 1;
      ZippableItems(files[..n]) + (if Zippable(files[n]) then [files[n]] else [])
  }

  /** One `zip.file(name, blob)` call. */
  datatype ZipEntry = ZipEntry(name: string, blob: Blob)

  /** The `zip.file` calls made for `files`, in queue order: one per completed
      item that has a blob and a non-empty result name (App.tsx:63, 68-69). */
  function ZipEntries(files: seq<PdfFile>): (es: seq<ZipEntry>)
    ensures |es| <= |files|
    ensures forall k :: 0 <= k < |es| ==> es[k].name != ""
  {
    if files == [] then []
    else
      var n := |files| - 1;
      var f := files[n];
      ZipEntries(files[..n])
        + (if Zippable(f) && Truthy(f.resultFilename) then [ZipEntry(f.resultFilename.value, f.resultBlob.value)] else [])
  }

  /** The archive's single flat namespace: a later entry with the same name
      replaces an earlier one. */
  function ArchiveOf(entries: seq<ZipEntry>): (m: map<string, Blob>)
    ensures forall k :: 0 <= k < |entries| ==> entries[k].name in m
    ensures entries != [] ==> m[entries[|entries| - 1].name] == entries[|entries| - 1].blob
  {
    if entries == [] then map[]
    else
      var n := |entries| - 1;
      ArchiveOf(entries[..n])[entries[n].name := entries[n].blob]
  }

  /** The entries come from exactly the completed items with a blob and a name. */
  lemma {:induction false} ZipEntriesMembership(files: seq<PdfFile>, e: ZipEntry)
    ensures e in ZipEntries(files) <==>
      exists i :: 0 <= i < |files| && Zippable(files[i]) && e.name != ""
        && files[i].resultFilename == Some(e.name) && files[i].resultBlob == Some(e.blob)
  {
    if files != [] {
      var n := |files| - 1;
      ZipEntriesMembership(files[..n], e);
      if e in ZipEntries(files[..n]) {
        var i :| 0 <= i < n && Zippable(files[..n][i]) && e.name != ""
          && files[..n][i].resultFilename == Some(e.name) && files[..n][i].resultBlob == Some(e.blob);
        assert files[i] == files[..n][i];
      }
      if exists i ::
          0 <= i < |files| && Zippable(files[i]) && e.name != ""
          && files[i].resultFilename == Some(e.name) && files[i].resultBlob == Some(e.blob)
      {
        var i :| 0 <= i < |files| && Zippable(files[i]) && e.name != ""
          && files[i].resultFilename == Some(e.name) && files[i].resultBlob == Some(e.blob);
        if i < n {
          assert files[..n][i] == files[i];
        }
      }
    }
  }

  /** One more item adds its own entry, if any, at the end. */
  lemma ZipEntriesStep(files: seq<PdfFile>, i: nat)
    requires i < |files| && Zippable(files[i])
    ensures ZipEntries(files[..i + 1]) == ZipEntries(files[..i])
      + (if Truthy(files[i].resultFilename) then [ZipEntry(files[i].resultFilename.value, files[i].resultBlob.value)] else [])
  {
    assert files[..i + 1][..i] == files[..i];
  }

  /** One more entry sets its name to its blob. */
  lemma ArchiveOfStep(entries: seq<ZipEntry>, e: ZipEntry)
    ensures ArchiveOf(entries + [e]) == ArchiveOf(entries)[e.name := e.blob]
  {
    assert (entries + [e])[..|entries|] == entries;
  }

  /** Entries follow queue order: the entries of a queue are those of its first
      part followed by those of the rest. */
  lemma {:induction false} ZipEntriesInQueueOrder(a: seq<PdfFile>, b: seq<PdfFile>)
    ensures ZipEntries(a + b) == ZipEntries(a) + ZipEntries(b)
  {
    if b == [] {
      assert a + b == a;
    } else {
      var n := |b| - 1;
      assert (a + b)[..|a + b| - 1] == a + b[..n];
      ZipEntriesInQueueOrder(a, b[..n]);
    }
  }

  /** Filtering first (App.tsx:63) and checking again in the loop (App.tsx:68)
      makes the same calls as checking once. */
  lemma {:induction false} ZipEntriesOfZippable(files: seq<PdfFile>)
    ensures ZipEntries(ZippableItems(files)) == ZipEntries(files)
  {
    if files != [] {
      var n := |files| - 1;
      ZipEntriesOfZippable(files[..n]);
      var tail := if Zippable(files[n]) then [files[n]] else [];
      ZipEntriesInQueueOrder(ZippableItems(files[..n]), tail);
      if Zippable(files[n]) {
        assert [files[n]][..0] == [];
      }
    }
  }

  /** A name is in the archive exactly when some entry carries it. */
  lemma {:induction false} ArchiveNames(entries: seq<ZipEntry>, name: string)
    ensures name in ArchiveOf(entries) <==> exists j :: 0 <= j < |entries| && entries[j].name == name
  {
    if entries != [] {
      var n := |entries| - 1;
      ArchiveNames(entries[..n], name);
      if exists j :: 0 <= j < |entries| && entries[j].name == name {
        var j :| 0 <= j < |entries| && entries[j].name == name;
        if j < n { assert entries[..n][j] == entries[j]; }
      }
    }
  }

  /** Each name holds the blob of the last entry that carries it. */
  lemma {:induction false} ArchiveLastEntryWins(entries: seq<ZipEntry>, j: nat)
    requires j < |entries|
    requires forall k :: j < k < |entries| ==> entries[k].name != entries[j].name
    ensures entries[j].name in ArchiveOf(entries)
    ensures ArchiveOf(entries)[entries[j].name] == entries[j].blob
  {
    var n := |entries| - 1;
    if j < n {
      assert entries[..n][j] == entries[j];
      ArchiveLastEntryWins(entries[..n], j);
    }
  }

  /** Two completed items with the same result name leave one archive entry,
      holding the later item's image. */
  lemma SameNameOverwrites(a: PdfFile, b: PdfFile)
    requires Zippable(a) && Zippable(b) && Truthy(a.resultFilename) && a.resultFilename == b.resultFilename
    ensures ArchiveOf(ZipEntries([a, b])) == map[a.resultFilename.value := b.resultBlob.value]
  {
    var n := a.resultFilename.value;
    var ea, eb := ZipEntry(n, a.resultBlob.value), ZipEntry(n, b.resultBlob.value);
    var fs := [a, b];
    assert fs[..0] == [] && fs[..2] == fs;
    ZipEntriesStep(fs, 0);
    ZipEntriesStep(fs, 1);
    assert ZipEntries(fs) == [] + [ea] + [eb];
    ArchiveOfStep([], ea);
    ArchiveOfStep([] + [ea], eb);
  }

  // ---------------------------------------------------------------------------
  // The DOWNLOAD ALL AS ZIP button (App.tsx:189)

  /** The button is shown when an item is completed and no batch is running. */
  predicate ZipButtonShown(files: seq<PdfFile>, isProcessing: bool)
  {
    CountStatus(files, COMPLETED) > 0 && !isProcessing
  }

  /** The button is shown exactly when some item is completed and no batch is running. */
  lemma ZipButtonShownExactly(files: seq<PdfFile>, isProcessing: bool)
    ensures ZipButtonShown(files, isProcessing) <==>
      !isProcessing && exists i :: 0 <= i < |files| && files[i].status == COMPLETED
  {
    CountStatusPositive(files, COMPLETED);
  }

  /** On a valid queue the button always leads to an archive. */
  lemma ZipButtonMeansArchive(files: seq<PdfFile>, isProcessing: bool)
    requires QueueValid(files) && ZipButtonShown(files, isProcessing)
    ensures ZippableItems(files) != []
  {
    CountStatusPositive(files, COMPLETED);
    var i :| 0 <= i < |files| && files[i].status == COMPLETED;
    assert Zippable(files[i]);
  }

  // ---------------------------------------------------------------------------
  // The component's state

  class AppState {
    var files: seq<PdfFile>
    var isProcessing: bool

    ghost predicate Valid()
      reads this
    {
      QueueValid(files)
    }

    constructor ()
      ensures Valid() && files == [] && !isProcessing
    {
      files := [];
      isProcessing := false;
    }

    /** handleFileChange: append one pending item per picked file; nothing when
        the input holds no file list. */
    method HandleFileChange(picked: Option<seq<SourceFile>>, ids: seq<string>)
      requires Valid()
      requires picked.Some? ==> |ids| == |picked.value| && FreshIds(files, ids)
      modifies this
      ensures Valid()
      ensures picked.None? ==> files == old(files)
      ensures picked.Some? ==> files == old(files) + NewItems(picked.value, ids)
      ensures isProcessing == old(isProcessing)
    {
      if picked.Some? {
        AppendKeepsQueueValid(files, picked.value, ids);
        files := files + NewItems(picked.value, ids);
      }
    }

    /** clearList: empty the queue. */
    method ClearList()
      requires Valid()
      modifies this
      ensures Valid() && files == [] && isProcessing == old(isProcessing)
    {
      files := [];
    }

    /** processFileById: run the item with id `fileId`, if there is one,
        whatever its status; no other item changes. */
    method ProcessFileById(fileId: string, outcome: EngineOutcome) returns (download: Option<Download>)
      requires Valid()
      modifies this
      ensures Valid() && isProcessing == old(isProcessing)
      ensures FindIndex(old(files), fileId) == -1 ==> files == old(files) && download.None?
      ensures FindIndex(old(files), fileId) != -1 ==>
        var i := FindIndex(old(files), fileId);
        files == old(files)[i := ProcessItem(old(files)[i], outcome)]
        && download == RunDownload(old(files)[i], outcome)
    {
      download := None;
      var fileIndex := FindIndex(files, fileId);
      if fileIndex == -1 {
        return;
      }
      var updated := files;
      updated, download := RunItemAt(updated, fileIndex, outcome);
    }

    /** The transition both handlers apply to `updated[i]`: enter PROCESSING and
        publish the list, render, settle the item and publish the list again. */
    method RunItemAt(updated: seq<PdfFile>, i: nat, outcome: EngineOutcome)
      returns (next: seq<PdfFile>, download: Option<Download>)
      requires i < |updated|
      modifies this`files
      ensures next == updated[i := ProcessItem(updated[i], outcome)] && files == next
      ensures download == RunDownload(updated[i], outcome)
    {
      next := updated[i := StartProcessing(updated[i])];
      files := next;
      var result := RenderFirstPage(next[i].file, outcome);
      download := None;
      if result.Ok? {
        download := Some(Download(result.value.blob, result.value.filename));
      }
      next := next[i := Settle(next[i], result)];
      files := next;
    }

    /** processBatch: run every item that is not completed, in queue order, and
        say whether to offer the archive (more than one completed item). */
    method ProcessBatch(outcomes: seq<EngineOutcome>) returns (downloads: seq<Download>, offerZip: bool)
      requires Valid()
      requires |outcomes| == |files|
      modifies this
      ensures Valid()
      ensures files == BatchSpec(old(files), outcomes)
      ensures downloads == BatchDownloads(old(files), outcomes)
      ensures old(files) == [] ==> isProcessing == old(isProcessing) && !offerZip
      ensures old(files) != [] ==> !isProcessing && offerZip == (CountStatus(files, COMPLETED) > 1)
    {
      if |files| == 0 {
        return [], false;
      }
      isProcessing := true;
      var updated;
      updated, downloads := RunBatch(files, outcomes);
      BatchKeepsQueueValid(old(files), outcomes);
      isProcessing := false;
      offerZip := CountStatus(updated, COMPLETED) > 1;
    }

    /** One pass of the batch loop (App.tsx:84-109): skip a completed item,
        otherwise run it. */
    method BatchStepAt(updated: seq<PdfFile>, i: nat, outcome: EngineOutcome)
      returns (next: seq<PdfFile>, step: seq<Download>)
      requires i < |updated| && files == updated
      modifies this`files
      ensures next == updated[i := BatchItem(updated[i], outcome)] && files == next
      ensures step == BatchItemDownloads(updated[i], outcome)
    {
      next, step := updated, [];
      if !updated[i].status.COMPLETED? {
        var download;
        next, download := RunItemAt(updated, i, outcome);
        if download.Some? {
          step := [download.value];
        }
      }
    }

    /** The loop of processBatch over its copy of the list (App.tsx:81-110). */
    method RunBatch(before: seq<PdfFile>, outcomes: seq<EngineOutcome>)
      returns (updated: seq<PdfFile>, downloads: seq<Download>)
      requires |outcomes| == |before| && files == before
      modifies this`files
      ensures updated == BatchSpec(before, outcomes) && files == updated
      ensures downloads == BatchDownloads(before, outcomes)
    {
      updated, downloads := before, [];
      var i := 0;
      while i < |updated|
        invariant 0 <= i <= |updated| == |before| == |outcomes|
        invariant files == updated
        invariant forall k :: 0 <= k < i ==> updated[k] == BatchItem(before[k], outcomes[k])
        invariant forall k :: i <= k < |updated| ==> updated[k] == before[k]
        invariant downloads == BatchDownloads(before[..i], outcomes[..i])
      {
        var step;
        updated, step := BatchStepAt(updated, i, outcomes[i]);
        downloads := downloads + step;
        BatchDownloadsStep(before, outcomes, i);
        i := i + 1;
      }
      assert before[..i] == before && outcomes[..i] == outcomes;
    }

    /** downloadAllAsZip: nothing when no item is completed with a blob;
        otherwise the archive of the completed results, later names replacing
        earlier ones. */
    method DownloadAllAsZip() returns (archive: Option<map<string, Blob>>)
      ensures archive.None? <==> forall i :: 0 <= i < |files| ==> !Zippable(files[i])
      ensures archive.Some? ==> archive.value == ArchiveOf(ZipEntries(files))
    {
      var completed := ZippableItems(files);
      if |completed| == 0 {
        return None;
      }
      var zip: map<string, Blob> := map[];
      for i := 0 to |completed|
        invariant zip == ArchiveOf(ZipEntries(completed[..i]))
      {
        var f := completed[i];
        ZipEntriesStep(completed, i);
        if f.resultBlob.Some? && Truthy(f.resultFilename) {
          var e := ZipEntry(f.resultFilename.value, f.resultBlob.value);
          assert ZipEntries(completed[..i + 1]) == ZipEntries(completed[..i]) + [e];
          ArchiveOfStep(ZipEntries(completed[..i]), e);
          zip := zip[e.name := e.blob];
        } else {
          assert ZipEntries(completed[..i + 1]) == ZipEntries(completed[..i]);
        }
      }
      assert completed[..|completed|] == completed;
      ZipEntriesOfZippable(files);
      archive := Some(zip);
    }
  }
}
