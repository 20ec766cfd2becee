/** What the processing table shows for each queue item: the "Renamed from"
    note, the action button and the error text. Pure functions of the item. */
module ProcessingTable {
  import opened Types
  import opened PdfProcessor

  /** The control in a row's action cell. `Process` and `Retry` are the same
      button with two labels; both run the single-item processor on `id`. */
  datatype Action = DownloadPng | Process(id: string) | Retry(id: string) | EngineActive

  /** The action a row offers (components/ProcessingTable.tsx:52-70). */
  function ActionFor(item: PdfFile): (a: Action)
    ensures a == DownloadPng <==> item.status == COMPLETED && item.resultBlob.Some?
    ensures a.Process? <==> item.status == PENDING
    ensures a.Retry? <==> item.status == FAILED
    ensures a.Process? || a.Retry? ==> a.id == item.id
    ensures a == EngineActive <==> (item.status.PROCESSING? || (item.status.COMPLETED? && item.resultBlob.None?))
  {
    if item.status == COMPLETED && item.resultBlob.Some? then DownloadPng
    else if item.status == PENDING || item.status == FAILED then
      (if item.status == FAILED then Retry(item.id) else Process(item.id))
    else EngineActive
  }

  /** The id whose single-item run a row's button starts, if any. */
  function StartsRunOf(a: Action): (id: Option<string>)
  {
    match a
    case Process(i) => Some(i)
    case Retry(i) => Some(i)
    case _ => None
  }

  /** A run can be started from a row exactly when the item is pending or failed,
      and the run is always on the row's own item. */
  lemma RunOfferedOnlyWhenPendingOrFailed(item: PdfFile)
    ensures StartsRunOf(ActionFor(item)).Some? <==> item.status == PENDING || item.status == FAILED
    ensures StartsRunOf(ActionFor(item)).Some? ==> StartsRunOf(ActionFor(item)).value == item.id
  {
  }

  /** `handleDownload` (components/ProcessingTable.tsx:14-18): a download only
      when both the blob and a non-empty filename are there. */
  function HandleDownload(item: PdfFile): (d: Option<Download>)
    ensures d.Some? <==> item.resultBlob.Some? && Truthy(item.resultFilename)
    ensures d.Some? ==> d.value == Download(item.resultBlob.value, item.resultFilename.value)
  {
    if item.resultBlob.Some? && Truthy(item.resultFilename) then
      Some(Download(item.resultBlob.value, item.resultFilename.value))
    else None
  }

  /** The "Renamed from" note (components/ProcessingTable.tsx:37-41) is shown
      when the file's name is not strictly equal to `originalFilename`; an
      absent `originalFilename` never equals a string. */
  predicate ShowsRenamedNote(item: PdfFile): (shown: bool)
    ensures item.originalFilename.None? ==> shown
  {
    item.originalFilename != Some(item.file.name)
  }

  /** The note shows exactly when the original name is absent or differs from
      the file's current name. */
  lemma RenamedNoteWhenNamesDiffer(item: PdfFile)
    ensures ShowsRenamedNote(item) <==>
      item.originalFilename.None? || item.originalFilename.value != item.file.name
  {
  }

  /** The error line (components/ProcessingTable.tsx:72-74): shown whenever the
      error is a non-empty string, whatever the status. */
  function ErrorLine(item: PdfFile): (e: Option<string>)
    ensures e.Some? <==> Truthy(item.error)
    ensures e.Some? ==> e == item.error
  {
    if Truthy(item.error) then item.error else None
  }

  /** One rendered row. */
  datatype Row = Row(
    key: string,
    name: string,
    renamedNote: bool,
    status: ProcessingStatus,
    action: Action,
    errorLine: Option<string>)

  function RowFor(item: PdfFile): Row
  {
    Row(item.id, item.file.name, ShowsRenamedNote(item), item.status, ActionFor(item), ErrorLine(item))
  }

  /** The table: nothing for an empty queue, otherwise one row per item in
      queue order (components/ProcessingTable.tsx:12, 32-77). */
  function Table(files: seq<PdfFile>): (t: Option<seq<Row>>)
    ensures t.None? <==> files == []
    ensures t.Some? ==> |t.value| == |files|
    ensures t.Some? ==> forall i :: 0 <= i < |files| ==>
      t.value[i].key == files[i].id && t.value[i].name == files[i].file.name
      && t.value[i].status == files[i].status && t.value[i].action == ActionFor(files[i])
      && t.value[i].errorLine == ErrorLine(files[i]) && t.value[i].renamedNote == ShowsRenamedNote(files[i])
  {
    if |files| == 0 then None
    else Some(seq(|files|, i requires 0 <= i < |files| => RowFor(files[i])))
  }
}
