/** Shared records of the PDF Snap queue: the processing status enum, a queue
    item (PDFFile), a render result, and the browser values they hold. */
module Types {

  /** An optional value; stands for a TypeScript property that may be `undefined`. */
  datatype Option<+T> = None | Some(value: T)

  /** The outcome of an operation that may throw. */
  datatype Result<+T, +E> = Ok(value: T) | Err(error: E)

  /** Opaque image or archive bytes (a browser `Blob`). */
  datatype Blob = Blob(bytes: seq<bv8>)

  /** A browser `File` picked by the user: its name and its bytes. */
  datatype SourceFile = SourceFile(name: string, bytes: seq<bv8>)

  /** The four states an item can be in. */
  datatype ProcessingStatus = PENDING | PROCESSING | COMPLETED | FAILED

  /** One work item of the queue. `originalFilename` is declared as a string,
      but nothing in the application ever sets it, so at run time it is
      `undefined`; it is therefore optional here. `progress` is never changed
      from 0. */
  datatype PdfFile = PdfFile(
    id: string,
    file: SourceFile,
    originalFilename: Option<string>,
    status: ProcessingStatus,
    error: Option<string>,
    progress: int,
    resultBlob: Option<Blob>,
    resultFilename: Option<string>)

  /** What a successful render hands back: always both a blob and a filename. */
  datatype RenderResult = RenderResult(blob: Blob, filename: string)

  /** JavaScript truthiness of an optional string: present and non-empty. */
  predicate Truthy(s: Option<string>)
  {
    s.Some? && s.value != ""
  }

  /** `a` ends with `suffix`. */
  predicate EndsWith(a: string, suffix: string)
  {
    |suffix| <= |a| && a[|a| - |suffix|..] == suffix
  }
}
