/** Error categories, the exception value every failing operation raises, and
    the text `formatIOError` builds for it. */
module Errors {

  datatype IOError = FileNotOpen | FileNotFound | PermissionDenied | ReadError | WriteError

  /** The exception: a category, the path it concerns, and the low-level
      cause handed to `formatIOError` (empty when none). The library's own
      `detail` member is never assigned, so it is always empty and is not
      kept here; the cause only ever reaches the caller inside the message. */
  datatype IOException = IOException(code: IOError, path: string, cause: string)

  /** The outcome of an operation that may throw an `IOException`. */
  datatype Result<T> = Success(value: T) | Failure(error: IOException)

  datatype Option<T> = None | Some(value: T)

  /** The exception every failing read raises: a read error without detail. */
  function ReadFailure(path: string): IOException {
    IOException(ReadError, path, "")
  }

  /** Abstract errno values that `fopen` reports (their Linux numbers). */
  const ENOENT: int := 2
  const EACCES: int := 13

  const NotOpenPrefix: string := "File operation failed 'file is not open': "
  const NotFoundPrefix: string := "File not found: "
  const DeniedPrefix: string := "Permission denied while accessing: "
  const ReadPrefix: string := "Low-level read error"
  const WritePrefix: string := "Low-level write error"

  /** The categories whose message ends with the path. */
  predicate NamesPath(code: IOError) {
    code.FileNotOpen? || code.FileNotFound? || code.PermissionDenied?
  }

  function Prefix(code: IOError): string {
    match code
    case FileNotOpen => NotOpenPrefix
    case FileNotFound => NotFoundPrefix
    case PermissionDenied => DeniedPrefix
    case ReadError => ReadPrefix
    case WriteError => WritePrefix
  }

  /** The message for an error: a fixed text per category, followed by the
      path for the three "could not access" categories, and by ": " and the
      detail for read and write errors when a detail is given. */
  function FormatIOError(code: IOError, path: string, detail: string): (msg: string)
    ensures Prefix(code) <= msg
    ensures NamesPath(code) ==> msg == Prefix(code) + path
    ensures !NamesPath(code) && detail == "" ==> msg == Prefix(code)
    ensures !NamesPath(code) && detail != "" ==> msg == Prefix(code) + ": " + detail
  {
    match code
    case FileNotOpen => NotOpenPrefix + path
    case FileNotFound => NotFoundPrefix + path
    case PermissionDenied => DeniedPrefix + path
    case ReadError => ReadPrefix + (if detail == "" then "" else ": " + detail)
    case WriteError => WritePrefix + (if detail == "" then "" else ": " + detail)
  }

  /** Reads the category back from a message, by its fixed text. */
  function CodeOf(msg: string): Option<IOError> {
    if NotOpenPrefix <= msg then Some(FileNotOpen)
    else if NotFoundPrefix <= msg then Some(FileNotFound)
    else if DeniedPrefix <= msg then Some(PermissionDenied)
    else if ReadPrefix <= msg then Some(ReadError)
    else if WritePrefix <= msg then Some(WriteError)
    else None
  }

  /** Reads the path (or, for read and write errors, the detail) back from a
      message of a known category. */
  function ArgumentOf(code: IOError, msg: string): string
    requires Prefix(code) <= msg
  {
    var p := Prefix(code);
    if NamesPath(code) then msg[|p|..]
    else if |msg| >= |p| + 2 then msg[|p| + 2..]
    else ""
  }

  /** Every message names its category unambiguously. */
  lemma CodeOfFormat(code: IOError, path: string, detail: string)
    ensures CodeOf(FormatIOError(code, path, detail)) == Some(code)
  {
    var msg := FormatIOError(code, path, detail);
    assert Prefix(code) <= msg;
    match code
    case FileNotOpen =>
    case FileNotFound =>
      assert msg[5] == 'n' != NotOpenPrefix[5];
    case PermissionDenied =>
      assert msg[0] == 'P' != NotOpenPrefix[0];
      assert msg[0] != NotFoundPrefix[0];
    case ReadError =>
      assert msg[0] == 'L';
      assert msg[0] != NotOpenPrefix[0] && msg[0] != NotFoundPrefix[0] && msg[0] != DeniedPrefix[0];
    case WriteError =>
      assert msg[0] == 'L';
      assert msg[0] != NotOpenPrefix[0] && msg[0] != NotFoundPrefix[0] && msg[0] != DeniedPrefix[0];
      assert msg[10] == 'w' != ReadPrefix[10];
  }

  /** The path (for "could not access" errors) or the detail (for read and
      write errors) is recoverable from the message: nothing is lost or
      mangled. The path of a read or write error is not part of its message. */
  lemma ArgumentOfFormat(code: IOError, path: string, detail: string)
    ensures NamesPath(code) ==> ArgumentOf(code, FormatIOError(code, path, detail)) == path
    ensures !NamesPath(code) ==> ArgumentOf(code, FormatIOError(code, path, detail)) == detail
    ensures !NamesPath(code) ==> FormatIOError(code, path, detail) == FormatIOError(code, "", detail)
  {
  }

  /** The category an `fopen` failure is reported under by the text reader:
      ENOENT is "not found", EACCES is "permission denied", and every other
      errno is "not open". */
  function OpenErrorCode(errno: int): (code: IOError)
    ensures code.FileNotFound? <==> errno == ENOENT
    ensures code.PermissionDenied? <==> errno == EACCES
    ensures code.FileNotOpen? <==> errno != ENOENT && errno != EACCES
  {
    if errno == ENOENT then FileNotFound
    else if errno == EACCES then PermissionDenied
    else FileNotOpen
  }

  /** The exception's `what()` text: every throw site formats it from the
      exception's own category, path and cause. */
  function Message(e: IOException): (msg: string)
    ensures CodeOf(msg) == Some(e.code)
  {
    CodeOfFormat(e.code, e.path, e.cause);
    FormatIOError(e.code, e.path, e.cause)
  }
}
