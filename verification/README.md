# SimpleFileIO in Dafny

A model of the core of SimpleFileIO, a small header-only C++ library for
reading and writing files.

- `TextReader` is a buffered line reader: `readLine`, `readLines` and `readString`, and its constructor's errno mapping.
- `TextWriter` offers `writeString`, `writeLine` and `writeLines`.
- `ByteReader::readBytes` and `ByteWriter::writeBytes` move whole byte runs.
- `formatIOError` builds every exception message.
- `OpenMode` is the flag set of the `File` interface, with `has`, `|` and `&`.

The C `FILE*` handle is abstract.

- An input `Stream` is the file's bytes, a read position, and the end-of-file and error indicators.
- `Fread` returns the next bytes, and a short read sets end-of-file.
- An output `Sink` is the bytes written so far and the log of `fwrite` calls.
- `Fwrite` may accept any prefix of what it is given: a short write is possible at every call.
- The outcome of `fopen` is a parameter: a handle on given content, or a failure with an errno.

Modules:

- `Bytes` holds the reference definitions everything is measured against:
  - `LineLength`, which gives the first line of some bytes;
  - `AfterLine`;
  - `Lines`, the split of content at '\n';
  - `Terminated`, the file holding exactly some lines.
- `Errors` holds the error categories, the exception, `formatIOError` and the errno mapping.
- `Streams` holds the abstract handles.
- `ChunkedIO` holds the shared whole-file read loop and the 1 MiB chunked write loop, plus `ByteReader` and `ByteWriter`.
- `TextReading` holds the reader. It is written as pure functions so that whole calls can be related to `Lines`:
  - `LineLoop` and `ScanStep` are the two halves of the `while (true)` body of `readLine`;
  - `ReadLinesFrom` is the `readLines` loop.
- `TextWriting` holds the writer. `WriteLines` and `Assemble` follow the sizing loop and the `memcpy` fill loop of `writeLines`.
- `OpenModes` holds the flag set, and the mode check that the library's tests expect from `File`.
- `RoundTrip` connects writer and reader.

The reader's buffer capacity is a parameter, at least 1; the library fixes it at 1 MiB. The reader's contracts therefore cover lines longer than the buffer and lines that cross a refill.

## Model

| member | source | states |
|---|---|---|
| Bytes.LineLength | include/SimpleFileIO.hpp:281-291 | the first line ends at the first '\n', or at the end when there is none; it holds no '\n' |
| Bytes.LineSplit | include/SimpleFileIO.hpp:288-290 | content with a '\n' is its first line, that '\n', and the rest |
| Bytes.LinesOfTerminated | include/SimpleFileIO.hpp:300-311 | splitting newline-terminated, newline-free lines at '\n' gives exactly those lines, empty ones included |
| Errors.FormatIOError | include/SimpleFileIO.hpp:105-124 | each category's fixed text. "Not open", "not found" and "permission denied" messages end with the path. Read and write messages end with ": " and the detail only when there is a detail |
| Errors.CodeOfFormat | include/SimpleFileIO.hpp:108-120 | the category can be read back from every message: the five texts are pairwise distinguishable |
| Errors.ArgumentOfFormat | include/SimpleFileIO.hpp:109-120 | the path, or the detail, can be recovered from the message; a read or write message does not depend on the path |
| Errors.OpenErrorCode | include/SimpleFileIO.hpp:210-220 | ENOENT maps to "not found", EACCES to "permission denied", every other errno to "not open", each in both directions |
| Errors.Message | include/SimpleFileIO.hpp:87-92 | the text an exception carries names its own category |
| Streams.Fread | include/SimpleFileIO.hpp:270 | `fread` returns the next bytes, at most as many as asked; the rest stays unread; a short read drains the stream and sets end-of-file |
| Streams.Fwrite | include/SimpleFileIO.hpp:413 | `fwrite` appends a prefix of its bytes, possibly all of them, and logs the call |
| Streams.OpenSink | include/SimpleFileIO.hpp:383-384 | mode "w" starts from an empty file; mode "a" keeps what the file held |
| ChunkedIO.ReadAll | include/SimpleFileIO.hpp:244-252 | reading until a zero-byte read yields every unread byte in order, and leaves the stream drained. It fails with a read error exactly when the error indicator given with the handle is set |
| ChunkedIO.WriteSlice | include/SimpleFileIO.hpp:674-675 | one `fwrite` of a slice appends a prefix of that slice |
| ChunkedIO.WriteChunked | include/SimpleFileIO.hpp:671-679 | every `fwrite` gets a non-empty slice of at most 1 MiB. On success the slices concatenate to the data and the file gains exactly the data; on failure it gains a proper prefix, and the error carries the given detail |
| ChunkedIO.OpenByteReader | include/SimpleFileIO.hpp:531-541 | a failed `fopen` gives "not open" whatever the errno; otherwise the whole file is unread |
| ChunkedIO.ReadBytes | include/SimpleFileIO.hpp:552-567 | the result is every unread byte; a read error without detail ("Low-level read error") is raised exactly when the error indicator given with the handle is set |
| ChunkedIO.OpenByteWriter | include/SimpleFileIO.hpp:641-653 | a failed `fopen` gives "not open"; mode "wb" truncates and "ab" keeps the content |
| ChunkedIO.WriteBytes | include/SimpleFileIO.hpp:670-680 | every `fwrite` gets a non-empty slice of at most 1 MiB. On success the slices concatenate to the bytes and the file gains exactly the bytes. A failure raises a write error with the "bytes" detail after writing a proper prefix |
| TextReading.Open | include/SimpleFileIO.hpp:204-226 | a failed open is reported under the errno's category. A new reader has an empty window and the whole file pending, with both indicators clear |
| TextReading.Refill | include/SimpleFileIO.hpp:264-279 | a refill runs only on a drained buffer, so `leftover` is 0 and the window becomes exactly the bytes read. Nothing pending is lost. Zero bytes are read only when the stream is exhausted, and end-of-file is set exactly on a short read |
| TextReading.ScanEnd | include/SimpleFileIO.hpp:281-282 | the scan stops at the first '\n' at or after the cursor, or at `bufferEnd` |
| TextReading.LineLoop | include/SimpleFileIO.hpp:263-292 | the loop appends exactly the first pending line to what it has accumulated, and leaves pending what follows that line's '\n'. It stops on '\n', at the end of data, or on a read failure, exactly as the pending bytes dictate. The buffer stays within `0 <= cursor <= bufferEnd <= capacity` |
| TextReading.ScanStep | include/SimpleFileIO.hpp:281-291 | one scan of the window, with the same delivery promise as the whole loop |
| TextReading.ReadLine | include/SimpleFileIO.hpp:256-298 | the result is the pending bytes up to the next '\n', and what follows that '\n' stays pending. It fails only when no '\n' is left and the error indicator is set. At end of data it returns "" and sets end-of-file |
| TextReading.ReadLineConsumes | include/SimpleFileIO.hpp:281-297 | the returned line holds no '\n'. The bytes consumed are exactly the line and one '\n', or everything when no '\n' is left |
| TextReading.ReadLinesFrom | include/SimpleFileIO.hpp:304-308 | the `readLines` loop as written keeps the reader on the same file. It fails only with a read error when the error indicator is set, and always succeeds when it is clear |
| TextReading.ReadLinesFromCollects | include/SimpleFileIO.hpp:304-308 | the loop collects the pending lines in order and never passes the limit. It stops before the limit only at an empty line |
| TextReading.ReadLines | include/SimpleFileIO.hpp:300-311 | the result is a prefix of the file's lines and respects the limit, with a negative limit wrapped through `size_t`. When it stops early with the limit not reached, the next line is an empty one. It fails only with a read error without detail, and only when the error indicator is set |
| TextReading.NextLine | include/SimpleFileIO.hpp:256-298 | `readLine` with an explicit end-of-data result: it gives `None` exactly when nothing is pending and there is no error, and otherwise the same line as `readLine` |
| TextReading.ReadLinesUntilEnd | include/SimpleFileIO.hpp:304-308 | the corrected loop keeps the reader on the same file. It fails only with a read error when the error indicator is set, and always succeeds when it is clear |
| TextReading.ReadLinesUntilEndCollects | include/SimpleFileIO.hpp:304-308 | the corrected loop collects the pending lines in order and stops only at their end or at the limit |
| TextReading.ReadLinesCorrected | include/SimpleFileIO.hpp:300-311 | corrected `readLines`: exactly the first `numLines` lines, or all lines when `numLines` is 0. It fails only with a read error without detail, and only when the error indicator is set |
| TextReading.ReadString | include/SimpleFileIO.hpp:237-254 | every byte the handle has not delivered; a read error exactly when the error indicator given with the handle is set. The line buffer's position is left as it was |
| TextWriting.Open | include/SimpleFileIO.hpp:380-390 | any failed `fopen` is "not open"; "w" truncates and "a" keeps the content |
| TextWriting.WriteString | include/SimpleFileIO.hpp:407-418 | every `fwrite` gets a non-empty slice of at most 1 MiB. On success the slices concatenate to the string and the file gains exactly the string. A failure raises a write error with the "string" detail after writing a proper prefix. An empty string writes nothing |
| TextWriting.WriteLine | include/SimpleFileIO.hpp:420-431 | one `fwrite` of the line and a '\n', even when the line already ends with one; on failure, a proper prefix of that |
| TextWriting.Terminate | include/SimpleFileIO.hpp:458-460 | a line as `writeLines` emits it ends with '\n' |
| TextWriting.TerminateStrip | include/SimpleFileIO.hpp:443 | a newline is added exactly to lines that are empty or lack a final '\n'; the emitted line is the stripped line and one '\n' |
| TextWriting.PayloadIsTerminated | include/SimpleFileIO.hpp:438-461 | the `writeLines` payload is the newline-terminated file of the lines without their own final '\n' |
| TextWriting.WriteLines | include/SimpleFileIO.hpp:433-466 | an empty vector writes nothing. Otherwise there is one `fwrite` of the whole payload. On success the file gains exactly the payload; on failure, a proper prefix of it |
| TextWriting.Memcpy | include/SimpleFileIO.hpp:455 | `memcpy` overwrites the bytes at the pointer and leaves the rest of the buffer alone |
| TextWriting.CopyLine | include/SimpleFileIO.hpp:453-460 | one pass of the fill loop places the line as `writeLines` emits it at the pointer and moves the pointer past it |
| TextWriting.Assemble | include/SimpleFileIO.hpp:447-461 | the fill loop produces exactly the payload in a buffer of the computed size |
| OpenModes.Has | include/SimpleFileIO/File.hpp:17-19 | a flag found in a set implies that neither the set nor the flag is empty |
| OpenModes.Or | include/SimpleFileIO/File.hpp:21-25 | the union is at least as large as either operand |
| OpenModes.And | include/SimpleFileIO/File.hpp:27-31 | the intersection is at most as large as either operand |
| OpenModes.HasIsAndNotNone | include/SimpleFileIO/File.hpp:17-19 | `has(v, f)` holds exactly when `v & f` is not `None` |
| OpenModes.HasOr | include/SimpleFileIO/File.hpp:21-25 | a flag is in `a \| b` exactly when it is in `a` or in `b` |
| OpenModes.HasAnd | include/SimpleFileIO/File.hpp:27-31 | a flag in `a & b` is in both operands; for a single-bit flag, exactly then |
| OpenModes.Commutative | include/SimpleFileIO/File.hpp:21-31 | `\|` and `&` are commutative |
| OpenModes.Associative | include/SimpleFileIO/File.hpp:21-31 | `\|` and `&` are associative |
| OpenModes.Idempotent | include/SimpleFileIO/File.hpp:21-31 | `\|` and `&` are idempotent; `None` is the identity of `\|` and absorbs `&` |
| OpenModes.NamedFlags | include/SimpleFileIO/File.hpp:9-15 | the four named flags are distinct single bits; `None` has no flag; a union holds each single flag it was built from |
| OpenModes.FlagsDetermineMode | include/SimpleFileIO/File.hpp:9-19 | a mode without unnamed bits is the union of the named flags `has` finds in it |
| OpenModes.ValidModes | tests/test_file.cpp:121-125 | the valid modes are exactly Read, Write and Append, each with or without Binary |
| OpenModes.ModeCases | tests/test_file.cpp:121-125 | `None` and `Read \| Write` are rejected; Read, Write, Append, `Write \| Binary` and `Read \| Binary` are accepted |
| RoundTrip.LinesOfPayload | include/SimpleFileIO.hpp:433-466 | the lines of a `writeLines` payload are the written lines without their own final '\n' |
| RoundTrip.WriteLinesReadLines | include/SimpleFileIO.hpp:300-311 | reading a `writeLines` payload back with `readLines(0)` gives the written lines without their own final '\n', for any buffer capacity and whether or not a line already ended with one, when no line is empty once stripped |
| RoundTrip.WriteLinesReadLinesNewlineFree | include/SimpleFileIO.hpp:300-311 | lines that are non-empty and hold no '\n' come back from `readLines(0)` exactly as written |
| RoundTrip.WriteLinesReadLinesCorrected | include/SimpleFileIO.hpp:300-311 | with the corrected loop every written line comes back, empty ones included |
| RoundTrip.WriteThenRead | include/SimpleFileIO.hpp:433-466 | opening a new file, calling `writeLines`, then opening a reader and calling `readLines(0)` gives the written lines, each without its own final '\n', whenever the write succeeds and no line is empty once stripped; the new handle's error indicator is clear, so the reads cannot fail |
| RoundTrip.WriteLineKeepsOwnNewline | include/SimpleFileIO.hpp:420-431 | what `writeLine` writes for a line that already ends with '\n' splits into the stripped line and an empty line; what `writeLines` writes splits into the stripped line alone |
| RoundTrip.WriteLineReadBackCorrected | include/SimpleFileIO.hpp:420-431 | such a line written by `writeLine` comes back from the corrected loop as the stripped line followed by an empty line |
| RoundTrip.ReadLinesStopsAtEmptyLine | include/SimpleFileIO.hpp:304-306 | on the file "a\n\nb\n" with the 1 MiB buffer, `readLines(0)` returns only "a", and the corrected loop returns "a", "" and "b" |
| RoundTrip.FirstLineOfAEmptyB | include/SimpleFileIO.hpp:264-279 | the first `readLine` on "a\n\nb\n" returns "a" and leaves the end-of-file indicator set, because the refill read less than the buffer holds |
| RoundTrip.EmptyLineAtEnd | include/SimpleFileIO.hpp:294-306 | once end-of-file is set, an empty line comes back as "" with end-of-file still set, which `readLines` takes for the end of the file |
| RoundTrip.LastLineWithoutNewline | include/SimpleFileIO.hpp:274-297 | a final line without '\n' is returned once, in full. The next call returns "" with end-of-file set and does not throw |

## Left out

- The `!file` checks in the text reader and writer are left out. They cannot fail, because each constructor throws when `fopen` fails, so a reader or writer always holds an open handle.
- The `default` branch of `formatIOError` is left out. Every `IOError` value is named in the switch, so the branch is unreachable.
- The `detail` member of `IOException` is left out. It is never assigned, so it is always empty.
- The exception's `runtime_error` base is left out. The message is the `Errors.Message` function of the category, path and cause.
- `exists`, `flush`, the destructors and `fclose` are left out. They are file-system queries and handle teardown, with no effect on the bytes the model tracks.
- `fopen` and errno are parameters rather than modelled: `fopen`'s outcome and errno value are given as a `FopenOutcome`.
- The file system itself is left out. The ENOENT and EACCES numbers are the Linux ones.
- Text-mode newline translation is left out, and bytes are modelled as read and written unchanged (the behaviour on POSIX systems).
- The `SFIO_FREAD`/`SFIO_FWRITE` unlocked variants are left out. They behave like `fread` and `fwrite` for a single owning thread, and threads are out of scope.
- `reserve` hints are left out, because they do not affect results.
- TextReading.ReadString reads only from the handle: bytes already in the line buffer are not part of its result, as in the library.
  - It overwrites the buffer and leaves `cursor` and `bufferEnd` as they were.
  - Mixing `readString` with `readLine` is therefore not characterised beyond that.
- The `TextWriter` scratch buffer is a local of each write. `writeLine` and `writeLines` resize it to their payload and no write restores the 1 MiB size; only the bytes handed to `fwrite` are modelled.
- TextWriting.WriteLines computes `totalSize` without `size_t` wrap-around. A payload of 2^64 bytes cannot exist in memory.
- The reader's capacity is any positive number rather than the library's fixed 1 MiB, which `TextReading.BufferSize` names.
- OpenModes.Has: its contract states only that a match implies non-empty operands; the exact characterisation is `OpenModes.HasIsAndNotNone` together with `OpenModes.HasOr` and `OpenModes.HasAnd`.
- OpenModes.Or: its contract states only the size bound; membership is `OpenModes.HasOr`.
- OpenModes.And: its contract states only the size bound; membership is `OpenModes.HasAnd`.
- The `File` class and `src/file.cpp` are not part of this model.
  - `src/file.cpp` switches on a different mode type, rejects Binary outright and is not the interface the tests use.
  - `OpenModes.ValidMode` takes its rules from the tests and from the flag meanings: exactly one of Read, Write and Append, and optionally Binary.
  - The tests' checks that `writeLine` on a `Write | Binary` `File` and `readString` on a `Write` `File` throw `runtime_error` (tests/test_file.cpp:128-135) are left out with the class.
- Read errors that arise part-way through a file are left out. The error indicator of a `Stream` is given when the handle is opened and no read changes it, and a short read always sets end-of-file. A device failure during `fread` would set the error indicator instead. Every claim that a read fails exactly when the error indicator is set, and the success of the reads in `RoundTrip.WriteThenRead`, holds within this abstraction.

## Findings

| source | as written | input that shows it | evidently intended | confidence | as-written member | corrected member |
|---|---|---|---|---|---|---|
| include/SimpleFileIO.hpp:306 | `readLines` stops when `readLine` returns "" and the end-of-file indicator is set. Any refill that reads less than the buffer holds sets that indicator, so for every file smaller than the 1 MiB buffer, an empty line ends the loop | the file "a\n\nb\n", which is `writeLines` of "a", "" and "b", read with `readLines(0)`: the result is only "a" | every line up to the end of the file, so that `writeLines` followed by `readLines(0)` returns the lines written, empty ones included | not executed | RoundTrip.ReadLinesStopsAtEmptyLine | TextReading.ReadLinesCorrected |

`TextReading.ReadLines` models the loop as written. `TextReading.ReadLinesCorrected` drives the same loop by `TextReading.NextLine`, which reports the end of data explicitly.
