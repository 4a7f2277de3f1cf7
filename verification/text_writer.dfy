/** `TextWriter`: writes strings, single lines and batches of lines to an
    output handle opened in mode "w" (truncate) or "a" (append). */
module TextWriting {
  import opened Bytes
  import opened Errors
  import opened Streams
  import ChunkedIO

  /** A text writer: the handle, and whether it was opened for appending.
      The library also keeps a 1 MiB scratch buffer; only its contents at
      the moment of a write matter, so it is a local of each write here. */
  datatype TextWriter = TextWriter(path: string, append: bool, sink: Sink)

  /** The `TextWriter` constructor: any `fopen` failure is reported as
      "file is not open", whatever the errno. */
  function Open(path: string, append: bool, outcome: FopenOutcome): (w: Result<TextWriter>)
    ensures w.Failure? <==> outcome.OpenFailed?
    ensures w.Failure? ==> w.error == IOException(FileNotOpen, path, "")
    ensures w.Success? ==> w.value.path == path && w.value.append == append && w.value.sink.calls == []
    ensures w.Success? ==> w.value.sink.data == (if append then outcome.content else [])
  {
    match outcome
    case OpenFailed(_) => Failure(IOException(FileNotOpen, path, ""))
    case Opened(content) => Success(TextWriter(path, append, OpenSink(content, append)))
  }

  /** `writeString`: the chunked write, with its own failure text. */
  method WriteString(w: TextWriter, data: seq<byte>) returns (res: Result<()>, w': TextWriter)
    ensures w'.path == w.path && w'.append == w.append
    ensures ChunkedIO.IssuedSlices(w.sink.calls, w'.sink.calls)
    ensures res.Success? ==> w'.sink.data == w.sink.data + data
    ensures res.Success? ==> Flatten(w'.sink.calls[|w.sink.calls|..]) == data
    ensures res.Failure? ==> res.error == IOException(WriteError, w.path, "Failed to write string to file.")
    ensures res.Failure? ==> ChunkedIO.StoppedShort(w.sink.data, w'.sink.data, data)
    ensures |data| == 0 ==> res.Success? && w' == w
  {
    var sink', issued;
    res, sink', issued := ChunkedIO.WriteChunked(w.sink, data, w.path, "Failed to write string to file.");
    ChunkedIO.IssuedSlicesOf(w.sink.calls, issued);
    w' := w.(sink := sink');
    if |data| == 0 {
      assert issued == [];
    }
  }

  /** `writeLine`: the line and one '\n', handed to `fwrite` in one call.
      The newline is added even when the line already ends with one. */
  method WriteLine(w: TextWriter, line: seq<byte>) returns (res: Result<()>, w': TextWriter)
    ensures w'.path == w.path && w'.append == w.append
    ensures w'.sink.calls == w.sink.calls + [line + [Newline]]
    ensures res.Success? ==> w'.sink.data == w.sink.data + line + [Newline]
    ensures res.Failure? ==> res.error == IOException(WriteError, w.path, "Failed to write line to file.")
    ensures res.Failure? ==> ChunkedIO.StoppedShort(w.sink.data, w'.sink.data, line + [Newline])
  {
    var buffer := line + [Newline];
    var written, sink' := Fwrite(w.sink, buffer);
    w' := w.(sink := sink');
    if written != |buffer| {
      return Failure(IOException(WriteError, w.path, "Failed to write line to file.")), w';
    }
    assert buffer[..written] == buffer;
    res := Success(());
  }

  /** Whether `writeLines` adds a newline after `line`: it is empty or does
      not end with one. */
  predicate MissingNewline(line: seq<byte>) {
    |line| == 0 || line[|line| - 1] != Newline
  }

  /** A line as `writeLines` emits it: unchanged when it already ends with
      '\n', otherwise followed by one. */
  function Terminate(line: seq<byte>): (t: seq<byte>)
    ensures |t| > 0 && t[|t| - 1] == Newline
  {
    if MissingNewline(line) then line + [Newline] else line
  }

  /** The line without its final '\n', if it has one. */
  function Strip(line: seq<byte>): (s: seq<byte>)
    ensures |s| <= |line|
  {
    if |line| > 0 && line[|line| - 1] == Newline then line[..|line| - 1] else line
  }

  /** The payload of `writeLines`: each line, newline-terminated. */
  function Payload(lines: seq<seq<byte>>): seq<byte> {
    if |lines| == 0 then [] else Terminate(lines[0]) + Payload(lines[1..])
  }

  function StripAll(lines: seq<seq<byte>>): (s: seq<seq<byte>>)
    ensures |s| == |lines|
    ensures forall k :: 0 <= k < |lines| ==> s[k] == Strip(lines[k])
  {
    if |lines| == 0 then [] else [Strip(lines[0])] + StripAll(lines[1..])
  }

  /** A terminated line is its stripped form and one '\n'; the stripped
      form of a line that `writeLines` completed is the line itself. */
  lemma TerminateStrip(line: seq<byte>)
    ensures Terminate(line) == Strip(line) + [Newline]
    ensures MissingNewline(line) ==> Strip(line) == line && |Terminate(line)| == |line| + 1
    ensures !MissingNewline(line) ==> Terminate(line) == line
  {
    if !MissingNewline(line) {
      assert line == line[..|line| - 1] + [Newline];
    }
  }

  lemma {:induction false} PayloadAppend(lines: seq<seq<byte>>, last: seq<byte>)
    ensures Payload(lines + [last]) == Payload(lines) + Terminate(last)
    decreases |lines|
  {
    if |lines| == 0 {
      assert lines + [last] == [last];
    } else {
      assert (lines + [last])[1..] == lines[1..] + [last];
      PayloadAppend(lines[1..], last);
      AppendAssoc(Terminate(lines[0]), Payload(lines[1..]), Terminate(last));
    }
  }

  /** The payload is the newline-terminated file of the stripped lines. */
  lemma {:induction false} PayloadIsTerminated(lines: seq<seq<byte>>)
    ensures Payload(lines) == Terminated(StripAll(lines))
    decreases |lines|
  {
    if |lines| > 0 {
      TerminateStrip(lines[0]);
      PayloadIsTerminated(lines[1..]);
      assert StripAll(lines)[1..] == StripAll(lines[1..]);
    }
  }

  /** `writeLines`: an empty vector writes nothing. Otherwise the payload
      is sized (line bytes plus one per line lacking a final '\n'),
      assembled in one buffer, and handed to `fwrite` in one call. */
  method WriteLines(w: TextWriter, lines: seq<seq<byte>>) returns (res: Result<()>, w': TextWriter)
    ensures w'.path == w.path && w'.append == w.append
    ensures |lines| == 0 ==> res.Success? && w' == w
    ensures |lines| > 0 ==> w'.sink.calls == w.sink.calls + [Payload(lines)]
    ensures res.Success? ==> w'.sink.data == w.sink.data + Payload(lines)
    ensures res.Failure? ==> res.error == IOException(WriteError, w.path, "Failed to write lines to file.")
    ensures res.Failure? ==> ChunkedIO.StoppedShort(w.sink.data, w'.sink.data, Payload(lines))
  {
    if |lines| == 0 {
      return Success(()), w;
    }
    var totalSize := 0;
    var missingNewlines := 0;
    var k := 0;
    while k < |lines|
      invariant k <= |lines|
      invariant totalSize + missingNewlines == |Payload(lines[..k])|
    {
      assert lines[..k + 1] == lines[..k] + [lines[k]];
      PayloadAppend(lines[..k], lines[k]);
      TerminateStrip(lines[k]);
      totalSize := totalSize + |lines[k]|;
      if MissingNewline(lines[k]) {
        missingNewlines := missingNewlines + 1;
      }
      k := k + 1;
    }
    assert lines[..k] == lines;
    totalSize := totalSize + missingNewlines;
    var buffer := Assemble(lines, totalSize);
    var written, sink' := Fwrite(w.sink, buffer);
    w' := w.(sink := sink');
    if written != totalSize {
      return Failure(IOException(WriteError, w.path, "Failed to write lines to file.")), w';
    }
    assert buffer[..written] == buffer;
    res := Success(());
  }

  /** `memcpy(buffer + ptr, src, |src|)`: `src` overwrites the bytes at `ptr`. */
  function Memcpy(buffer: seq<byte>, ptr: nat, src: seq<byte>): (b: seq<byte>)
    requires ptr + |src| <= |buffer|
    ensures |b| == |buffer|
    ensures b[..ptr + |src|] == buffer[..ptr] + src
    ensures b[ptr + |src|..] == buffer[ptr + |src|..]
  {
    var b := buffer[..ptr] + src + buffer[ptr + |src|..];
    assert b[..ptr + |src|] == buffer[..ptr] + src;
    assert b[ptr + |src|..] == buffer[ptr + |src|..];
    b
  }

  /** The fill loop of `writeLines`: into a buffer of the computed size,
      copy each line at `ptr`, then a '\n' where one is missing. */
  method Assemble(lines: seq<seq<byte>>, totalSize: nat) returns (buffer: seq<byte>)
    requires totalSize == |Payload(lines)|
    ensures buffer == Payload(lines)
  {
    buffer := seq(totalSize, _ => 0);
    var ptr := 0;
    var k := 0;
    while k < |lines|
      invariant k <= |lines| && |buffer| == totalSize
      invariant ptr == |Payload(lines[..k])| <= totalSize
      invariant buffer[..ptr] == Payload(lines[..k])
    {
      assert lines[..k + 1] == lines[..k] + [lines[k]];
      PayloadAppend(lines[..k], lines[k]);
      PayloadPrefix(lines, k + 1);
      buffer, ptr := CopyLine(buffer, ptr, lines[k]);
      k := k + 1;
    }
    assert lines[..k] == lines;
    assert buffer[..ptr] == buffer;
  }

  /** One pass of the fill loop: the line's bytes at `ptr`, then a '\n' if
      it does not end with one; `ptr` moves past what was copied. */
  method CopyLine(buffer: seq<byte>, ptr: nat, line: seq<byte>) returns (b: seq<byte>, ptr': nat)
    requires ptr + |Terminate(line)| <= |buffer|
    ensures |b| == |buffer| && ptr' == ptr + |Terminate(line)|
    ensures b[..ptr'] == buffer[..ptr] + Terminate(line)
  {
    TerminateStrip(line);
    b, ptr' := buffer, ptr;
    var len := |line|;
    if len > 0 {
      b := Memcpy(b, ptr', line);
      ptr' := ptr' + len;
    }
    if MissingNewline(line) {
      b := Memcpy(b, ptr', [Newline]);
      ptr' := ptr' + 1;
    }
  }

  /** The payload of a prefix of the lines is no longer than the whole. */
  lemma {:induction false} PayloadPrefix(lines: seq<seq<byte>>, k: nat)
    requires k <= |lines|
    ensures |Payload(lines[..k])| <= |Payload(lines)|
    decreases |lines| - k
  {
    if k < |lines| {
      assert lines[..k + 1] == lines[..k] + [lines[k]];
      PayloadAppend(lines[..k], lines[k]);
      PayloadPrefix(lines, k + 1);
    } else {
      assert lines[..k] == lines;
    }
  }
}
