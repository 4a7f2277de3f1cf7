/** `TextReader`: a buffered line reader over an input handle.

    The reader owns a buffer of fixed capacity; `cursor` is the next unread
    position in it and `bufferEnd` the end of the valid bytes. `readLine`
    refills the buffer only once it is drained, scans for '\n', and stitches
    together lines that span refills. The library allocates 1 MiB
    (`BufferSize`); here the capacity is any positive number, so that lines
    longer than the buffer and lines crossing a refill are covered. */
module TextReading {
  import opened Bytes
  import opened Errors
  import opened Streams
  import ChunkedIO

  /** The capacity the library allocates: 1 << 20 bytes. */
  const BufferSize: nat := 0x10_0000

  datatype TextReader = TextReader(path: string, stream: Stream, buffer: seq<byte>, cursor: nat, bufferEnd: nat) {

    /** `0 <= cursor <= bufferEnd <= capacity`. */
    predicate Valid() {
      && stream.Valid()
      && 1 <= |buffer|
      && cursor <= bufferEnd <= |buffer|
    }

    /** The buffered bytes not yet returned. */
    function Window(): seq<byte>
      requires Valid()
    {
      buffer[cursor..bufferEnd]
    }

    /** The same reader with `cursor` moved within the window. */
    function At(c: nat): (r': TextReader)
      requires Valid() && c <= bufferEnd
      ensures r'.Valid() && r'.cursor == c
      ensures r'.path == path && r'.stream == stream && r'.buffer == buffer && r'.bufferEnd == bufferEnd
    {
      this.(cursor := c)
    }

    /** Every byte of the file this reader has not yet returned, buffered or not. */
    function Pending(): seq<byte>
      requires Valid()
    {
      Window() + stream.Unread()
    }
  }

  /** Both readers stand for the same file, buffer capacity and device. */
  predicate SameFile(r: TextReader, r': TextReader) {
    && r'.path == r.path
    && r'.stream.content == r.stream.content
    && r'.stream.err == r.stream.err
    && |r'.buffer| == |r.buffer|
  }

  /** The `TextReader` constructor: `fopen(path, "r")`; on failure the errno
      picks the category (see `OpenErrorCode`). A new reader has an empty
      buffer window and the whole file pending. */
  function Open(path: string, outcome: FopenOutcome, capacity: nat): (r: Result<TextReader>)
    requires 1 <= capacity
    ensures r.Failure? <==> outcome.OpenFailed?
    ensures r.Failure? ==> r.error == IOException(OpenErrorCode(outcome.errno), path, "")
    ensures r.Success? ==> && r.value.Valid() && r.value.path == path
                           && |r.value.buffer| == capacity
                           && r.value.Pending() == outcome.content
                           && r.value.cursor == r.value.bufferEnd == 0
                           && !r.value.stream.eof && !r.value.stream.err
  {
    match outcome
    case OpenFailed(errno) => Failure(IOException(OpenErrorCode(errno), path, ""))
    case Opened(content) => Success(TextReader(path, OpenStream(content), seq(capacity, _ => 0), 0, 0))
  }

  datatype Refilled = Refilled(bytesRead: nat, reader: TextReader)

  /** The refill at the top of the `readLine` loop: move the `leftover`
      unread bytes to the front of the buffer, read into the rest, and reset
      `cursor`. It only runs on a drained buffer, so `leftover` is zero and
      the window afterwards is exactly the bytes just read. */
  function Refill(r: TextReader): (f: Refilled)
    requires r.Valid() && r.cursor >= r.bufferEnd
    ensures f.reader.Valid() && SameFile(r, f.reader)
    ensures f.reader.cursor == 0 && f.reader.bufferEnd == f.bytesRead
    ensures f.reader.Pending() == r.Pending()
    ensures f.bytesRead == 0 <==> r.stream.Unread() == []
    ensures f.reader.stream.eof == (r.stream.eof || f.bytesRead < |r.buffer|)
  {
    var leftover := r.bufferEnd - r.cursor;
    var got := Fread(r.stream, |r.buffer| - leftover);
    var buffer' := r.buffer[r.cursor..r.bufferEnd] + got.chunk + r.buffer[leftover + |got.chunk|..];
    assert buffer'[..|got.chunk|] == got.chunk;
    Refilled(|got.chunk|, r.(stream := got.stream, buffer := buffer', cursor := 0, bufferEnd := leftover + |got.chunk|))
  }

  /** The scan `while (cursor < bufferEnd && buffer[cursor] != '\n') cursor++`:
      the first newline at or after `cursor`, or `bufferEnd` if there is none. */
  function ScanEnd(buffer: seq<byte>, cursor: nat, bufferEnd: nat): (c: nat)
    requires cursor <= bufferEnd <= |buffer|
    ensures cursor <= c <= bufferEnd
    ensures forall j :: cursor <= j < c ==> buffer[j] != Newline
    ensures c < bufferEnd ==> buffer[c] == Newline
    decreases bufferEnd - cursor
  {
    if cursor < bufferEnd && buffer[cursor] != Newline then ScanEnd(buffer, cursor + 1, bufferEnd) else cursor
  }

  /** How the `readLine` loop ended. */
  datatype Exit = NewlineFound | EndOfData | ReadFailed

  datatype LoopEnd = LoopEnd(line: seq<byte>, anyDataRead: bool, exit: Exit, reader: TextReader)

  /** Bytes still to be delivered: the loop's termination measure. */
  function Remaining(r: TextReader): nat
    requires r.Valid()
  {
    |r.stream.content| - r.stream.pos + (r.bufferEnd - r.cursor)
  }

  /** What one run of the `readLine` loop delivers from the pending bytes
      `P`, with `line` accumulated so far: the rest of the current line is
      appended, and the reader ends just past its newline (or at end of
      data). It throws exactly when there is no newline and the error
      indicator `err` is set. */
  predicate Delivered(P: seq<byte>, err: bool, line: seq<byte>, x: LoopEnd) {
    var i := LineLength(P);
    && x.reader.Valid()
    && x.line == line + P[..i]
    && x.reader.Pending() == AfterLine(P)
    && (x.exit == NewlineFound <==> i < |P|)
    && (x.exit == ReadFailed <==> i == |P| && err)
  }

  /** What one run of the loop does to the handle and buffer of `r`. When
      the newline is already in the window, no refill happens and the handle
      is untouched; otherwise the end-of-file indicator ends up set exactly
      when it was set before or the last refill came back short of a full
      buffer. */
  predicate HandleAfter(r: TextReader, x: LoopEnd)
    requires r.Valid()
  {
    var P := r.Pending();
    var i := LineLength(P);
    && x.reader.Valid() && SameFile(r, x.reader)
    && (i == |P| ==> x.reader.bufferEnd == 0)
    && (i < |r.Window()| ==> x.reader.stream == r.stream && x.reader.bufferEnd == r.bufferEnd)
    && (|r.Window()| <= i ==> x.reader.stream.eof == (r.stream.eof || x.reader.bufferEnd < |r.buffer|))
    && (|r.Window()| <= i ==> x.reader.bufferEnd <= |r.stream.Unread()|)
  }

  predicate LoopDelivers(r: TextReader, line: seq<byte>, x: LoopEnd)
    requires r.Valid()
  {
    Delivered(r.Pending(), r.stream.err, line, x) && HandleAfter(r, x)
  }

  /** The `while (true)` loop of `readLine`, from its top: refill when the
      buffer is drained; stop on a zero-byte refill (throwing if the error
      indicator is set); otherwise scan. */
  function LineLoop(r: TextReader, line: seq<byte>, anyDataRead: bool): (x: LoopEnd)
    requires r.Valid()
    requires anyDataRead == (|line| > 0)
    ensures LoopDelivers(r, line, x)
    ensures x.anyDataRead == (|x.line| > 0)
    decreases Remaining(r), 1
  {
    if r.cursor >= r.bufferEnd then
      var f := Refill(r);
      if f.bytesRead == 0 then
        var x := LoopEnd(line, anyDataRead, if f.reader.stream.err then ReadFailed else EndOfData, f.reader);
        EmptyRefillDelivers(r, f, line, x);
        x
      else
        var x := ScanStep(f.reader, line, anyDataRead);
        RefillDelivers(r, f, line, x);
        x
    else
      ScanStep(r, line, anyDataRead)
  }

  /** A refill that reads nothing ends the loop at end of data. */
  lemma EmptyRefillDelivers(r: TextReader, f: Refilled, line: seq<byte>, x: LoopEnd)
    requires r.Valid() && r.cursor >= r.bufferEnd && f == Refill(r) && f.bytesRead == 0
    requires x == LoopEnd(line, x.anyDataRead, if f.reader.stream.err then ReadFailed else EndOfData, f.reader)
    ensures LoopDelivers(r, line, x)
  {
    assert r.Pending() == [];
  }

  /** A refill that reads something leaves the pending bytes as they were,
      so what the scan delivers from the refilled reader is what the loop
      delivers from `r`. */
  lemma RefillDelivers(r: TextReader, f: Refilled, line: seq<byte>, x: LoopEnd)
    requires r.Valid() && r.cursor >= r.bufferEnd && f == Refill(r) && f.bytesRead > 0
    requires LoopDelivers(f.reader, line, x)
    ensures LoopDelivers(r, line, x)
  {
    var P := r.Pending();
    var i := LineLength(P);
    assert f.reader.Pending() == P;
    assert |r.Window()| == 0;
    if f.bytesRead < |r.buffer| {
      assert f.reader.stream.Unread() == [];
      assert P == f.reader.Window();
    }
  }

  /** The second half of the loop body: scan the window for '\n', append
      what was skipped to the line, and either step past the newline and
      stop, or go round again with the buffer drained. */
  function ScanStep(r: TextReader, line: seq<byte>, anyDataRead: bool): (x: LoopEnd)
    requires r.Valid() && r.cursor < r.bufferEnd
    requires anyDataRead == (|line| > 0)
    ensures LoopDelivers(r, line, x)
    ensures x.anyDataRead == (|x.line| > 0)
    decreases Remaining(r), 0
  {
    var start := r.cursor;
    var c := ScanEnd(r.buffer, start, r.bufferEnd);
    var line' := if c > start then line + r.buffer[start..c] else line;
    var any' := if c > start then true else anyDataRead;
    if c < r.bufferEnd && r.buffer[c] == Newline then
      var x := LoopEnd(line', any', NewlineFound, r.At(c + 1));
      FoundDelivers(r, c, line, x);
      x
    else
      assert c == r.bufferEnd && line' == line + r.Window();
      var x := LineLoop(r.At(c), line', any');
      DrainedDelivers(r, line, x);
      x
  }

  /** The scan stopped at a newline inside the window: the current line
      ends there, and what follows it is still pending. */
  lemma FoundDelivers(r: TextReader, c: nat, line: seq<byte>, x: LoopEnd)
    requires r.Valid() && r.cursor <= c < r.bufferEnd
    requires forall j :: r.cursor <= j < c ==> r.buffer[j] != Newline
    requires r.buffer[c] == Newline
    requires x.reader == r.At(c + 1) && x.exit == NewlineFound
    requires x.line == if c > r.cursor then line + r.buffer[r.cursor..c] else line
    ensures LoopDelivers(r, line, x)
  {
    var a := r.buffer[r.cursor..c];
    var b := r.buffer[c..r.bufferEnd] + r.stream.Unread();
    FoundSplit(r, c);
    assert x.line == line + a by {
      if c == r.cursor {
        assert line + a == line;
      }
    }
    DeliveredAtNewline(a, b, r.stream.err, line, x);
  }

  /** Where the scan stopped at a newline, the pending bytes split into the
      newline-free bytes before it and the rest, which starts with it. */
  lemma FoundSplit(r: TextReader, c: nat)
    requires r.Valid() && r.cursor <= c < r.bufferEnd
    requires forall j :: r.cursor <= j < c ==> r.buffer[j] != Newline
    requires r.buffer[c] == Newline
    ensures var a := r.buffer[r.cursor..c]; var b := r.buffer[c..r.bufferEnd] + r.stream.Unread();
      && r.Pending() == a + b
      && NewlineFree(a)
      && |b| > 0 && b[0] == Newline
      && r.At(c + 1).Pending() == b[1..]
  {
    var a := r.buffer[r.cursor..c];
    var w := r.buffer[c..r.bufferEnd];
    SliceSplit(r.buffer, r.cursor, c, r.bufferEnd);
    AppendAssoc(a, w, r.stream.Unread());
    assert NewlineFree(a) by {
      forall j | 0 <= j < |a| ensures a[j] != Newline {
        assert a[j] == r.buffer[r.cursor + j];
      }
    }
    DropFirst(w, r.stream.Unread());
    assert w[1..] == r.buffer[c + 1..r.bufferEnd];
  }

  /** A newline after newline-free bytes ends the current line there. */
  lemma DeliveredAtNewline(a: seq<byte>, b: seq<byte>, err: bool, line: seq<byte>, x: LoopEnd)
    requires NewlineFree(a) && |b| > 0 && b[0] == Newline
    requires x.reader.Valid() && x.line == line + a && x.reader.Pending() == b[1..] && x.exit == NewlineFound
    ensures Delivered(a + b, err, line, x)
    ensures LineLength(a + b) == |a|
  {
    LineAfterNewlineFree(a, b);
    LineAtNewline(b);
  }

  /** The scan ran to the end of the window without a newline: the window
      is the start of the current line, which goes on in the unread bytes. */
  lemma DrainedDelivers(r: TextReader, line: seq<byte>, x: LoopEnd)
    requires r.Valid() && r.cursor < r.bufferEnd
    requires forall j :: r.cursor <= j < r.bufferEnd ==> r.buffer[j] != Newline
    requires LoopDelivers(r.At(r.bufferEnd), line + r.Window(), x)
    ensures LoopDelivers(r, line, x)
  {
    var a := r.Window();
    var Q := r.At(r.bufferEnd).Pending();
    assert r.Pending() == a + Q;
    assert NewlineFree(a) by {
      forall j | 0 <= j < |a| ensures a[j] != Newline {
        assert a[j] == r.buffer[r.cursor + j];
      }
    }
    DeliveredAfterNewlineFree(a, Q, r.stream.err, line, x);
    LineAfterNewlineFree(a, Q);
  }

  /** Bytes without a newline in front of the pending ones just extend the
      current line. */
  lemma DeliveredAfterNewlineFree(a: seq<byte>, Q: seq<byte>, err: bool, line: seq<byte>, x: LoopEnd)
    requires NewlineFree(a) && Delivered(Q, err, line + a, x)
    ensures Delivered(a + Q, err, line, x)
  {
    LineAfterNewlineFree(a, Q);
    AppendAssoc(line, a, Q[..LineLength(Q)]);
  }

  datatype LineRead = LineRead(result: Result<seq<byte>>, reader: TextReader)

  /** `readLine`: the pending bytes up to the next '\n', which is consumed
      but not returned. At end of data it returns what remains (the last
      line of a file without a final newline), or "" when nothing remains;
      it throws only when a zero-byte refill meets the error indicator. */
  function ReadLine(r: TextReader): (res: LineRead)
    requires r.Valid()
    ensures res.reader.Valid() && SameFile(r, res.reader)
    ensures var P := r.Pending(); var i := LineLength(P);
      && (res.result.Failure? <==> i == |P| && r.stream.err)
      && (res.result.Success? ==> res.result.value == P[..i])
      && res.reader.Pending() == AfterLine(P)
      && (i < |r.Window()| ==> res.reader.stream == r.stream)
      && (|r.Window()| <= i ==> res.reader.stream.eof == (r.stream.eof || res.reader.bufferEnd < |r.buffer|))
      && (|r.Window()| <= i ==> res.reader.bufferEnd <= |r.stream.Unread()|)
    ensures res.result.Failure? ==> res.result.error == ReadFailure(r.path)
    ensures r.Pending() == [] ==> res.reader.stream.eof && res.reader.Pending() == []
  {
    var x := LineLoop(r, [], false);
    LoopOutcome(r.Pending(), r.stream.err, x);
    if x.exit == ReadFailed then LineRead(Failure(ReadFailure(r.path)), x.reader)
    else if !x.anyDataRead && x.reader.stream.eof then LineRead(Success([]), x.reader)
    else LineRead(Success(x.line), x.reader)
  }

  /** `readLine` consumes exactly the line it returns and the '\n' after
      it, or everything when no '\n' is left; the line never holds one. */
  lemma ReadLineConsumes(r: TextReader)
    requires r.Valid()
    ensures var res := ReadLine(r); var P := r.Pending();
      res.result.Success? ==>
        && NewlineFree(res.result.value)
        && (LineLength(P) < |P| ==> P == res.result.value + [Newline] + res.reader.Pending())
        && (LineLength(P) == |P| ==> res.reader.Pending() == [])
  {
    LineSplit(r.Pending());
  }

  /** What a whole run of the loop, started with nothing accumulated,
      delivers from the pending bytes `P`. */
  lemma LoopOutcome(P: seq<byte>, err: bool, x: LoopEnd)
    requires Delivered(P, err, [], x) && x.anyDataRead == (|x.line| > 0)
    ensures x.line == P[..LineLength(P)]
    ensures x.exit == EndOfData && !x.anyDataRead <==> P == [] && !err
    ensures P == [] ==> x.line == [] && x.reader.Pending() == []
  {
    assert x.line == P[..LineLength(P)];
  }

  /** `static_cast<size_t>(numLines)`: a negative count wraps to a huge limit. */
  function SizeT(n: int): nat {
    n % 0x1_0000_0000_0000_0000
  }

  /** The `readLines` loop condition. */
  predicate BelowLimit(numLines: int, count: nat) {
    numLines == 0 || count < SizeT(numLines)
  }

  datatype LinesRead = LinesRead(result: Result<seq<seq<byte>>>, reader: TextReader)

  /** `v` is `lines` followed by the first few of the lines `L`, in order. */
  predicate Collected(L: seq<seq<byte>>, lines: seq<seq<byte>>, v: seq<seq<byte>>) {
    && |lines| <= |v| <= |lines| + |L|
    && v == lines + L[..|v| - |lines|]
  }

  /** If `v` stopped short of `L` while the limit still allowed more, the
      next line of `L` is an empty one. */
  predicate StoppedAtEmpty(L: seq<seq<byte>>, lines: seq<seq<byte>>, v: seq<seq<byte>>, numLines: int) {
    |lines| <= |v| < |lines| + |L| && BelowLimit(numLines, |v|) ==> L[|v| - |lines|] == []
  }

  /** The `readLines` loop, with `lines` collected so far. It stops before
      the limit only when `readLine` returns "" while the end-of-file
      indicator is set. */
  function ReadLinesFrom(r: TextReader, numLines: int, lines: seq<seq<byte>>): (res: LinesRead)
    requires r.Valid()
    ensures res.reader.Valid() && SameFile(r, res.reader)
    ensures res.result.Failure? ==> r.stream.err && res.result.error == ReadFailure(r.path)
    ensures !r.stream.err ==> res.result.Success?
    decreases |r.Pending()|
  {
    if BelowLimit(numLines, |lines|) then
      var step := ReadLine(r);
      match step.result
      case Failure(e) => LinesRead(Failure(e), step.reader)
      case Success(line) =>
        if line == [] && step.reader.stream.eof then LinesRead(Success(lines), step.reader)
        else ReadLinesFrom(step.reader, numLines, lines + [line])
    else
      LinesRead(Success(lines), r)
  }

  /** The `readLines` loop collects the pending lines in order, stops
      before the limit only at an empty line, and never passes the limit. */
  lemma {:induction false} ReadLinesFromCollects(r: TextReader, numLines: int, lines: seq<seq<byte>>)
    requires r.Valid()
    ensures var res := ReadLinesFrom(r, numLines, lines); res.result.Success? ==>
      && Collected(Lines(r.Pending()), lines, res.result.value)
      && StoppedAtEmpty(Lines(r.Pending()), lines, res.result.value, numLines)
      && (numLines != 0 && |lines| <= SizeT(numLines) ==> |res.result.value| <= SizeT(numLines))
    decreases |r.Pending()|
  {
    var res := ReadLinesFrom(r, numLines, lines);
    if BelowLimit(numLines, |lines|) {
      var step := ReadLine(r);
      if step.result.Success? {
        var line := step.result.value;
        if line == [] && step.reader.stream.eof {
          StopStep(r.Pending(), lines, numLines);
        } else {
          ReadLinesFromCollects(step.reader, numLines, lines + [line]);
          if res.result.Success? {
            LinesStep(r.Pending(), lines, numLines, res.result.value);
          }
        }
      }
    } else {
      assert Collected(Lines(r.Pending()), lines, lines);
    }
  }

  /** The lines of non-empty content: its first line, then the lines of
      what follows that line's newline. */
  lemma LinesUnfold(P: seq<byte>)
    requires |P| > 0
    ensures Lines(P) == [P[..LineLength(P)]] + Lines(AfterLine(P))
  {
  }

  /** Stopping on the empty first line of `P` collects nothing from it and
      meets `StoppedAtEmpty`. */
  lemma StopStep(P: seq<byte>, lines: seq<seq<byte>>, numLines: int)
    requires LineLength(P) == 0
    ensures Collected(Lines(P), lines, lines) && StoppedAtEmpty(Lines(P), lines, lines, numLines)
  {
    if |P| > 0 {
      LinesUnfold(P);
    }
  }

  /** One line read off the front of `P` moves it from the pending lines
      into the collected ones. */
  lemma CollectStep(P: seq<byte>, lines: seq<seq<byte>>, v: seq<seq<byte>>)
    requires |P| > 0
    requires Collected(Lines(AfterLine(P)), lines + [P[..LineLength(P)]], v)
    ensures Collected(Lines(P), lines, v)
    ensures |Lines(P)| == 1 + |Lines(AfterLine(P))|
  {
    LinesUnfold(P);
    ConsCollected(Lines(AfterLine(P)), P[..LineLength(P)], lines, v, 0);
  }

  /** The same step also keeps `StoppedAtEmpty`. */
  lemma LinesStep(P: seq<byte>, lines: seq<seq<byte>>, numLines: int, v: seq<seq<byte>>)
    requires |P| > 0
    requires var line := P[..LineLength(P)];
      Collected(Lines(AfterLine(P)), lines + [line], v) && StoppedAtEmpty(Lines(AfterLine(P)), lines + [line], v, numLines)
    ensures Collected(Lines(P), lines, v) && StoppedAtEmpty(Lines(P), lines, v, numLines)
  {
    LinesUnfold(P);
    ConsCollected(Lines(AfterLine(P)), P[..LineLength(P)], lines, v, numLines);
  }

  /** Moving the head of a list from the remaining part to the collected
      part keeps `Collected` and `StoppedAtEmpty`. */
  lemma ConsCollected(L': seq<seq<byte>>, line: seq<byte>, lines: seq<seq<byte>>, v: seq<seq<byte>>, numLines: int)
    requires Collected(L', lines + [line], v)
    ensures Collected([line] + L', lines, v)
    ensures StoppedAtEmpty(L', lines + [line], v, numLines) ==> StoppedAtEmpty([line] + L', lines, v, numLines)
  {
    var m := |v| - |lines|;
    assert |lines + [line]| == |lines| + 1;
    assert ([line] + L')[..m] == [line] + L'[..m - 1];
    assert lines + [line] + L'[..m - 1] == lines + ([line] + L'[..m - 1]);
    if m < 1 + |L'| {
      assert ([line] + L')[m] == L'[m - 1];
    }
  }

  /** `readLines(numLines)`: up to `numLines` lines (all when it is 0). */
  function ReadLines(r: TextReader, numLines: int): (res: LinesRead)
    requires r.Valid()
    ensures res.reader.Valid() && SameFile(r, res.reader)
    ensures res.result.Failure? ==> r.stream.err && res.result.error == ReadFailure(r.path)
    ensures !r.stream.err ==> res.result.Success?
    ensures var L := Lines(r.Pending()); res.result.Success? ==>
      && |res.result.value| <= |L|
      && res.result.value == L[..|res.result.value|]
      && (numLines != 0 ==> |res.result.value| <= SizeT(numLines))
      && (|res.result.value| < |L| && BelowLimit(numLines, |res.result.value|) ==> L[|res.result.value|] == [])
  {
    var res := ReadLinesFrom(r, numLines, []);
    ReadLinesFromCollects(r, numLines, []);
    if res.result.Success? then
      CollectedFromNothing(Lines(r.Pending()), res.result.value, numLines);
      res
    else
      res
  }

  /** What was collected starting from nothing is a prefix of `L`. */
  lemma CollectedFromNothing(L: seq<seq<byte>>, v: seq<seq<byte>>, numLines: int)
    requires Collected(L, [], v)
    ensures |v| <= |L| && v == L[..|v|]
    ensures StoppedAtEmpty(L, [], v, numLines) && |v| < |L| && BelowLimit(numLines, |v|) ==> L[|v|] == []
  {
    assert [] + L[..|v|] == L[..|v|];
  }

  datatype NextRead = NextRead(result: Result<Option<seq<byte>>>, reader: TextReader)

  /** `readLine` with an explicit end-of-data signal: `None` when nothing is
      pending, so that an empty line is never mistaken for the end of the
      file. Otherwise the same loop and the same line as `ReadLine`. */
  function NextLine(r: TextReader): (res: NextRead)
    requires r.Valid()
    ensures res.reader.Valid() && SameFile(r, res.reader)
    ensures var P := r.Pending(); var i := LineLength(P);
      && (res.result.Failure? <==> i == |P| && r.stream.err)
      && (res.result == Success(None) <==> P == [] && !r.stream.err)
      && (res.result.Success? && res.result.value.Some? ==> res.result.value.value == P[..i])
      && res.reader.Pending() == AfterLine(P)
    ensures res.result.Failure? ==> res.result.error == ReadFailure(r.path)
  {
    var x := LineLoop(r, [], false);
    LoopOutcome(r.Pending(), r.stream.err, x);
    if x.exit == ReadFailed then NextRead(Failure(ReadFailure(r.path)), x.reader)
    else if x.exit == EndOfData && !x.anyDataRead then NextRead(Success(None), x.reader)
    else NextRead(Success(Some(x.line)), x.reader)
  }

  /** The `readLines` loop as evidently intended: it stops at the limit or
      at end of data, and nowhere else. */
  function ReadLinesUntilEnd(r: TextReader, numLines: int, lines: seq<seq<byte>>): (res: LinesRead)
    requires r.Valid()
    ensures res.reader.Valid() && SameFile(r, res.reader)
    ensures res.result.Failure? ==> r.stream.err && res.result.error == ReadFailure(r.path)
    ensures !r.stream.err ==> res.result.Success?
    decreases |r.Pending()|
  {
    if BelowLimit(numLines, |lines|) then
      var step := NextLine(r);
      match step.result
      case Failure(e) => LinesRead(Failure(e), step.reader)
      case Success(None) => LinesRead(Success(lines), step.reader)
      case Success(Some(line)) => ReadLinesUntilEnd(step.reader, numLines, lines + [line])
    else
      LinesRead(Success(lines), r)
  }

  /** The corrected loop collects the pending lines in order and stops only
      when they run out or the limit is reached. */
  lemma {:induction false} ReadLinesUntilEndCollects(r: TextReader, numLines: int, lines: seq<seq<byte>>)
    requires r.Valid()
    ensures var res := ReadLinesUntilEnd(r, numLines, lines); res.result.Success? ==>
      && Collected(Lines(r.Pending()), lines, res.result.value)
      && (|res.result.value| == |lines| + |Lines(r.Pending())| || !BelowLimit(numLines, |res.result.value|))
      && (numLines != 0 && |lines| <= SizeT(numLines) ==> |res.result.value| <= SizeT(numLines))
    decreases |r.Pending()|
  {
    var res := ReadLinesUntilEnd(r, numLines, lines);
    if BelowLimit(numLines, |lines|) {
      var step := NextLine(r);
      if step.result.Success? {
        if step.result.value.Some? {
          var line := step.result.value.value;
          ReadLinesUntilEndCollects(step.reader, numLines, lines + [line]);
          assert res == ReadLinesUntilEnd(step.reader, numLines, lines + [line]);
          if res.result.Success? {
            UntilEndStep(r.Pending(), lines, numLines, res.result.value);
          }
        } else {
          assert Collected(Lines(r.Pending()), lines, lines);
        }
      }
    } else {
      assert Collected(Lines(r.Pending()), lines, lines);
    }
  }

  /** One step of the corrected loop, on the pending bytes alone. */
  lemma UntilEndStep(P: seq<byte>, lines: seq<seq<byte>>, numLines: int, v: seq<seq<byte>>)
    requires |P| > 0 && BelowLimit(numLines, |lines|)
    requires var line := P[..LineLength(P)]; var L' := Lines(AfterLine(P));
      && Collected(L', lines + [line], v)
      && (|v| == |lines + [line]| + |L'| || !BelowLimit(numLines, |v|))
      && (numLines != 0 && |lines + [line]| <= SizeT(numLines) ==> |v| <= SizeT(numLines))
    ensures Collected(Lines(P), lines, v)
    ensures |v| == |lines| + |Lines(P)| || !BelowLimit(numLines, |v|)
    ensures numLines != 0 && |lines| <= SizeT(numLines) ==> |v| <= SizeT(numLines)
  {
    CollectStep(P, lines, v);
  }

  /** Corrected `readLines(numLines)`: exactly the first `numLines` lines of
      what is pending (all of them when `numLines` is 0, or fewer when the
      file has fewer). */
  function ReadLinesCorrected(r: TextReader, numLines: int): (res: LinesRead)
    requires r.Valid()
    ensures res.reader.Valid() && SameFile(r, res.reader)
    ensures res.result.Failure? ==> r.stream.err && res.result.error == ReadFailure(r.path)
    ensures !r.stream.err ==> res.result.Success?
    ensures var L := Lines(r.Pending()); res.result.Success? ==>
      && |res.result.value| <= |L|
      && res.result.value == L[..|res.result.value|]
      && (numLines == 0 ==> res.result.value == L)
      && (numLines != 0 ==> |res.result.value| == if |L| <= SizeT(numLines) then |L| else SizeT(numLines))
  {
    var res := ReadLinesUntilEnd(r, numLines, []);
    ReadLinesUntilEndCollects(r, numLines, []);
    if res.result.Success? then
      CollectedFromNothing(Lines(r.Pending()), res.result.value, numLines);
      CollectedAll(Lines(r.Pending()), res.result.value, numLines);
      res
    else
      res
  }

  /** A prefix of `L` that stopped only at the end of `L` or at the limit. */
  lemma CollectedAll(L: seq<seq<byte>>, v: seq<seq<byte>>, numLines: int)
    requires |v| <= |L| && v == L[..|v|]
    requires |v| == |L| || !BelowLimit(numLines, |v|)
    requires numLines != 0 ==> |v| <= SizeT(numLines)
    ensures v == L[..|v|]
    ensures numLines == 0 ==> v == L
    ensures numLines != 0 ==> |v| == if |L| <= SizeT(numLines) then |L| else SizeT(numLines)
  {
  }

  /** `readString`: every byte the handle has not yet delivered, read in
      buffer-sized chunks; a read error if the device reports one. It reads
      from the handle only: bytes already in the line buffer are not part
      of the result, and `cursor`/`bufferEnd` are left as they were. */
  method ReadString(r: TextReader) returns (res: Result<seq<byte>>, r': TextReader)
    requires r.Valid()
    ensures r'.path == r.path && r'.stream.Valid() && r'.stream.Unread() == [] && |r'.buffer| == |r.buffer|
    ensures r'.cursor == r.cursor && r'.bufferEnd == r.bufferEnd
    ensures res.Success? <==> !r.stream.err
    ensures res.Success? ==> res.value == r.stream.Unread()
    ensures res.Failure? ==> res.error == ReadFailure(r.path)
  {
    var s', buffer';
    res, s', buffer' := ChunkedIO.ReadAll(r.stream, r.buffer, r.path);
    r' := r.(stream := s', buffer := buffer');
  }
}
