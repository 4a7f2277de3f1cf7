/** What a `TextWriter` writes, read back by a `TextReader`: the round trip
    of `writeLines` and `readLines`, the case where the library's
    `readLines` loses lines, and the last line of a file without a final
    newline. */
module RoundTrip {
  import opened Bytes
  import opened Errors
  import opened Streams
  import opened TextWriting
  import opened TextReading

  /** Every line is free of '\n' except, perhaps, for a final one. */
  predicate WritableLines(L: seq<seq<byte>>) {
    forall k :: 0 <= k < |L| ==> NewlineFree(Strip(L[k]))
  }

  /** Newline-free lines are their own stripped form. */
  lemma StripAllNewlineFree(L: seq<seq<byte>>)
    requires forall k :: 0 <= k < |L| ==> NewlineFree(L[k])
    ensures StripAll(L) == L
  {
    forall k | 0 <= k < |L| ensures StripAll(L)[k] == L[k] {
      var l := L[k];
      if |l| > 0 {
        assert l[|l| - 1] != Newline;
      }
    }
  }

  /** The lines of a `writeLines` payload are the written lines without
      their final '\n'. */
  lemma LinesOfPayload(L: seq<seq<byte>>)
    requires WritableLines(L)
    ensures Lines(Payload(L)) == StripAll(L)
  {
    PayloadIsTerminated(L);
    LinesOfTerminated(StripAll(L));
  }

  /** A reader opened on what `writeLines` wrote to a fresh file: it reads
      back the written lines without their own final '\n', whatever the
      buffer capacity and whether or not a line already ended with one, as
      long as no line is empty once stripped. */
  lemma WriteLinesReadLines(path: string, L: seq<seq<byte>>, capacity: nat)
    requires 1 <= capacity
    requires WritableLines(L)
    requires forall k :: 0 <= k < |L| ==> Strip(L[k]) != []
    ensures var r := TextReading.Open(path, Opened(Payload(L)), capacity);
      r.Success? && ReadLines(r.value, 0).result == Success(StripAll(L))
  {
    var r := TextReading.Open(path, Opened(Payload(L)), capacity).value;
    var S := StripAll(L);
    LinesOfPayload(L);
    assert Lines(r.Pending()) == S;
    var v := ReadLines(r, 0).result.value;
    assert v == S[..|S|] == S;
  }

  /** Lines that hold no '\n' at all come back exactly as written. */
  lemma WriteLinesReadLinesNewlineFree(path: string, L: seq<seq<byte>>, capacity: nat)
    requires 1 <= capacity
    requires forall k :: 0 <= k < |L| ==> L[k] != [] && NewlineFree(L[k])
    ensures var r := TextReading.Open(path, Opened(Payload(L)), capacity);
      r.Success? && ReadLines(r.value, 0).result == Success(L)
  {
    StripAllNewlineFree(L);
    WriteLinesReadLines(path, L, capacity);
  }

  /** With the corrected loop every written line comes back, empty ones
      included, and a line written with its own final '\n' comes back
      without it. */
  lemma WriteLinesReadLinesCorrected(path: string, L: seq<seq<byte>>, capacity: nat)
    requires 1 <= capacity
    requires WritableLines(L)
    ensures var r := TextReading.Open(path, Opened(Payload(L)), capacity);
      r.Success? && ReadLinesCorrected(r.value, 0).result == Success(StripAll(L))
  {
    LinesOfPayload(L);
  }

  /** The whole exchange through the library's operations: a writer on a
      new file, `writeLines`, a reader on the file's bytes, `readLines(0)`.
      When the write succeeds, the lines read are the lines written, each
      without its own final '\n'. */
  method WriteThenRead(path: string, L: seq<seq<byte>>, capacity: nat)
    returns (written: Result<()>, read: Result<seq<seq<byte>>>)
    requires 1 <= capacity
    requires WritableLines(L)
    requires forall k :: 0 <= k < |L| ==> Strip(L[k]) != []
    ensures written.Success? ==> read == Success(StripAll(L))
    ensures written.Failure? ==> written.error.code == WriteError
  {
    var w := TextWriting.Open(path, false, Opened([])).value;
    var w';
    written, w' := WriteLines(w, L);
    if written.Failure? {
      read := Success([]);
      return;
    }
    if |L| > 0 {
      assert w'.sink.data == Payload(L);
    } else {
      assert w'.sink.data == [] == Payload(L);
    }
    var r := TextReading.Open(path, Opened(w'.sink.data), capacity).value;
    WriteLinesReadLines(path, L, capacity);
    read := ReadLines(r, 0).result;
  }

  /** `writeLine` adds a '\n' even to a line that already ends with one, so
      what it writes splits into the stripped line and an empty line;
      `writeLines` adds none and what it writes splits into the stripped
      line alone. */
  lemma WriteLineKeepsOwnNewline(line: seq<byte>)
    requires |line| > 0 && line[|line| - 1] == Newline && NewlineFree(Strip(line))
    ensures Lines(line + [Newline]) == [Strip(line), []]
    ensures Lines(Payload([line])) == [Strip(line)]
  {
    WriteLineLines(line);
    assert WritableLines([line]);
    LinesOfPayload([line]);
    assert StripAll([line]) == [Strip(line)];
  }

  /** Read back with the corrected loop, such a line written by `writeLine`
      to a fresh file comes back as the stripped line and an empty line. */
  lemma WriteLineReadBackCorrected(path: string, line: seq<byte>, capacity: nat)
    requires 1 <= capacity
    requires |line| > 0 && line[|line| - 1] == Newline && NewlineFree(Strip(line))
    ensures var r := TextReading.Open(path, Opened(line + [Newline]), capacity);
      r.Success? && ReadLinesCorrected(r.value, 0).result == Success([Strip(line), []])
  {
    WriteLineLines(line);
  }

  lemma WriteLineLines(line: seq<byte>)
    requires |line| > 0 && line[|line| - 1] == Newline && NewlineFree(Strip(line))
    ensures Lines(line + [Newline]) == [Strip(line), []]
  {
    var s := Strip(line);
    TerminateStrip(line);
    assert !MissingNewline(line);
    TerminatedPair(s, []);
    var pair: seq<seq<byte>> := [s, []];
    assert line + [Newline] == Terminated(pair);
    assert NewlineFree(pair[0]) && NewlineFree(pair[1]);
    LinesOfTerminated(pair);
  }

  lemma TerminatedPair(a: seq<byte>, b: seq<byte>)
    ensures Terminated([a, b]) == a + [Newline] + (b + [Newline])
  {
    assert [a, b][1..] == [b];
    assert Terminated([b]) == b + [Newline] + [] by {
      assert [b][1..] == [];
    }
  }

  /** The payload of the lines "a", "" and "b". */
  const AEmptyB: seq<byte> := [97, 10, 10, 98, 10]

  lemma AEmptyBIsPayload()
    ensures AEmptyB == Payload([[97], [], [98]])
  {
    EmptyBIsPayload();
    assert Terminate([97]) == [97, 10];
    assert [[97], [], [98]][1..] == [[], [98]];
  }

  lemma EmptyBIsPayload()
    ensures Payload([[], [98]]) == [10, 98, 10]
  {
    assert Terminate([]) == [10];
    assert Terminate([98]) == [98, 10];
    assert [[98]][1..] == [];
    assert Payload([[98]]) == [98, 10];
    assert [[], [98]][1..] == [[98]];
  }

  /** `readLines(0)` on the file "a\n\nb\n" read through the library's 1 MiB
      buffer returns only "a": the first refill reads fewer bytes than the
      buffer holds, which sets the end-of-file indicator, and the empty
      second line then looks like the end of the file. The corrected loop
      returns all three lines. */
  lemma ReadLinesStopsAtEmptyLine(path: string)
    ensures var r := TextReading.Open(path, Opened(AEmptyB), BufferSize);
      && r.Success?
      && ReadLines(r.value, 0).result == Success([[97]])
      && ReadLinesCorrected(r.value, 0).result == Success([[97], [], [98]])
  {
    var r := TextReading.Open(path, Opened(AEmptyB), BufferSize).value;
    ReadLinesOfAEmptyB(r);
    CorrectedReadsAEmptyB(path);
  }

  /** The corrected loop reads "a", "" and "b" back from the same file. */
  lemma CorrectedReadsAEmptyB(path: string)
    ensures var r := TextReading.Open(path, Opened(AEmptyB), BufferSize);
      r.Success? && ReadLinesCorrected(r.value, 0).result == Success([[97], [], [98]])
  {
    var L: seq<seq<byte>> := [[97], [], [98]];
    AEmptyBIsPayload();
    StripAllNewlineFree(L);
    WriteLinesReadLinesCorrected(path, L, BufferSize);
  }

  /** The two `readLine` calls of the library's loop on "a\n\nb\n". */
  lemma ReadLinesOfAEmptyB(r: TextReader)
    requires r.Valid() && r.Pending() == AEmptyB && r.bufferEnd == 0
    requires !r.stream.eof && !r.stream.err && |r.buffer| == BufferSize
    ensures ReadLines(r, 0).result == Success([[97]])
  {
    FirstLineOfAEmptyB(r);
    EmptyLineAtEnd(ReadLine(r).reader);
    StopsAtSecondLine(r, [97]);
  }

  /** When the second `readLine` returns "" with end-of-file set,
      `readLines(0)` returns the first line alone. */
  lemma StopsAtSecondLine(r: TextReader, line: seq<byte>)
    requires r.Valid() && ReadLine(r).result == Success(line) && line != []
    requires var next := ReadLine(ReadLine(r).reader);
      next.result == Success([]) && next.reader.stream.eof
    ensures ReadLines(r, 0).result == Success([line])
  {
    FirstLineCollected(r, line);
    EmptyLineStops(ReadLine(r).reader, [line]);
  }

  /** A non-empty first line is collected and the loop goes on. */
  lemma FirstLineCollected(r: TextReader, line: seq<byte>)
    requires r.Valid() && ReadLine(r).result == Success(line) && line != []
    ensures ReadLines(r, 0) == ReadLinesFrom(ReadLine(r).reader, 0, [line])
  {
    assert [] + [line] == [line];
  }

  /** An empty line read with end-of-file set ends the loop. */
  lemma EmptyLineStops(r: TextReader, lines: seq<seq<byte>>)
    requires r.Valid() && ReadLine(r).result == Success([]) && ReadLine(r).reader.stream.eof
    ensures ReadLinesFrom(r, 0, lines).result == Success(lines)
  {
  }

  /** The first `readLine` on "a\n\nb\n" returns "a" and, its refill
      having come up short of the 1 MiB buffer, leaves the end-of-file
      indicator set. */
  lemma FirstLineOfAEmptyB(r: TextReader)
    requires r.Valid() && r.Pending() == AEmptyB && r.bufferEnd == 0
    requires !r.stream.eof && !r.stream.err && |r.buffer| == BufferSize
    ensures ReadLine(r).result == Success([97])
    ensures ReadLine(r).reader.stream.eof && !ReadLine(r).reader.stream.err
    ensures ReadLine(r).reader.Pending() == [10, 98, 10]
  {
    var P := AEmptyB;
    assert IsLineEnd(P, 1);
    LineEndUnique(P, 1, LineLength(P));
    assert P[..1] == [97] && P[2..] == [10, 98, 10];
    assert r.Window() == [] && |r.stream.Unread()| == 5;
    assert ReadLine(r).reader.bufferEnd <= 5;
  }

  /** With the end-of-file indicator already set, an empty line comes back
      as "" with the indicator still set: `readLines` takes it for the end. */
  lemma EmptyLineAtEnd(r: TextReader)
    requires r.Valid() && r.stream.eof && !r.stream.err
    requires |r.Pending()| > 0 && r.Pending()[0] == Newline
    ensures ReadLine(r).result == Success([])
    ensures ReadLine(r).reader.stream.eof
  {
    LineAtNewline(r.Pending());
  }

  /** A last line without a final '\n' is returned once, in full; the call
      after it returns "" with the end-of-file indicator set. */
  lemma LastLineWithoutNewline(r: TextReader)
    requires r.Valid() && !r.stream.err
    requires r.Pending() != [] && NewlineFree(r.Pending())
    ensures ReadLine(r).result == Success(r.Pending())
    ensures var next := ReadLine(ReadLine(r).reader);
      next.result == Success([]) && next.reader.stream.eof
  {
    var P := r.Pending();
    assert IsLineEnd(P, |P|);
    LineEndUnique(P, |P|, LineLength(P));
    assert P[..|P|] == P;
  }
}
