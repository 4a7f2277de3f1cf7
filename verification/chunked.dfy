/** The whole-file loops the readers and writers share: read buffer-sized
    chunks until a read returns nothing, and write in slices of at most
    1 MiB, failing on the first short write. Also the binary reader and
    writer, which consist of nothing else. */
module ChunkedIO {
  import opened Bytes
  import opened Errors
  import opened Streams

  /** The slice size of chunked writes: 1 << 20 bytes. */
  const ChunkSize: nat := 0x10_0000

  /** Reads `buffer`-sized chunks into `buffer` and collects them until a
      read returns zero bytes; then fails if the error indicator is set.
      The result is every byte left in the stream, in order. */
  method ReadAll(s: Stream, buffer: seq<byte>, path: string)
    returns (res: Result<seq<byte>>, s': Stream, buffer': seq<byte>)
    requires s.Valid() && |buffer| >= 1
    ensures s'.Valid() && s'.content == s.content && s'.err == s.err && s'.eof
    ensures s'.Unread() == []
    ensures |buffer'| == |buffer|
    ensures res.Success? <==> !s.err
    ensures res.Success? ==> res.value == s.Unread()
    ensures res.Failure? ==> res.error == ReadFailure(path)
  {
    var data: seq<byte> := [];
    s', buffer' := s, buffer;
    while true
      invariant s'.Valid() && s'.content == s.content && s'.err == s.err
      invariant |buffer'| == |buffer|
      invariant data + s'.Unread() == s.Unread()
      decreases |s'.Unread()|
    {
      var got := Fread(s', |buffer'|);
      s' := got.stream;
      buffer' := got.chunk + buffer'[|got.chunk|..];
      if |got.chunk| == 0 {
        if s'.err {
          return Failure(ReadFailure(path)), s', buffer';
        }
        break;
      }
      data := data + got.chunk;
    }
    res := Success(data);
  }

  /** `after` is `before` followed by a proper prefix of `data`: a write
      stopped part-way. */
  predicate StoppedShort(before: seq<byte>, after: seq<byte>, data: seq<byte>) {
    && |before| <= |after| < |before| + |data|
    && after == before + data[..|after| - |before|]
  }

  /** `after` is the `fwrite` calls `before` followed by slices of one to
      `ChunkSize` bytes each. */
  predicate IssuedSlices(before: seq<seq<byte>>, after: seq<seq<byte>>) {
    && |before| <= |after|
    && after[..|before|] == before
    && forall k :: |before| <= k < |after| ==> 0 < |after[k]| <= ChunkSize
  }

  /** The forwarding of `WriteChunked`'s promise about its `fwrite` calls. */
  lemma IssuedSlicesOf(calls: seq<seq<byte>>, issued: seq<seq<byte>>)
    requires forall k :: 0 <= k < |issued| ==> 0 < |issued[k]| <= ChunkSize
    ensures IssuedSlices(calls, calls + issued) && (calls + issued)[|calls|..] == issued
  {
    assert (calls + issued)[..|calls|] == calls;
    assert (calls + issued)[|calls|..] == issued;
  }

  /** One `fwrite` of the slice `data[offset..offset + n]`. */
  method WriteSlice(sink: Sink, data: seq<byte>, offset: nat, n: nat)
    returns (written: nat, sink': Sink)
    requires offset + n <= |data|
    ensures written <= n
    ensures sink'.data == sink.data + data[offset..offset + written]
    ensures sink'.calls == sink.calls + [data[offset..offset + n]]
  {
    written, sink' := Fwrite(sink, data[offset..offset + n]);
    assert data[offset..offset + n][..written] == data[offset..offset + written];
  }

  /** Writes `data` in slices of at most `ChunkSize` bytes, one `fwrite` per
      slice, and stops with a write error (whose message carries `detail`)
      at the first slice the device does not accept in full. `issued` is the
      slices handed to `fwrite`, in order. */
  method WriteChunked(sink: Sink, data: seq<byte>, path: string, detail: string)
    returns (res: Result<()>, sink': Sink, issued: seq<seq<byte>>)
    ensures sink'.calls == sink.calls + issued
    ensures forall k :: 0 <= k < |issued| ==> 0 < |issued[k]| <= ChunkSize
    ensures res.Success? ==> sink'.data == sink.data + data && Flatten(issued) == data
    ensures res.Failure? ==> res.error == IOException(WriteError, path, detail)
    ensures res.Failure? ==> StoppedShort(sink.data, sink'.data, data)
  {
    var failure := IOException(WriteError, path, detail);
    var offset := 0;
    issued := [];
    sink' := sink;
    while offset < |data|
      invariant offset <= |data|
      invariant sink'.data == sink.data + data[..offset]
      invariant sink'.calls == sink.calls + issued
      invariant forall k :: 0 <= k < |issued| ==> 0 < |issued[k]| <= ChunkSize
      invariant Flatten(issued) == data[..offset]
    {
      var toWrite := if ChunkSize <= |data| - offset then ChunkSize else |data| - offset;
      var written;
      var slice := data[offset..offset + toWrite];
      written, sink' := WriteSlice(sink', data, offset, toWrite);
      FlattenAppend(issued, slice);
      AppendAssoc(sink.calls, issued, [slice]);
      issued := issued + [slice];
      AppendAssoc(sink.data, data[..offset], data[offset..offset + written]);
      assert data[..offset] + data[offset..offset + written] == data[..offset + written];
      if written != toWrite {
        assert |sink'.data| - |sink.data| == offset + written;
        return Failure(failure), sink', issued;
      }
      offset := offset + written;
    }
    assert data[..offset] == data;
    res := Success(());
  }

  /** A binary reader: the handle and its private read buffer. */
  datatype ByteReader = ByteReader(path: string, stream: Stream, buffer: seq<byte>) {
    predicate Valid() {
      stream.Valid() && |buffer| >= 1
    }
  }

  /** The `ByteReader` constructor (mode "rb"): any `fopen` failure is
      reported as "file is not open", whatever the errno. */
  function OpenByteReader(path: string, outcome: FopenOutcome, capacity: nat): (r: Result<ByteReader>)
    requires capacity >= 1
    ensures r.Failure? <==> outcome.OpenFailed?
    ensures r.Failure? ==> r.error == IOException(FileNotOpen, path, "")
    ensures r.Success? ==> r.value.Valid() && r.value.path == path && |r.value.buffer| == capacity
    ensures r.Success? ==> r.value.stream == OpenStream(outcome.content)
  {
    match outcome
    case OpenFailed(_) => Failure(IOException(FileNotOpen, path, ""))
    case Opened(content) => Success(ByteReader(path, OpenStream(content), seq(capacity, _ => 0)))
  }

  /** `readBytes`: every byte not yet read, or a read error when the device
      reports one at the end. */
  method ReadBytes(r: ByteReader) returns (res: Result<seq<byte>>, r': ByteReader)
    requires r.Valid()
    ensures r'.Valid() && r'.path == r.path && r'.stream.Unread() == []
    ensures res.Success? <==> !r.stream.err
    ensures res.Success? ==> res.value == r.stream.Unread()
    ensures res.Failure? ==> res.error == ReadFailure(r.path)
  {
    var s', buffer';
    res, s', buffer' := ReadAll(r.stream, r.buffer, r.path);
    r' := r.(stream := s', buffer := buffer');
  }

  /** A binary writer: the handle, and whether it was opened for appending. */
  datatype ByteWriter = ByteWriter(path: string, append: bool, sink: Sink)

  /** The `ByteWriter` constructor (mode "ab" or "wb"): any `fopen` failure
      is reported as "file is not open"; "wb" starts from an empty file and
      "ab" keeps what the file held. */
  function OpenByteWriter(path: string, append: bool, outcome: FopenOutcome): (w: Result<ByteWriter>)
    ensures w.Failure? <==> outcome.OpenFailed?
    ensures w.Failure? ==> w.error == IOException(FileNotOpen, path, "")
    ensures w.Success? ==> w.value.path == path && w.value.append == append && w.value.sink.calls == []
    ensures w.Success? ==> w.value.sink.data == (if append then outcome.content else [])
  {
    match outcome
    case OpenFailed(_) => Failure(IOException(FileNotOpen, path, ""))
    case Opened(content) => Success(ByteWriter(path, append, OpenSink(content, append)))
  }

  /** `writeBytes`: the chunked write with its own failure text. */
  method WriteBytes(w: ByteWriter, data: seq<byte>) returns (res: Result<()>, w': ByteWriter)
    ensures w'.path == w.path && w'.append == w.append
    ensures IssuedSlices(w.sink.calls, w'.sink.calls)
    ensures res.Success? ==> w'.sink.data == w.sink.data + data
    ensures res.Success? ==> Flatten(w'.sink.calls[|w.sink.calls|..]) == data
    ensures res.Failure? ==> res.error == IOException(WriteError, w.path, "Failed to write bytes to file.")
    ensures res.Failure? ==> StoppedShort(w.sink.data, w'.sink.data, data)
  {
    var sink', issued;
    res, sink', issued := WriteChunked(w.sink, data, w.path, "Failed to write bytes to file.");
    IssuedSlicesOf(w.sink.calls, issued);
    w' := w.(sink := sink');
  }
}
