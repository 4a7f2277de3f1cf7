/** The native `FILE*` handle, seen from outside: an input stream with a
    read position and the two indicator flags `feof`/`ferror` report, an
    output sink that may accept fewer bytes than asked, and the outcome of
    `fopen`. */
module Streams {
  import opened Bytes

  /** An open input handle: the file's bytes, how many have been read, and
      the end-of-file and error indicators. `err` stands for a device error:
      it is given with the handle and no read changes it. */
  datatype Stream = Stream(content: seq<byte>, pos: nat, eof: bool, err: bool) {
    predicate Valid() {
      pos <= |content|
    }

    /** The bytes no `fread` has returned yet. */
    function Unread(): seq<byte>
      requires Valid()
    {
      content[pos..]
    }
  }

  /** A handle just opened on `content`. */
  function OpenStream(content: seq<byte>): (s: Stream)
    ensures s.Valid() && s.Unread() == content && !s.eof && !s.err
  {
    Stream(content, 0, false, false)
  }

  datatype ReadOut = ReadOut(chunk: seq<byte>, stream: Stream)

  /** `fread(buf, 1, n, file)`: returns the next `n` bytes, or all that are
      left when fewer remain; a short read sets the end-of-file indicator. */
  function Fread(s: Stream, n: nat): (r: ReadOut)
    requires s.Valid()
    ensures r.stream.Valid()
    ensures r.stream.content == s.content && r.stream.err == s.err
    ensures s.Unread() == r.chunk + r.stream.Unread()
    ensures |r.chunk| <= n
    ensures |r.chunk| < n ==> r.stream.Unread() == []
    ensures r.stream.eof == (s.eof || |r.chunk| < n)
  {
    var k := if n <= |s.content| - s.pos then n else |s.content| - s.pos;
    assert s.content[s.pos..] == s.content[s.pos..s.pos + k] + s.content[s.pos + k..];
    ReadOut(s.content[s.pos..s.pos + k], s.(pos := s.pos + k, eof := s.eof || k < n))
  }

  /** An open output handle: the bytes the file holds so far, and the byte
      run each `fwrite` call was asked to write, in order. */
  datatype Sink = Sink(data: seq<byte>, calls: seq<seq<byte>>)

  /** `fwrite(bytes, 1, |bytes|, file)`: the device accepts some prefix of
      the bytes, possibly all of them; which prefix is not up to the caller. */
  method Fwrite(s: Sink, bytes: seq<byte>) returns (written: nat, s': Sink)
    ensures written <= |bytes|
    ensures s'.data == s.data + bytes[..written]
    ensures s'.calls == s.calls + [bytes]
  {
    written :| written <= |bytes|;
    s' := Sink(s.data + bytes[..written], s.calls + [bytes]);
  }

  /** What `fopen` gave back: a handle on a file with the given current
      content, or a null handle and the errno it set. */
  datatype FopenOutcome = Opened(content: seq<byte>) | OpenFailed(errno: int)

  /** The sink `fopen` gives for mode "w" (truncate) or "a" (append). */
  function OpenSink(existing: seq<byte>, append: bool): (s: Sink)
    ensures s.calls == []
    ensures s.data == (if append then existing else [])
  {
    Sink(if append then existing else [], [])
  }
}
