/** Bytes of file content, and what a "line" of such content is.

    This module is the reference the readers and writers are measured against:
    `Lines` splits content at newline bytes the way a line-by-line reader is
    expected to, independently of any buffering. */
module Bytes {

  /** A C++ `char` of file content, as an unsigned 8-bit value. */
  newtype byte = b: int | 0 <= b < 256

  /** The byte '\n'. */
  const Newline: byte := 10

  predicate NewlineFree(s: seq<byte>) {
    forall j :: 0 <= j < |s| ==> s[j] != Newline
  }

  /** `i` is where the first line of `s` ends: no newline before `i`, and `i`
      is either the end of `s` or the position of a newline. */
  predicate IsLineEnd(s: seq<byte>, i: nat) {
    && i <= |s|
    && NewlineFree(s[..i])
    && (i < |s| ==> s[i] == Newline)
  }

  /** Length of the first line of `s` (without its newline). */
  function LineLength(s: seq<byte>): (i: nat)
    ensures IsLineEnd(s, i)
  {
    if |s| == 0 || s[0] == Newline then 0 else 1 + LineLength(s[1..])
  }

  /** The end of the first line is unique. */
  lemma LineEndUnique(s: seq<byte>, i: nat, k: nat)
    requires IsLineEnd(s, i) && IsLineEnd(s, k)
    ensures i == k
  {
  }

  /** A newline-free prefix is part of the first line. */
  lemma LineAfterNewlineFree(a: seq<byte>, b: seq<byte>)
    requires NewlineFree(a)
    ensures LineLength(a + b) == |a| + LineLength(b)
    ensures AfterLine(a + b) == AfterLine(b)
    ensures (a + b)[..LineLength(a + b)] == a + b[..LineLength(b)]
  {
    var k := LineLength(b);
    assert IsLineEnd(a + b, |a| + k) by {
      forall j | 0 <= j < |a| + k ensures (a + b)[j] != Newline {
        if j >= |a| {
          assert (a + b)[j] == b[j - |a|];
        }
      }
      if |a| + k < |a + b| {
        assert (a + b)[|a| + k] == b[k];
      }
    }
    LineEndUnique(a + b, |a| + k, LineLength(a + b));
    if k < |b| {
      assert (a + b)[|a| + k + 1..] == b[k + 1..];
    }
    assert (a + b)[..|a| + k] == a + b[..k];
  }

  /** A line that starts with its newline is empty. */
  lemma LineAtNewline(b: seq<byte>)
    requires |b| > 0 && b[0] == Newline
    ensures LineLength(b) == 0 && AfterLine(b) == b[1..]
  {
  }

  /** What follows the first line and its newline (nothing when there is no newline). */
  function AfterLine(s: seq<byte>): (rest: seq<byte>)
    ensures |rest| <= |s|
    ensures |s| > 0 ==> |rest| < |s|
  {
    var i := LineLength(s);
    if i < |s| then s[i + 1..] else []
  }

  /** Content with a newline is its first line, that newline, and what follows. */
  lemma LineSplit(s: seq<byte>)
    ensures LineLength(s) < |s| ==> s == s[..LineLength(s)] + [Newline] + AfterLine(s)
  {
    var i := LineLength(s);
    if i < |s| {
      SplitAt(s, i);
    }
  }

  lemma SplitAt<T>(s: seq<T>, i: nat)
    requires i < |s|
    ensures s == s[..i] + [s[i]] + s[i + 1..]
  {
  }

  lemma SliceSplit<T>(s: seq<T>, i: nat, j: nat, k: nat)
    requires i <= j <= k <= |s|
    ensures s[i..k] == s[i..j] + s[j..k]
  {
  }

  lemma DropFirst<T>(u: seq<T>, v: seq<T>)
    requires |u| > 0
    ensures (u + v)[1..] == u[1..] + v
  {
  }

  lemma AppendAssoc<T>(a: seq<T>, b: seq<T>, c: seq<T>)
    ensures a + b + c == a + (b + c)
  {
  }

  /** The lines of `s`: each newline ends a line, and a final run of bytes
      without a newline is one more line. Empty content has no lines. */
  function Lines(s: seq<byte>): (ls: seq<seq<byte>>)
    ensures forall k :: 0 <= k < |ls| ==> NewlineFree(ls[k])
    ensures |ls| <= |s|
    decreases |s|
  {
    if |s| == 0 then [] else [s[..LineLength(s)]] + Lines(AfterLine(s))
  }

  /** Concatenation of byte runs, in order. */
  function Flatten(runs: seq<seq<byte>>): seq<byte> {
    if |runs| == 0 then [] else runs[0] + Flatten(runs[1..])
  }

  lemma {:induction false} FlattenAppend(runs: seq<seq<byte>>, last: seq<byte>)
    ensures Flatten(runs + [last]) == Flatten(runs) + last
    decreases |runs|
  {
    if |runs| == 0 {
      assert runs + [last] == [last];
    } else {
      assert (runs + [last])[1..] == runs[1..] + [last];
      FlattenAppend(runs[1..], last);
    }
  }

  /** Each line followed by one newline: the file that holds exactly `lines`. */
  function Terminated(lines: seq<seq<byte>>): (s: seq<byte>)
    ensures |s| >= |lines|
  {
    if |lines| == 0 then [] else lines[0] + [Newline] + Terminated(lines[1..])
  }

  /** Splitting newline-terminated, newline-free lines gives them back,
      empty lines included. */
  lemma {:induction false} LinesOfTerminated(lines: seq<seq<byte>>)
    requires forall k :: 0 <= k < |lines| ==> NewlineFree(lines[k])
    ensures Lines(Terminated(lines)) == lines
    decreases |lines|
  {
    if |lines| > 0 {
      var s := Terminated(lines);
      var l := lines[0];
      assert s == l + [Newline] + Terminated(lines[1..]);
      assert IsLineEnd(s, |l|) by {
        forall j | 0 <= j < |l| ensures s[j] != Newline {
          assert s[j] == l[j];
        }
        assert s[|l|] == Newline;
      }
      LineEndUnique(s, |l|, LineLength(s));
      assert s[..|l|] == l;
      assert AfterLine(s) == Terminated(lines[1..]);
      LinesOfTerminated(lines[1..]);
    }
  }
}
