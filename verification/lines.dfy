/** Reading a byte stream line by line, as `readline()` on a binary file does,
    with the stream modelled as an immutable byte string and the read position
    as an index into it. */
module Lines {
  import opened Bytes

  const LF_ENDING: Bytes := [LF]
  const CRLF_ENDING: Bytes := [CR, LF]

  /** The position `readline()` leaves the stream at when called at `i`: just
      past the first `\n` at or after `i`, or the end of the stream when there
      is none. At the end of the stream it stays put. */
  function LineEnd(s: Bytes, i: nat): (j: nat)
    requires i <= |s|
    ensures i <= j <= |s|
    ensures i < |s| ==> i < j
    ensures forall k :: i <= k < j - 1 ==> s[k] != LF
    ensures j < |s| ==> s[j - 1] == LF
    decreases |s| - i
  {
    if i == |s| then i
    else if s[i] == LF then i + 1
    else LineEnd(s, i + 1)
  }

  /** `readline()` at position `i`: `b''` exactly at the end of the stream. */
  function ReadLine(s: Bytes, i: nat): Bytes
    requires i <= |s|
  {
    s[i..LineEnd(s, i)]
  }

  /** A complete line: it ends with `\n` and has no other `\n` in it. */
  predicate IsLine(l: Bytes) {
    |l| > 0 && l[|l| - 1] == LF && forall k :: 0 <= k < |l| - 1 ==> l[k] != LF
  }

  /** The ending the fixer adopts for the lines it writes: `\r\n` when the
      stream's first line ends with `\r\n`, otherwise `\n`. */
  function LineEnding(s: Bytes): Bytes {
    if EndsWith(ReadLine(s, 0), CRLF_ENDING) then CRLF_ENDING else LF_ENDING
  }

  /** Reading a complete line back: when the stream holds the complete line `l`
      at `i`, `readline()` there returns exactly `l`. */
  lemma ReadsLine(s: Bytes, i: nat, l: Bytes)
    requires IsLine(l)
    requires i + |l| <= |s| && s[i..i + |l|] == l
    ensures LineEnd(s, i) == i + |l|
    ensures ReadLine(s, i) == l
  {
    forall k | i <= k < i + |l|
      ensures s[k] == l[k - i]
    {
      assert s[i..i + |l|][k - i] == s[k];
    }
  }

  /** Line-ending detection looks only at the first line: putting more bytes
      after a complete first line does not change it. */
  lemma LineEndingOfPrefix(x: Bytes, y: Bytes)
    requires x != [] && x[|x| - 1] == LF
    ensures LineEnding(x + y) == LineEnding(x)
  {
    var j := LineEnd(x, 0);
    var l := x[..j];
    assert x[j - 1] == LF;
    assert IsLine(l);
    ReadsLine(x + y, 0, l);
  }

  /** The ending is `\r\n` exactly when the first `\n` of the stream sits
      right after a `\r`; a stream without `\n` (the empty one included)
      gets `\n`. */
  lemma LineEndingIsFirstNewline(s: Bytes)
    ensures LineEnding(s) == CRLF_ENDING || LineEnding(s) == LF_ENDING
    ensures LineEnding(s) == CRLF_ENDING <==>
              exists k :: 0 < k < |s| && s[k] == LF && s[k - 1] == CR && NoNewlineBefore(s, k)
    ensures s == [] ==> LineEnding(s) == LF_ENDING
  {
    var j := LineEnd(s, 0);
    var first := s[..j];
    if LineEnding(s) == CRLF_ENDING {
      assert first[j - 2..] == CRLF_ENDING;
      assert s[j - 1] == LF && s[j - 2] == CR;
      assert NoNewlineBefore(s, j - 1);
    }
    if k :| 0 < k < |s| && s[k] == LF && s[k - 1] == CR && NoNewlineBefore(s, k) {
      assert j == k + 1;
      assert first[|first| - 2..] == [s[k - 1], s[k]];
    }
  }

  /** No `\n` among the first `k` bytes. */
  predicate NoNewlineBefore(s: Bytes, k: nat)
    requires k <= |s|
  {
    forall m :: 0 <= m < k ==> s[m] != LF
  }
}
