/** Byte strings as the header fixer sees them: Python `bytes` values, with the
    handful of `bytes` methods the fixer calls (`startswith`, `endswith`,
    `strip`) and the concatenation of a list of byte strings. */
module Bytes {

  type byte = b: int | 0 <= b < 256
  type Bytes = seq<byte>

  const LF: byte := 10
  const CR: byte := 13
  const SPACE: byte := 32

  /** `s.startswith(p)` */
  predicate StartsWith(s: Bytes, p: Bytes) {
    |p| <= |s| && s[..|p|] == p
  }

  /** `s.endswith(p)` */
  predicate EndsWith(s: Bytes, p: Bytes) {
    |p| <= |s| && s[|s| - |p|..] == p
  }

  /** The ASCII whitespace that `bytes.strip()` removes:
      space, `\t`, `\n`, `\x0b`, `\x0c` and `\r`. */
  predicate IsSpace(b: byte) {
    b == SPACE || 9 <= b <= 13
  }

  predicate AllSpace(s: Bytes) {
    forall k :: 0 <= k < |s| ==> IsSpace(s[k])
  }

  /** No whitespace at either end: the shape every result of `strip()` has. */
  predicate Trimmed(s: Bytes) {
    s == [] || (!IsSpace(s[0]) && !IsSpace(s[|s| - 1]))
  }

  /** `r` is `s` with the whitespace run `s[..a]` cut from its front and an
      all-whitespace run cut from its back. */
  predicate Frames(s: Bytes, a: int, r: Bytes) {
    0 <= a && a + |r| <= |s| && s[a..a + |r|] == r
    && AllSpace(s[..a]) && AllSpace(s[a + |r|..])
  }

  /** Number of whitespace bytes at the front of `s`. */
  function LeadingSpace(s: Bytes): (n: nat)
    ensures n <= |s|
    ensures AllSpace(s[..n])
    ensures n < |s| ==> !IsSpace(s[n])
  {
    if s == [] || !IsSpace(s[0]) then 0 else 1 + LeadingSpace(s[1..])
  }

  /** Number of whitespace bytes at the back of `s`. */
  function TrailingSpace(s: Bytes): (n: nat)
    ensures n <= |s|
    ensures AllSpace(s[|s| - n..])
    ensures n < |s| ==> !IsSpace(s[|s| - 1 - n])
  {
    if s == [] || !IsSpace(s[|s| - 1]) then 0 else 1 + TrailingSpace(s[..|s| - 1])
  }

  /** `s.strip()`: both ends lose their ASCII whitespace. */
  function Strip(s: Bytes): (r: Bytes)
    ensures Trimmed(r)
    ensures exists a :: Frames(s, a, r)
  {
    var a := LeadingSpace(s);
    if a == |s| then
      assert Frames(s, |s|, []);
      []
    else
      var b := |s| - TrailingSpace(s);
      assert a < b;
      assert s[a..][..b - a] == s[a..b];
      assert Frames(s, a, s[a..b]);
      s[a..b]
  }

  /** The lines `ls` one after the other. */
  function Concat(ls: seq<Bytes>): Bytes {
    if ls == [] then [] else ls[0] + Concat(ls[1..])
  }

  /** A trimmed string is left alone by `strip()`, and only a trimmed one is. */
  lemma StripFixedPoint(s: Bytes)
    ensures Strip(s) == s <==> Trimmed(s)
  {
    if Trimmed(s) && s != [] {
      var a :| Frames(s, a, Strip(s));
    }
  }

  /** Appending whitespace to a trimmed string does not change what `strip()`
      gives back: this is how a header line followed by its line ending reads
      back as the header line. */
  lemma {:induction false} StripTrailingSpace(h: Bytes, w: Bytes)
    requires Trimmed(h)
    requires AllSpace(w)
    ensures Strip(h + w) == h
  {
    var s := h + w;
    var r := Strip(s);
    var a :| Frames(s, a, r);
    if h != [] {
      // the first non-space byte of s is h[0], the last is h[|h|-1]
      assert !IsSpace(s[0]);
      assert a == 0;
      forall k | |r| <= k < |s|
        ensures IsSpace(s[k])
      {
        assert s[|r|..][k - |r|] == s[k];
      }
      assert r == s[..|h|] == h;
    }
  }
}
