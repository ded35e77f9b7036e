/** Running `fix_file` on a file it has just rewritten leaves it alone. The
    proof reads the rewritten file back line by line: the kept-before lines,
    then the canonical header lines, then the line ending (or the end) that
    stops the loop. */
module Idempotence {
  import opened Bytes
  import opened Lines
  import opened HeaderFix
  import opened FixProperties

  /** A canonical header line the fixer can read back as itself: `strip()`
      leaves it alone, neither it nor the prefix holds a `\n`, the written
      line does not end in `\r` before its ending, and the written line
      starts with no keep prefix. */
  predicate ReadsBack(h: Bytes, cfg: Config, le: Bytes) {
    && Trimmed(h)
    && (forall k :: 0 <= k < |cfg.prefix + h| ==> (cfg.prefix + h)[k] != LF)
    && !EndsWith(cfg.prefix + h, [CR])
    && !StartsWithAny(cfg.prefix + h + le, cfg.keepBefore)
    && !StartsWithAny(cfg.prefix + h + le, cfg.keepAfter)
  }

  /** Two byte strings laid side by side in `o` from `i` on. */
  lemma SideBySide(o: Bytes, i: nat, x: Bytes, y: Bytes)
    requires i + |x| + |y| <= |o| && o[i..i + |x| + |y|] == x + y
    ensures o[i..i + |x|] == x
    ensures o[i + |x|..i + |x| + |y|] == y
  {
    assert o[i..i + |x|] == o[i..i + |x| + |y|][..|x|];
    assert o[i + |x|..i + |x| + |y|] == o[i..i + |x| + |y|][|x|..];
  }

  /** A written header line is a complete line. */
  lemma WrittenLineIsLine(h: Bytes, cfg: Config, le: Bytes)
    requires IsEnding(le) && ReadsBack(h, cfg, le)
    ensures IsLine(cfg.prefix + h + le)
  {
    var l := cfg.prefix + h + le;
    forall k | 0 <= k < |l| - 1
      ensures l[k] != LF
    {
      if k >= |cfg.prefix + h| {
        assert l[k] == le[k - |cfg.prefix + h|];
      }
    }
  }

  /** A written header line is read back as header text equal to `h`. */
  lemma WrittenLineKind(h: Bytes, cfg: Config, le: Bytes)
    requires IsEnding(le) && ReadsBack(h, cfg, le)
    ensures Continues(cfg.prefix + h + le, cfg)
    ensures KindOf(cfg.prefix + h + le, cfg) == HeaderText(h)
  {
    var l := cfg.prefix + h + le;
    assert l[..|cfg.prefix|] == cfg.prefix;
    assert l[|cfg.prefix|..] == h + le;
    StripTrailingSpace(h, le);
  }

  /** The lines the header block is written as, one per canonical entry. */
  function WrittenLines(hs: seq<Bytes>, prefix: Bytes, le: Bytes): seq<Bytes> {
    if hs == [] then [] else [prefix + hs[0] + le] + WrittenLines(hs[1..], prefix, le)
  }

  /** The header block is its written lines, one after the other. */
  lemma {:induction false} HeaderBlockLines(hs: seq<Bytes>, prefix: Bytes, le: Bytes)
    ensures HeaderBlock(hs, prefix, le) == Concat(WrittenLines(hs, prefix, le))
    decreases |hs|
  {
    if hs != [] {
      var ls := WrittenLines(hs, prefix, le);
      assert ls[1..] == WrittenLines(hs[1..], prefix, le);
      HeaderBlockLines(hs[1..], prefix, le);
    }
  }

  /** Every canonical entry reads back as itself. */
  predicate AllReadBack(hs: seq<Bytes>, cfg: Config, le: Bytes)
    decreases |hs|
  {
    hs == [] || (ReadsBack(hs[0], cfg, le) && AllReadBack(hs[1..], cfg, le))
  }

  lemma {:induction false} AllReadBackFromEach(hs: seq<Bytes>, cfg: Config, le: Bytes)
    requires forall k :: 0 <= k < |hs| ==> ReadsBack(hs[k], cfg, le)
    ensures AllReadBack(hs, cfg, le)
    decreases |hs|
  {
    if hs != [] {
      AllReadBackFromEach(hs[1..], cfg, le);
    }
  }

  /** Every written header line is a complete line. */
  lemma {:induction false} WrittenLinesAreLines(hs: seq<Bytes>, cfg: Config, le: Bytes)
    requires IsEnding(le) && AllReadBack(hs, cfg, le)
    ensures AllLines(WrittenLines(hs, cfg.prefix, le))
    decreases |hs|
  {
    if hs != [] {
      var ls := WrittenLines(hs, cfg.prefix, le);
      assert ls[1..] == WrittenLines(hs[1..], cfg.prefix, le);
      WrittenLinesAreLines(hs[1..], cfg, le);
      WrittenLineIsLine(hs[0], cfg, le);
    }
  }

  /** The loop reads every written header line back as its own entry. */
  lemma {:induction false} WrittenLinesRead(hs: seq<Bytes>, cfg: Config, le: Bytes)
    requires IsEnding(le) && AllReadBack(hs, cfg, le)
    ensures ReadAsHeader(WrittenLines(hs, cfg.prefix, le), hs, cfg)
    decreases |hs|
  {
    if hs != [] {
      var ls := WrittenLines(hs, cfg.prefix, le);
      assert ls[1..] == WrittenLines(hs[1..], cfg.prefix, le);
      WrittenLinesRead(hs[1..], cfg, le);
      WrittenLineKind(hs[0], cfg, le);
    }
  }

  /** The first of some complete lines laid out in a stream is read back
      first, and the others follow it. */
  lemma LaidOutFirst(s: Bytes, i: nat, e: nat, j: nat, ls: seq<Bytes>)
    requires ls != [] && AllLines(ls) && e == i + |ls[0]|
    requires j == i + |Concat(ls)| && j <= |s| && s[i..j] == Concat(ls)
    ensures LineEnd(s, i) == e && i < e <= j && s[i..e] == ls[0]
    ensures AllLines(ls[1..]) && j == e + |Concat(ls[1..])| && s[e..j] == Concat(ls[1..])
  {
    var l := ls[0];
    var more := Concat(ls[1..]);
    SideBySide(s, i, l, more);
    ReadsLine(s, i, l);
  }

  /** Complete lines laid out one after the other in a stream, from `i` to
      `j`, are read back one by one. */
  lemma {:induction false} LaidOut(s: Bytes, i: nat, j: nat, ls: seq<Bytes>)
    requires AllLines(ls)
    requires j == i + |Concat(ls)| && j <= |s| && s[i..j] == Concat(ls)
    ensures LinesAt(s, i, j, ls)
    decreases |ls|
  {
    if ls != [] {
      var e := i + |ls[0]|;
      LaidOutFirst(s, i, e, j, ls);
      LaidOut(s, e, j, ls[1..]);
    }
  }

  /** Kept-before bytes ending in `\n` split into complete lines, each
      starting with a keep-before prefix. */
  lemma {:induction false} BeforeAsLines(b: Bytes, cfg: Config) returns (bl: seq<Bytes>)
    requires KeepBeforeLines(b, cfg)
    requires b == [] || b[|b| - 1] == LF
    ensures Concat(bl) == b && AllLines(bl) && AllKeptBefore(bl, cfg)
    decreases |b|
  {
    if b == [] {
      bl := [];
    } else {
      var e := LineEnd(b, 0);
      var line := b[..e];
      var rest := b[e..];
      assert b[e - 1] == LF;
      assert IsLine(line) by {
        forall k | 0 <= k < |line| - 1
          ensures line[k] != LF
        {
          assert line[k] == b[k];
        }
      }
      var more := BeforeAsLines(rest, cfg);
      bl := [line] + more;
      assert bl[1..] == more;
      assert b == line + rest;
    }
  }

  /** The ending detected in a file starting with a complete line is that
      line's own ending. */
  lemma EndingOfLine(l: Bytes, t: Bytes, le: Bytes)
    requires IsLine(l) && IsEnding(le) && EndsWith(l, le)
    requires le == LF_ENDING ==> |l| < 2 || l[|l| - 2] != CR
    ensures LineEnding(l + t) == le
  {
    LineEndingOfPrefix(l, t);
    ReadsLine(l, 0, l);
    assert l[0..|l|] == l;
  }

  /** A written header line is a complete line ending in `le`, and with `\n`
      as `le` no `\r` sits before it. */
  lemma WrittenLineEnding(h: Bytes, cfg: Config, le: Bytes, l: Bytes)
    requires IsEnding(le) && ReadsBack(h, cfg, le) && l == cfg.prefix + h + le
    ensures IsLine(l) && EndsWith(l, le)
    ensures le == LF_ENDING ==> |l| < 2 || l[|l| - 2] != CR
  {
    var ph := cfg.prefix + h;
    WrittenLineIsLine(h, cfg, le);
    assert l[|l| - |le|..] == le;
    if le == LF_ENDING && |l| >= 2 {
      assert l[|l| - 2] == ph[|ph| - 1];
      assert ph[|ph| - 1..] == [ph[|ph| - 1]];
    }
  }

  /** The three pieces of `x + (y + z)`, each at its place. */
  lemma ThreeParts(o: Bytes, x: Bytes, y: Bytes, z: Bytes, n: nat)
    requires o == x + (y + z) && n == |x| + |y|
    ensures n <= |o| && o[0..|x|] == x && o[|x|..n] == y && o[n..] == z
  {
    assert o[0..|x|] == x;
    assert o[|x|..n] == y;
    assert o[n..] == z;
  }

  /** The results of reading the three parts, put together. */
  lemma Assemble(a: Scan, b: Scan, c: Scan, before: Bytes, header: seq<Bytes>, n: nat)
    requires a == WithBefore(before, b) && b == WithHeader(header, c) && c == Stops(Nothing, n)
    ensures a == Stops(Leading(before, header, []), n)
  {
    assert before + [] == before && header + [] == header;
  }

  /** Kept-before bytes at the start of a stream are read as their lines. */
  lemma BeforeLayout(o: Bytes, before: Bytes, cfg: Config) returns (bl: seq<Bytes>)
    requires |before| <= |o| && o[0..|before|] == before
    requires KeepBeforeLines(before, cfg) && (before == [] || before[|before| - 1] == LF)
    ensures Concat(bl) == before && LinesAt(o, 0, |before|, bl) && AllKeptBefore(bl, cfg)
  {
    bl := BeforeAsLines(before, cfg);
    LaidOut(o, 0, |before|, bl);
  }

  /** A header block written into a stream from `m` to `n` is read as its
      lines, and they read as the header. */
  lemma HeaderLayout(o: Bytes, m: nat, n: nat, header: seq<Bytes>, cfg: Config, le: Bytes)
    returns (wl: seq<Bytes>)
    requires n == m + |HeaderBlock(header, cfg.prefix, le)| && n <= |o|
    requires o[m..n] == HeaderBlock(header, cfg.prefix, le)
    requires IsEnding(le) && AllReadBack(header, cfg, le)
    ensures LinesAt(o, m, n, wl) && ReadAsHeader(wl, header, cfg)
  {
    wl := WrittenLines(header, cfg.prefix, le);
    HeaderBlockLines(header, cfg.prefix, le);
    WrittenLinesAreLines(header, cfg, le);
    WrittenLinesRead(header, cfg, le);
    LaidOut(o, m, n, wl);
  }

  /** Kept-before bytes followed by a header block, seen as the lines
      `readline()` returns: the kept-before lines, then the written header
      lines. */
  lemma SecondLayout(o: Bytes, before: Bytes, header: seq<Bytes>, n: nat, cfg: Config, le: Bytes)
    returns (bl: seq<Bytes>, wl: seq<Bytes>)
    requires n == |before| + |HeaderBlock(header, cfg.prefix, le)| && n <= |o|
    requires o[0..|before|] == before && o[|before|..n] == HeaderBlock(header, cfg.prefix, le)
    requires IsEnding(le) && AllReadBack(header, cfg, le)
    requires KeepBeforeLines(before, cfg) && (before == [] || before[|before| - 1] == LF)
    ensures Concat(bl) == before
    ensures LinesAt(o, 0, |before|, bl) && LinesAt(o, |before|, n, wl)
    ensures AllKeptBefore(bl, cfg) && ReadAsHeader(wl, header, cfg)
  {
    bl := BeforeLayout(o, before, cfg);
    wl := HeaderLayout(o, |before|, n, header, cfg, le);
  }

  /** The loop run over kept-before lines, then header lines, then a line
      starting with the ending `le` or the end, collects exactly those and stops there. */
  lemma SecondScan(o: Bytes, before: Bytes, bl: seq<Bytes>, wl: seq<Bytes>, header: seq<Bytes>, n: nat, cfg: Config, le: Bytes)
    requires |before| <= n <= |o|
    requires IsEnding(le) && !Continues([], cfg) && !Continues(le, cfg)
    requires n == |o| || StartsWith(o[n..], le)
    ensures && Concat(bl) == before
            && LinesAt(o, 0, |before|, bl) && LinesAt(o, |before|, n, wl)
            && AllKeptBefore(bl, cfg) && ReadAsHeader(wl, header, cfg)
            ==> Classify(o, 0, cfg) == Stops(Leading(before, header, []), n)
  {
    if && Concat(bl) == before
       && LinesAt(o, 0, |before|, bl) && LinesAt(o, |before|, n, wl)
       && AllKeptBefore(bl, cfg) && ReadAsHeader(wl, header, cfg)
    {
      var m := |before|;
      ReadBefore(o, 0, m, bl, cfg);
      ReadHeader(o, m, n, wl, header, cfg);
      StopsAtEnding(o, n, cfg, le);
      Assemble(Classify(o, 0, cfg), Classify(o, m, cfg), Classify(o, n, cfg), before, header, n);
    }
  }

  /** A file starting with a written header line has that line's ending. */
  lemma EndingOfHeader(o: Bytes, header: seq<Bytes>, t: Bytes, cfg: Config, le: Bytes)
    requires header != [] && IsEnding(le) && ReadsBack(header[0], cfg, le)
    requires o == HeaderBlock(header, cfg.prefix, le) + t
    ensures LineEnding(o) == le
  {
    var line := cfg.prefix + header[0] + le;
    var more := HeaderBlock(header[1..], cfg.prefix, le) + t;
    WrittenLineEnding(header[0], cfg, le, line);
    FirstWrittenLine(o, header, t, cfg.prefix, le, line, more);
    EndingOfLine(line, more, le);
  }

  /** A header block, and what follows it, is its first written line and
      then the rest. */
  lemma FirstWrittenLine(o: Bytes, header: seq<Bytes>, t: Bytes, prefix: Bytes, le: Bytes, line: Bytes, more: Bytes)
    requires header != [] && o == HeaderBlock(header, prefix, le) + t
    requires line == prefix + header[0] + le && more == HeaderBlock(header[1..], prefix, le) + t
    ensures o == line + more
  {
  }

  /** A file starting with a line that is just the ending `le` has `le` as its ending. */
  lemma EndingOfEndingLine(o: Bytes, le: Bytes)
    requires IsEnding(le) && StartsWith(o, le)
    ensures LineEnding(o) == le
  {
    assert o == le + o[|le|..];
    EndingOfLine(le, o[|le|..], le);
  }

  /** The ending detected in `before + header block + tail`: when anything
      follows the header block, it is `le`. */
  lemma SecondEnding(o: Bytes, before: Bytes, header: seq<Bytes>, tail: Bytes, cfg: Config, le: Bytes)
    requires o == before + (HeaderBlock(header, cfg.prefix, le) + tail)
    requires IsEnding(le) && AllReadBack(header, cfg, le)
    requires before == [] || (before[|before| - 1] == LF && LineEnding(before) == le)
    requires tail == [] || StartsWith(tail, le)
    ensures tail != [] ==> LineEnding(o) == le
  {
    var hb := HeaderBlock(header, cfg.prefix, le);
    if before != [] {
      LineEndingOfPrefix(before, hb + tail);
    } else if header != [] {
      assert o == hb + tail;
      EndingOfHeader(o, header, tail, cfg, le);
    } else if tail != [] {
      assert o == tail;
      EndingOfEndingLine(o, le);
    }
  }

  /** `fix_file` leaves a file alone when the loop stops with the canonical
      header collected, before the end or the line ending. */
  lemma LeftAlone(o: Bytes, header: seq<Bytes>, cfg: Config, n: nat, tail: Bytes, le: Bytes)
    requires Classify(o, 0, cfg).Stops? && Classify(o, 0, cfg).lead.header == header
    requires n == Classify(o, 0, cfg).rest && o[n..] == tail
    requires tail == [] || (StartsWith(tail, le) && LineEnding(o) == le)
    ensures Fix(o, header, cfg) == Returns(0, o)
  {
  }

  /** The loop over a file made of kept-before lines, the canonical header
      block, and then nothing or the line ending collects the kept-before lines
      and the header and stops right after the header block. */
  lemma SecondPass(o: Bytes, before: Bytes, header: seq<Bytes>, n: nat, cfg: Config, le: Bytes)
    requires n == |before| + |HeaderBlock(header, cfg.prefix, le)| && n <= |o|
    requires o[0..|before|] == before && o[|before|..n] == HeaderBlock(header, cfg.prefix, le)
    requires IsEnding(le) && !Continues([], cfg) && !Continues(le, cfg)
    requires AllReadBack(header, cfg, le)
    requires KeepBeforeLines(before, cfg) && (before == [] || before[|before| - 1] == LF)
    requires n == |o| || StartsWith(o[n..], le)
    ensures Classify(o, 0, cfg) == Stops(Leading(before, header, []), n)
  {
    var bl, wl := SecondLayout(o, before, header, n, cfg, le);
    SecondScan(o, before, bl, wl, header, n, cfg, le);
  }

  /** `fix_file` leaves alone any file made of kept-before lines, the
      canonical header block, and then nothing or the line ending. */
  lemma SecondRun(o: Bytes, before: Bytes, header: seq<Bytes>, tail: Bytes, cfg: Config, le: Bytes)
    requires o == before + (HeaderBlock(header, cfg.prefix, le) + tail)
    requires IsEnding(le) && !Continues([], cfg) && !Continues(le, cfg)
    requires AllReadBack(header, cfg, le)
    requires KeepBeforeLines(before, cfg)
    requires before == [] || (before[|before| - 1] == LF && LineEnding(before) == le)
    requires tail == [] || StartsWith(tail, le)
    ensures Fix(o, header, cfg) == Returns(0, o)
  {
    var n := |before| + |HeaderBlock(header, cfg.prefix, le)|;
    ThreeParts(o, before, HeaderBlock(header, cfg.prefix, le), tail, n);
    SecondPass(o, before, header, n, cfg, le);
    SecondEnding(o, before, header, tail, cfg, le);
    LeftAlone(o, header, cfg, n, tail, le);
  }

  /** The rewritten file is the kept-before bytes, the header block, and a
      tail that is empty or starts with the line ending. */
  lemma RewriteParts(lead: Leading, header: seq<Bytes>, prefix: Bytes, le: Bytes, rem: Bytes)
    returns (tail: Bytes)
    ensures Rewrite(lead, header, prefix, le, rem) == lead.before + (HeaderBlock(header, prefix, le) + tail)
    ensures tail == [] || StartsWith(tail, le)
  {
    tail := Between(lead.after, le, rem) + rem;
    BetweenStartsWithEnding(lead.after, le, rem);
  }

  /** What the first run writes: the kept-before bytes, the header block,
      and a tail that is empty or starts with the line ending. */
  lemma FirstPass(s: Bytes, header: seq<Bytes>, cfg: Config) returns (before: Bytes, tail: Bytes)
    requires Fix(s, header, cfg).Returns? && Fix(s, header, cfg).status == 1
    ensures Classify(s, 0, cfg).Stops? && before == Classify(s, 0, cfg).lead.before
    ensures Fix(s, header, cfg).content == before + (HeaderBlock(header, cfg.prefix, LineEnding(s)) + tail)
    ensures KeepBeforeLines(before, cfg)
    ensures tail == [] || StartsWith(tail, LineEnding(s))
  {
    FixRewrites(s, header, cfg);
    ClassifySortsLines(s, 0, cfg);
    var sc := Classify(s, 0, cfg);
    before := sc.lead.before;
    tail := RewriteParts(sc.lead, header, cfg.prefix, LineEnding(s), s[sc.rest..]);
  }

  /** A second run of `fix_file` on the file it rewrote reports status 0 and
      leaves it alone, provided the loop terminates, the canonical header
      lines read back as themselves, the line ending does not satisfy the loop
      guard, and the kept-before lines end with `\n` and, when there are any,
      the first of them has the ending detected in the original. */
  lemma FixIdempotent(s: Bytes, header: seq<Bytes>, cfg: Config)
    requires !Continues([], cfg)
    requires !Continues(LineEnding(s), cfg)
    requires forall k :: 0 <= k < |header| ==> ReadsBack(header[k], cfg, LineEnding(s))
    requires var b := Classify(s, 0, cfg).lead.before;
             b == [] || (b[|b| - 1] == LF && LineEnding(b) == LineEnding(s))
    ensures Fix(s, header, cfg).Returns?
    ensures Fix(Fix(s, header, cfg).content, header, cfg) == Returns(0, Fix(s, header, cfg).content)
  {
    if Fix(s, header, cfg).status == 1 {
      AllReadBackFromEach(header, cfg, LineEnding(s));
      RewriteSettles(s, header, cfg);
    }
  }

  /** The rewrite branch of `FixIdempotent`. */
  lemma RewriteSettles(s: Bytes, header: seq<Bytes>, cfg: Config)
    requires !Continues([], cfg) && !Continues(LineEnding(s), cfg)
    requires AllReadBack(header, cfg, LineEnding(s))
    requires Fix(s, header, cfg).Returns? && Fix(s, header, cfg).status == 1
    requires var b := Classify(s, 0, cfg).lead.before;
             b == [] || (b[|b| - 1] == LF && LineEnding(b) == LineEnding(s))
    ensures Fix(Fix(s, header, cfg).content, header, cfg) == Returns(0, Fix(s, header, cfg).content)
  {
    DetectedEnding(s);
    var before, tail := FirstPass(s, header, cfg);
    SecondRun(Fix(s, header, cfg).content, before, header, tail, cfg, LineEnding(s));
  }

  /** Why the canonical header lines must be trimmed: the header line `a `
      (with a trailing space) is written as `# a \n`, which reads back as
      `a`, so every run reports a rewrite and writes the same bytes again. */
  lemma UntrimmedHeaderNeverSettles(s: Bytes, header: seq<Bytes>, cfg: Config)
    requires s == Untrimmed && header == [[97, SPACE]] && cfg == Config([35, SPACE], [], [])
    ensures Fix(s, header, cfg) == Returns(1, s)
  {
    UntrimmedReadsTrimmed(s, cfg);
    UntrimmedRewrite(Classify(s, 0, cfg).lead, header, cfg.prefix, s[5..]);
  }

  /** `# a \n` */
  const Untrimmed: Bytes := [35, SPACE, 97, SPACE, LF]

  /** The header line `a ` is written back as `# a \n`. */
  lemma UntrimmedWritten(header: seq<Bytes>, prefix: Bytes)
    requires header == [[97, SPACE]] && prefix == [35, SPACE]
    ensures HeaderBlock(header, prefix, LF_ENDING) == Untrimmed
  {
    assert header[1..] == [];
  }

  /** What the loop reads from `# a \n` is not the header `a `, and the
      rewrite writes `# a \n` again. */
  lemma UntrimmedRewrite(lead: Leading, header: seq<Bytes>, prefix: Bytes, rem: Bytes)
    requires lead == Leading([], [[97]], []) && header == [[97, SPACE]]
    requires prefix == [35, SPACE] && rem == []
    ensures !Conforms(lead, rem, header, LF_ENDING)
    ensures Rewrite(lead, header, prefix, LF_ENDING, rem) == Untrimmed
  {
    assert lead.header[0] != header[0];
    UntrimmedWritten(header, prefix);
  }

  /** The loop reads `# a \n` as the header line `a`. */
  lemma UntrimmedReadsTrimmed(s: Bytes, cfg: Config)
    requires s == Untrimmed && cfg == Config([35, SPACE], [], [])
    ensures Classify(s, 0, cfg) == Stops(Leading([], [[97]], []), 5)
    ensures LineEnding(s) == LF_ENDING
  {
    UntrimmedLine(s, cfg);
    assert Classify(s, 5, cfg) == Stops(Nothing, 5);
  }

  /** `# a \n` is one line, it satisfies the loop guard, and its text is `a`. */
  lemma UntrimmedLine(s: Bytes, cfg: Config)
    requires s == Untrimmed && cfg == Config([35, SPACE], [], [])
    ensures LineEnd(s, 0) == 5 && s[0..5] == s && !EndsWith(s, CRLF_ENDING)
    ensures Continues(s, cfg) && KindOf(s, cfg) == HeaderText([97])
  {
    assert StartsWith(s, cfg.prefix);
    assert LineEnd(s, 0) == 5;
    assert s[2..] == [97] + [SPACE, LF];
    StripTrailingSpace([97], [SPACE, LF]);
  }
}
