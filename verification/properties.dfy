/** What `fix_file` promises about a single call: when it loops for ever,
    how the leading lines are sorted, when it leaves the file alone, and what
    the rewritten file looks like. */
module FixProperties {
  import opened Bytes
  import opened Lines
  import opened HeaderFix

  /** `b` is a run of lines each starting with a keep-before prefix. */
  predicate KeepBeforeLines(b: Bytes, cfg: Config)
    decreases |b|
  {
    b == [] ||
    var e := LineEnd(b, 0);
    StartsWithAny(b[..e], cfg.keepBefore) && KeepBeforeLines(b[e..], cfg)
  }

  /** `a` is a run of lines each starting with the comment prefix and with a
      keep-after prefix, and with no keep-before prefix. */
  predicate KeepAfterLines(a: Bytes, cfg: Config)
    decreases |a|
  {
    a == [] ||
    var e := LineEnd(a, 0);
    && StartsWith(a[..e], cfg.prefix)
    && !StartsWithAny(a[..e], cfg.keepBefore)
    && StartsWithAny(a[..e], cfg.keepAfter)
    && KeepAfterLines(a[e..], cfg)
  }

  /** The line `readline()` returns inside the file is either a complete line
      or the unterminated last piece of the file. */
  lemma LineShape(s: Bytes, i: nat)
    requires i < |s|
    ensures IsLine(ReadLine(s, i)) || LineEnd(s, i) == |s|
    ensures var l := ReadLine(s, i); forall k :: 0 <= k < |l| - 1 ==> l[k] != LF
  {
    var l := ReadLine(s, i);
    forall k | 0 <= k < |l| - 1
      ensures l[k] != LF
    {
      assert l[k] == s[i + k];
    }
  }

  /** Reading the first line of `l + t` gives back `l` when `l` is a complete
      line, or when `l` has no `\n` before its end and nothing follows it. */
  lemma FirstLineOf(l: Bytes, t: Bytes)
    requires l != []
    requires IsLine(l) || (t == [] && forall k :: 0 <= k < |l| - 1 ==> l[k] != LF)
    ensures LineEnd(l + t, 0) == |l|
  {
    if IsLine(l) {
      assert (l + t)[0..|l|] == l;
      ReadsLine(l + t, 0, l);
    } else {
      assert l + t == l;
    }
  }

  /** Putting a line with a keep-before prefix in front of a run of such
      lines gives a run of such lines, as long as the line is complete or
      nothing follows it. */
  lemma PrependKeepBefore(line: Bytes, b: Bytes, cfg: Config)
    requires line != [] && StartsWithAny(line, cfg.keepBefore)
    requires IsLine(line) || (b == [] && forall k :: 0 <= k < |line| - 1 ==> line[k] != LF)
    requires KeepBeforeLines(b, cfg)
    ensures KeepBeforeLines(line + b, cfg)
  {
    FirstLineOf(line, b);
    assert (line + b)[..|line|] == line && (line + b)[|line|..] == b;
  }

  /** The same for the kept-after lines. */
  lemma PrependKeepAfter(line: Bytes, a: Bytes, cfg: Config)
    requires line != [] && StartsWith(line, cfg.prefix)
    requires !StartsWithAny(line, cfg.keepBefore) && StartsWithAny(line, cfg.keepAfter)
    requires IsLine(line) || (a == [] && forall k :: 0 <= k < |line| - 1 ==> line[k] != LF)
    requires KeepAfterLines(a, cfg)
    ensures KeepAfterLines(line + a, cfg)
  {
    FirstLineOf(line, a);
    assert (line + a)[..|line|] == line && (line + a)[|line|..] == a;
  }

  /** One step of the loop, unfolded: when the line at `i` satisfies the guard
      and is not the end of the file, what the loop does from `i` is take that
      line in front of what it does from the next line on. */
  lemma ClassifyStep(s: Bytes, i: nat, cfg: Config)
    requires i < |s|
    requires Continues(ReadLine(s, i), cfg)
    ensures Classify(s, i, cfg) == TakeFirst(ReadLine(s, i), cfg, Classify(s, LineEnd(s, i), cfg))
  {
  }

  /** Every line read from `i` up to `j` satisfies the loop guard, and `j` is
      a line boundary. */
  predicate Guarded(s: Bytes, i: nat, j: nat, cfg: Config)
    requires i <= j <= |s|
    decreases j - i
  {
    i == j ||
    var e := LineEnd(s, i);
    e <= j && Continues(s[i..e], cfg) && Guarded(s, e, j, cfg)
  }

  /** The loop stops at the first line that fails the guard: every line
      before the stopping offset satisfies it, and the line there does not. */
  lemma {:induction false} ClassifyStopsAtFirstMismatch(s: Bytes, i: nat, cfg: Config)
    requires i <= |s|
    requires Classify(s, i, cfg).Stops?
    ensures Guarded(s, i, Classify(s, i, cfg).rest, cfg)
    ensures !Continues(ReadLine(s, Classify(s, i, cfg).rest), cfg)
    decreases |s| - i
  {
    if Continues(ReadLine(s, i), cfg) {
      assert i < |s|;
      ClassifyStep(s, i, cfg);
      ClassifyStopsAtFirstMismatch(s, LineEnd(s, i), cfg);
    }
  }

  /** The loop sorts lines with keep-before first: the kept-before bytes are
      lines starting with a keep-before prefix, and the kept-after bytes are
      lines starting with the comment prefix and a keep-after prefix but no
      keep-before prefix. Both come out of the part of the file the loop
      read. */
  lemma {:induction false} ClassifySortsLines(s: Bytes, i: nat, cfg: Config)
    requires i <= |s|
    requires Classify(s, i, cfg).Stops?
    ensures KeepBeforeLines(Classify(s, i, cfg).lead.before, cfg)
    ensures KeepAfterLines(Classify(s, i, cfg).lead.after, cfg)
    ensures |Classify(s, i, cfg).lead.before| + |Classify(s, i, cfg).lead.after|
            <= Classify(s, i, cfg).rest - i
    decreases |s| - i
  {
    var line := ReadLine(s, i);
    if Continues(line, cfg) {
      assert i < |s|;
      ClassifyStep(s, i, cfg);
      var j := LineEnd(s, i);
      ClassifySortsLines(s, j, cfg);
      var lead := Classify(s, j, cfg).lead;
      LineShape(s, i);
      if !IsLine(line) {
        assert Classify(s, j, cfg) == Stops(Nothing, j);
        assert lead == Nothing;
      }
      match KindOf(line, cfg)
      case KeepBefore =>
        PrependKeepBefore(line, lead.before, cfg);
      case KeepAfter =>
        assert StartsWith(line, cfg.prefix);
        PrependKeepAfter(line, lead.after, cfg);
      case HeaderText(_) =>
    }
  }

  /** `\n` or `\r\n`, the only endings the fixer ever adopts. */
  predicate IsEnding(le: Bytes) {
    le == LF_ENDING || le == CRLF_ENDING
  }

  /** The detected line ending is one of the two. */
  lemma DetectedEnding(s: Bytes)
    ensures IsEnding(LineEnding(s))
  {
  }

  /** Every kept-before line comes before what the loop collects later. */
  function WithBefore(b: Bytes, r: Scan): Scan {
    match r
    case NeverStops => NeverStops
    case Stops(lead, rest) => Stops(lead.(before := b + lead.before), rest)
  }

  /** Every kept-after line comes before what the loop keeps after later. */
  function WithAfter(a: Bytes, r: Scan): Scan {
    match r
    case NeverStops => NeverStops
    case Stops(lead, rest) => Stops(lead.(after := a + lead.after), rest)
  }

  /** The header lines come before what the loop collects later. */
  function WithHeader(hs: seq<Bytes>, r: Scan): Scan {
    match r
    case NeverStops => NeverStops
    case Stops(lead, rest) => Stops(lead.(header := hs + lead.header), rest)
  }

  /** A kept-before line taken in front of a run of kept-before lines. */
  lemma TakeBeforeFirst(line: Bytes, more: Bytes, cfg: Config, r: Scan)
    requires Continues(line, cfg) && KindOf(line, cfg) == KeepBefore
    ensures TakeFirst(line, cfg, WithBefore(more, r)) == WithBefore(line + more, r)
  {
    match r
    case NeverStops =>
    case Stops(lead, rest) =>
      assert line + (more + lead.before) == (line + more) + lead.before;
  }

  /** A kept-after line taken in front of a run of kept-after lines. */
  lemma TakeAfterFirst(line: Bytes, more: Bytes, cfg: Config, r: Scan)
    requires Continues(line, cfg) && KindOf(line, cfg) == KeepAfter
    ensures TakeFirst(line, cfg, WithAfter(more, r)) == WithAfter(line + more, r)
  {
    match r
    case NeverStops =>
    case Stops(lead, rest) =>
      assert line + (more + lead.after) == (line + more) + lead.after;
  }

  /** A header line taken in front of the rest of the header lines. */
  lemma TakeHeaderFirst(line: Bytes, hs: seq<Bytes>, cfg: Config, r: Scan)
    requires hs != []
    requires Continues(line, cfg) && KindOf(line, cfg) == HeaderText(hs[0])
    ensures TakeFirst(line, cfg, WithHeader(hs[1..], r)) == WithHeader(hs, r)
  {
    match r
    case NeverStops =>
    case Stops(lead, rest) =>
      assert [hs[0]] + (hs[1..] + lead.header) == hs + lead.header;
  }

  /** Every one of `ls` is a complete line. */
  predicate AllLines(ls: seq<Bytes>)
    decreases |ls|
  {
    ls == [] || (IsLine(ls[0]) && AllLines(ls[1..]))
  }

  /** Every one of `ls` starts with a keep-before prefix. */
  predicate AllKeptBefore(ls: seq<Bytes>, cfg: Config)
    decreases |ls|
  {
    ls == [] || (StartsWithAny(ls[0], cfg.keepBefore) && AllKeptBefore(ls[1..], cfg))
  }

  /** Every one of `ls` starts with the comment prefix and a keep-after
      prefix, and with no keep-before prefix. */
  predicate AllKeptAfter(ls: seq<Bytes>, cfg: Config)
    decreases |ls|
  {
    ls == [] ||
    (&& StartsWith(ls[0], cfg.prefix) && !StartsWithAny(ls[0], cfg.keepBefore)
     && StartsWithAny(ls[0], cfg.keepAfter) && AllKeptAfter(ls[1..], cfg))
  }

  /** The loop reads the lines `ls` as the header text `hs`, one for one. */
  predicate ReadAsHeader(ls: seq<Bytes>, hs: seq<Bytes>, cfg: Config)
    decreases |ls|
  {
    |ls| == |hs| &&
    (ls == [] ||
     (Continues(ls[0], cfg) && KindOf(ls[0], cfg) == HeaderText(hs[0])
      && ReadAsHeader(ls[1..], hs[1..], cfg)))
  }

  /** From `i` to `j` the stream holds the lines `ls`: `readline()` returns
      them one after the other. */
  predicate LinesAt(s: Bytes, i: nat, j: nat, ls: seq<Bytes>)
    requires i <= j <= |s|
    decreases |ls|
  {
    if ls == [] then i == j
    else
      var e := LineEnd(s, i);
      i < e <= j && s[i..e] == ls[0] && LinesAt(s, e, j, ls[1..])
  }

  /** Reading kept-before lines: the loop puts them all before the header and
      goes on right after them. */
  lemma {:induction false} ReadBefore(o: Bytes, i: nat, j: nat, ls: seq<Bytes>, cfg: Config)
    requires i <= j <= |o|
    requires LinesAt(o, i, j, ls) && AllKeptBefore(ls, cfg)
    ensures Classify(o, i, cfg) == WithBefore(Concat(ls), Classify(o, j, cfg))
    decreases |ls|
  {
    if ls == [] {
      match Classify(o, i, cfg)
      case NeverStops =>
      case Stops(lead, rest) =>
        assert Concat(ls) + lead.before == lead.before;
    } else {
      var e := LineEnd(o, i);
      ReadBefore(o, e, j, ls[1..], cfg);
      ClassifyStep(o, i, cfg);
      TakeBeforeFirst(ls[0], Concat(ls[1..]), cfg, Classify(o, j, cfg));
    }
  }

  /** Reading kept-after lines: the loop appends them all, verbatim and in
      order, to the lines kept after the header, and goes on right after
      them. */
  lemma {:induction false} ReadAfter(o: Bytes, i: nat, j: nat, ls: seq<Bytes>, cfg: Config)
    requires i <= j <= |o|
    requires LinesAt(o, i, j, ls) && AllKeptAfter(ls, cfg)
    ensures Classify(o, i, cfg) == WithAfter(Concat(ls), Classify(o, j, cfg))
    decreases |ls|
  {
    if ls == [] {
      match Classify(o, i, cfg)
      case NeverStops =>
      case Stops(lead, rest) =>
        assert Concat(ls) + lead.after == lead.after;
    } else {
      var e := LineEnd(o, i);
      ReadAfter(o, e, j, ls[1..], cfg);
      ClassifyStep(o, i, cfg);
      TakeAfterFirst(ls[0], Concat(ls[1..]), cfg, Classify(o, j, cfg));
    }
  }

  /** Reading header lines: the loop sees their text, in order, and goes on
      right after them. */
  lemma {:induction false} ReadHeader(o: Bytes, i: nat, j: nat, ls: seq<Bytes>, hs: seq<Bytes>, cfg: Config)
    requires i <= j <= |o|
    requires LinesAt(o, i, j, ls) && ReadAsHeader(ls, hs, cfg)
    ensures Classify(o, i, cfg) == WithHeader(hs, Classify(o, j, cfg))
    decreases |ls|
  {
    if ls == [] {
      match Classify(o, i, cfg)
      case NeverStops =>
      case Stops(lead, rest) =>
        assert hs + lead.header == lead.header;
    } else {
      var e := LineEnd(o, i);
      ReadHeader(o, e, j, ls[1..], hs[1..], cfg);
      ClassifyStep(o, i, cfg);
      TakeHeaderFirst(ls[0], hs, cfg, Classify(o, j, cfg));
    }
  }

  /** The loop stops at the end of the file, or at a line starting with the
      ending `le`, when the guard holds of neither the empty line nor `le`. */
  lemma StopsAtEnding(o: Bytes, i: nat, cfg: Config, le: Bytes)
    requires i <= |o|
    requires IsEnding(le)
    requires !Continues([], cfg) && !Continues(le, cfg)
    requires i == |o| || StartsWith(o[i..], le)
    ensures Classify(o, i, cfg) == Stops(Nothing, i)
  {
    if i < |o| {
      assert o[i..][..|le|] == o[i..i + |le|];
      ReadsLine(o, i, le);
    }
  }

  /** Keep-before wins: a leading line with a keep-before prefix is kept
      before the header whatever else it starts with. A keep-after prefix
      only matters on a line that also starts with the comment prefix, and
      every other leading line contributes its stripped text after the
      prefix. */
  lemma KindPrecedence(line: Bytes, cfg: Config)
    requires Continues(line, cfg)
    ensures KindOf(line, cfg) == KeepBefore <==> StartsWithAny(line, cfg.keepBefore)
    ensures KindOf(line, cfg) == KeepAfter <==>
              StartsWith(line, cfg.prefix) && !StartsWithAny(line, cfg.keepBefore)
              && StartsWithAny(line, cfg.keepAfter)
    ensures KindOf(line, cfg).HeaderText? <==>
              StartsWith(line, cfg.prefix) && !StartsWithAny(line, cfg.keepBefore)
              && !StartsWithAny(line, cfg.keepAfter)
    ensures KindOf(line, cfg).HeaderText? ==>
              KindOf(line, cfg).text == Strip(line[|cfg.prefix|..])
  {
  }

  /** `fix_file` never returns exactly when the comment prefix or one of the
      keep-before prefixes is empty; otherwise every loop iteration consumes
      a non-empty line. */
  lemma {:induction false} FixNeverReturnsIff(s: Bytes, header: seq<Bytes>, cfg: Config)
    ensures Fix(s, header, cfg).NeverReturns? <==>
              cfg.prefix == [] || exists k :: 0 <= k < |cfg.keepBefore| && cfg.keepBefore[k] == []
  {
    if exists k :: 0 <= k < |cfg.keepBefore| && cfg.keepBefore[k] == [] {
      var k :| 0 <= k < |cfg.keepBefore| && cfg.keepBefore[k] == [];
      assert StartsWith([], cfg.keepBefore[k]);
    }
  }

  /** The no-op case: the status is 0 exactly when the header seen equals the
      canonical one and the remainder is empty or starts with the line
      ending, and then the content is untouched; otherwise the status is 1. */
  lemma FixStatus(s: Bytes, header: seq<Bytes>, cfg: Config)
    requires !Continues([], cfg)
    ensures var sc := Classify(s, 0, cfg);
            var r := Fix(s, header, cfg);
            && r.Returns?
            && (r.status == 0 <==> sc.lead.header == header
                                   && (sc.rest == |s| || StartsWith(s[sc.rest..], LineEnding(s))))
            && (r.status == 0 ==> r.content == s)
            && (r.status != 0 ==> r.status == 1)
  {
  }

  /** The layout of a rewritten file: the kept-before bytes first, verbatim;
      then the canonical header block; the remainder last, verbatim; and
      what lies between header block and remainder is either nothing or
      starts with the line ending. */
  lemma RewriteShape(lead: Leading, header: seq<Bytes>, prefix: Bytes, le: Bytes, rem: Bytes)
    ensures var o := Rewrite(lead, header, prefix, le, rem);
            var head := lead.before + HeaderBlock(header, prefix, le);
            && StartsWith(o, head)
            && EndsWith(o, rem)
            && (o[|head|..] == [] || StartsWith(o[|head|..], le))
  {
    var head := lead.before + HeaderBlock(header, prefix, le);
    var mid := Between(lead.after, le, rem);
    assert Rewrite(lead, header, prefix, le, rem) == head + (mid + rem);
    Split(head, mid + rem);
    Split(head + mid, rem);
    BetweenStartsWithEnding(lead.after, le, rem);
  }

  /** The separator and remainder together are empty or start with the line
      ending. */
  lemma BetweenStartsWithEnding(after: Bytes, le: Bytes, rem: Bytes)
    ensures var t := Between(after, le, rem) + rem; t == [] || StartsWith(t, le)
  {
    var t := Between(after, le, rem) + rem;
    if |after| > 0 {
      assert t == le + (after + Between([], le, rem) + rem);
      Split(le, after + Between([], le, rem) + rem);
    } else if |rem| > 0 && !StartsWith(rem, le) {
      assert t == le + rem;
      Split(le, rem);
    }
  }

  /** A concatenation starts with its first part and ends with its second. */
  lemma Split(x: Bytes, y: Bytes)
    ensures StartsWith(x + y, x) && EndsWith(x + y, y) && (x + y)[|x|..] == y
  {
    assert (x + y)[..|x|] == x;
    assert (x + y)[|x|..] == y;
  }

  /** The rewritten file keeps the kept-before bytes as its beginning and the
      remainder of the original file (from the line that ended the loop to
      the end) as its end, with the canonical header block, each line the
      prefix, the entry and the detected line ending, right after the
      kept-before bytes and followed by nothing or the line ending. */
  lemma FixRewriteShape(s: Bytes, header: seq<Bytes>, cfg: Config)
    requires Fix(s, header, cfg).Returns? && Fix(s, header, cfg).status == 1
    ensures Classify(s, 0, cfg).Stops?
    ensures var sc := Classify(s, 0, cfg);
            var o := Fix(s, header, cfg).content;
            var head := sc.lead.before + HeaderBlock(header, cfg.prefix, LineEnding(s));
            && StartsWith(o, head)
            && EndsWith(o, s[sc.rest..])
            && (o[|head|..] == [] || StartsWith(o[|head|..], LineEnding(s)))
  {
    var sc := Classify(s, 0, cfg);
    FixRewrites(s, header, cfg);
    RewriteShape(sc.lead, header, cfg.prefix, LineEnding(s), s[sc.rest..]);
  }

  /** The rewritten file in full: the kept-before bytes, the header block,
      the line ending and the kept-after bytes when there are any, the ending
      when the remainder is not empty and does not already start with it,
      and the remainder. */
  lemma FixRewriteLayout(s: Bytes, header: seq<Bytes>, cfg: Config)
    requires Fix(s, header, cfg).Returns? && Fix(s, header, cfg).status == 1
    ensures Classify(s, 0, cfg).Stops?
    ensures var sc := Classify(s, 0, cfg);
            var le := LineEnding(s);
            var rem := s[sc.rest..];
            Fix(s, header, cfg).content
            == sc.lead.before + HeaderBlock(header, cfg.prefix, le)
               + (if |sc.lead.after| > 0 then le + sc.lead.after else [])
               + (if |rem| > 0 && !StartsWith(rem, le) then le else [])
               + rem
  {
    FixRewrites(s, header, cfg);
  }

  /** A call that reports status 1 wrote `Rewrite` of what the loop collected. */
  lemma FixRewrites(s: Bytes, header: seq<Bytes>, cfg: Config)
    requires Fix(s, header, cfg).Returns? && Fix(s, header, cfg).status == 1
    ensures Classify(s, 0, cfg).Stops?
    ensures var sc := Classify(s, 0, cfg);
            Fix(s, header, cfg).content
            == Rewrite(sc.lead, header, cfg.prefix, LineEnding(s), s[sc.rest..])
  {
  }

  /** An empty file with a non-empty canonical header becomes exactly the
      header block, written with `\n` endings and nothing after it; with an
      empty canonical header it is left alone. */
  lemma FixEmptyFile(header: seq<Bytes>, cfg: Config)
    requires !Continues([], cfg)
    ensures header != [] ==> Fix([], header, cfg) == Returns(1, HeaderBlock(header, cfg.prefix, [LF]))
    ensures header == [] ==> Fix([], header, cfg) == Returns(0, [])
  {
    assert LineEnding([]) == [LF];
  }
}
