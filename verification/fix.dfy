/** `fix_file`: classify the leading comment block of a file and, when it is
    not the canonical header followed by the line ending, rewrite the file with
    the canonical header in its place.

    The file is an immutable byte string; the rewrite is a new byte string.
    Python's `readline()` loop becomes the recursive `Classify`, whose result
    is built from the end backwards so that every list keeps file order. */
module HeaderFix {
  import opened Bytes
  import opened Lines

  /** The parameters of one call: the comment prefix (the command line
      builds it as the comment marker followed by a space) and the two lists
      of keep prefixes. */
  datatype Config = Config(prefix: Bytes, keepBefore: seq<Bytes>, keepAfter: seq<Bytes>)

  /** `any([line.startswith(p) for p in ps])` */
  predicate StartsWithAny(line: Bytes, ps: seq<Bytes>) {
    exists k :: 0 <= k < |ps| && StartsWith(line, ps[k])
  }

  /** The loop guard: the line starts with the comment prefix or with a
      keep-before prefix. The keep-after prefixes are not part of it. */
  predicate Continues(line: Bytes, cfg: Config) {
    StartsWith(line, cfg.prefix) || StartsWithAny(line, cfg.keepBefore)
  }

  /** Where the loop body puts a line. */
  datatype Kind = KeepBefore | KeepAfter | HeaderText(text: Bytes)

  /** The loop body's three-way choice, keep-before first, then keep-after,
      else the line is header text with the prefix cut off and `strip()`ped. */
  function KindOf(line: Bytes, cfg: Config): Kind
    requires Continues(line, cfg)
  {
    if StartsWithAny(line, cfg.keepBefore) then KeepBefore
    else if StartsWithAny(line, cfg.keepAfter) then KeepAfter
    else HeaderText(Strip(line[|cfg.prefix|..]))
  }

  /** What the loop collects: the kept lines before the header (verbatim),
      the header text seen (one entry per line), the kept lines after it
      (verbatim). */
  datatype Leading = Leading(before: Bytes, header: seq<Bytes>, after: Bytes)

  const Nothing: Leading := Leading([], [], [])

  /** One loop iteration, seen from the end: the line read now goes in front
      of whatever the later iterations collect. */
  function Take(line: Bytes, cfg: Config, lead: Leading): Leading
    requires Continues(line, cfg)
  {
    match KindOf(line, cfg)
    case KeepBefore => lead.(before := line + lead.before)
    case KeepAfter => lead.(after := line + lead.after)
    case HeaderText(t) => lead.(header := [t] + lead.header)
  }

  /** The loop either runs for ever or stops at offset `rest`; the
      remainder of the file is then `s[rest..]`. */
  datatype Scan = NeverStops | Stops(lead: Leading, rest: nat)

  /** The line read now, taken in front of what the rest of the loop does. */
  function TakeFirst(line: Bytes, cfg: Config, r: Scan): Scan
    requires Continues(line, cfg)
  {
    match r
    case NeverStops => NeverStops
    case Stops(lead, rest) => Stops(Take(line, cfg, lead), rest)
  }

  /** A guard that holds of the empty line holds of every line: `b''` only
      starts with `b''`, and every line starts with `b''`. */
  lemma EmptyGuardHoldsEverywhere(line: Bytes, cfg: Config)
    ensures Continues([], cfg) ==> Continues(line, cfg)
  {
    if Continues([], cfg) && !StartsWith([], cfg.prefix) {
      var k :| 0 <= k < |cfg.keepBefore| && StartsWith([], cfg.keepBefore[k]);
      assert StartsWith(line, cfg.keepBefore[k]);
    }
  }

  /** The classification loop run from offset `i`. At the end of the file
      `readline()` returns `b''`; if the guard holds of that, the loop reads
      `b''` again and again and never exits. */
  function Classify(s: Bytes, i: nat, cfg: Config): (r: Scan)
    requires i <= |s|
    ensures r.NeverStops? <==> Continues([], cfg)
    ensures r.Stops? ==> i <= r.rest <= |s|
    decreases |s| - i
  {
    var j := LineEnd(s, i);
    var line := s[i..j];
    if !Continues(line, cfg) then
      EmptyGuardHoldsEverywhere(line, cfg);
      Stops(Nothing, i)
    else if j == i then NeverStops
    else TakeFirst(line, cfg, Classify(s, j, cfg))
  }

  /** The outcome of `fix_file`: it never returns, or it returns the status
      (0 unchanged, 1 rewritten) and the file's content afterwards. */
  datatype Outcome = NeverReturns | Returns(status: int, content: Bytes)

  /** The canonical header as written: each line prefixed and ended with the
      detected line ending. */
  function HeaderBlock(header: seq<Bytes>, prefix: Bytes, le: Bytes): Bytes {
    if header == [] then [] else prefix + header[0] + le + HeaderBlock(header[1..], prefix, le)
  }

  /** The no-op test: the header seen is the canonical one, and the rest of
      the file is empty or starts with the detected line ending. */
  predicate Conforms(lead: Leading, rem: Bytes, header: seq<Bytes>, le: Bytes) {
    lead.header == header && (rem == [] || StartsWith(rem, le))
  }

  /** What the rewrite puts between the header block and the remainder: the
      line ending and the kept-after lines when there are any, then the line
      ending unless the remainder is empty or already starts with it. */
  function Between(after: Bytes, le: Bytes, rem: Bytes): Bytes {
    (if |after| > 0 then le + after else [])
    + (if |rem| > 0 && !StartsWith(rem, le) then le else [])
  }

  /** The file written on a mismatch: kept-before lines, the canonical
      header, the separator and kept-after lines, and the remainder. */
  function Rewrite(lead: Leading, header: seq<Bytes>, prefix: Bytes, le: Bytes, rem: Bytes): Bytes {
    lead.before + HeaderBlock(header, prefix, le) + Between(lead.after, le, rem) + rem
  }

  /** `fix_file(f, header_lines, prefix, keep_before, keep_after)` on a file
      whose content is `s`. */
  function Fix(s: Bytes, header: seq<Bytes>, cfg: Config): (r: Outcome)
    ensures r.NeverReturns? <==> Continues([], cfg)
    ensures r.Returns? ==> r.status == 0 || r.status == 1
    ensures r.Returns? && r.status == 0 ==> r.content == s
  {
    var le := LineEnding(s);
    match Classify(s, 0, cfg)
    case NeverStops => NeverReturns
    case Stops(lead, rest) =>
      var rem := s[rest..];
      if Conforms(lead, rem, header, le) then Returns(0, s)
      else Returns(1, Rewrite(lead, header, cfg.prefix, le, rem))
  }
}
