/** What the command line contributes to `fix_file`: the comment prefix it
    builds from `--comment-prefix`, and the exit status it folds from the
    statuses of the files it fixes. */
module Entry {
  import opened Bytes
  import opened HeaderFix

  /** The default `--comment-prefix`, `#`. */
  const DefaultMarker: Bytes := [35]

  /** The prefix handed to `fix_file`: the comment marker and one space. */
  function CommentPrefix(marker: Bytes): (p: Bytes)
    ensures |p| == |marker| + 1 && p != []
    ensures StartsWith(p, marker) && p[|p| - 1] == SPACE
  {
    marker + [SPACE]
  }

  /** Without `--comment-prefix`, header lines are written and recognised
      by the prefix `# `. */
  lemma DefaultPrefix()
    ensures CommentPrefix(DefaultMarker) == [35, SPACE]
  {
  }

  /** With a prefix built by the command line, the loop guard holds of the
      empty line, and so `fix_file` never returns, exactly when one of the
      `--keep-before` strings is empty. */
  lemma CommandLineGuard(marker: Bytes, header: seq<Bytes>, keepBefore: seq<Bytes>, keepAfter: seq<Bytes>, s: Bytes)
    ensures var cfg := Config(CommentPrefix(marker), keepBefore, keepAfter);
            && (Continues([], cfg) <==> exists k :: 0 <= k < |keepBefore| && keepBefore[k] == [])
            && (Fix(s, header, cfg).NeverReturns? <==> exists k :: 0 <= k < |keepBefore| && keepBefore[k] == [])
  {
    var cfg := Config(CommentPrefix(marker), keepBefore, keepAfter);
    assert !StartsWith([], cfg.prefix);
    if k :| 0 <= k < |keepBefore| && keepBefore[k] == [] {
      assert StartsWith([], keepBefore[k]);
    }
  }

  /** `a | b` on two statuses, each 0 or 1. */
  function Or(a: int, b: int): int {
    if a == 1 || b == 1 then 1 else 0
  }

  /** The exit status: 0, with `return_value |= status` for each file in
      turn. */
  function ExitCode(statuses: seq<int>): (code: int)
    ensures code == 0 || code == 1
  {
    if statuses == [] then 0
    else Or(ExitCode(statuses[..|statuses| - 1]), statuses[|statuses| - 1])
  }

  /** The exit status is 1 exactly when some file was rewritten. */
  lemma {:induction false} ExitCodeIsAny(statuses: seq<int>)
    requires forall i :: 0 <= i < |statuses| ==> statuses[i] == 0 || statuses[i] == 1
    ensures ExitCode(statuses) == 1 <==> exists i :: 0 <= i < |statuses| && statuses[i] == 1
  {
    if statuses != [] {
      var init := statuses[..|statuses| - 1];
      ExitCodeIsAny(init);
      if i :| 0 <= i < |init| && init[i] == 1 {
        assert statuses[i] == 1;
      }
      if i :| 0 <= i < |statuses| && statuses[i] == 1 {
        if i < |init| {
          assert init[i] == 1;
        }
      }
    }
  }
}
