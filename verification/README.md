# fix-license-header in Dafny

A model of `fix_file`, the routine at the heart of the `fix-license-header`
pre-commit hook, and proofs about it. `fix_file` reads a file's leading
comment block line by line and sorts its lines three ways:
- kept-before lines, which start with a `--keep-before` prefix;
- kept-after lines, which start with the comment prefix and a `--keep-after` prefix;
- header text, which is the line with the comment prefix cut off and `strip()`ped.

If the header text equals the canonical header and the rest of the file is
empty or starts with the line ending detected on the first line, the file is
left alone and the status is 0.
Otherwise it rewrites the file as:
1. the kept-before lines;
2. the canonical header, written with the line ending detected on the first line;
3. the line ending and the kept-after lines, if there are any;
4. the detected line ending, unless the rest of the file is empty or already starts with the detected line ending;
5. the rest of the file.

It then returns status 1.

The file is an immutable byte string (`seq<byte>`). `readline()` is a
position in it (`Lines.LineEnd`), and the result of `fix_file` is a value:
either `Returns(status, content)` or `NeverReturns`. The `NeverReturns` case
comes up because the loop never exits when its guard holds of the empty
line that `readline()` returns at the end of the file. From the command
line the model keeps two things:
- the prefix is the comment marker followed by a space;
- the exit status is the OR of the per-file statuses.

Modules, one per file:
- `Bytes` (`bytes.dfy`): byte strings, `startswith`, `endswith`, `strip()`, and lines laid one after the other (`Concat`).
- `Lines` (`lines.dfy`): `readline()` and line-ending detection.
- `HeaderFix` (`fix.dfy`): the classification loop (`Classify`), the rewrite and `Fix` itself.
- `FixProperties` (`properties.dfy`): what one call promises.
- `Idempotence` (`idempotence.dfy`): a second call on the rewritten file changes nothing.
- `Entry` (`entry.dfy`): the comment prefix and the exit status of `main`.

Two details of the code matter throughout:
- `strip()` removes ASCII whitespace at both ends of a header line (line 43).
- The comment marker defaults to `#` (line 100), so the default prefix is `# `.

Idempotence holds only under conditions that the code does not check. Each
canonical header line must read back as itself:
- it is already trimmed;
- it has no `\n`, and the comment prefix has no `\n` either;
- its written line has no `\r` right before the ending;
- its written line starts with no keep prefix.

The line ending must not satisfy the loop guard. The kept-before lines must
end with `\n` and have the detected line ending. Without the trimming
condition, a header line such as `a ` (from `--add "a "`) is written as
`# a \n` and read back as `a`. Every run then reports a rewrite of the same
bytes (`Idempotence.UntrimmedHeaderNeverSettles`).

## Model

| member | source | states |
|---|---|---|
| Bytes.Strip | fix_license_header/fix_license_header.py:43 | `strip()` gives a result with no ASCII whitespace at either end, cut out of the input with only whitespace removed before and after it |
| Bytes.StripFixedPoint | fix_license_header/fix_license_header.py:43 | `strip()` leaves a string unchanged exactly when it has no whitespace at either end |
| Bytes.StripTrailingSpace | fix_license_header/fix_license_header.py:43 | a trimmed string followed by whitespace (such as a line ending) strips back to itself |
| Lines.LineEnd | fix_license_header/fix_license_header.py:27 | `readline()` from a position stops just past the first `\n`, or at the end of the file; it makes progress unless at the end |
| Lines.ReadsLine | fix_license_header/fix_license_header.py:44 | where the file holds a complete line, `readline()` returns exactly that line |
| Lines.LineEndingIsFirstNewline | fix_license_header/fix_license_header.py:27-31 | the line ending is `\r\n` exactly when the first `\n` of the file follows a `\r`, and `\n` otherwise, including for an empty file |
| Lines.LineEndingOfPrefix | fix_license_header/fix_license_header.py:27-31 | only the first line decides the line ending; bytes after it do not matter |
| Lines.LineEnding | fix_license_header/fix_license_header.py:27-31 | the ending used for written lines: `\r\n` when the line `readline()` returns first ends with `\r\n`, else `\n`; `LineEndingIsFirstNewline` characterises it independently |
| Lines.ReadLine | fix_license_header/fix_license_header.py:27 | `readline()`: the bytes from a position up to and including the next `\n`, or to the end of the file; `LineEnd`, `ReadsLine` and `LineShape` state what it returns |
| HeaderFix.Continues | fix_license_header/fix_license_header.py:36-37 | the loop guard: the line starts with the comment prefix or a keep-before prefix, and keep-after prefixes play no part; `EmptyGuardHoldsEverywhere` and `FixNeverReturnsIff` state when it holds of the empty line |
| HeaderFix.Take | fix_license_header/fix_license_header.py:38-43 | one loop iteration's accumulation: the line is appended to the kept-before or kept-after bytes, or its text to the header list; `ReadBefore`, `ReadAfter` and `ReadHeader` state what whole runs of lines contribute |
| HeaderFix.KindOf | fix_license_header/fix_license_header.py:38-43 | the loop body's three-way choice for a line that passed the guard: keep-before, else keep-after, else the stripped text after the prefix; `KindPrecedence` states each of the three outcomes as an if-and-only-if |
| HeaderFix.Conforms | fix_license_header/fix_license_header.py:50-51 | the no-op test: the header seen equals the canonical one and the remainder is empty or starts with the line ending; `SecondRun` shows which files pass it |
| HeaderFix.HeaderBlock | fix_license_header/fix_license_header.py:58-59 | the canonical header as written, each entry preceded by the prefix and followed by the line ending; `HeaderBlockLines` and `WrittenLinesRead` show how it reads back |
| HeaderFix.Between | fix_license_header/fix_license_header.py:60-64 | what is written between the header block and the remainder: the line ending and the kept-after bytes when there are any, then the line ending unless the remainder is empty or starts with the detected line ending |
| HeaderFix.Rewrite | fix_license_header/fix_license_header.py:55-65 | the bytes written on a mismatch: kept-before bytes, header block, `Between`, remainder; `FixRewriteLayout` and `FixRewriteShape` state the result |
| HeaderFix.Classify | fix_license_header/fix_license_header.py:36-44 | the loop never stops exactly when its guard holds of the empty line; otherwise it stops at an offset between its start and the end of the file |
| HeaderFix.Fix | fix_license_header/fix_license_header.py:22-67 | `fix_file` never returns exactly when the guard holds of the empty line; otherwise the status is 0 or 1, and with status 0 the file is unchanged |
| FixProperties.KindPrecedence | fix_license_header/fix_license_header.py:38-43 | a line with a keep-before prefix is kept before, whatever else it starts with; a keep-after line must also start with the comment prefix; every other line contributes its stripped text after the prefix |
| FixProperties.ClassifyStopsAtFirstMismatch | fix_license_header/fix_license_header.py:36-44 | every line the loop reads before stopping satisfies the guard, and the line at the stopping point does not |
| FixProperties.ClassifySortsLines | fix_license_header/fix_license_header.py:36-43 | the kept-before bytes are whole lines with a keep-before prefix; the kept-after bytes are whole lines with the comment prefix and a keep-after prefix but no keep-before prefix; together they are no longer than what the loop read; `ReadBefore`, `ReadAfter` and `ReadHeader` say where each run of lines goes, in order |
| FixProperties.FixNeverReturnsIff | fix_license_header/fix_license_header.py:36-44 | `fix_file` never returns exactly when the comment prefix or some keep-before prefix is empty |
| FixProperties.FixStatus | fix_license_header/fix_license_header.py:50-52 | status 0 holds exactly when the header text seen equals the canonical header and the remainder is empty or starts with the line ending; the file is then unchanged; any other status is 1 |
| FixProperties.RewriteShape | fix_license_header/fix_license_header.py:55-65 | the rewritten bytes start with the kept-before bytes and the header block and end with the remainder; what follows the header block is empty or starts with the line ending |
| FixProperties.BetweenStartsWithEnding | fix_license_header/fix_license_header.py:60-65 | the separator and kept-after lines plus the remainder are empty or start with the line ending |
| FixProperties.FixRewriteShape | fix_license_header/fix_license_header.py:39-65 | on a rewrite, the kept-before lines are a verbatim prefix of the output and the remainder (the line that ended the loop and everything after it) a verbatim suffix; the canonical header block, written with the detected ending, follows the kept-before lines |
| FixProperties.FixRewriteLayout | fix_license_header/fix_license_header.py:55-65 | on a rewrite the output is exactly the kept-before bytes, the header block, the line ending and the kept-after bytes when there are any, the line ending only when the remainder is non-empty and does not start with the line ending, and the remainder |
| FixProperties.FixEmptyFile | fix_license_header/fix_license_header.py:27-65 | an empty file becomes exactly the header block with `\n` endings and nothing after it; with an empty canonical header it is left alone |
| Idempotence.WrittenLinesRead | fix_license_header/fix_license_header.py:43 | each written header line that reads back as itself is classified as header text equal to the canonical line |
| FixProperties.ReadBefore | fix_license_header/fix_license_header.py:38-39 | reading a run of kept-before lines puts them, in order, in front of what the rest of the loop collects |
| FixProperties.ReadAfter | fix_license_header/fix_license_header.py:40-41 | reading a run of kept-after lines appends them, verbatim and in order, in front of the kept-after bytes the rest of the loop collects |
| FixProperties.ReadHeader | fix_license_header/fix_license_header.py:42-43 | reading a run of written header lines contributes their texts, in order, in front of the header the rest of the loop collects |
| FixProperties.StopsAtEnding | fix_license_header/fix_license_header.py:36-37 | when the guard fails on the empty line and on the line ending, the loop stops, with nothing collected, at the end of the file or at a line that starts with the line ending |
| Idempotence.SecondRun | fix_license_header/fix_license_header.py:36-52 | a file made of kept-before lines, the canonical header block and then a tail that is empty or starts with exactly the line ending `le` is left alone with status 0, provided that the header lines read back as themselves, `le` is `\n` or `\r\n`, the loop guard fails on both the empty line and `le`, and the kept-before bytes are lines with a keep-before prefix that are empty or end in `\n` and on which `LineEnding` detects `le` |
| Idempotence.FixIdempotent | fix_license_header/fix_license_header.py:22-67 | when the canonical header lines read back as themselves, a second `fix_file` on the rewritten file reports status 0 and leaves it unchanged |
| Idempotence.UntrimmedHeaderNeverSettles | fix_license_header/fix_license_header.py:43-59 | for the file `# a \n`, the canonical header `a ` (with a trailing space), the prefix `# ` and no keep prefixes, `fix_file` reports status 1 and writes back exactly the same bytes, so every later run does the same |
| Entry.CommentPrefix | fix_license_header/fix_license_header.py:131 | the prefix is the comment marker followed by one space, so it is never empty |
| Entry.DefaultPrefix | fix_license_header/fix_license_header.py:97-100 | without `--comment-prefix` the prefix is `# ` |
| Entry.CommandLineGuard | fix_license_header/fix_license_header.py:131 | with the command line's prefix, `fix_file` never returns exactly when some `--keep-before` string is empty |
| Entry.ExitCode | fix_license_header/fix_license_header.py:125-134 | the exit status is 0 or 1 |
| Entry.ExitCodeIsAny | fix_license_header/fix_license_header.py:125-134 | the exit status is 1 exactly when some file's status is 1 |

## Left out

- Argument parsing in `main` (lines 72-102) is not modelled. The model takes the prefix and the keep lists as values.
- Reading the canonical header from the license file (lines 105-111) and from `--add` (lines 113-115) is not modelled. `Fix` takes the header as a list of byte strings.
- UTF-8 encoding of command-line strings (lines 115-131) is not modelled. Every string is already bytes.
- Printing the names of updated files (line 136) and `sys.exit` (line 138) are I/O. `Entry.ExitCode` computes the status that is passed to `sys.exit`.
- `seek`, `truncate` and `write` on the open file (lines 55-65) become the returned content. The model does not cover a failure part-way through the write, which would leave the file truncated.
- A loop that never exits is the outcome `NeverReturns`, not a hang.
- Idempotence.FixIdempotent: holds only for canonical header lines that read back as themselves, for a line ending that fails the loop guard, and for kept-before lines that end in `\n` with the detected ending. The code promises nothing here, and `Idempotence.UntrimmedHeaderNeverSettles` shows a case that breaks it.
