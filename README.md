# Conflict resolution and lint filtering, modelled in Dafny

This project models two small tools from a repository of developer scripts.
It proves properties of both models.

- **resolve-conflicts.py** edits a file that contains Git conflict blocks in
  the `diff3` layout. The layout is:
  - `<<<<<<<`;
  - the "ours" lines (parent 1);
  - an optional `|||||||` line followed by the base;
  - `=======`;
  - the "theirs" lines (parent 2);
  - `>>>>>>>`.

  The tool runs with exactly one mode: `--adjacent_lines`, `--blank_lines`
  or `--java_imports`. It copies the file line by line. Each block that the
  mode's strategy can merge is replaced by the merged lines. Everything else
  is kept as it is.
- **lint-diff.py** reads a unified diff and records which new-file lines of
  which files were added. It then prints only the lint messages
  (`file:N:...`) that point at such a line. Its exit status is 1 when it
  printed something and 0 otherwise.

The modules follow the programs:

| module | models |
|---|---|
| `Lines` | lines as strings, `Option`, `str.startswith`, two sequence facts |
| `ConflictScanner` | `looking_at_conflict` (the block grammar and its diagnostics) |
| `Subsequences` | `issubsequence` (proved equivalent to the existence of an increasing placement) |
| `MergeStrategies` | `merge`, `merge_edits_on_different_lines`, `merge_base_is_prefix_or_suffix`, `all_import_lines` |
| `Rewriter` | the rewrite loop of `main`, and the program as written (see Findings) |
| `DiffText` | the three regular expressions of lint-diff.py, as recognisers with round trips |
| `LintDiff` | the diff loop that builds `changed`, the lint loop, and the exit status |

Each imperative part of the source is a Dafny method with a loop. Its
`ensures` ties its result to a specification function:
- `LookingAtConflict` is specified by `ConflictAt`;
- `MergeEditsOnDifferentLines` by `AdjacentLinesMerge`;
- `IsSubsequence` by `Subsequence`;
- `ResolveConflicts` by `Rewritten`;
- `TrackChanges` by `Track`;
- `FilterLint` by `Reports`.

The lemmas state what the source promises about those functions.

What the model takes as input:
- The selected option is a `Mode` parameter.
- A file is a `seq<Line>`; each line keeps its terminator, as `readlines`
  returns it.
- The rewritten file is returned as a sequence instead of being written to
  a temporary file.
- The diff and the lint output are sequences of lines.
- What gets printed is returned as a sequence, and the exit status as a
  number.

## Model

| member | source | states |
|---|---|---|
| ConflictScanner.LookingAtConflict | resolve-conflicts.py:95-153 | the scanner's result is `ConflictAt`: not a conflict, a malformed block with the reason, or the block found |
| ConflictScanner.ScanBase | resolve-conflicts.py:119-134 | after "ours" ends at `sep`, the optional base section is collected as `AfterOurs` describes |
| ConflictScanner.ScanTheirs | resolve-conflicts.py:135-153 | after the `=======` line, "theirs" is collected and `num_lines` is `index - start_index`, as `AfterBase` describes |
| ConflictScanner.CollectSection | resolve-conflicts.py:106-110 | each collecting loop gathers exactly the lines before the first line that ends the section, and stops at that line or at the end of the file |
| ConflictScanner.Find | resolve-conflicts.py:106-110 | the index where a section ends is the first later line that ends it, or the end of the file |
| ConflictScanner.FindIs | resolve-conflicts.py:106-110 | that first index is unique: any index with those properties is it |
| ConflictScanner.ConflictAt | resolve-conflicts.py:95-105 | not a conflict exactly when the line does not start with `<<<<<<<` or is the last line; a found block spans at least 3 lines and lies inside the file |
| ConflictScanner.AfterOurs | resolve-conflicts.py:119-153 | once a block has opened, the outcome is never "not a conflict"; a found block spans at least 3 lines |
| ConflictScanner.AfterBase | resolve-conflicts.py:127-153 | from the `=======` line on (the end of the base section, or the end of "ours" when there is none), the outcome is never "not a conflict", and a found block spans at least 3 lines and ends within the file |
| ConflictScanner.AfterTheirs | resolve-conflicts.py:140-153 | once "theirs" has ended (at a `>>>>>>>` line or at the end of the file), the outcome is never "not a conflict", and a found block spans at least 3 lines and ends within the file |
| ConflictScanner.FoundHasLayout | resolve-conflicts.py:98-153 | a found block is in the marker layout: "ours", the base and "theirs" are exactly the lines strictly between their markers; the base is empty without `|||||||`; `num_lines` counts the lines from `<<<<<<<` through `>>>>>>>` |
| ConflictScanner.LayoutIsFound | resolve-conflicts.py:98-153 | conversely, lines in the marker layout are scanned as exactly that block |
| ConflictScanner.SectionIsFound | resolve-conflicts.py:106-150 | a section is exactly what the collecting loop delimits, both ways |
| ConflictScanner.BaseLayout | resolve-conflicts.py:119-153 | from the end of "ours", a found block has the base (or no base) and "theirs" in the layout |
| ConflictScanner.BaseIsFound | resolve-conflicts.py:119-153 | the converse of BaseLayout |
| ConflictScanner.TheirsLayout | resolve-conflicts.py:135-153 | from the `=======` line, a found block has "theirs" and its extent in the layout |
| ConflictScanner.TheirsIsFound | resolve-conflicts.py:135-153 | the converse of TheirsLayout |
| ConflictScanner.UnclosedIsNotFound | resolve-conflicts.py:140-150 | with no `>>>>>>>` line after an opening line that is not the last line, the outcome is a malformed block |
| ConflictScanner.MissingSeparator | resolve-conflicts.py:106-118 | with no `|||||||` or `=======` line after the opening line, the diagnostic is "did not find ||||||| or =======" |
| Subsequences.Subsequence | resolve-conflicts.py:263-277 | the greedy reading of `issubsequence`; `IsSubsequence` computes it and `SubsequenceIffEmbedding`, `SubsequenceIsShorter`, `SameLengthSubsequence` and `DeletionIsSubsequence` state its properties |
| Subsequences.IsSubsequence | resolve-conflicts.py:263-277 | the two-pointer loop returns `Subsequence(s1, s2)`; `j` strictly increases, so the loop terminates |
| Subsequences.SubsequenceIffEmbedding | resolve-conflicts.py:263-264 | `issubsequence` holds iff `s1` can be placed, in order, at increasing positions of `s2` holding its elements |
| Subsequences.EmbeddingOf | resolve-conflicts.py:270-277 | a successful scan yields such a placement |
| Subsequences.EmbeddedIsSubsequence | resolve-conflicts.py:270-277 | any such placement makes the scan succeed |
| Subsequences.SubsequenceStep | resolve-conflicts.py:270-273 | one loop step either matches `s1[i]` with `s2[j]` or skips `s2[j]`, without changing the answer |
| Subsequences.SubsequenceReflexive | resolve-conflicts.py:263-277 | every sequence is a subsequence of itself |
| Subsequences.SubsequenceIsShorter | resolve-conflicts.py:263-277 | a subsequence is never longer than the sequence it is drawn from |
| Subsequences.SameLengthSubsequence | resolve-conflicts.py:263-277 | a subsequence of the same length is the sequence itself |
| Subsequences.DeletionIsSubsequence | resolve-conflicts.py:263-277 | deleting one element leaves a subsequence |
| Subsequences.OrderMatters | resolve-conflicts.py:263-277 | `[a, c]` is a subsequence of `[a, b, c]`, but `[c, a]` is not |
| MergeStrategies.AllImportLines | resolve-conflicts.py:189-191 | true iff every line starts with `import `, so true for no lines |
| MergeStrategies.MergeLine | resolve-conflicts.py:210-218 | a line merges iff the parents agree or one parent kept the base's line; the result is the agreed line or the changed one |
| MergeStrategies.PositionwiseMerge | resolve-conflicts.py:204-218 | Case A succeeds iff every position merges; the result has the base's length and holds each position's merged line |
| MergeStrategies.MergeBaseIsPrefixOrSuffix | resolve-conflicts.py:241-260 | `merge_base_is_prefix_or_suffix`; `PrefixOrSuffixMergeShape`, `AppendedToBase`, `PrependedToBase` and `NotAnEndOfParent` state what it returns |
| MergeStrategies.PrefixOrSuffixMergeShape | resolve-conflicts.py:250-260 | Case B succeeds only for a base shorter than `parent1` that is `parent1`'s start or end; the result puts `parent2` where the base was and keeps the added lines |
| MergeStrategies.AppendedToBase | resolve-conflicts.py:254-256 | lines appended after the base end up after `parent2` |
| MergeStrategies.PrependedToBase | resolve-conflicts.py:257-259 | lines prepended before the base end up before `parent2`, unless the prefix test already matched |
| MergeStrategies.NotAnEndOfParent | resolve-conflicts.py:253-260 | when the base is neither end of `parent1`, Case B gives up |
| MergeStrategies.AdjacentLinesMerge | resolve-conflicts.py:194-238 | `merge_edits_on_different_lines` with its three cases in order; `MergeEditsOnDifferentLines` computes it, and the Case A, B and C lemmas below state what it returns |
| MergeStrategies.MergeEditsOnDifferentLines | resolve-conflicts.py:194-238 | the method, with its Case A loop and early `break`, returns `AdjacentLinesMerge`: Case A, then Case B both ways, then Case C, else `None` |
| MergeStrategies.EditsOnDifferentLinesMerge | resolve-conflicts.py:201-222 | with equal lengths and no line changed differently by both parents, the merge has the base's length and keeps each line's changed version |
| MergeStrategies.ConflictingLineIsNotMerged | resolve-conflicts.py:210-238 | a line that all three texts have differently makes the whole strategy return `None` |
| MergeStrategies.EmptyBaseMerge | resolve-conflicts.py:204-238 | with an empty base, only two empty parents merge, giving `[]` |
| MergeStrategies.AppendedByFirstParent | resolve-conflicts.py:225-230 | Case B with `parent1` extending a non-empty base: `parent2` followed by the added lines |
| MergeStrategies.PrependedByFirstParent | resolve-conflicts.py:225-230 | Case B with lines prepended by `parent1`: the added lines followed by `parent2` |
| MergeStrategies.AppendedBySecondParent | resolve-conflicts.py:227-230 | when Case B fails for `parent1` (which may have edited lines in place), it is retried with the parents swapped: `parent2` appending lines to the base gives `parent1` followed by them |
| MergeStrategies.PrependedBySecondParent | resolve-conflicts.py:227-230 | the swapped retry when `parent2` prepended lines to the base: those lines followed by `parent1` |
| MergeStrategies.DeletionsMergeToNothing | resolve-conflicts.py:233-235 | Case C: both parents are subsequences of a non-empty base and not both equal to it, so the result is `[]` |
| MergeStrategies.MergedByOneOfTheCases | resolve-conflicts.py:194-238 | the converse of the case lemmas: a merge that yields lines is Case A line by line, Case B with `parent1` or `parent2` adding lines at one end of a non-empty base, or Case C with the empty result |
| MergeStrategies.MergeOf | resolve-conflicts.py:156-186 | `merge` can produce lines only in the adjacent-lines mode |
| MergeStrategies.Merge | resolve-conflicts.py:156-186 | the dispatch method returns `MergeOf` for the selected mode |
| MergeStrategies.OnlyAdjacentModeMerges | resolve-conflicts.py:168-186 | in the blank-lines and Java-imports modes `merge` returns `None`; in the adjacent-lines mode it is `merge_edits_on_different_lines` |
| MergeStrategies.ImportsAreNotMerged | resolve-conflicts.py:177-184 | even when all three sections are imports, `list(...).sort()` yields `None` |
| MergeStrategies.MergeExamples | resolve-conflicts.py:194-238 | a line-by-line merge, a line changed three ways (`None`), interleaved deletions (`[]`), and `["a"]`, `["A"]`, `["a", "b"]` merging to `["A", "b"]` |
| Rewriter.Emitted | resolve-conflicts.py:68-80 | what one iteration writes; `RewriteStep` computes it, and `UnresolvedBlockKeepsOpeningLine` and `ResolvedBlockSkipped` state it for each kind of line |
| Rewriter.RewrittenFrom | resolve-conflicts.py:65-81 | the output from line `i` on; `RewrittenStep`, `CopiedWhileNoConflict`, `NothingMergedNothingChanged` and `ResolvedBlockReplaced` state its properties |
| Rewriter.Rewritten | resolve-conflicts.py:62-81 | the rewritten file; `ResolveConflicts` computes it, and `CleanFileUnchanged` and `OnlyAdjacentModeEdits` state when it is the input |
| Rewriter.AsWrittenFrom | resolve-conflicts.py:62-153 | the program as written, `None` for the `TypeError`; `AsWrittenAgrees`, `AsWrittenFinishes` and `UnterminatedConflictCrashes` state how it relates to the corrected rewrite |
| Rewriter.NextStart | resolve-conflicts.py:67-81 | every iteration moves `i` forward and stays within the file, so the loop terminates |
| Rewriter.ResolveConflicts | resolve-conflicts.py:62-81 | the rewrite loop produces `Rewritten(mode, lines)` |
| Rewriter.RewriteStep | resolve-conflicts.py:68-81 | one iteration writes the merged lines of a merged block (and skips the block), and otherwise writes line `i` and moves to `i + 1` |
| Rewriter.MergeSections | resolve-conflicts.py:73-74 | the loop's call to `merge` yields the selected strategy's result |
| Rewriter.RewrittenStep | resolve-conflicts.py:67-81 | the output from `i` on is what the iteration at `i` writes, followed by the output from the next start |
| Rewriter.UnresolvedBlockKeepsOpeningLine | resolve-conflicts.py:68-77 | a line that opens no block, a malformed block and an unmerged block each emit only line `i`; scanning resumes at `i + 1` |
| Rewriter.ResolvedBlockSkipped | resolve-conflicts.py:73-81 | a merged block emits the merged lines and skips exactly `num_lines` lines |
| Rewriter.UnmergedBlockKept | resolve-conflicts.py:68-81 | a block the strategy cannot merge, with no `<<<<<<<` line inside it, is copied whole, and the output goes on from the line after its `>>>>>>>` line |
| Rewriter.CopiedWhileNoConflict | resolve-conflicts.py:67-71 | a stretch of lines of which none starts with `<<<<<<<` is copied unchanged |
| Rewriter.CleanFileUnchanged | resolve-conflicts.py:62-81 | a file without a `<<<<<<<` line is left as it is |
| Rewriter.NothingMergedNothingChanged | resolve-conflicts.py:62-81 | a strategy that never merges leaves every file as it is |
| Rewriter.OnlyAdjacentModeEdits | resolve-conflicts.py:62-81 | in the blank-lines and Java-imports modes no file is ever changed |
| Rewriter.ResolvedBlockReplaced | resolve-conflicts.py:62-81 | for a merged block with no `<<<<<<<` line before it, the output is the lines before it, the merged lines, then the rewrite of the rest |
| Rewriter.AsWrittenAgrees | resolve-conflicts.py:62-153 | whenever the program as written finishes, it writes what the corrected rewrite computes |
| Rewriter.AsWrittenFinishes | resolve-conflicts.py:112-150 | when no position scans as one of the three crashing diagnostics, the program as written finishes |
| Rewriter.UnterminatedConflictCrashes | resolve-conflicts.py:111-118 | an example: the two-line file `<<<<<<< ours`, `x` ends inside "ours" and crashes the program as written, in every mode; the corrected rewrite copies it unchanged |
| DiffText.IsSpace | lint-diff.py:36 | `\s`: the characters for which Python 3's `str.isspace` holds; `NonSpaceRun` and `NonSpaceRunOf` state how `\S*` uses it |
| DiffText.DecimalValue | lint-diff.py:53 | `int()` on ASCII digits; `DecimalRoundTrip` states that it reads back a numeral |
| DiffText.NonSpaceRun | lint-diff.py:36 | `\S*` consumes the longest prefix without whitespace and stops at whitespace |
| DiffText.DigitRun | lint-diff.py:37 | `[0-9]+` consumes the longest prefix of ASCII digits |
| DiffText.DecimalRoundTrip | lint-diff.py:53 | `int()` of a number's decimal numeral gives the number back |
| DiffText.DigitRunOfNumeral | lint-diff.py:37 | a numeral followed by a non-digit is read as exactly that numeral |
| DiffText.PppFileName | lint-diff.py:36 | `ppp_re` matches iff the line starts with `+++ `; the name it yields contains no whitespace |
| DiffText.FileNameIn | lint-diff.py:36 | group 2 of `ppp_re` contains no whitespace |
| DiffText.PppRoundTrip | lint-diff.py:36 | a `+++ [b/]name...` line yields `name`, with `b/` stripped |
| DiffText.NonSpaceRunOf | lint-diff.py:36 | a whitespace-free name followed by whitespace (or nothing) is read as exactly that name |
| DiffText.PppDecomposes | lint-diff.py:36 | conversely, every matching line is `+++ `, an optional `b/`, the name, and a tail that starts with whitespace or is empty |
| DiffText.FileNameInDecomposes | lint-diff.py:36 | the text after `+++ ` is an optional `b/`, the name, and what follows from the first whitespace on |
| DiffText.HunkNewStart | lint-diff.py:37 | `atat_re` can match only a line that starts with `@@ -`; `HunkDecomposes` and `HunkAccepts` pin down exactly which lines it accepts |
| DiffText.HunkDecomposes | lint-diff.py:37 | every accepted line is `@@ -digits[,digits] +digits[,digits] @@` and a tail, and the result is the value of the third numeral (group 3) |
| DiffText.HunkAccepts | lint-diff.py:37 | conversely, every such line is accepted, leading zeros included, with the third numeral's value |
| DiffText.OldRangeDecomposes | lint-diff.py:37 | header text after `@@ -` that starts with a digit is the old range's numeral, its `,count` part and the rest, and the header is accepted iff that rest is |
| DiffText.NewRangeDecomposes | lint-diff.py:37 | an accepted new range is a numeral whose value is the result, a `,count` part, ` @@` and a tail |
| DiffText.AfterCountSplit | lint-diff.py:37 | `(,[0-9]+)?` consumes either nothing or a comma and digits |
| DiffText.AfterCountOfText | lint-diff.py:37 | any `,count` part followed by a space is consumed whole |
| DiffText.NumeralRangeOf | lint-diff.py:37 | any numeral and `,count` part before a space are read as that numeral, and the count is skipped |
| DiffText.CountIsCountText | lint-diff.py:37 | a written `,count` part has the form `(,[0-9]+)?` |
| DiffText.HunkRoundTrip | lint-diff.py:37 | `@@ -a[,b] +c[,d] @@...` yields `c` (group 3) |
| DiffText.ColonIndex | lint-diff.py:68 | `[^:]*` stops at the first colon |
| DiffText.ColonIndexOf | lint-diff.py:68 | a colon-free name followed by a colon puts the first colon right after the name |
| DiffText.LintLocation | lint-diff.py:68 | the file name of a recognised lint line contains no colon |
| DiffText.LocationIn | lint-diff.py:68 | the part after the first colon keeps the file name |
| DiffText.LintLocationAccepts | lint-diff.py:68 | every `file:digits:message` with a colon-free `file` is read as `file` and the value of `digits`, leading zeros included |
| DiffText.LintLocationRoundTrip | lint-diff.py:68-74 | `file:N:message`, for a colon-free file name, is read as `(file, N)` |
| DiffText.LintLocationDecomposes | lint-diff.py:68 | conversely, a recognised line is the file, `:`, digits whose value is the line number, `:`, and the rest |
| DiffText.LocationInDecomposes | lint-diff.py:68 | the text after the first colon is the digits, `:`, and the rest |
| LintDiff.Step | lint-diff.py:43-61 | one iteration of the diff loop, headers before content; `OldFileHeaderIgnored`, `NewFileHeaderSetsFile`, `HunkHeaderSetsLine`, `AddedLineRecorded`, `ContextLineCounted`, `OtherLineIgnored` and `HeaderNeverRecorded` state it for each kind of line |
| LintDiff.Track | lint-diff.py:40-61 | the loop variables after the whole diff; `TrackChanges` computes it, and `TrackGrows`, `CrashPersists` and `TrackExample` state its properties |
| LintDiff.TrackChanges | lint-diff.py:40-61 | the diff loop raises `KeyError` exactly when `Track` does, and otherwise builds `Track(diff).changed` |
| LintDiff.CrashPersists | lint-diff.py:55-56 | once the loop has raised, the rest of the diff does not matter |
| LintDiff.OldFileHeaderIgnored | lint-diff.py:43-44 | a `---` line changes neither `filename`, `lineno` nor `changed` |
| LintDiff.NewFileHeaderSetsFile | lint-diff.py:45-50 | a `+++ [b/]name` line makes `name` current and adds it with an empty set only if new; `lineno` and every existing entry are kept |
| LintDiff.HunkHeaderSetsLine | lint-diff.py:51-54 | an `@@` header sets `lineno` to the new-file start and records nothing |
| LintDiff.AddedLineRecorded | lint-diff.py:55-57 | a `+` line adds `lineno` to the current file's set and increments `lineno`; when the current file has no entry in `changed` it raises `KeyError` |
| LintDiff.ContextLineCounted | lint-diff.py:58-59 | a ` ` line increments `lineno` without recording |
| LintDiff.OtherLineIgnored | lint-diff.py:60-61 | a `-` line, or any other line, changes nothing |
| LintDiff.HeaderNeverRecorded | lint-diff.py:43-57 | a line read as a `+++` or `@@` header never records a line number, even if it starts with `+` |
| LintDiff.TrackGrows | lint-diff.py:40-61 | the diff loop never forgets a file or a recorded line |
| LintDiff.TrackSnoc | lint-diff.py:42 | the loop state after one more line is one more step |
| LintDiff.TrackStep | lint-diff.py:42 | the same, for the first `i + 1` lines of a diff |
| LintDiff.TrackExample | lint-diff.py:40-61 | a one-hunk diff with a context line, an added line and a removed line records exactly line 2 of `f` |
| LintDiff.AddedLineWithoutFileCrashes | lint-diff.py:55-56 | an example: the one-line diff `+y` raises `KeyError` |
| LintDiff.NoHeaderNoFile | lint-diff.py:40-57 | while no line has started with `+++ `, `filename` is still `''` and `changed` is still empty |
| LintDiff.AddedBeforeHeaderRaises | lint-diff.py:40-56 | a `+` line that comes before every `+++ ` line raises `KeyError` at that line |
| LintDiff.AddedBeforeHeaderCrashes | lint-diff.py:40-56 | so the whole diff loop raises, whatever follows that line |
| LintDiff.Reported | lint-diff.py:71-75 | the test that prints a lint line; `ReportsMembership` and `UnlocatedNeverReported` state it |
| LintDiff.Reports | lint-diff.py:70-77 | the printed lines; `FilterLint` computes them, and `ReportsMembership`, `ReportsEmbedding` and `ReportsMultiplicity` state which lines, how often and in which order |
| LintDiff.FilterLint | lint-diff.py:68-77 | the lint loop prints `Reports(changed, lint)`; `status` is 0 or 1, and is 1 iff some lint line is printed |
| LintDiff.ReportsMembership | lint-diff.py:70-76 | a line is printed iff it is a lint line of the form `file:N:...` whose `N` is in `changed[file]` |
| LintDiff.ReportsInOrder | lint-diff.py:70-76 | the printed lines keep their order in the lint output |
| LintDiff.ReportsEmbedding | lint-diff.py:70-76 | the printed lines are the lint lines at exactly the positions whose line is reported, in increasing order of position |
| LintDiff.ReportsMultiplicity | lint-diff.py:70-76 | a reported line is printed as many times as it occurs in the lint output; any other line is never printed |
| LintDiff.ReportedTwicePrintedTwice | lint-diff.py:70-76 | an example: of the lint lines `x`, `y`, `x` with only `x` reported, `x` is printed twice |
| LintDiff.UnlocatedNeverReported | lint-diff.py:71-72 | a line not of the form `file:N:...` is never printed |
| LintDiff.Run | lint-diff.py:30-82 | the script fails exactly when the diff loop raises; otherwise it prints `Reports` of the changed lines, with status 0 or 1, and 1 iff it printed something |

## Left out

- Argument parsing and the "exactly one option" check (resolve-conflicts.py:24-56, lint-diff.py:25-27) are left out. The mode is a parameter.
- Reading files, the temporary file, `shutil.copy`, `os.unlink`, standard input and `sys.exit` are I/O and are left out. Inputs and outputs are sequences of lines; the exit status is a returned number.
- The exit status of a crash is not modelled. This covers an uncaught `TypeError` in resolve-conflicts.py and `KeyError` in lint-diff.py. Both are a `None` result.
- The debug and diagnostic `print` calls are side output and are left out. Only the cases that print a diagnostic are told apart, as `Diagnostic` values.
- ci-last-success.py is not part of this model. It is a client of a web service, with no logic beyond requests and printing.
- Python's `re` module in general is not modelled. The three patterns are hand-written recognisers.
  - Each pattern is matched at the start of a line and needs no backtracking.
  - `\S` is the complement of the characters for which Python 3's `str.isspace` holds. The interpreter modelled is Python 3, where the files are read as text. The script also runs under Python 2 (it imports `print_function` from `__future__`), and there it reads byte strings, on which `\s` is only ` \t\n\r\f\v`.
  - `[0-9]` is ASCII digits only.
- A union of the parents' import lines is not modelled, and neither is a working blank-line rule. The code implements neither.
  - The `--java_imports` mode returns `list(...).sort()`, which is `None`, so it never merges.
  - The `--blank_lines` mode is an empty placeholder.
  - The model follows the code here. The script's docstring (resolve-conflicts.py:8-9) and the comment at resolve-conflicts.py:183 promise output with every `import` line of either parent, which the code does not deliver.
- Case B (resolve-conflicts.py:252-259) compares `p1[-len(base):]` with Python's negative slicing. For an empty base this slice would be all of `p1`. That case cannot be reached: the prefix test succeeds first, and the caller never calls this function with an empty base. The model compares the last `|base|` lines.
- A `<<<<<<<` line inside a block the strategy cannot merge is scanned again as a possible opening line, as in the code. So such a block's lines are not necessarily copied as they are; `Rewriter.UnmergedBlockKept` covers only blocks without such a line.
- `lint.close` without parentheses (lint-diff.py:80) does nothing and is not modelled.

## Findings

| source | as written | input that shows it | evidently intended | confidence | as-written member | corrected member |
|---|---|---|---|---|---|---|
| resolve-conflicts.py:112-118 (also 128-134, 144-150) | the diagnostic adds the `int` `start_index` to a `str`, so Python raises `TypeError` and the run ends without writing the file | the file `["<<<<<<< ours\n", "x\n"]`, in any mode | print the diagnostic, return `None`, emit the opening line and go on | not executed | Rewriter.UnterminatedConflictCrashes | Rewriter.ResolveConflicts |

`Rewriter.AsWrittenFrom` models the program as written: `None` stands for the
crash. `Rewriter.RewrittenFrom` is the corrected rewrite, computed by
`Rewriter.ResolveConflicts`, and the rest of the model uses it. In it a
malformed block emits its opening line and the scan goes on
(`Rewriter.UnresolvedBlockKeepsOpeningLine`). `Rewriter.AsWrittenAgrees`
proves that the two agree on every input where the program as written finishes. `Rewriter.AsWrittenFinishes`
proves that it finishes whenever no position it could scan yields one of the
three diagnostics whose message raises: `NoSeparator` (the file ends inside
"ours", resolve-conflicts.py:112-118), `NoEquals` (it ends inside the base,
128-134) and `NoClose` (it ends inside "theirs", 144-150). A last line
`|||||||` (resolve-conflicts.py:122) or `=======` (138) prints its diagnostic
without a crash. The converse does not hold: a position inside a merged block
is never scanned, so a crashing diagnostic there does no harm.
