/** The rewrite loop of `main` in resolve-conflicts.py: copy the file line by
    line, replacing each conflict block that the selected strategy can merge
    by the merged lines. The output is collected in a sequence; writing it
    to a temporary file and copying that over the input is I/O.

    The loop is described for any strategy (`merge`'s signature: base,
    "ours", "theirs" to merged lines or `None`); the program runs it with
    `Strategy(mode)`, that is `merge` for the one option given. */
module Rewriter {
  import opened Lines
  import opened ConflictScanner
  import opened MergeStrategies

  /** The shape of `merge`: base, "ours" and "theirs" to merged lines, or
      `None` when the strategy gives up. */
  type Merger = (seq<Line>, seq<Line>, seq<Line>) -> Option<seq<Line>>

  /** `merge` for the selected option. */
  function Strategy(mode: Mode): Merger
  {
    (base: seq<Line>, p1: seq<Line>, p2: seq<Line>) => MergeOf(mode, base, p1, p2)
  }

  /** What the iteration at line `i` writes: the merged lines of a block
      that the strategy merges, and line `i` alone otherwise (a line that
      does not open a block, a malformed block, a block left unmerged). */
  function Emitted(merge: Merger, lines: seq<Line>, i: nat): seq<Line>
    requires i < |lines|
  {
    match ConflictAt(lines, i)
    case Found(b) =>
      (match merge(b.base, b.parent1, b.parent2)
       case Some(merged) => merged
       case None => [lines[i]])
    case _ => [lines[i]]
  }

  /** Where the iteration after the one at line `i` starts: right after a
      merged block's closing line, and at the next line otherwise. */
  function NextStart(merge: Merger, lines: seq<Line>, i: nat): (next: nat)
    requires i < |lines|
    ensures i < next <= |lines|
  {
    match ConflictAt(lines, i)
    case Found(b) => if merge(b.base, b.parent1, b.parent2).Some? then i + b.numLines else i + 1
    case _ => i + 1
  }

  /** The output produced from line `i` on. */
  function RewrittenFrom(merge: Merger, lines: seq<Line>, i: nat): seq<Line>
    requires i <= |lines|
    decreases |lines| - i
  {
    if i == |lines| then [] else Emitted(merge, lines, i) + RewrittenFrom(merge, lines, NextStart(merge, lines, i))
  }

  /** The whole rewritten file in the given mode. */
  function Rewritten(mode: Mode, lines: seq<Line>): seq<Line>
  {
    RewrittenFrom(Strategy(mode), lines, 0)
  }

  /** The rewrite loop of `main`. */
  method ResolveConflicts(mode: Mode, lines: seq<Line>) returns (out: seq<Line>)
    ensures out == Rewritten(mode, lines)
  {
    out := [];
    var fileLen := |lines|;
    var i := 0;
    while i < fileLen
      invariant i <= fileLen
      invariant out + RewrittenFrom(Strategy(mode), lines, i) == Rewritten(mode, lines)
      decreases fileLen - i
    {
      var emitted, next := RewriteStep(mode, lines, i);
      assert RewrittenFrom(Strategy(mode), lines, i) == emitted + RewrittenFrom(Strategy(mode), lines, next);
      out, i := out + emitted, next;
    }
  }

  /** One iteration of the rewrite loop: what it writes for line `i` and
      where the next iteration starts. */
  method RewriteStep(mode: Mode, lines: seq<Line>, i: nat) returns (emitted: seq<Line>, next: nat)
    requires i < |lines|
    ensures emitted == Emitted(Strategy(mode), lines, i)
    ensures next == NextStart(Strategy(mode), lines, i)
  {
    var conflict := LookingAtConflict(i, lines);
    if conflict.Found? {
      var b := conflict.block;
      var merged := MergeSections(mode, b.base, b.parent1, b.parent2);
      if merged.Some? {
        return merged.value, i + b.numLines;
      }
    }
    return [lines[i]], i + 1;
  }

  /** `merge` called on a block's sections, as the loop calls it: it only
      runs `Merge` and states its result through the `Strategy` function
      value that the loop's specification is written with. */
  method MergeSections(mode: Mode, base: seq<Line>, p1: seq<Line>, p2: seq<Line>) returns (r: Option<seq<Line>>)
    ensures r == Strategy(mode)(base, p1, p2)
  {
    r := Merge(mode, base, p1, p2);
  }

  /** A block that is malformed, or that the strategy cannot merge, emits
      only its opening line; scanning resumes at the very next line. */
  lemma UnresolvedBlockKeepsOpeningLine(merge: Merger, lines: seq<Line>, i: nat)
    requires i < |lines|
    requires !ConflictAt(lines, i).Found? ||
             merge(ConflictAt(lines, i).block.base, ConflictAt(lines, i).block.parent1,
                   ConflictAt(lines, i).block.parent2).None?
    ensures RewrittenFrom(merge, lines, i) == [lines[i]] + RewrittenFrom(merge, lines, i + 1)
  {
    RewrittenStep(merge, lines, i);
    assert Emitted(merge, lines, i) == [lines[i]];
    assert NextStart(merge, lines, i) == i + 1;
  }

  /** A merged block emits the merged lines, and scanning resumes right
      after its closing line. */
  lemma ResolvedBlockSkipped(merge: Merger, lines: seq<Line>, start: nat, b: Block, merged: seq<Line>)
    requires start < |lines| && ConflictAt(lines, start) == Found(b)
    requires merge(b.base, b.parent1, b.parent2) == Some(merged)
    ensures start + b.numLines <= |lines|
    ensures RewrittenFrom(merge, lines, start) == merged + RewrittenFrom(merge, lines, start + b.numLines)
  {
    RewrittenStep(merge, lines, start);
    assert Emitted(merge, lines, start) == merged;
    assert NextStart(merge, lines, start) == start + b.numLines;
  }

  /** The output from line `i` on is what the iteration at `i` writes,
      followed by the output from the next iteration's start. */
  lemma RewrittenStep(merge: Merger, lines: seq<Line>, i: nat)
    requires i < |lines|
    ensures RewrittenFrom(merge, lines, i) ==
            Emitted(merge, lines, i) + RewrittenFrom(merge, lines, NextStart(merge, lines, i))
  {
  }

  /** A stretch of lines none of which opens a block is copied unchanged. */
  lemma {:induction false} CopiedWhileNoConflict(merge: Merger, lines: seq<Line>, i: nat, j: nat)
    requires i <= j <= |lines|
    requires forall k | i <= k < j :: !OpensAt(lines, k)
    ensures RewrittenFrom(merge, lines, i) == lines[i..j] + RewrittenFrom(merge, lines, j)
    decreases j - i
  {
    if i < j {
      assert !OpensAt(lines, i);
      assert ConflictAt(lines, i).NotConflict?;
      UnresolvedBlockKeepsOpeningLine(merge, lines, i);
      CopiedWhileNoConflict(merge, lines, i + 1, j);
      SliceCons(lines, i, j, RewrittenFrom(merge, lines, j));
    } else {
      assert lines[i..j] == [];
    }
  }

  /** A block the strategy cannot merge is copied whole, provided no line
      inside it opens another block: the rest of the file is then rewritten
      as if the block were not there. */
  lemma {:induction false} UnmergedBlockKept(merge: Merger, lines: seq<Line>, i: nat, b: Block) returns (end: nat)
    requires i < |lines| && ConflictAt(lines, i) == Found(b)
    requires merge(b.base, b.parent1, b.parent2) == None
    requires forall k | i < k < i + b.numLines :: !OpensAt(lines, k)
    ensures end == i + b.numLines <= |lines|
    ensures RewrittenFrom(merge, lines, i) == lines[i..end] + RewrittenFrom(merge, lines, end)
  {
    end := i + b.numLines;
    UnresolvedBlockKeepsOpeningLine(merge, lines, i);
    CopiedWhileNoConflict(merge, lines, i + 1, end);
    SliceCons(lines, i, end, RewrittenFrom(merge, lines, end));
  }

  /** A file without any `<<<<<<<` line is left as it is. */
  lemma CleanFileUnchanged(mode: Mode, lines: seq<Line>)
    requires forall k | 0 <= k < |lines| :: !OpensAt(lines, k)
    ensures Rewritten(mode, lines) == lines
  {
    assert lines[0..|lines|] == lines;
    CopiedWhileNoConflict(Strategy(mode), lines, 0, |lines|);
  }

  /** A strategy that never merges leaves every file as it is. */
  lemma {:induction false} NothingMergedNothingChanged(merge: Merger, lines: seq<Line>, i: nat)
    requires forall base, p1, p2 :: merge(base, p1, p2) == None
    requires i <= |lines|
    ensures RewrittenFrom(merge, lines, i) == lines[i..]
    decreases |lines| - i
  {
    if i < |lines| {
      if ConflictAt(lines, i).Found? {
        var b := ConflictAt(lines, i).block;
        assert merge(b.base, b.parent1, b.parent2) == None;
      }
      UnresolvedBlockKeepsOpeningLine(merge, lines, i);
      NothingMergedNothingChanged(merge, lines, i + 1);
      DropCons(lines, i);
    } else {
      assert lines[i..] == [];
    }
  }

  /** In the Java-imports and blank-lines modes no file is ever changed. */
  lemma OnlyAdjacentModeEdits(mode: Mode, lines: seq<Line>)
    requires mode != AdjacentLines
    ensures Rewritten(mode, lines) == lines
  {
    forall base, p1, p2 ensures Strategy(mode)(base, p1, p2) == None {
      OnlyAdjacentModeMerges(mode, base, p1, p2);
    }
    NothingMergedNothingChanged(Strategy(mode), lines, 0);
  }

  /** A file that has a block laid out in the marker format at `start`, with
      no `<<<<<<<` line before it, and whose sections the strategy merges:
      the output is the lines before the block, then the merged lines, then
      the rewrite of whatever follows the block's closing line. */
  lemma ResolvedBlockReplaced(merge: Merger, lines: seq<Line>, start: nat, b: Block, merged: seq<Line>)
    requires IsBlockAt(lines, start, b)
    requires forall k | 0 <= k < start :: !OpensAt(lines, k)
    requires merge(b.base, b.parent1, b.parent2) == Some(merged)
    ensures start + b.numLines <= |lines|
    ensures RewrittenFrom(merge, lines, 0) == lines[..start] + merged + RewrittenFrom(merge, lines, start + b.numLines)
  {
    LayoutIsFound(lines, start, b);
    ResolvedBlockSkipped(merge, lines, start, b, merged);
    CopiedWhileNoConflict(merge, lines, 0, start);
    assert lines[0..start] == lines[..start];
  }

  /** A diagnostic whose message raises `TypeError`. */
  predicate Crashes(s: Scan)
  {
    s.Malformed? && (s.diagnostic.NoSeparator? || s.diagnostic.NoEquals? || s.diagnostic.NoClose?)
  }

  /** `front` followed by the rest of the output, unless the run crashed. */
  function Prepend(front: seq<Line>, rest: Option<seq<Line>>): Option<seq<Line>>
  {
    match rest
    case None => None
    case Some(tail) => Some(front + tail)
  }

  /** What the program does as written: the diagnostics for a file that ends
      inside "ours", inside the base or inside "theirs" add an `int` to a
      `str`, so Python raises `TypeError` there and the run ends without
      writing anything back (`None`). */
  function AsWrittenFrom(merge: Merger, lines: seq<Line>, i: nat): Option<seq<Line>>
    requires i <= |lines|
    decreases |lines| - i
  {
    if i == |lines| then Some([])
    else if Crashes(ConflictAt(lines, i)) then None
    else Prepend(Emitted(merge, lines, i), AsWrittenFrom(merge, lines, NextStart(merge, lines, i)))
  }

  /** Where the program as written does finish, it writes what the corrected
      rewrite computes. */
  lemma {:induction false} AsWrittenAgrees(merge: Merger, lines: seq<Line>, i: nat)
    requires i <= |lines|
    requires AsWrittenFrom(merge, lines, i).Some?
    ensures AsWrittenFrom(merge, lines, i) == Some(RewrittenFrom(merge, lines, i))
    decreases |lines| - i
  {
    if i < |lines| {
      AsWrittenAgrees(merge, lines, NextStart(merge, lines, i));
    }
  }

  /** When no position from `i` on scans as a crashing diagnostic, the
      program as written finishes. */
  lemma {:induction false} AsWrittenFinishes(merge: Merger, lines: seq<Line>, i: nat)
    requires i <= |lines|
    requires forall k | i <= k < |lines| :: !Crashes(ConflictAt(lines, k))
    ensures AsWrittenFrom(merge, lines, i).Some?
    decreases |lines| - i
  {
    if i < |lines| {
      assert !Crashes(ConflictAt(lines, i));
      AsWrittenFinishes(merge, lines, NextStart(merge, lines, i));
    }
  }

  /** An example of the crash: the two-line file `<<<<<<< ours`, `x`, which
      ends inside "ours", crashes the program as written in every mode,
      while the corrected rewrite copies it unchanged. */
  lemma UnterminatedConflictCrashes(mode: Mode)
    ensures AsWrittenFrom(Strategy(mode), ["<<<<<<< ours\n", "x\n"], 0) == None
    ensures Rewritten(mode, ["<<<<<<< ours\n", "x\n"]) == ["<<<<<<< ours\n", "x\n"]
  {
    var lines := ["<<<<<<< ours\n", "x\n"];
    assert StartsWith(lines[0], OpenMarker);
    assert !EndsAt(lines, 1, Ours);
    MissingSeparator(lines, 0);
    assert ConflictAt(lines, 1) == NotConflict;
  }
}
