/** Recognition of one conflict block in the layout Git writes with
    `merge.conflictStyle=diff3`:

      <<<<<<< label
      ours ...
      ||||||| label        (optional, followed by the base lines)
      base ...
      =======
      theirs ...
      >>>>>>> label
*/
module ConflictScanner {
  import opened Lines

  const OpenMarker: string := "<<<<<<<"
  const BaseMarker: string := "|||||||"
  const EqualsMarker: string := "======="
  const CloseMarker: string := ">>>>>>>"

  /** The three sections of a block, each named after the line that ends it. */
  datatype Section = Ours | Base | Theirs

  /** The lines that end a section: "ours" ends at `|||||||` or `=======`,
      the base at `=======`, "theirs" at `>>>>>>>`. */
  predicate Ends(section: Section, line: Line)
  {
    match section
    case Ours => StartsWith(line, BaseMarker) || StartsWith(line, EqualsMarker)
    case Base => StartsWith(line, EqualsMarker)
    case Theirs => StartsWith(line, CloseMarker)
  }

  /** Line `k` of `lines` ends `section`. */
  predicate EndsAt(lines: seq<Line>, k: nat, section: Section)
    requires k < |lines|
  {
    Ends(section, lines[k])
  }

  /** Line `k` of `lines` opens a conflict block. */
  predicate OpensAt(lines: seq<Line>, k: nat)
    requires k < |lines|
  {
    StartsWith(lines[k], OpenMarker)
  }

  /** A recognised block: the three texts and the number of file lines it spans. */
  datatype Block = Block(base: seq<Line>, parent1: seq<Line>, parent2: seq<Line>, numLines: nat)

  /** Why a block that opened could not be completed before the end of the file. */
  datatype Diagnostic =
    | NoSeparator       // no `|||||||` or `=======` line after the opening line
    | EndsAtBaseMarker  // the `|||||||` line is the last line of the file
    | NoEquals          // no `=======` line after the `|||||||` line
    | EndsAtEquals      // the `=======` line is the last line of the file
    | NoClose           // no `>>>>>>>` line after the `=======` line

  /** The outcome of looking for a block at one index of the file. */
  datatype Scan = NotConflict | Malformed(diagnostic: Diagnostic) | Found(block: Block)

  /** The first index at or after `from` whose line ends `section`, or `|lines|`. */
  function Find(lines: seq<Line>, from: nat, section: Section): (r: nat)
    requires from <= |lines|
    ensures from <= r <= |lines|
    ensures forall k | from <= k < r :: !EndsAt(lines, k, section)
    ensures r < |lines| ==> Ends(section, lines[r])
    decreases |lines| - from
  {
    if from == |lines| || Ends(section, lines[from]) then from
    else Find(lines, from + 1, section)
  }

  /** `Find` is determined by the three facts its contract states. */
  lemma {:induction false} FindIs(lines: seq<Line>, from: nat, section: Section, r: nat)
    requires from <= r <= |lines|
    requires forall k | from <= k < r :: !EndsAt(lines, k, section)
    requires r < |lines| ==> Ends(section, lines[r])
    ensures Find(lines, from, section) == r
    decreases r - from
  {
    if from < r {
      assert !EndsAt(lines, from, section);
      FindIs(lines, from + 1, section, r);
    }
  }

  /** What scanning from `start` yields: the specification of `LookingAtConflict`. */
  function ConflictAt(lines: seq<Line>, start: nat): (r: Scan)
    requires start < |lines|
    ensures r.NotConflict? <==> !StartsWith(lines[start], OpenMarker) || start + 1 == |lines|
    ensures r.Found? ==> 3 <= r.block.numLines <= |lines| - start
  {
    if !StartsWith(lines[start], OpenMarker) || start + 1 == |lines| then NotConflict
    else AfterOurs(lines, start, Find(lines, start + 1, Ours))
  }

  /** The scan once "ours" has ended at `sep` (or run off the end of the file). */
  function AfterOurs(lines: seq<Line>, start: nat, sep: nat): (r: Scan)
    requires start < sep <= |lines|
    ensures !r.NotConflict?
    ensures r.Found? ==> 3 <= r.block.numLines <= |lines| - start
  {
    if sep == |lines| then Malformed(NoSeparator)
    else if StartsWith(lines[sep], BaseMarker) then
      if sep + 1 == |lines| then Malformed(EndsAtBaseMarker)
      else AfterBase(lines, start, sep, Find(lines, sep + 1, Base))
    else AfterBase(lines, start, sep, sep)
  }

  /** The scan once the base has ended at the `=======` line `eq`; without a
      base section `eq` is `sep` itself. */
  function AfterBase(lines: seq<Line>, start: nat, sep: nat, eq: nat): (r: Scan)
    requires start < sep <= eq <= |lines| && sep < |lines|
    ensures !r.NotConflict?
    ensures r.Found? ==> 3 <= r.block.numLines <= |lines| - start
  {
    if eq == |lines| then Malformed(NoEquals)
    else if eq + 1 == |lines| then Malformed(EndsAtEquals)
    else AfterTheirs(lines, start, sep, eq, Find(lines, eq + 1, Theirs))
  }

  /** The scan once "theirs" has ended at `close`. */
  function AfterTheirs(lines: seq<Line>, start: nat, sep: nat, eq: nat, close: nat): (r: Scan)
    requires start < sep <= eq < close <= |lines|
    ensures !r.NotConflict?
    ensures r.Found? ==> 3 <= r.block.numLines <= |lines| - start
  {
    if close == |lines| then Malformed(NoClose)
    else
      var base := if sep < eq then lines[sep + 1..eq] else [];
      Found(Block(base, lines[start + 1..sep], lines[eq + 1..close], close + 1 - start))
  }

  /** `content` is a section starting at index `from`: none of its lines ends
      `section`, and the line right after it does. */
  ghost predicate SectionAt(lines: seq<Line>, from: nat, section: Section, content: seq<Line>)
  {
    var to := from + |content|;
    to < |lines| &&
    lines[from..to] == content &&
    (forall k | from <= k < to :: !EndsAt(lines, k, section)) &&
    Ends(section, lines[to])
  }

  /** A section is what `Find` delimits, and nothing else. */
  lemma SectionIsFound(lines: seq<Line>, from: nat, section: Section, content: seq<Line>)
    requires from <= |lines|
    ensures SectionAt(lines, from, section, content) <==>
            var to := Find(lines, from, section); to < |lines| && content == lines[from..to]
  {
    if SectionAt(lines, from, section, content) {
      FindIs(lines, from, section, from + |content|);
    }
  }

  /** `b` appears in `lines` from `start` in the marker layout: an opening line,
      then `b.parent1` ended by a `|||||||` or `=======` line, then the rest
      of the block as `RestOfBlockAt` describes it. */
  ghost predicate IsBlockAt(lines: seq<Line>, start: nat, b: Block)
  {
    start < |lines| &&
    StartsWith(lines[start], OpenMarker) &&
    SectionAt(lines, start + 1, Ours, b.parent1) &&
    RestOfBlockAt(lines, start, start + 1 + |b.parent1|, b)
  }

  /** From the line `sep` that ended "ours": when it is a `|||||||` line,
      `b.base` ended by an `=======` line, and otherwise an empty base; then
      "theirs" as `TheirsAt` describes it. */
  ghost predicate RestOfBlockAt(lines: seq<Line>, start: nat, sep: nat, b: Block)
  {
    sep < |lines| &&
    if StartsWith(lines[sep], BaseMarker) then
      SectionAt(lines, sep + 1, Base, b.base) && TheirsAt(lines, start, sep + 1 + |b.base|, b)
    else
      b.base == [] && TheirsAt(lines, start, sep, b)
  }

  /** After the `=======` line `eq`: `b.parent2` ended by a `>>>>>>>` line, and
      `b.numLines` counts every line from `start` through that closing line. */
  ghost predicate TheirsAt(lines: seq<Line>, start: nat, eq: nat, b: Block)
  {
    SectionAt(lines, eq + 1, Theirs, b.parent2) &&
    b.numLines == eq + 2 + |b.parent2| - start
  }

  /** The last stage of a found block: "theirs" and the block's extent. */
  lemma TheirsLayout(lines: seq<Line>, start: nat, sep: nat, eq: nat, b: Block)
    requires start < sep <= eq < |lines|
    requires AfterBase(lines, start, sep, eq) == Found(b)
    ensures b.parent1 == lines[start + 1..sep]
    ensures b.base == if sep < eq then lines[sep + 1..eq] else []
    ensures TheirsAt(lines, start, eq, b)
  {
    SectionIsFound(lines, eq + 1, Theirs, b.parent2);
  }

  /** A found block seen from the end of "ours". */
  lemma BaseLayout(lines: seq<Line>, start: nat, sep: nat, b: Block)
    requires start < sep <= |lines|
    requires AfterOurs(lines, start, sep) == Found(b)
    ensures b.parent1 == lines[start + 1..sep]
    ensures RestOfBlockAt(lines, start, sep, b)
  {
    if StartsWith(lines[sep], BaseMarker) {
      TheirsLayout(lines, start, sep, Find(lines, sep + 1, Base), b);
      SectionIsFound(lines, sep + 1, Base, b.base);
    } else {
      TheirsLayout(lines, start, sep, sep, b);
    }
  }

  /** A found block has the marker layout: its sections are exactly the lines
      strictly between the markers, and it spans from the opening line
      through the closing line. */
  lemma FoundHasLayout(lines: seq<Line>, start: nat, b: Block)
    requires start < |lines|
    requires ConflictAt(lines, start) == Found(b)
    ensures IsBlockAt(lines, start, b)
  {
    var sep := Find(lines, start + 1, Ours);
    assert AfterOurs(lines, start, sep) == Found(b);
    BaseLayout(lines, start, sep, b);
    SectionIsFound(lines, start + 1, Ours, b.parent1);
  }

  /** Conversely, lines in the marker layout are found as exactly that block. */
  lemma LayoutIsFound(lines: seq<Line>, start: nat, b: Block)
    requires IsBlockAt(lines, start, b)
    ensures ConflictAt(lines, start) == Found(b)
  {
    var sep := start + 1 + |b.parent1|;
    SectionIsFound(lines, start + 1, Ours, b.parent1);
    assert ConflictAt(lines, start) == AfterOurs(lines, start, sep);
    BaseIsFound(lines, start, sep, b);
  }

  /** The converse of `BaseLayout`. */
  lemma BaseIsFound(lines: seq<Line>, start: nat, sep: nat, b: Block)
    requires start < sep < |lines| && b.parent1 == lines[start + 1..sep]
    requires RestOfBlockAt(lines, start, sep, b)
    ensures AfterOurs(lines, start, sep) == Found(b)
  {
    if StartsWith(lines[sep], BaseMarker) {
      var eq := sep + 1 + |b.base|;
      assert SectionAt(lines, sep + 1, Base, b.base);
      SectionIsFound(lines, sep + 1, Base, b.base);
      assert Find(lines, sep + 1, Base) == eq;
      TheirsIsFound(lines, start, sep, eq, b);
    } else {
      assert AfterOurs(lines, start, sep) == AfterBase(lines, start, sep, sep);
      TheirsIsFound(lines, start, sep, sep, b);
    }
  }

  /** The converse of `TheirsLayout`. */
  lemma TheirsIsFound(lines: seq<Line>, start: nat, sep: nat, eq: nat, b: Block)
    requires start < sep <= eq < |lines|
    requires b.parent1 == lines[start + 1..sep]
    requires b.base == if sep < eq then lines[sep + 1..eq] else []
    requires TheirsAt(lines, start, eq, b)
    ensures AfterBase(lines, start, sep, eq) == Found(b)
  {
    SectionIsFound(lines, eq + 1, Theirs, b.parent2);
    assert AfterBase(lines, start, sep, eq) == AfterTheirs(lines, start, sep, eq, eq + 1 + |b.parent2|);
  }

  /** Without a closing line after an opening line that is not the last
      line of the file, no block is found: the outcome is `Malformed`. */
  lemma UnclosedIsNotFound(lines: seq<Line>, start: nat)
    requires start + 1 < |lines|
    requires StartsWith(lines[start], OpenMarker)
    requires forall k | start < k < |lines| :: !StartsWith(lines[k], CloseMarker)
    ensures ConflictAt(lines, start).Malformed?
  {
    if ConflictAt(lines, start).Found? {
      FoundHasLayout(lines, start, ConflictAt(lines, start).block);
    }
  }

  /** If no line after the opening one starts with `|||||||` or `=======`,
      the diagnostic is `NoSeparator`. */
  lemma MissingSeparator(lines: seq<Line>, start: nat)
    requires start + 1 < |lines|
    requires StartsWith(lines[start], OpenMarker)
    requires forall k | start < k < |lines| :: !EndsAt(lines, k, Ours)
    ensures ConflictAt(lines, start) == Malformed(NoSeparator)
  {
    FindIs(lines, start + 1, Ours, |lines|);
  }

  /** One of the three collecting loops of `looking_at_conflict`: appends lines
      from `from` on until a line ends `section`, stopping early when the
      file runs out. */
  method CollectSection(lines: seq<Line>, from: nat, section: Section) returns (collected: seq<Line>, index: nat)
    requires from < |lines|
    ensures index == Find(lines, from, section)
    ensures collected == lines[from..index]
  {
    collected := [];
    index := from;
    while !Ends(section, lines[index])
      invariant from <= index < |lines|
      invariant collected == lines[from..index]
      invariant forall k | from <= k < index :: !EndsAt(lines, k, section)
      decreases |lines| - index
    {
      collected := collected + [lines[index]];
      index := index + 1;
      if index == |lines| {
        FindIs(lines, from, section, index);
        return;
      }
    }
    FindIs(lines, from, section, index);
  }

  /** `looking_at_conflict`: from an opening line, collects "ours" up to the
      first `|||||||` or `=======` line, the base (when there is a `|||||||`
      line) up to the first `=======` line, and "theirs" up to the first
      `>>>>>>>` line; reports where the file runs out first. */
  method LookingAtConflict(start: nat, lines: seq<Line>) returns (r: Scan)
    requires start < |lines|
    ensures r == ConflictAt(lines, start)
  {
    if !StartsWith(lines[start], OpenMarker) {
      return NotConflict;
    }
    var index := start + 1;
    if index == |lines| {
      return NotConflict;
    }
    var parent1;
    parent1, index := CollectSection(lines, index, Ours);
    if index == |lines| {
      return Malformed(NoSeparator);
    }
    r := ScanBase(lines, start, parent1, index);
  }

  /** The rest of `looking_at_conflict` once "ours" has ended at line `sep`:
      the optional base section. */
  method ScanBase(lines: seq<Line>, start: nat, parent1: seq<Line>, sep: nat) returns (r: Scan)
    requires start < sep < |lines| && parent1 == lines[start + 1..sep]
    ensures r == AfterOurs(lines, start, sep)
  {
    var base: seq<Line> := [];
    var index := sep;
    if StartsWith(lines[index], BaseMarker) {
      index := index + 1;
      if index == |lines| {
        return Malformed(EndsAtBaseMarker);
      }
      base, index := CollectSection(lines, index, Base);
      if index == |lines| {
        return Malformed(NoEquals);
      }
    }
    r := ScanTheirs(lines, start, parent1, sep, base, index);
  }

  /** The rest of `looking_at_conflict` once the base has ended at the
      `=======` line `eq`: the "theirs" section and the block's extent. */
  method ScanTheirs(lines: seq<Line>, start: nat, parent1: seq<Line>, sep: nat, base: seq<Line>, eq: nat) returns (r: Scan)
    requires start < sep <= eq < |lines|
    requires parent1 == lines[start + 1..sep]
    requires base == if sep < eq then lines[sep + 1..eq] else []
    ensures r == AfterBase(lines, start, sep, eq)
  {
    var index := eq + 1;  // skip over the `=======` line
    if index == |lines| {
      return Malformed(EndsAtEquals);
    }
    var parent2;
    parent2, index := CollectSection(lines, index, Theirs);
    if index == |lines| {
      return Malformed(NoClose);
    }
    index := index + 1;
    return Found(Block(base, parent1, parent2, index - start));
  }
}
