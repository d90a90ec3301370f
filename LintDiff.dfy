/** lint-diff.py: read a unified diff to learn which lines of which files
    were added, then keep only the lint messages about those lines. The
    exit status is 1 when some message was kept and 0 otherwise. */
module LintDiff {
  import opened Lines
  import opened DiffText
  import opened Subsequences

  /** The file name the diff loop starts with, before any `+++` header. */
  const NoFile := ""
  /** The line number the diff loop starts with, before any `@@` header. */
  const NoLine := -1000000

  /** The variables of the diff loop: the current file (`filename`), the
      new-file line number of the next line (`lineno`), and the changed
      lines of every file seen so far (`changed`). */
  datatype Tracker = Tracker(filename: string, lineno: int, changed: map<string, set<int>>)

  const Start := Tracker(NoFile, NoLine, map[])

  /** One iteration of the diff loop. `None` is Python's `KeyError`, raised
      by an added line before any `+++` header has named its file. */
  function Step(t: Tracker, line: Line): Option<Tracker>
  {
    if StartsWith(line, "---") then Some(t)
    else match PppFileName(line)
      case Some(name) =>
        Some(t.(filename := name,
                changed := if name in t.changed then t.changed else t.changed[name := {}]))
      case None =>
        match HunkNewStart(line)
        case Some(start) => Some(t.(lineno := start))
        case None =>
          if StartsWith(line, "+") then
            if t.filename in t.changed then
              Some(t.(changed := t.changed[t.filename := t.changed[t.filename] + {t.lineno}],
                      lineno := t.lineno + 1))
            else None
          else if StartsWith(line, " ") then Some(t.(lineno := t.lineno + 1))
          else Some(t)
  }

  /** The loop variables after the lines of `diff`, or `None` once a step
      has raised `KeyError`. */
  function Track(diff: seq<Line>): Option<Tracker>
  {
    if diff == [] then Some(Start)
    else match Track(diff[..|diff| - 1])
      case None => None
      case Some(t) => Step(t, diff[|diff| - 1])
  }

  /** Once the loop has raised, the rest of the diff does not matter. */
  lemma {:induction false} CrashPersists(diff: seq<Line>, i: nat)
    requires i <= |diff|
    requires Track(diff[..i]) == None
    ensures Track(diff) == None
    decreases |diff| - i
  {
    if i < |diff| {
      assert diff[..i + 1][..i] == diff[..i];
      CrashPersists(diff, i + 1);
    } else {
      assert diff[..i] == diff;
    }
  }

  /** The diff loop of lint-diff.py (lines 40 to 61): `changed`, or `None`
      where Python raises `KeyError`. */
  method TrackChanges(diff: seq<Line>) returns (r: Option<map<string, set<int>>>)
    ensures r.None? <==> Track(diff).None?
    ensures r.Some? ==> r.value == Track(diff).value.changed
  {
    var filename := NoFile;
    var lineno := NoLine;
    var changed: map<string, set<int>> := map[];
    for i := 0 to |diff|
      invariant Track(diff[..i]) == Some(Tracker(filename, lineno, changed))
    {
      var diffLine := diff[i];
      assert diff[..i + 1][..i] == diff[..i];
      ghost var before := Tracker(filename, lineno, changed);
      if StartsWith(diffLine, "---") {
        continue;
      }
      var name := PppFileName(diffLine);
      if name.Some? {
        NewFileHeaderSetsFile(before, diffLine, name.value);
        filename := name.value;
        if filename !in changed {
          changed := changed[filename := {}];
        }
        continue;
      }
      var start := HunkNewStart(diffLine);
      if start.Some? {
        HunkHeaderSetsLine(before, diffLine);
        lineno := start.value;
        continue;
      }
      if !StartsWith(diffLine, "+") && !StartsWith(diffLine, " ") {
        OtherLineIgnored(before, diffLine);
      }
      if StartsWith(diffLine, "+") {
        AddedLineRecorded(before, diffLine);
        if filename !in changed {
          CrashPersists(diff, i + 1);
          return None;
        }
        changed := changed[filename := changed[filename] + {lineno}];
        lineno := lineno + 1;
        assert diffLine[0] == '+';
      }
      if StartsWith(diffLine, " ") {
        ContextLineCounted(before, diffLine);
        lineno := lineno + 1;
        assert diffLine[0] == ' ';
      }
      if StartsWith(diffLine, "-") {
        continue;
      }
    }
    assert diff[..|diff|] == diff;
    return Some(changed);
  }

  /** A `---` line changes nothing. */
  lemma OldFileHeaderIgnored(t: Tracker, line: Line)
    requires StartsWith(line, "---")
    ensures Step(t, line) == Some(t)
  {
  }

  /** A `+++ [b/]name` line makes `name` the current file and gives it an
      empty set of changed lines if it had none; the line number and every
      other file's lines are kept. */
  lemma NewFileHeaderSetsFile(t: Tracker, line: Line, name: string)
    requires PppFileName(line) == Some(name)
    ensures Step(t, line).Some?
    ensures var u := Step(t, line).value;
            u.filename == name && u.lineno == t.lineno &&
            u.changed.Keys == t.changed.Keys + {name} &&
            (forall f | f in t.changed :: u.changed[f] == t.changed[f]) &&
            (name !in t.changed ==> u.changed[name] == {})
  {
    assert line[0] == '+';
  }

  /** An `@@ -a,b +c,d @@` line sets the line number to `c` and records
      nothing. */
  lemma HunkHeaderSetsLine(t: Tracker, line: Line)
    ensures HunkNewStart(line).Some? ==> Step(t, line) == Some(t.(lineno := HunkNewStart(line).value))
  {
    if HunkNewStart(line).Some? {
      assert line[0] == '@';
      assert !StartsWith(line, "---") && !StartsWith(line, PppPrefix);
      assert PppFileName(line) == None;
    }
  }

  /** An added line (one that is not a header) records the current line
      number for the current file and moves to the next line; when the
      current file has no entry in `changed` the loop raises. */
  lemma AddedLineRecorded(t: Tracker, line: Line)
    requires StartsWith(line, "+") && !StartsWith(line, PppPrefix)
    ensures t.filename in t.changed ==>
              Step(t, line) == Some(Tracker(t.filename, t.lineno + 1,
                                            t.changed[t.filename := t.changed[t.filename] + {t.lineno}]))
    ensures t.filename !in t.changed ==> Step(t, line) == None
  {
    assert line[0] == '+';
  }

  /** A context line moves to the next line and records nothing. */
  lemma ContextLineCounted(t: Tracker, line: Line)
    requires StartsWith(line, " ")
    ensures Step(t, line) == Some(t.(lineno := t.lineno + 1))
  {
    assert line[0] == ' ';
  }

  /** A removed line, and any line of none of the above kinds, changes
      nothing. */
  lemma OtherLineIgnored(t: Tracker, line: Line)
    requires !StartsWith(line, "+") && !StartsWith(line, " ") && HunkNewStart(line).None?
    ensures Step(t, line) == Some(t)
  {
  }

  /** Headers are read before content: a line that reads as a `+++` or `@@`
      header never records a line number, even when it could also be read
      as an added line. */
  lemma HeaderNeverRecorded(t: Tracker, line: Line)
    requires PppFileName(line).Some? || HunkNewStart(line).Some?
    ensures Step(t, line).Some?
    ensures forall f | f in t.changed :: f in Step(t, line).value.changed &&
                                           Step(t, line).value.changed[f] == t.changed[f]
  {
    if PppFileName(line).Some? {
      NewFileHeaderSetsFile(t, line, PppFileName(line).value);
    } else {
      HunkHeaderSetsLine(t, line);
    }
  }

  /** The diff loop never forgets: every file it has seen and every line it
      has recorded stay in `changed` for the rest of the diff. */
  lemma {:induction false} TrackGrows(a: seq<Line>, b: seq<Line>)
    requires Track(a).Some? && Track(a + b).Some?
    ensures forall f | f in Track(a).value.changed ::
              f in Track(a + b).value.changed && Track(a).value.changed[f] <= Track(a + b).value.changed[f]
    decreases |b|
  {
    if b != [] {
      var front := b[..|b| - 1];
      assert (a + b)[..|a + b| - 1] == a + front;
      TrackGrows(a, front);
    } else {
      assert a + b == a;
    }
  }

  /** The loop variables after one more line. */
  lemma TrackSnoc(a: seq<Line>, x: Line)
    ensures Track(a + [x]) == match Track(a) case None => None case Some(t) => Step(t, x)
  {
    assert (a + [x])[..|a|] == a;
  }

  /** The loop variables after one more line of `diff`. */
  lemma TrackStep(diff: seq<Line>, i: nat)
    requires i < |diff|
    ensures Track(diff[..i + 1]) == match Track(diff[..i]) case None => None case Some(t) => Step(t, diff[i])
  {
    assert diff[..i + 1][..i] == diff[..i];
  }

  /** The file headers of the worked diff below. */
  lemma ExampleFileHeaders()
    ensures Step(Start, "--- a/f\n") == Some(Start)
    ensures Step(Start, PppLine(true, "f", "\n")) == Some(Tracker("f", NoLine, map["f" := {}]))
  {
    OldFileHeaderIgnored(Start, "--- a/f\n");
    PppRoundTrip(true, "f", "\n");
    NewFileHeaderSetsFile(Start, PppLine(true, "f", "\n"), "f");
    assert Step(Start, PppLine(true, "f", "\n")).value.changed == map["f" := {}];
  }

  /** The hunk header of the worked diff below. */
  lemma ExampleHunkHeader()
    ensures Step(Tracker("f", NoLine, map["f" := {}]), HunkLine(1, Some(2), 1, Some(3), "\n")) ==
            Some(Tracker("f", 1, map["f" := {}]))
  {
    HunkRoundTrip(1, Some(2), 1, Some(3), "\n");
    HunkHeaderSetsLine(Tracker("f", NoLine, map["f" := {}]), HunkLine(1, Some(2), 1, Some(3), "\n"));
  }

  /** The context, added and removed lines of the worked diff below. */
  lemma ExampleContent()
    ensures Step(Tracker("f", 1, map["f" := {}]), " x\n") == Some(Tracker("f", 2, map["f" := {}]))
    ensures Step(Tracker("f", 2, map["f" := {}]), "+y\n") == Some(Tracker("f", 3, map["f" := {2}]))
    ensures Step(Tracker("f", 3, map["f" := {2}]), "-z\n") == Some(Tracker("f", 3, map["f" := {2}]))
  {
    ContextLineCounted(Tracker("f", 1, map["f" := {}]), " x\n");
    var t := Tracker("f", 2, map["f" := {}]);
    AddedLineRecorded(t, "+y\n");
    assert {} + {2} == {2};
    assert t.changed["f" := t.changed["f"] + {2}] == map["f" := {2}];
    OtherLineIgnored(Tracker("f", 3, map["f" := {2}]), "-z\n");
  }

  /** A worked diff: one file `f` (header `+++ b/f`), one hunk
      `@@ -1,2 +1,3 @@` starting at line 1, a context line, an added line
      (line 2) and a removed line. */
  lemma TrackExample()
    ensures Track(["--- a/f\n", PppLine(true, "f", "\n"), HunkLine(1, Some(2), 1, Some(3), "\n"),
                   " x\n", "+y\n", "-z\n"]) ==
            Some(Tracker("f", 3, map["f" := {2}]))
  {
    var l0, l1, l2, l3, l4, l5 := "--- a/f\n", PppLine(true, "f", "\n"), HunkLine(1, Some(2), 1, Some(3), "\n"),
                                  " x\n", "+y\n", "-z\n";
    ExampleFileHeaders();
    ExampleHunkHeader();
    ExampleContent();
    WorkedDiffBuiltUp(l0, l1, l2, l3, l4, l5);
    TrackSnoc([], l0);
    TrackSnoc([l0], l1);
    TrackSnoc([l0, l1], l2);
    TrackSnoc([l0, l1, l2], l3);
    TrackSnoc([l0, l1, l2, l3], l4);
    TrackSnoc([l0, l1, l2, l3, l4], l5);
  }

  /** The worked diff's six lines built up one line at a time, as
      `TrackExample` unfolds `Track` through `TrackSnoc`. */
  lemma WorkedDiffBuiltUp(l0: Line, l1: Line, l2: Line, l3: Line, l4: Line, l5: Line)
    ensures [] + [l0] == [l0] && [l0] + [l1] == [l0, l1] && [l0, l1] + [l2] == [l0, l1, l2]
    ensures [l0, l1, l2] + [l3] == [l0, l1, l2, l3]
    ensures [l0, l1, l2, l3] + [l4] == [l0, l1, l2, l3, l4]
    ensures [l0, l1, l2, l3, l4] + [l5] == [l0, l1, l2, l3, l4, l5]
  {
  }

  /** An example: a diff that is a single added line raises `KeyError`. */
  lemma AddedLineWithoutFileCrashes()
    ensures Track(["+y\n"]) == None
  {
    AddedLineRecorded(Start, "+y\n");
    assert ["+y\n"][..0] == [];
  }

  /** Until a `+++` header has been read, there is no current file and
      nothing has been recorded. */
  lemma {:induction false} NoHeaderNoFile(diff: seq<Line>)
    requires forall k | 0 <= k < |diff| :: !StartsWith(diff[k], PppPrefix)
    ensures Track(diff).Some? ==> Track(diff).value.filename == NoFile && Track(diff).value.changed == map[]
  {
    if diff != [] {
      var front := diff[..|diff| - 1];
      assert forall k | 0 <= k < |front| :: front[k] == diff[k];
      NoHeaderNoFile(front);
    }
  }

  /** So an added line that comes before every `+++` header raises
      `KeyError`, whatever follows it. */
  lemma {:induction false} AddedBeforeHeaderCrashes(diff: seq<Line>, i: nat)
    requires i < |diff|
    requires forall k | 0 <= k < i :: !StartsWith(diff[k], PppPrefix)
    requires StartsWith(diff[i], "+") && !StartsWith(diff[i], PppPrefix)
    ensures Track(diff) == None
    decreases |diff|
  {
    if |diff| == i + 1 {
      AddedBeforeHeaderRaises(diff, i);
      assert diff[..i + 1] == diff;
    } else {
      var front := diff[..|diff| - 1];
      assert forall k | 0 <= k <= i :: front[k] == diff[k];
      AddedBeforeHeaderCrashes(front, i);
    }
  }

  /** The step that raises it. */
  lemma AddedBeforeHeaderRaises(diff: seq<Line>, i: nat)
    requires i < |diff|
    requires forall k | 0 <= k < i :: !StartsWith(diff[k], PppPrefix)
    requires StartsWith(diff[i], "+") && !StartsWith(diff[i], PppPrefix)
    ensures Track(diff[..i + 1]) == None
  {
    var front := diff[..i];
    assert forall k | 0 <= k < |front| :: front[k] == diff[k];
    NoHeaderNoFile(front);
    TrackStep(diff, i);
    if Track(front).Some? {
      AddedLineRecorded(Track(front).value, diff[i]);
    }
  }

  /** Whether a lint line is printed: it has the form `file:N:...` and line
      `N` of `file` was added by the diff. */
  predicate Reported(changed: map<string, set<int>>, lintLine: Line)
  {
    match LintLocation(lintLine)
    case None => false
    case Some(loc) => loc.file in changed && loc.line in changed[loc.file]
  }

  /** The printed lint lines, in their original order. */
  function Reports(changed: map<string, set<int>>, lint: seq<Line>): seq<Line>
  {
    if lint == [] then []
    else
      var last := lint[|lint| - 1];
      Reports(changed, lint[..|lint| - 1]) + (if Reported(changed, last) then [last] else [])
  }

  /** The lint loop (lines 68 to 77): the printed lines, and the exit status. */
  method FilterLint(changed: map<string, set<int>>, lint: seq<Line>) returns (out: seq<Line>, status: int)
    ensures out == Reports(changed, lint)
    ensures status == 0 || status == 1
    ensures status == 1 <==> exists k | 0 <= k < |lint| :: Reported(changed, lint[k])
  {
    out := [];
    status := 0;
    for i := 0 to |lint|
      invariant out == Reports(changed, lint[..i])
      invariant status == 0 || status == 1
      invariant status == 1 <==> AnyReported(changed, lint, i)
    {
      var lintLine := lint[i];
      ReportsSnoc(changed, lint, i);
      AnyReportedSnoc(changed, lint, i);
      var location := LintLocation(lintLine);
      if location.Some? {
        var filename := location.value.file;
        var lineno := location.value.line;
        if filename in changed && lineno in changed[filename] {
          out := out + [lintLine];
          status := 1;
        }
      }
    }
    assert lint[..|lint|] == lint;
  }

  /** Some of the first `n` lint lines is printed. */
  ghost predicate AnyReported(changed: map<string, set<int>>, lint: seq<Line>, n: nat)
    requires n <= |lint|
  {
    exists k | 0 <= k < n :: Reported(changed, lint[k])
  }

  /** One more lint line is printed or not. */
  lemma AnyReportedSnoc(changed: map<string, set<int>>, lint: seq<Line>, i: nat)
    requires i < |lint|
    ensures AnyReported(changed, lint, i + 1) <==> AnyReported(changed, lint, i) || Reported(changed, lint[i])
  {
  }

  /** The printed lines of one more lint line. */
  lemma ReportsSnoc(changed: map<string, set<int>>, lint: seq<Line>, i: nat)
    requires i < |lint|
    ensures Reports(changed, lint[..i + 1]) ==
            Reports(changed, lint[..i]) + (if Reported(changed, lint[i]) then [lint[i]] else [])
  {
    assert lint[..i + 1][..i] == lint[..i];
  }

  /** A line is printed iff it is one of the lint lines and is `Reported`. */
  lemma {:induction false} ReportsMembership(changed: map<string, set<int>>, lint: seq<Line>, x: Line)
    ensures x in Reports(changed, lint) <==> x in lint && Reported(changed, x)
  {
    if lint != [] {
      var front := lint[..|lint| - 1];
      ReportsMembership(changed, front, x);
      assert lint == front + [lint[|lint| - 1]];
    }
  }

  /** The printed lines appear in the lint output in the same order. */
  lemma ReportsInOrder(changed: map<string, set<int>>, lint: seq<Line>)
    ensures Subsequence(Reports(changed, lint), lint)
  {
    var f := ReportsEmbedding(changed, lint);
    EmbeddedIsSubsequence(f, Reports(changed, lint), lint);
  }

  /** The positions in `lint` of the printed lines: the printed lines are
      the lint lines at exactly the positions whose line is `Reported`, in
      increasing order, so every occurrence of such a line is printed. */
  lemma {:induction false} ReportsEmbedding(changed: map<string, set<int>>, lint: seq<Line>) returns (f: seq<nat>)
    ensures Embeds(f, Reports(changed, lint), lint)
    ensures forall k | 0 <= k < |lint| :: Reported(changed, lint[k]) <==> k in f
  {
    if lint == [] {
      f := [];
    } else {
      var front := lint[..|lint| - 1];
      var g := ReportsEmbedding(changed, front);
      var last := lint[|lint| - 1];
      assert lint == front + [last];
      EmbedsSnoc(g, Reports(changed, front), front, last);
      if Reported(changed, last) {
        f := g + [|front|];
      } else {
        f := g;
      }
      forall k | 0 <= k < |lint|
        ensures Reported(changed, lint[k]) <==> k in f
      {
        if k < |front| {
          assert lint[k] == front[k];
        } else {
          assert forall j | 0 <= j < |g| :: g[j] < |front|;
        }
      }
    }
  }

  /** A line is printed as many times as it occurs in the lint output when
      it is `Reported`, and never otherwise. */
  lemma {:induction false} ReportsMultiplicity(changed: map<string, set<int>>, lint: seq<Line>, x: Line)
    ensures multiset(Reports(changed, lint))[x] == if Reported(changed, x) then multiset(lint)[x] else 0
  {
    if lint != [] {
      var front := lint[..|lint| - 1];
      var last := lint[|lint| - 1];
      ReportsMultiplicity(changed, front, x);
      assert lint == front + [last];
      assert multiset(lint) == multiset(front) + multiset{last};
      var added := if Reported(changed, last) then [last] else [];
      assert multiset(Reports(changed, lint)) == multiset(Reports(changed, front)) + multiset(added);
    }
  }

  /** For instance, a reported line that occurs twice is printed twice. */
  lemma ReportedTwicePrintedTwice(changed: map<string, set<int>>, x: Line, y: Line)
    requires Reported(changed, x) && !Reported(changed, y)
    ensures Reports(changed, [x, y, x]) == [x, x]
  {
    assert [x][..0] == [];
    assert Reports(changed, [x]) == [x];
    assert [x, y][..1] == [x];
    assert Reports(changed, [x, y]) == [x];
    assert [x, y, x][..2] == [x, y];
  }

  /** Lines without a `file:N:` location are never printed. */
  lemma UnlocatedNeverReported(changed: map<string, set<int>>, lintLine: Line)
    requires LintLocation(lintLine).None?
    ensures !Reported(changed, lintLine)
  {
  }

  /** What a run of lint-diff.py produces: the printed lines and the exit
      status. */
  datatype Outcome = Outcome(output: seq<Line>, status: int)

  /** The whole script on a diff and a lint output; `None` when the diff
      loop raises `KeyError` (nothing is printed then). */
  method Run(diff: seq<Line>, lint: seq<Line>) returns (r: Option<Outcome>)
    ensures r.None? <==> Track(diff).None?
    ensures r.Some? ==> r.value.output == Reports(Track(diff).value.changed, lint)
    ensures r.Some? ==> r.value.status == 0 || r.value.status == 1
    ensures r.Some? ==> (r.value.status == 1 <==> r.value.output != [])
  {
    var changed := TrackChanges(diff);
    if changed.None? {
      return None;
    }
    var out, status := FilterLint(changed.value, lint);
    if out != [] {
      assert out[0] in Reports(changed.value, lint);
      ReportsMembership(changed.value, lint, out[0]);
    } else if status == 1 {
      var k :| 0 <= k < |lint| && Reported(changed.value, lint[k]);
      ReportsMembership(changed.value, lint, lint[k]);
    }
    return Some(Outcome(out, status));
  }
}
