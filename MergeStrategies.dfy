/** `merge` and its strategies: given the base and the two parents of a
    conflict block, either produce merged lines or give up (`None`). */
module MergeStrategies {
  import opened Lines
  import opened Subsequences

  /** The one command-line option that is acted upon. */
  datatype Mode = JavaImports | BlankLines | AdjacentLines

  const ImportPrefix := "import "

  /** `all_import_lines`: every line is a Java import line. */
  function AllImportLines(lines: seq<Line>): (r: bool)
    ensures r <==> forall k | 0 <= k < |lines| :: StartsWith(lines[k], ImportPrefix)
  {
    if lines == [] then true
    else StartsWith(lines[0], ImportPrefix) && AllImportLines(lines[1..])
  }

  /** One step of Case A: a line on which the parents agree, or which only
      one parent changed, merges to the changed (or agreed) version. */
  function MergeLine(b: Line, x: Line, y: Line): (r: Option<Line>)
    ensures r.Some? <==> x == y || b == x || b == y
    ensures r.Some? ==> r.value == x || r.value == y
    ensures b == x ==> r == Some(y)
    ensures b == y ==> r == Some(x)
  {
    if x == y then Some(x)
    else if b == x then Some(y)
    else if b == y then Some(x)
    else None
  }

  /** Case A as a value: line-by-line merging of three texts of equal
      length, which fails as soon as one line was changed by both parents
      in different ways. */
  function PositionwiseMerge(base: seq<Line>, p1: seq<Line>, p2: seq<Line>): (r: Option<seq<Line>>)
    requires |base| == |p1| == |p2|
    ensures r.Some? <==> forall k | 0 <= k < |base| :: MergeLine(base[k], p1[k], p2[k]).Some?
    ensures r.Some? ==> |r.value| == |base|
    ensures r.Some? ==> forall k | 0 <= k < |base| :: r.value[k] == MergeLine(base[k], p1[k], p2[k]).value
  {
    if base == [] then Some([])
    else match MergeLine(base[0], p1[0], p2[0])
      case None => None
      case Some(line) =>
        match PositionwiseMerge(base[1..], p1[1..], p2[1..])
        case None => None
        case Some(rest) => Some([line] + rest)
  }

  /** `merge_base_is_prefix_or_suffix`: when `p1` is `base` with lines added
      at its beginning or its end, the result keeps those additions and puts
      `p2` where `base` was. The beginning is tried first. (Python's
      `p1[-len(base):]` is the whole of `p1` for an empty base, but then the
      first test has already succeeded, so the suffix `p1[|p1| - |base|..]`
      is what is compared.) */
  function MergeBaseIsPrefixOrSuffix(base: seq<Line>, p1: seq<Line>, p2: seq<Line>): Option<seq<Line>>
  {
    if |base| < |p1| then
      if p1[..|base|] == base then Some(p2 + p1[|base|..])
      else if p1[|p1| - |base|..] == base then Some(p1[..|p1| - |base|] + p2)
      else None
    else None
  }

  /** Case B succeeds only when `p1` is longer than the base and is the base
      followed, or preceded, by some lines; the result is those lines with
      `p2` put where the base was. */
  lemma PrefixOrSuffixMergeShape(base: seq<Line>, p1: seq<Line>, p2: seq<Line>)
    ensures MergeBaseIsPrefixOrSuffix(base, p1, p2).Some? ==>
              |base| < |p1| &&
              exists added: seq<Line> | added != [] ::
                (p1 == base + added && MergeBaseIsPrefixOrSuffix(base, p1, p2).value == p2 + added) ||
                (p1 == added + base && MergeBaseIsPrefixOrSuffix(base, p1, p2).value == added + p2)
  {
    if MergeBaseIsPrefixOrSuffix(base, p1, p2).Some? {
      if p1[..|base|] == base {
        var added := p1[|base|..];
        assert p1 == base + added;
      } else {
        var added := p1[..|p1| - |base|];
        assert p1 == added + base;
      }
    }
  }

  /** Lines appended after the base are kept after `p2`. */
  lemma AppendedToBase(base: seq<Line>, added: seq<Line>, p2: seq<Line>)
    requires added != []
    ensures MergeBaseIsPrefixOrSuffix(base, base + added, p2) == Some(p2 + added)
  {
    assert (base + added)[..|base|] == base;
    assert (base + added)[|base|..] == added;
  }

  /** Lines prepended before the base are kept before `p2`, unless the
      result also reads as an append, which takes priority. */
  lemma PrependedToBase(added: seq<Line>, base: seq<Line>, p2: seq<Line>)
    requires added != []
    requires (added + base)[..|base|] != base
    ensures MergeBaseIsPrefixOrSuffix(base, added + base, p2) == Some(added + p2)
  {
    var p1 := added + base;
    assert p1[|p1| - |base|..] == base;
    assert p1[..|p1| - |base|] == added;
  }

  /** Neither end of `p1` is the base: Case B gives up for this order. */
  lemma NotAnEndOfParent(base: seq<Line>, p1: seq<Line>, p2: seq<Line>)
    requires |base| < |p1|
    requires forall h: seq<Line> :: h + base != p1 && base + h != p1
    ensures MergeBaseIsPrefixOrSuffix(base, p1, p2) == None
  {
    assert p1[..|base|] + p1[|base|..] == p1;
    assert p1[..|p1| - |base|] + p1[|p1| - |base|..] == p1;
  }

  /** `merge_edits_on_different_lines` as a value: Case A (line-by-line, equal
      lengths), then Case B (additions at one end, `p1` first and then
      `p2`), then Case C (both parents only delete lines), else `None`. */
  function AdjacentLinesMerge(base: seq<Line>, p1: seq<Line>, p2: seq<Line>): Option<seq<Line>>
  {
    if |base| == |p1| == |p2| && PositionwiseMerge(base, p1, p2).Some? then
      PositionwiseMerge(base, p1, p2)
    else if |base| != 0 && MergeBaseIsPrefixOrSuffix(base, p1, p2).Some? then
      MergeBaseIsPrefixOrSuffix(base, p1, p2)
    else if |base| != 0 && MergeBaseIsPrefixOrSuffix(base, p2, p1).Some? then
      MergeBaseIsPrefixOrSuffix(base, p2, p1)
    else if |base| != 0 && Subsequence(p1, base) && Subsequence(p2, base) then
      Some([])
    else
      None
  }

  /** `merge_edits_on_different_lines`: the Case A loop with its early
      `break`, then the other cases in order. */
  method MergeEditsOnDifferentLines(base: seq<Line>, p1: seq<Line>, p2: seq<Line>) returns (result: Option<seq<Line>>)
    ensures result == AdjacentLinesMerge(base, p1, p2)
  {
    var baseLen := |base|;
    result := None;
    if baseLen == |p1| && baseLen == |p2| {
      result := Some([]);
      var k := 0;
      while k < baseLen
        invariant 0 <= k <= baseLen
        invariant result.Some? && |result.value| == k
        invariant forall i | 0 <= i < k :: MergeLine(base[i], p1[i], p2[i]).Some?
        invariant forall i | 0 <= i < k :: result.value[i] == MergeLine(base[i], p1[i], p2[i]).value
      {
        if p1[k] == p2[k] {
          result := Some(result.value + [p1[k]]);
        } else if base[k] == p1[k] {
          result := Some(result.value + [p2[k]]);
        } else if base[k] == p2[k] {
          result := Some(result.value + [p1[k]]);
        } else {
          result := None;
          break;
        }
        k := k + 1;
      }
      if result.Some? {
        var spec := PositionwiseMerge(base, p1, p2);
        assert result.value == spec.value;
      } else {
        assert MergeLine(base[k], p1[k], p2[k]).None?;
      }
    }
    if result.Some? {
      return result;
    }

    if baseLen != 0 {
      result := MergeBaseIsPrefixOrSuffix(base, p1, p2);
      if result.None? {
        result := MergeBaseIsPrefixOrSuffix(base, p2, p1);
      }
      if result.Some? {
        return result;
      }
    }

    if baseLen != 0 {
      var first := IsSubsequence(p1, base);
      if first {
        var second := IsSubsequence(p2, base);
        if second {
          return Some([]);
        }
      }
    }
    return result;
  }

  /** Case A: when every line was changed by at most one parent (or by both
      in the same way), the merge keeps every line's changed version. */
  lemma EditsOnDifferentLinesMerge(base: seq<Line>, p1: seq<Line>, p2: seq<Line>)
    requires |base| == |p1| == |p2|
    requires forall k | 0 <= k < |base| :: p1[k] == p2[k] || base[k] == p1[k] || base[k] == p2[k]
    ensures AdjacentLinesMerge(base, p1, p2).Some?
    ensures |AdjacentLinesMerge(base, p1, p2).value| == |base|
    ensures forall k | 0 <= k < |base| ::
              var m := AdjacentLinesMerge(base, p1, p2).value[k];
              (base[k] == p1[k] ==> m == p2[k]) && (base[k] == p2[k] ==> m == p1[k]) &&
              (p1[k] == p2[k] ==> m == p1[k])
  {
    assert forall k | 0 <= k < |base| :: MergeLine(base[k], p1[k], p2[k]).Some?;
  }

  /** Case A with a line that all three texts have differently: no case of
      the strategy applies, since Cases B and C need a parent of another
      length than the base. */
  lemma ConflictingLineIsNotMerged(base: seq<Line>, p1: seq<Line>, p2: seq<Line>, k: nat)
    requires |base| == |p1| == |p2| && k < |base|
    requires p1[k] != p2[k] && base[k] != p1[k] && base[k] != p2[k]
    ensures AdjacentLinesMerge(base, p1, p2) == None
  {
    assert MergeLine(base[k], p1[k], p2[k]).None?;
    if Subsequence(p1, base) {
      SameLengthSubsequence(p1, base);
    }
  }

  /** An empty base: only three empty texts merge (to nothing). */
  lemma EmptyBaseMerge(p1: seq<Line>, p2: seq<Line>)
    ensures AdjacentLinesMerge([], p1, p2) == if p1 == [] && p2 == [] then Some([]) else None
  {
  }

  /** Case B: `p1` appended lines to a non-empty base that `p2` replaced;
      the merge is `p2` followed by the appended lines. */
  lemma AppendedByFirstParent(base: seq<Line>, added: seq<Line>, p2: seq<Line>)
    requires base != [] && added != []
    ensures AdjacentLinesMerge(base, base + added, p2) == Some(p2 + added)
  {
    AppendedToBase(base, added, p2);
  }

  /** Case B: `p1` prepended lines to a non-empty base that `p2` replaced. */
  lemma PrependedByFirstParent(added: seq<Line>, base: seq<Line>, p2: seq<Line>)
    requires base != [] && added != []
    requires (added + base)[..|base|] != base
    ensures AdjacentLinesMerge(base, added + base, p2) == Some(added + p2)
  {
    PrependedToBase(added, base, p2);
  }

  /** Case B with the parents swapped: when `p1` is not an extension of the
      base (it may have edited the base's lines in place) but `p2` appended
      lines to it, the merge is `p1` followed by them. */
  lemma AppendedBySecondParent(base: seq<Line>, p1: seq<Line>, added: seq<Line>)
    requires base != [] && added != []
    requires MergeBaseIsPrefixOrSuffix(base, p1, base + added) == None
    ensures AdjacentLinesMerge(base, p1, base + added) == Some(p1 + added)
  {
    AppendedToBase(base, added, p1);
  }

  /** Case B with the parents swapped: when `p1` is not an extension of the
      base but `p2` prepended lines to it, the merge is those lines followed
      by `p1`. */
  lemma PrependedBySecondParent(base: seq<Line>, p1: seq<Line>, added: seq<Line>)
    requires base != [] && added != []
    requires (added + base)[..|base|] != base
    requires MergeBaseIsPrefixOrSuffix(base, p1, added + base) == None
    ensures AdjacentLinesMerge(base, p1, added + base) == Some(added + p1)
  {
    PrependedToBase(added, base, p1);
  }

  /** Case C: when both parents only deleted lines of a non-empty base, and
      not both are the base itself, the merge is empty. */
  lemma DeletionsMergeToNothing(base: seq<Line>, p1: seq<Line>, p2: seq<Line>)
    requires base != []
    requires Subsequence(p1, base) && Subsequence(p2, base)
    requires p1 != base || p2 != base
    ensures AdjacentLinesMerge(base, p1, p2) == Some([])
  {
    SubsequenceIsShorter(p1, base);
    SubsequenceIsShorter(p2, base);
    if |p1| == |base| && |p2| == |base| {
      SameLengthSubsequence(p1, base);
      SameLengthSubsequence(p2, base);
    }
  }

  /** The converse of the case lemmas: every merge the strategy produces
      comes from one of its cases, Case A line by line, Case B with either
      parent adding lines at one end of the base, or Case C (nothing). */
  lemma MergedByOneOfTheCases(base: seq<Line>, p1: seq<Line>, p2: seq<Line>)
    requires AdjacentLinesMerge(base, p1, p2).Some?
    ensures var m := AdjacentLinesMerge(base, p1, p2).value;
            (|base| == |p1| == |p2| && |m| == |base| &&
             forall k | 0 <= k < |base| :: MergeLine(base[k], p1[k], p2[k]) == Some(m[k])) ||
            (base != [] && exists added: seq<Line> | added != [] ::
               (p1 == base + added && m == p2 + added) || (p1 == added + base && m == added + p2)) ||
            (base != [] && exists added: seq<Line> | added != [] ::
               (p2 == base + added && m == p1 + added) || (p2 == added + base && m == added + p1)) ||
            (base != [] && Subsequence(p1, base) && Subsequence(p2, base) && m == [])
  {
    PrefixOrSuffixMergeShape(base, p1, p2);
    PrefixOrSuffixMergeShape(base, p2, p1);
  }

  /** `merge`, as a value: only the adjacent-lines strategy can ever produce
      lines. The blank-lines strategy is a placeholder that does nothing,
      and the Java-imports strategy returns `list(...).sort()`, which is
      Python's `None`, even when every line is an import. */
  function MergeOf(mode: Mode, base: seq<Line>, p1: seq<Line>, p2: seq<Line>): (r: Option<seq<Line>>)
    ensures r.Some? ==> mode == AdjacentLines
  {
    match mode
    case AdjacentLines => AdjacentLinesMerge(base, p1, p2)
    case BlankLines => None
    // Whether or not every line is an import, the result is None: in the
    // all-imports case the function returns list.sort(), which is None.
    case JavaImports => None
  }

  /** `merge`: dispatches on the mode. */
  method Merge(mode: Mode, base: seq<Line>, p1: seq<Line>, p2: seq<Line>) returns (r: Option<seq<Line>>)
    ensures r == MergeOf(mode, base, p1, p2)
  {
    if mode == AdjacentLines {
      var adjacent := MergeEditsOnDifferentLines(base, p1, p2);
      if adjacent.Some? {
        return adjacent;
      }
    }
    if mode == BlankLines {
      // no blank-line rule exists
    }
    if mode == JavaImports {
      if AllImportLines(base) && AllImportLines(p1) && AllImportLines(p2) {
        // `list(set(parent1 + parent2)).sort()` sorts in place and yields `None`
        return None;
      }
    }
    return None;
  }

  /** Only the adjacent-lines mode ever edits a conflict, and in it `merge`
      is exactly `merge_edits_on_different_lines`. */
  lemma OnlyAdjacentModeMerges(mode: Mode, base: seq<Line>, p1: seq<Line>, p2: seq<Line>)
    ensures mode != AdjacentLines ==> MergeOf(mode, base, p1, p2) == None
    ensures mode == AdjacentLines ==> MergeOf(mode, base, p1, p2) == AdjacentLinesMerge(base, p1, p2)
  {
  }

  /** Java imports are never merged, even when every section is imports. */
  lemma ImportsAreNotMerged(base: seq<Line>, p1: seq<Line>, p2: seq<Line>)
    requires AllImportLines(base) && AllImportLines(p1) && AllImportLines(p2)
    ensures MergeOf(JavaImports, base, p1, p2) == None
  {
  }

  /** Four worked examples: a line-by-line merge, a line changed three ways,
      two interleaved deletions, and a line edited by one parent while the
      other appended a line. */
  lemma MergeExamples()
    ensures AdjacentLinesMerge(["a", "b", "c"], ["a", "B", "c"], ["a", "b", "C"]) == Some(["a", "B", "C"])
    ensures AdjacentLinesMerge(["x"], ["y"], ["z"]) == None
    ensures AdjacentLinesMerge(["a", "b", "c"], ["a", "c"], ["b"]) == Some([])
    ensures AdjacentLinesMerge(["a"], ["A"], ["a", "b"]) == Some(["A", "b"])
  {
    assert ["a"] + ["b"] == ["a", "b"] && ["A"] + ["b"] == ["A", "b"];
    assert MergeBaseIsPrefixOrSuffix(["a"], ["A"], ["a"] + ["b"]) == None;
    AppendedBySecondParent(["a"], ["A"], ["b"]);
    EditsOnDifferentLinesMerge(["a", "b", "c"], ["a", "B", "c"], ["a", "b", "C"]);
    var m := AdjacentLinesMerge(["a", "b", "c"], ["a", "B", "c"], ["a", "b", "C"]).value;
    assert m == ["a", "B", "C"];
    ConflictingLineIsNotMerged(["x"], ["y"], ["z"], 0);
    DeletionIsSubsequence(["a", "b", "c"], 1);
    assert ["a", "b", "c"][..1] + ["a", "b", "c"][2..] == ["a", "c"];
    DeletionIsSubsequence(["b", "c"], 1);
    assert ["b", "c"][..1] + ["b", "c"][2..] == ["b"];
    assert ["a", "b", "c"][1..] == ["b", "c"];
    assert Subsequence(["b"], ["a", "b", "c"]);
    DeletionsMergeToNothing(["a", "b", "c"], ["a", "c"], ["b"]);
  }
}
