/** `issubsequence`: whether one sequence can be obtained from another by
    deleting elements, decided by a two-pointer scan. */
module Subsequences {

  /** The greedy reading of "`s1` is a subsequence of `s2`": match the first
      element of `s1` against the first element of `s2` when they agree, and
      otherwise skip that element of `s2`. */
  predicate Subsequence<T(==)>(s1: seq<T>, s2: seq<T>)
    decreases |s2|
  {
    if s1 == [] then true
    else if s2 == [] then false
    else if s1[0] == s2[0] then Subsequence(s1[1..], s2[1..])
    else Subsequence(s1, s2[1..])
  }

  /** The independent definition: `f` maps each position of `s1`, in strictly
      increasing order, to a position of `s2` holding the same element. */
  ghost predicate Embeds<T>(f: seq<nat>, s1: seq<T>, s2: seq<T>)
  {
    |f| == |s1| &&
    (forall k | 0 <= k < |f| :: f[k] < |s2| && s1[k] == s2[f[k]]) &&
    (forall k, l | 0 <= k < l < |f| :: f[k] < f[l])
  }

  /** Every position moved one place to the right. */
  function Shifted(f: seq<nat>): (g: seq<nat>)
    ensures |g| == |f|
    ensures forall k | 0 <= k < |f| :: g[k] == f[k] + 1
  {
    seq(|f|, k requires 0 <= k < |f| => f[k] + 1)
  }

  /** Every position moved one place to the left. */
  function Unshifted(f: seq<nat>): (g: seq<nat>)
    requires forall k | 0 <= k < |f| :: 1 <= f[k]
    ensures |g| == |f|
    ensures forall k | 0 <= k < |f| :: g[k] == f[k] - 1
  {
    seq(|f|, k requires 0 <= k < |f| => f[k] - 1)
  }

  /** A greedy match yields an embedding. */
  lemma {:induction false} EmbeddingOf<T>(s1: seq<T>, s2: seq<T>) returns (f: seq<nat>)
    requires Subsequence(s1, s2)
    ensures Embeds(f, s1, s2)
    decreases |s2|
  {
    if s1 == [] {
      f := [];
    } else if s1[0] == s2[0] {
      var g := EmbeddingOf(s1[1..], s2[1..]);
      f := [0] + Shifted(g);
    } else {
      var g := EmbeddingOf(s1, s2[1..]);
      f := Shifted(g);
    }
  }

  /** An embedding makes the greedy match succeed. */
  lemma {:induction false} EmbeddedIsSubsequence<T>(f: seq<nat>, s1: seq<T>, s2: seq<T>)
    requires Embeds(f, s1, s2)
    ensures Subsequence(s1, s2)
    decreases |s2|
  {
    if s1 != [] {
      assert f[0] < |s2|;
      if s1[0] == s2[0] {
        var g := Unshifted(f[1..]);
        assert Embeds(g, s1[1..], s2[1..]) by {
          forall k | 0 <= k < |g|
            ensures g[k] < |s2| - 1 && s1[1..][k] == s2[1..][g[k]]
          {
            assert f[0] < f[k + 1];
          }
        }
        EmbeddedIsSubsequence(g, s1[1..], s2[1..]);
      } else {
        assert f[0] != 0;
        forall k | 0 <= k < |f| ensures 1 <= f[k] {
          if k > 0 { assert f[0] < f[k]; }
        }
        var g := Unshifted(f);
        EmbeddedIsSubsequence(g, s1, s2[1..]);
      }
    }
  }

  /** An embedding survives one more element at the end of the larger
      sequence, whether or not the smaller one takes it. */
  lemma EmbedsSnoc<T>(f: seq<nat>, s1: seq<T>, s2: seq<T>, x: T)
    requires Embeds(f, s1, s2)
    ensures Embeds(f, s1, s2 + [x])
    ensures Embeds(f + [|s2|], s1 + [x], s2 + [x])
  {
  }

  /** The greedy test is equivalent to the existence of an increasing
      placement, both ways. */
  lemma SubsequenceIffEmbedding<T>(s1: seq<T>, s2: seq<T>)
    ensures Subsequence(s1, s2) <==> exists f :: Embeds(f, s1, s2)
  {
    if Subsequence(s1, s2) {
      var f := EmbeddingOf(s1, s2);
    }
    if f :| Embeds(f, s1, s2) {
      EmbeddedIsSubsequence(f, s1, s2);
    }
  }

  /** Dropping the front of both sequences at once, one element at a time,
      as the two-pointer scan does. */
  lemma SubsequenceStep<T>(s1: seq<T>, s2: seq<T>, i: nat, j: nat)
    requires i < |s1| && j < |s2|
    ensures Subsequence(s1[i..], s2[j..]) ==
            if s1[i] == s2[j] then Subsequence(s1[i + 1..], s2[j + 1..])
            else Subsequence(s1[i..], s2[j + 1..])
  {
    assert s1[i..][0] == s1[i] && s1[i..][1..] == s1[i + 1..];
    assert s2[j..][0] == s2[j] && s2[j..][1..] == s2[j + 1..];
  }

  /** `issubsequence(s1, s2)`: the two-pointer scan. */
  method IsSubsequence<T(==)>(s1: seq<T>, s2: seq<T>) returns (r: bool)
    ensures r == Subsequence(s1, s2)
  {
    var n, m := |s1|, |s2|;
    var i, j := 0, 0;
    while i < n && j < m
      invariant 0 <= i <= n && 0 <= j <= m
      invariant Subsequence(s1[i..], s2[j..]) == Subsequence(s1, s2)
      decreases m - j
    {
      SubsequenceStep(s1, s2, i, j);
      if s1[i] == s2[j] {
        i := i + 1;
      }
      j := j + 1;
    }
    if i < n {
      assert s1[i..] != [] && s2[j..] == [];
    }
    return i == n;
  }

  /** A subsequence is never longer than the sequence it is drawn from. */
  lemma {:induction false} SubsequenceIsShorter<T>(s1: seq<T>, s2: seq<T>)
    requires Subsequence(s1, s2)
    ensures |s1| <= |s2|
    decreases |s2|
  {
    if s1 != [] {
      if s1[0] == s2[0] {
        SubsequenceIsShorter(s1[1..], s2[1..]);
      } else {
        SubsequenceIsShorter(s1, s2[1..]);
      }
    }
  }

  /** Every sequence is a subsequence of itself. */
  lemma {:induction false} SubsequenceReflexive<T>(s: seq<T>)
    ensures Subsequence(s, s)
    decreases |s|
  {
    if s != [] {
      SubsequenceReflexive(s[1..]);
    }
  }

  /** A subsequence of the same length is the sequence itself. */
  lemma {:induction false} SameLengthSubsequence<T>(s1: seq<T>, s2: seq<T>)
    requires Subsequence(s1, s2) && |s1| == |s2|
    ensures s1 == s2
    decreases |s2|
  {
    if s1 != [] {
      if s1[0] == s2[0] {
        SameLengthSubsequence(s1[1..], s2[1..]);
        assert s1 == [s1[0]] + s1[1..] && s2 == [s2[0]] + s2[1..];
      } else {
        SubsequenceIsShorter(s1, s2[1..]);
      }
    }
  }

  /** Deleting one element leaves a subsequence. */
  lemma {:induction false} DeletionIsSubsequence<T>(s: seq<T>, k: nat)
    requires k < |s|
    ensures Subsequence(s[..k] + s[k + 1..], s)
  {
    var f := seq(|s| - 1, i requires 0 <= i < |s| - 1 => if i < k then i else i + 1);
    assert Embeds(f, s[..k] + s[k + 1..], s);
    EmbeddedIsSubsequence(f, s[..k] + s[k + 1..], s);
  }

  /** Order matters: `[a, c]` is drawn from `[a, b, c]`, `[c, a]` is not. */
  lemma OrderMatters()
    ensures Subsequence(['a', 'c'], ['a', 'b', 'c'])
    ensures !Subsequence(['c', 'a'], ['a', 'b', 'c'])
  {
    assert ['a', 'b', 'c'][1..] == ['b', 'c'];
    assert ['b', 'c'][1..] == ['c'];
    assert ['c', 'a'][1..] == ['a'];
    assert ['a', 'c'][1..] == ['c'];
  }
}
