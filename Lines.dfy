/** Lines of text, treated as opaque comparable values, and the few
    operations on them that both tools need. */
module Lines {

  /** A line of a file, including its line terminator when it has one. */
  type Line = string

  /** An optional value: `None` plays the part of Python's `None`. */
  datatype Option<+T> = None | Some(value: T)

  /** `str.startswith`: `prefix` is an initial segment of `s`. */
  predicate StartsWith(s: string, prefix: string)
  {
    prefix <= s
  }

  /** A non-empty slice followed by `rest` is its first element followed by
      the rest of the slice and `rest`. */
  lemma SliceCons<T>(s: seq<T>, i: nat, j: nat, rest: seq<T>)
    requires i < j <= |s|
    ensures s[i..j] + rest == [s[i]] + (s[i + 1..j] + rest)
  {
    assert s[i..j] == [s[i]] + s[i + 1..j];
  }

  /** A non-empty suffix is its first element followed by the rest. */
  lemma DropCons<T>(s: seq<T>, i: nat)
    requires i < |s|
    ensures s[i..] == [s[i]] + s[i + 1..]
  {
  }
}
