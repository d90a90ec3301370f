/** The three patterns lint-diff.py matches, written out as recognisers.
    Each pattern is matched at the start of a line (`re.match`), and each
    one's groups are determined without backtracking: every repetition is
    greedy and is followed by a character it cannot consume, so the first
    attempt is the only one that can succeed. */
module DiffText {
  import opened Lines

  /** Python 3's `\s` on text: the characters for which `str.isspace`
      holds. Under Python 2, which reads the files as byte strings, `\s`
      would be ASCII whitespace only. */
  predicate IsSpace(c: char)
  {
    var n := c as int;
    (9 <= n <= 13) || (28 <= n <= 32) || n == 0x85 || n == 0xA0 || n == 0x1680 ||
    (0x2000 <= n <= 0x200A) || n == 0x2028 || n == 0x2029 || n == 0x202F ||
    n == 0x205F || n == 0x3000
  }

  /** `[0-9]`: ASCII digits only. */
  predicate IsDigit(c: char)
  {
    '0' <= c <= '9'
  }

  /** The length of the longest prefix of `s` without whitespace (`\S*`). */
  function NonSpaceRun(s: string): (n: nat)
    ensures n <= |s|
    ensures forall k | 0 <= k < n :: !IsSpace(s[k])
    ensures n < |s| ==> IsSpace(s[n])
  {
    if s == [] || IsSpace(s[0]) then 0 else 1 + NonSpaceRun(s[1..])
  }

  /** The length of the longest prefix of `s` made of digits (`[0-9]*`). */
  function DigitRun(s: string): (n: nat)
    ensures n <= |s|
    ensures forall k | 0 <= k < n :: IsDigit(s[k])
    ensures n < |s| ==> !IsDigit(s[n])
  {
    if s == [] || !IsDigit(s[0]) then 0 else 1 + DigitRun(s[1..])
  }

  /** The value of a digit. */
  function DigitValue(c: char): nat
    requires IsDigit(c)
  {
    (c as int) - ('0' as int)
  }

  /** The digit for a value below ten. */
  function DigitChar(d: nat): (c: char)
    requires d < 10
    ensures IsDigit(c) && DigitValue(c) == d
  {
    ('0' as int + d) as char
  }

  /** `int(s)` on a string of ASCII digits. */
  function DecimalValue(s: string): nat
    requires forall k | 0 <= k < |s| :: IsDigit(s[k])
  {
    if s == [] then 0
    else 10 * DecimalValue(s[..|s| - 1]) + DigitValue(s[|s| - 1])
  }

  /** The decimal numeral of `n`, without leading zeros. */
  function DecimalString(n: nat): (s: string)
    ensures s != [] && forall k | 0 <= k < |s| :: IsDigit(s[k])
  {
    if n < 10 then [DigitChar(n)] else DecimalString(n / 10) + [DigitChar(n % 10)]
  }

  /** Reading back a numeral gives the number it was written from. */
  lemma {:induction false} DecimalRoundTrip(n: nat)
    ensures DecimalValue(DecimalString(n)) == n
  {
    var s := DecimalString(n);
    if n >= 10 {
      DecimalRoundTrip(n / 10);
      assert s[..|s| - 1] == DecimalString(n / 10);
    }
  }

  /** A numeral followed by a non-digit is read as a digit run of exactly
      its own length. */
  lemma {:induction false} DigitRunOfNumeral(digits: string, tail: string)
    requires forall k | 0 <= k < |digits| :: IsDigit(digits[k])
    requires tail == [] || !IsDigit(tail[0])
    ensures DigitRun(digits + tail) == |digits|
  {
    if digits != [] {
      assert (digits + tail)[1..] == digits[1..] + tail;
      DigitRunOfNumeral(digits[1..], tail);
    }
  }

  /** Cutting `s` at `n` and gluing the pieces back gives `s`. */
  lemma SplitAt(s: string, n: nat)
    requires n <= |s|
    ensures s[..n] + s[n..] == s
  {
  }

  /** A string that starts with `p` is `p` followed by the rest. */
  lemma PrefixSplit(s: string, p: string)
    requires StartsWith(s, p)
    ensures s == p + s[|p|..]
  {
  }

  /** A string with a colon at `i` is what comes before it, the colon, and
      what comes after. */
  lemma ColonSplit(s: string, i: nat)
    requires i < |s| && s[i] == ':'
    ensures s == s[..i] + (":" + s[i + 1..])
  {
    assert s[i..] == [':'] + s[i + 1..];
    SplitAt(s, i);
  }

  /** Prefixing `p` to `s` gives a string that starts with `p`, after which
      `s` is left. */
  lemma PrefixOf(p: string, s: string)
    ensures StartsWith(p + s, p) && (p + s)[|p|..] == s
  {
  }

  const PppPrefix := "+++ "
  const StripPrefix := "b/"

  /** `+\+\+ (b/)?(\S*).*` matched at the start of `line`: the file name
      (group 2) after `+++ ` and an optional `b/`. */
  function PppFileName(line: Line): (r: Option<string>)
    ensures r.Some? <==> StartsWith(line, PppPrefix)
    ensures r.Some? ==> forall k | 0 <= k < |r.value| :: !IsSpace(r.value[k])
  {
    if !StartsWith(line, PppPrefix) then None else Some(FileNameIn(line[|PppPrefix|..]))
  }

  /** The rest of the pattern after `+++ `: an optional `b/`, then the
      longest run without whitespace. */
  function FileNameIn(rest: string): (name: string)
    ensures forall k | 0 <= k < |name| :: !IsSpace(name[k])
  {
    var inner := if StartsWith(rest, StripPrefix) then rest[|StripPrefix|..] else rest;
    inner[..NonSpaceRun(inner)]
  }

  /** A `+++` header line: the prefix, `b/` when `stripped`, a file name
      and whatever follows it. */
  function PppLine(stripped: bool, name: string, tail: string): string
  {
    PppPrefix + ((if stripped then StripPrefix else "") + (name + tail))
  }

  /** A `+++` header assembled from a file name with no whitespace, an
      optional `b/`, and anything that starts with whitespace, names that
      file again. Without the `b/`, a name that itself starts with `b/` loses
      it. */
  lemma PppRoundTrip(stripped: bool, name: string, tail: string)
    requires forall k | 0 <= k < |name| :: !IsSpace(name[k])
    requires tail == [] || IsSpace(tail[0])
    requires !stripped ==> !StartsWith(name + tail, StripPrefix)
    ensures PppFileName(PppLine(stripped, name, tail)) == Some(name)
  {
    var inner := name + tail;
    var rest := if stripped then StripPrefix + inner else inner;
    assert PppLine(stripped, name, tail) == PppPrefix + rest;
    PrefixOf(PppPrefix, rest);
    if stripped {
      PrefixOf(StripPrefix, inner);
    }
    NonSpaceRunOf(name, tail);
    assert inner[..|name|] == name;
  }

  /** A name without whitespace followed by whitespace (or nothing) is a
      whitespace-free run of exactly its own length. */
  lemma {:induction false} NonSpaceRunOf(name: string, tail: string)
    requires forall k | 0 <= k < |name| :: !IsSpace(name[k])
    requires tail == [] || IsSpace(tail[0])
    ensures NonSpaceRun(name + tail) == |name|
  {
    if name != [] {
      assert (name + tail)[1..] == name[1..] + tail;
      NonSpaceRunOf(name[1..], tail);
    }
  }

  /** Conversely, every recognised header is such an assembly. */
  lemma PppDecomposes(line: Line) returns (stripped: bool, tail: string)
    requires PppFileName(line).Some?
    ensures tail == [] || IsSpace(tail[0])
    ensures line == PppLine(stripped, PppFileName(line).value, tail)
  {
    var rest := line[|PppPrefix|..];
    PrefixSplit(line, PppPrefix);
    stripped, tail := FileNameInDecomposes(rest);
  }

  /** The part after `+++ ` is an optional `b/`, the file name, and
      whatever follows it from the first whitespace on. */
  lemma FileNameInDecomposes(rest: string) returns (stripped: bool, tail: string)
    ensures tail == [] || IsSpace(tail[0])
    ensures rest == (if stripped then StripPrefix else "") + (FileNameIn(rest) + tail)
  {
    stripped := StartsWith(rest, StripPrefix);
    var inner := if stripped then rest[|StripPrefix|..] else rest;
    if stripped {
      PrefixSplit(rest, StripPrefix);
    }
    var n := NonSpaceRun(inner);
    tail := inner[n..];
    SplitAt(inner, n);
  }

  /** What is left after `(,[0-9]+)?`: a comma and at least one digit are
      consumed together, or nothing is. */
  function AfterCount(s: string): (rest: string)
    ensures |rest| <= |s|
  {
    if s != [] && s[0] == ',' && DigitRun(s[1..]) > 0 then s[1 + DigitRun(s[1..])..] else s
  }

  const HunkPrefix := "@@ -"
  const NewRangeMark := " +"
  const HunkSuffix := " @@"

  /** `@@ -([0-9]+)(,[0-9]+)? \+([0-9]+)(,[0-9]+)? @@.*` matched at the start
      of `line`: the start line of the new file's range (group 3). */
  function HunkNewStart(line: Line): (r: Option<nat>)
    ensures r.Some? ==> StartsWith(line, HunkPrefix)
  {
    if !StartsWith(line, HunkPrefix) then None else AfterHunkPrefix(line[|HunkPrefix|..])
  }

  /** The header after `@@ -`: the old range's start and optional count. */
  function AfterHunkPrefix(s: string): Option<nat>
  {
    var n := DigitRun(s);
    if n == 0 then None else AfterOldRange(AfterCount(s[n..]))
  }

  /** The header after the old range: ` +` and the new range. */
  function AfterOldRange(s: string): Option<nat>
  {
    if !StartsWith(s, NewRangeMark) then None else NewRange(s[|NewRangeMark|..])
  }

  /** The new range's start, an optional count, and ` @@`. */
  function NewRange(s: string): Option<nat>
  {
    var n := DigitRun(s);
    if n == 0 then None
    else if !StartsWith(AfterCount(s[n..]), HunkSuffix) then None
    else Some(DecimalValue(s[..n]))
  }

  /** The text of an optional `,count` part. */
  function Count(count: Option<nat>): string
  {
    match count
    case None => ""
    case Some(n) => "," + DecimalString(n)
  }

  /** The written `,count` part is of the accepted form. */
  lemma CountIsCountText(count: Option<nat>)
    ensures IsCountText(Count(count))
  {
    if count.Some? {
      assert Count(count)[1..] == DecimalString(count.value);
    }
  }

  /** A hunk header line written out from its two ranges, followed by
      anything (usually a function name and the line ending). */
  function HunkLine(oldStart: nat, oldCount: Option<nat>, newStart: nat, newCount: Option<nat>, tail: string): string
  {
    HunkPrefix + (DecimalString(oldStart) + (Count(oldCount) + (NewRangeMark +
      (DecimalString(newStart) + (Count(newCount) + (HunkSuffix + tail))))))
  }

  /** A hunk header written out from its ranges is read back as the new
      range's start. */
  lemma HunkRoundTrip(oldStart: nat, oldCount: Option<nat>, newStart: nat, newCount: Option<nat>, tail: string)
    ensures HunkNewStart(HunkLine(oldStart, oldCount, newStart, newCount, tail)) == Some(newStart)
  {
    CountIsCountText(oldCount);
    CountIsCountText(newCount);
    HunkAccepts(DecimalString(oldStart), Count(oldCount), DecimalString(newStart), Count(newCount), tail);
    DecimalRoundTrip(newStart);
  }

  /** A run of one or more ASCII digits, as `[0-9]+` matches it. */
  predicate IsNumeral(d: string)
  {
    d != [] && forall k | 0 <= k < |d| :: IsDigit(d[k])
  }

  /** The text of an optional `(,[0-9]+)?` part: empty, or a comma and
      digits. */
  predicate IsCountText(c: string)
  {
    c == [] || (c[0] == ',' && IsNumeral(c[1..]))
  }

  /** What `AfterCount` consumes is such a `,count` part. */
  lemma AfterCountSplit(s: string) returns (count: string)
    ensures IsCountText(count) && s == count + AfterCount(s)
  {
    if s != [] && s[0] == ',' && DigitRun(s[1..]) > 0 {
      var n := DigitRun(s[1..]);
      count := s[..1 + n];
      assert count[1..] == s[1..][..n];
      SplitAt(s, 1 + n);
    } else {
      count := [];
    }
  }

  /** Any `,count` part followed by a space is consumed whole. */
  lemma AfterCountOfText(count: string, tail: string)
    requires IsCountText(count) && tail != [] && tail[0] == ' '
    ensures AfterCount(count + tail) == tail
  {
    if count != [] {
      var s := count + tail;
      assert s[1..] == count[1..] + tail;
      DigitRunOfNumeral(count[1..], tail);
      assert s[1 + (|count| - 1)..] == tail;
    }
  }

  /** Any numeral, a `,count` part and what follows from a space on: the
      digit run is the numeral and the count is skipped. */
  lemma NumeralRangeOf(digits: string, count: string, tail: string)
    requires IsNumeral(digits) && IsCountText(count) && tail != [] && tail[0] == ' '
    ensures var s := digits + (count + tail);
            var n := DigitRun(s);
            n == |digits| && s[..n] == digits && AfterCount(s[n..]) == tail
  {
    var after := count + tail;
    assert after == [] || !IsDigit(after[0]);
    DigitRunOfNumeral(digits, after);
    assert (digits + after)[..|digits|] == digits;
    assert (digits + after)[|digits|..] == after;
    AfterCountOfText(count, tail);
  }

  /** The header text after `@@ -`, once it starts with a digit: the old
      range's numeral, its `,count` part, and the rest, on which the header
      is judged by `AfterOldRange`. */
  lemma OldRangeDecomposes(s: string) returns (digits: string, count: string, rest: string)
    requires DigitRun(s) > 0
    ensures IsNumeral(digits) && IsCountText(count)
    ensures s == digits + (count + rest)
    ensures AfterOldRange(rest) == AfterHunkPrefix(s)
  {
    var n := DigitRun(s);
    assert AfterHunkPrefix(s) == AfterOldRange(AfterCount(s[n..]));
    digits := s[..n];
    assert forall k | 0 <= k < |digits| :: digits[k] == s[k];
    count := AfterCountSplit(s[n..]);
    rest := AfterCount(s[n..]);
    SplitAt(s, n);
  }

  /** The new range, when accepted: its numeral (whose value is the result),
      its `,count` part, ` @@` and anything after. */
  lemma NewRangeDecomposes(s: string) returns (digits: string, count: string, tail: string)
    requires NewRange(s).Some?
    ensures IsNumeral(digits) && IsCountText(count)
    ensures DecimalValue(digits) == NewRange(s).value
    ensures s == digits + (count + (HunkSuffix + tail))
  {
    var n := DigitRun(s);
    digits := s[..n];
    count := AfterCountSplit(s[n..]);
    var after := AfterCount(s[n..]);
    PrefixSplit(after, HunkSuffix);
    tail := after[|HunkSuffix|..];
    SplitAt(s, n);
  }

  /** Conversely to `HunkAccepts`, every accepted line is
      `@@ -digits[,digits] +digits[,digits] @@tail`, and the result is the
      value of the third numeral (group 3). */
  lemma HunkDecomposes(line: Line) returns (oldDigits: string, oldCount: string, newDigits: string, newCount: string, tail: string)
    ensures HunkNewStart(line).Some? ==>
              IsNumeral(oldDigits) && IsCountText(oldCount) &&
              IsNumeral(newDigits) && IsCountText(newCount) &&
              DecimalValue(newDigits) == HunkNewStart(line).value &&
              line == HunkPrefix + (oldDigits + (oldCount + (NewRangeMark +
                        (newDigits + (newCount + (HunkSuffix + tail))))))
  {
    oldDigits, oldCount, newDigits, newCount, tail := [], [], [], [], [];
    if HunkNewStart(line).Some? {
      var s := line[|HunkPrefix|..];
      PrefixSplit(line, HunkPrefix);
      var rest;
      oldDigits, oldCount, rest := OldRangeDecomposes(s);
      PrefixSplit(rest, NewRangeMark);
      newDigits, newCount, tail := NewRangeDecomposes(rest[|NewRangeMark|..]);
    }
  }

  /** Every line of the form `@@ -digits[,digits] +digits[,digits] @@tail`,
      leading zeros included, is accepted with the third numeral's value. */
  lemma HunkAccepts(oldDigits: string, oldCount: string, newDigits: string, newCount: string, tail: string)
    requires IsNumeral(oldDigits) && IsCountText(oldCount)
    requires IsNumeral(newDigits) && IsCountText(newCount)
    ensures HunkNewStart(HunkPrefix + (oldDigits + (oldCount + (NewRangeMark +
              (newDigits + (newCount + (HunkSuffix + tail))))))) == Some(DecimalValue(newDigits))
  {
    var newRange := newDigits + (newCount + (HunkSuffix + tail));
    var afterOld := NewRangeMark + newRange;
    var afterPrefix := oldDigits + (oldCount + afterOld);
    PrefixOf(HunkPrefix, afterPrefix);
    assert HunkNewStart(HunkPrefix + afterPrefix) == AfterHunkPrefix(afterPrefix);
    NumeralRangeOf(oldDigits, oldCount, afterOld);
    assert AfterHunkPrefix(afterPrefix) == AfterOldRange(afterOld);
    PrefixOf(NewRangeMark, newRange);
    assert AfterOldRange(afterOld) == NewRange(newRange);
    NumeralRangeOf(newDigits, newCount, HunkSuffix + tail);
    PrefixOf(HunkSuffix, tail);
  }

  /** The index of the first `:` in `s`, or `|s|` when there is none. */
  function ColonIndex(s: string): (i: nat)
    ensures i <= |s|
    ensures forall k | 0 <= k < i :: s[k] != ':'
    ensures i < |s| ==> s[i] == ':'
  {
    if s == [] || s[0] == ':' then 0 else 1 + ColonIndex(s[1..])
  }

  /** A location in lint output: a file name and a line number. */
  datatype Location = Location(file: string, line: nat)

  /** `([^:]*):([0-9]+):.*` matched at the start of `line`: the text before
      the first colon (group 1), then the digits up to the second colon,
      read as a number (group 2). */
  function LintLocation(line: Line): (r: Option<Location>)
    ensures r.Some? ==> forall k | 0 <= k < |r.value.file| :: r.value.file[k] != ':'
  {
    var c := ColonIndex(line);
    if c == |line| then None else LocationIn(line[..c], line[c + 1..])
  }

  /** The rest of the pattern after the first colon: digits, then a colon. */
  function LocationIn(file: string, rest: string): (r: Option<Location>)
    ensures r.Some? ==> r.value.file == file
  {
    var n := DigitRun(rest);
    if n == 0 || n == |rest| || rest[n] != ':' then None
    else Some(Location(file, DecimalValue(rest[..n])))
  }

  /** A lint message `file:digits:message`. */
  function LintLine(file: string, digits: string, message: string): string
  {
    file + (":" + (digits + (":" + message)))
  }

  /** Every `file:digits:message` line, for a file name without a colon and
      any run of digits (leading zeros included), is read as that file and
      the digits' value. */
  lemma LintLocationAccepts(file: string, digits: string, message: string)
    requires forall k | 0 <= k < |file| :: file[k] != ':'
    requires IsNumeral(digits)
    ensures LintLocation(LintLine(file, digits, message)) == Some(Location(file, DecimalValue(digits)))
  {
    var after := ":" + (digits + (":" + message));
    var line := file + after;
    ColonIndexOf(file, after);
    PrefixOf(file, after);
    var rest := digits + (":" + message);
    PrefixOf(":", rest);
    assert line[|file| + 1..] == rest;
    DigitRunOfNumeral(digits, ":" + message);
    PrefixOf(digits, ":" + message);
    assert rest[..|digits|] == digits;
  }

  /** A lint message written as `file:N:message`, for a file name without a
      colon, is read back as that file and line. */
  lemma LintLocationRoundTrip(file: string, n: nat, message: string)
    requires forall k | 0 <= k < |file| :: file[k] != ':'
    ensures LintLocation(LintLine(file, DecimalString(n), message)) == Some(Location(file, n))
  {
    LintLocationAccepts(file, DecimalString(n), message);
    DecimalRoundTrip(n);
  }

  /** A colon-free name followed by a colon puts the first colon right
      after the name. */
  lemma {:induction false} ColonIndexOf(file: string, tail: string)
    requires forall k | 0 <= k < |file| :: file[k] != ':'
    requires tail != [] && tail[0] == ':'
    ensures ColonIndex(file + tail) == |file|
  {
    if file != [] {
      assert (file + tail)[1..] == file[1..] + tail;
      ColonIndexOf(file[1..], tail);
    }
  }

  /** Conversely, a recognised line is a file name, a colon, a run of digits
      whose value is the line number, another colon, and the rest. */
  lemma LintLocationDecomposes(line: Line) returns (digits: string, message: string)
    requires LintLocation(line).Some?
    ensures digits != [] && forall k | 0 <= k < |digits| :: IsDigit(digits[k])
    ensures DecimalValue(digits) == LintLocation(line).value.line
    ensures line == LintLine(LintLocation(line).value.file, digits, message)
  {
    var c := ColonIndex(line);
    var rest := line[c + 1..];
    var loc := LocationIn(line[..c], rest);
    assert LintLocation(line) == loc;
    digits, message := LocationInDecomposes(line[..c], rest);
    ColonSplit(line, c);
  }

  /** The part after the first colon, when recognised, is a run of digits
      whose value is the line number, a colon, and the rest. */
  lemma LocationInDecomposes(file: string, rest: string) returns (digits: string, message: string)
    requires LocationIn(file, rest).Some?
    ensures digits != [] && forall k | 0 <= k < |digits| :: IsDigit(digits[k])
    ensures DecimalValue(digits) == LocationIn(file, rest).value.line
    ensures rest == digits + (":" + message)
  {
    var n := DigitRun(rest);
    ColonSplit(rest, n);
    digits, message := rest[..n], rest[n + 1..];
  }
}
