/**
 * The two string operations the extractor applies: Python's `str.strip()`
 * with no argument, and `str.split(sep)`.
 */
module Text {

  /** Python's `str.isspace()` on one character: the set `str.strip()` removes. */
  predicate IsSpace(c: char) {
    || ('\t' <= c <= '\r')
    || ('\U{1C}' <= c <= '\U{1F}')
    || c == ' '
    || c == '\U{85}'
    || c == '\U{A0}'
    || c == '\U{1680}'
    || ('\U{2000}' <= c <= '\U{200A}')
    || c == '\U{2028}'
    || c == '\U{2029}'
    || c == '\U{202F}'
    || c == '\U{205F}'
    || c == '\U{3000}'
  }

  /** The whitespace characters below U+0100, listed one by one. */
  const Latin1Spaces: set<char> :=
    {'\t', '\n', '\U{B}', '\U{C}', '\r', '\U{1C}', '\U{1D}', '\U{1E}', '\U{1F}', ' ', '\U{85}', '\U{A0}'}

  /** Below U+0100, `isspace()` holds exactly for the listed characters. */
  lemma IsSpaceLatin1(c: char)
    requires c <= '\U{FF}'
    ensures IsSpace(c) <==> c in Latin1Spaces
  {
  }

  predicate AllSpace(s: string) {
    forall i :: 0 <= i < |s| ==> IsSpace(s[i])
  }

  /** Every character of `s` at a position in `[lo, hi)` is whitespace. */
  predicate SpaceBetween(s: string, lo: int, hi: int)
    requires 0 <= lo <= hi <= |s|
  {
    forall k :: lo <= k < hi ==> IsSpace(s[k])
  }

  /** `s[i..j]` is what is left after removing all surrounding whitespace of `s`. */
  predicate StrippedAt(s: string, i: int, j: int) {
    && 0 <= i <= j <= |s|
    && SpaceBetween(s, 0, i)
    && SpaceBetween(s, j, |s|)
    && (i < j ==> !IsSpace(s[i]) && !IsSpace(s[j - 1]))
  }

  /** The first position at or after `i` that is not whitespace, or `|s|`. */
  function SkipSpace(s: string, i: nat): (k: nat)
    requires i <= |s|
    ensures i <= k <= |s| && SpaceBetween(s, i, k)
    ensures k == |s| || !IsSpace(s[k])
    decreases |s| - i
  {
    if i < |s| && IsSpace(s[i]) then SkipSpace(s, i + 1) else i
  }

  /** The position just after the last non-whitespace character in
      `s[lo..j]`, or `lo` when there is none. */
  function SkipSpaceBack(s: string, lo: nat, j: nat): (k: nat)
    requires lo <= j <= |s|
    ensures lo <= k <= j && SpaceBetween(s, k, j)
    ensures k == lo || !IsSpace(s[k - 1])
    decreases j
  {
    if lo < j && IsSpace(s[j - 1]) then SkipSpaceBack(s, lo, j - 1) else j
  }

  /** Python's `s.strip()`. */
  function Strip(s: string): (r: string)
    ensures |r| <= |s|
    ensures r == [] || (!IsSpace(r[0]) && !IsSpace(r[|r| - 1]))
  {
    var i := SkipSpace(s, 0);
    s[i..SkipSpaceBack(s, i, |s|)]
  }

  /** `strip()` keeps a slice `s[i..j]` and removes only whitespace around it. */
  lemma StripBounds(s: string) returns (i: int, j: int)
    ensures StrippedAt(s, i, j) && Strip(s) == s[i..j]
  {
    i := SkipSpace(s, 0);
    j := SkipSpaceBack(s, i, |s|);
    if i == |s| {
      assert j == i;
    }
  }

  /** Surrounding whitespace is determined uniquely: any split of `s` into
      whitespace, a core that starts and ends with non-whitespace, and
      whitespace has `Strip(s)` as its core. */
  lemma StripUnique(s: string, i: int, j: int)
    requires StrippedAt(s, i, j)
    ensures Strip(s) == s[i..j]
  {
  }

  /** Stripping leaves nothing exactly when the string is all whitespace;
      this is what makes whitespace-only content come out as "". */
  lemma StripEmptyIff(s: string)
    ensures Strip(s) == [] <==> AllSpace(s)
  {
  }

  /** CPython's two-index scan for `str.strip()`: advance from the left over
      whitespace, then retreat from the right, and slice. */
  method StripScan(s: string) returns (r: string)
    ensures r == Strip(s)
  {
    var i := 0;
    while i < |s| && IsSpace(s[i])
      invariant 0 <= i <= |s|
      invariant SpaceBetween(s, 0, i)
    {
      i := i + 1;
    }
    var j := |s|;
    while j > i && IsSpace(s[j - 1])
      invariant i <= j <= |s|
      invariant SpaceBetween(s, j, |s|)
    {
      j := j - 1;
    }
    StripUnique(s, i, j);
    r := s[i..j];
  }

  /** The text before the first `sep` in `s`, or all of `s` when it has none. */
  function BeforeFirst(s: string, sep: char): (r: string)
    ensures |r| <= |s| && r == s[..|r|]
    ensures sep !in r
    ensures |r| < |s| ==> s[|r|] == sep
  {
    if |s| == 0 || s[0] == sep then [] else [s[0]] + BeforeFirst(s[1..], sep)
  }

  /** `k` is the position of the first `sep` in `s`, or `|s|` when there is none. */
  predicate FirstSeparatorAt(s: string, sep: char, k: int) {
    0 <= k <= |s| && sep !in s[..k] && (k == |s| || s[k] == sep)
  }

  /** The prefix before the first separator is determined by its position. */
  lemma BeforeFirstAt(s: string, sep: char, k: int)
    requires FirstSeparatorAt(s, sep, k)
    ensures BeforeFirst(s, sep) == s[..k]
  {
  }

  /** Python's `s.split(sep)` for a one-character separator: the pieces between
      separators, always at least one. */
  function Split(s: string, sep: char): (parts: seq<string>)
    ensures |parts| >= 1
    ensures forall k :: 0 <= k < |parts| ==> sep !in parts[k]
    ensures parts[0] == BeforeFirst(s, sep)
    decreases |s|
  {
    var head := BeforeFirst(s, sep);
    if |head| == |s| then [s]
    else [head] + Split(s[|head| + 1..], sep)
  }

  /** `sep.join(parts)`. */
  function Join(parts: seq<string>, sep: char): (r: string)
    requires |parts| >= 1
  {
    if |parts| == 1 then parts[0] else parts[0] + [sep] + Join(parts[1..], sep)
  }

  /** A string with a separator is its first piece, the separator, and the rest. */
  lemma SplitAtFirst(s: string, sep: char)
    requires |BeforeFirst(s, sep)| < |s|
    ensures
      var head := BeforeFirst(s, sep);
      var rest := s[|head| + 1..];
      && s == head + [sep] + rest
      && Split(s, sep) == [head] + Split(rest, sep)
  {
    var head := BeforeFirst(s, sep);
    var n := |head|;
    assert s == s[..n] + s[n..];
    assert s[n..] == [s[n]] + s[n + 1..];
  }

  /** Joining one more leading piece puts a separator after it. */
  lemma JoinCons(head: string, parts: seq<string>, sep: char)
    requires |parts| >= 1
    ensures Join([head] + parts, sep) == head + [sep] + Join(parts, sep)
  {
    assert ([head] + parts)[1..] == parts;
  }

  /** Splitting and re-joining gives back the original string. */
  lemma {:induction false} JoinSplit(s: string, sep: char)
    ensures Join(Split(s, sep), sep) == s
    decreases |s|
  {
    var head := BeforeFirst(s, sep);
    if |head| < |s| {
      var rest := s[|head| + 1..];
      SplitAtFirst(s, sep);
      JoinSplit(rest, sep);
      JoinCons(head, Split(rest, sep), sep);
    }
  }
}
