/**
 * The handful of Python `str` operations the core relies on, written over
 * `seq<char>`: prefix and suffix tests, `in`, ASCII `lower()`, `split`,
 * `join`, `replace`, whitespace `split()` and `strip()`, and the ordering
 * Python uses when it compares two strings.
 */
module Strings {

  /** `s.startswith(p)` */
  predicate StartsWith(s: string, p: string) {
    |p| <= |s| && s[..|p|] == p
  }

  /** `s.endswith(p)` */
  predicate EndsWith(s: string, p: string) {
    |p| <= |s| && s[|s| - |p|..] == p
  }

  /** `sub in s` */
  predicate Contains(s: string, sub: string)
    decreases |s|
  {
    StartsWith(s, sub) || (s != [] && Contains(s[1..], sub))
  }

  /** `Contains` holds exactly when `sub` occurs at some index of `s`. */
  lemma {:induction false} ContainsAt(s: string, sub: string, i: nat)
    requires i + |sub| <= |s| && s[i..i + |sub|] == sub
    ensures Contains(s, sub)
    decreases i
  {
    if i > 0 {
      assert s[1..][i - 1..i - 1 + |sub|] == sub;
      ContainsAt(s[1..], sub, i - 1);
    } else {
      assert s[..|sub|] == sub;
    }
  }

  /** Every string contains itself and the empty string. */
  lemma ContainsSelf(s: string)
    ensures Contains(s, s) && Contains(s, "")
  {
    assert s[..|s|] == s;
    assert s[..0] == "";
  }

  /** A string contains only substrings no longer than itself. */
  lemma {:induction false} ContainsLength(s: string, sub: string)
    requires Contains(s, sub)
    ensures |sub| <= |s|
    decreases |s|
  {
    if !StartsWith(s, sub) {
      ContainsLength(s[1..], sub);
    }
  }

  /** Python's `str.lower()` restricted to ASCII letters. */
  function LowerChar(c: char): char {
    if 'A' <= c <= 'Z' then (c as int + 32) as char else c
  }

  function Lower(s: string): (r: string)
    ensures |r| == |s|
    ensures forall i :: 0 <= i < |s| ==> r[i] == LowerChar(s[i])
  {
    seq(|s|, i requires 0 <= i < |s| => LowerChar(s[i]))
  }

  lemma LowerSlice(s: string, i: nat, j: nat)
    requires i <= j <= |s|
    ensures Lower(s)[i..j] == Lower(s[i..j])
  {
  }

  /** Lower-casing both sides keeps a substring a substring. */
  lemma {:induction false} LowerKeepsContains(s: string, sub: string)
    requires Contains(s, sub)
    ensures Contains(Lower(s), Lower(sub))
    decreases |s|
  {
    if StartsWith(s, sub) {
      LowerSlice(s, 0, |sub|);
    } else {
      LowerKeepsContains(s[1..], sub);
      LowerSlice(s, 1, |s|);
      assert Lower(s) != [] && Lower(s)[1..] == Lower(s[1..]);
    }
  }

  /**
   * `c.isspace()`: the characters Python treats as whitespace, which are the
   * ones `str.split()` and `str.strip()` break at and remove.
   */
  predicate IsSpace(c: char) {
    var n := c as int;
    (9 <= n <= 13) || (28 <= n <= 32) || n == 0x85 || n == 0xA0 || n == 0x1680
    || (0x2000 <= n <= 0x200A) || n == 0x2028 || n == 0x2029 || n == 0x202F || n == 0x205F || n == 0x3000
  }

  /** `not s.strip()`: nothing but whitespace is left. */
  predicate IsBlank(s: string) {
    forall i :: 0 <= i < |s| ==> IsSpace(s[i])
  }

  /** The longest prefix of `s` without whitespace. */
  function TakeWord(s: string): (w: string)
    ensures |w| <= |s| && w == s[..|w|]
    ensures s != [] && !IsSpace(s[0]) ==> |w| >= 1
  {
    if s == [] || IsSpace(s[0]) then [] else [s[0]] + TakeWord(s[1..])
  }

  /** `s.split()`: the maximal runs of non-whitespace characters, in order. */
  function Words(s: string): seq<string>
    decreases |s|
  {
    if s == [] then []
    else if IsSpace(s[0]) then Words(s[1..])
    else
      var w := TakeWord(s);
      [w] + Words(s[|w|..])
  }

  /** `sep.join(parts)` */
  function JoinWith(parts: seq<string>, sep: string): string {
    if parts == [] then ""
    else if |parts| == 1 then parts[0]
    else parts[0] + sep + JoinWith(parts[1..], sep)
  }

  /** `s.split(sep)` for a one-character separator: never empty, keeps empty pieces. */
  function Split(s: string, sep: char): (r: seq<string>)
    ensures |r| >= 1
    ensures forall k :: 0 <= k < |r| ==> sep !in r[k]
  {
    if s == [] then [""]
    else
      var rest := Split(s[1..], sep);
      if s[0] == sep then [""] + rest else [[s[0]] + rest[0]] + rest[1..]
  }

  /** A string without the separator splits into itself alone. */
  lemma {:induction false} SplitWithoutSep(s: string, sep: char)
    requires sep !in s
    ensures Split(s, sep) == [s]
  {
    if s != [] {
      SplitWithoutSep(s[1..], sep);
      assert [s[0]] + s[1..] == s;
    }
  }

  /** `[p for p in ps if p]` */
  function NonEmpty(ps: seq<string>): (r: seq<string>)
    ensures forall k :: 0 <= k < |r| ==> r[k] != ""
  {
    if ps == [] then []
    else if ps[0] == "" then NonEmpty(ps[1..])
    else [ps[0]] + NonEmpty(ps[1..])
  }

  /** Every kept piece is one of the pieces given. */
  lemma {:induction false} NonEmptySubset(ps: seq<string>)
    ensures forall k :: 0 <= k < |NonEmpty(ps)| ==> NonEmpty(ps)[k] in ps
  {
    if ps != [] {
      NonEmptySubset(ps[1..]);
    }
  }

  /** `s.replace(pat, rep)`: left-to-right, non-overlapping occurrences. */
  function ReplaceAll(s: string, pat: string, rep: string): string
    requires pat != ""
    decreases |s|
  {
    if s == [] then []
    else if StartsWith(s, pat) then rep + ReplaceAll(s[|pat|..], pat, rep)
    else [s[0]] + ReplaceAll(s[1..], pat, rep)
  }

  /** Python's `<=` on strings: lexicographic by code point. */
  predicate LexLe(a: string, b: string)
    decreases |a|
  {
    a == [] || (b != [] && (a[0] < b[0] || (a[0] == b[0] && LexLe(a[1..], b[1..]))))
  }

  lemma {:induction false} LexLeTotal(a: string, b: string)
    ensures LexLe(a, b) || LexLe(b, a)
    decreases |a|
  {
    if a != [] && b != [] && a[0] == b[0] {
      LexLeTotal(a[1..], b[1..]);
    }
  }

  lemma {:induction false} LexLeTransitive(a: string, b: string, c: string)
    requires LexLe(a, b) && LexLe(b, c)
    ensures LexLe(a, c)
    decreases |a|
  {
    if a != [] && a[0] == b[0] && b[0] == c[0] {
      LexLeTransitive(a[1..], b[1..], c[1..]);
    }
  }

  /** The index of the first `c` in `s`, or `|s|` when there is none. */
  function FirstIndex(s: string, c: char): (i: nat)
    ensures i <= |s|
    ensures i < |s| ==> s[i] == c
    ensures forall k :: 0 <= k < i ==> s[k] != c
  {
    if s == [] then 0
    else if s[0] == c then 0
    else
      var j := FirstIndex(s[1..], c);
      assert forall k :: 1 <= k < j + 1 ==> s[k] == s[1..][k - 1];
      j + 1
  }

  /** The index of the first character of `s` in `cs`, or `|s|`. */
  function FirstIndexIn(s: string, cs: set<char>): (i: nat)
    ensures i <= |s|
    ensures i < |s| ==> s[i] in cs
    ensures forall k :: 0 <= k < i ==> s[k] !in cs
  {
    if s == [] then 0
    else if s[0] in cs then 0
    else
      var j := FirstIndexIn(s[1..], cs);
      assert forall k :: 1 <= k < j + 1 ==> s[k] == s[1..][k - 1];
      j + 1
  }

  lemma FirstIndexAt(s: string, c: char, i: nat)
    requires i < |s| && s[i] == c && forall k :: 0 <= k < i ==> s[k] != c
    ensures FirstIndex(s, c) == i
  {
  }

  lemma FirstIndexInAt(s: string, cs: set<char>, i: nat)
    requires i < |s| && s[i] in cs && forall k :: 0 <= k < i ==> s[k] !in cs
    ensures FirstIndexIn(s, cs) == i
  {
  }

  lemma FirstIndexAbsent(s: string, c: char)
    requires c !in s
    ensures FirstIndex(s, c) == |s|
  {
  }

  lemma FirstCharDiffers(s: string, p: string)
    requires s != [] && p != [] && s[0] != p[0]
    ensures !StartsWith(s, p)
  {
    if |p| <= |s| {
      assert s[..|p|][0] != p[0];
    }
  }
}
