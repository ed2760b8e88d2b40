/** The string operations the backend relies on: Python's `str.lower()`,
    `str.strip()`, `str.title()`, slicing `s[:n]`, `sep.join(xs)`, the
    substring test `k in s`, and the keyword filter
    `[k for k in keys if k in s]`. Case mapping is ASCII-only. */
module Text {

  // ---------------------------------------------------------------------
  // Case mapping

  predicate IsUpper(c: char) { 'A' <= c <= 'Z' }

  predicate IsLowerLetter(c: char) { 'a' <= c <= 'z' }

  function LowerChar(c: char): (d: char)
    ensures !IsUpper(d)
  {
    if IsUpper(c) then (c as int + 32) as char else c
  }

  function UpperChar(c: char): (d: char)
    ensures !IsLowerLetter(d)
  {
    if IsLowerLetter(c) then (c as int - 32) as char else c
  }

  /** `s.lower()`. */
  function Lower(s: string): (r: string)
    ensures |r| == |s|
    ensures forall i :: 0 <= i < |s| ==> r[i] == LowerChar(s[i])
  {
    seq(|s|, i requires 0 <= i < |s| => LowerChar(s[i]))
  }

  /** No upper-case letter occurs in `s`. */
  predicate IsLowerCase(s: string) {
    forall i :: 0 <= i < |s| ==> !IsUpper(s[i])
  }

  lemma LowerOfLowerCase(s: string)
    requires IsLowerCase(s)
    ensures Lower(s) == s
  {
  }

  /** Lower-casing works character by character, so it distributes over
      concatenation. */
  lemma LowerAppend(a: string, b: string)
    ensures Lower(a + b) == Lower(a) + Lower(b)
  {
    assert forall i :: 0 <= i < |a + b| ==> Lower(a + b)[i] == (Lower(a) + Lower(b))[i];
  }

  /** Lower-casing commutes with slicing. */
  lemma LowerSlice(s: string, i: nat, j: nat)
    requires i <= j <= |s|
    ensures Lower(s)[i..j] == Lower(s[i..j])
  {
  }

  // ---------------------------------------------------------------------
  // Slicing

  function Min(a: int, b: int): int { if a <= b then a else b }

  /** Python's `s[:n]` for a non-negative `n`: the first `n` elements, or all
      of `s` when it is shorter. */
  function Take<T>(s: seq<T>, n: nat): (r: seq<T>)
    ensures |r| == Min(n, |s|)
    ensures r == s[..|r|]
  {
    if n <= |s| then s[..n] else s
  }

  /** Lower-casing commutes with truncation, so matching the lower-cased
      stored prefix is matching a prefix of the lower-cased text. */
  lemma LowerTake(s: string, n: nat)
    ensures Lower(Take(s, n)) == Take(Lower(s), n)
  {
  }

  // ---------------------------------------------------------------------
  // Substring test

  /** `n` occurs in `h` starting at position `i`. */
  predicate OccursAt(h: string, n: string, i: nat) {
    i + |n| <= |h| && h[i..i + |n|] == n
  }

  /** Python's `n in h` on strings (the empty string occurs everywhere). */
  predicate Contains(h: string, n: string) {
    exists i: nat :: i <= |h| && OccursAt(h, n, i)
  }

  /** A needle holding a character the haystack lacks never occurs in it. */
  lemma MissingCharNotContained(h: string, n: string, j: nat)
    requires j < |n| && n[j] !in h
    ensures !Contains(h, n)
  {
  }

  /** An occurrence that ends within the first `m` characters is an
      occurrence in `h[:m]`. */
  lemma ContainsInTake(h: string, n: string, m: nat, i: nat)
    requires OccursAt(h, n, i) && i + |n| <= m
    ensures Contains(Take(h, m), n)
  {
    var t := Take(h, m);
    assert t[i..i + |n|] == h[i..i + |n|];
    assert OccursAt(t, n, i);
  }

  /** Every occurrence in `h[:m]` is an occurrence in `h` that ends within
      the first `m` characters; so a needle all of whose occurrences end
      past `m` is not found in `h[:m]`. */
  lemma NotContainedInTake(h: string, n: string, m: nat)
    requires forall i: nat :: OccursAt(h, n, i) ==> i + |n| > m
    ensures !Contains(Take(h, m), n)
  {
    var t := Take(h, m);
    if Contains(t, n) {
      var i: nat :| i <= |t| && OccursAt(t, n, i);
      assert h[i..i + |n|] == t[i..i + |n|];
      assert OccursAt(h, n, i);
      assert false;
    }
  }

  /** Containment in a prefix implies containment in the whole. */
  lemma ContainsFromTake(h: string, n: string, m: nat)
    requires Contains(Take(h, m), n)
    ensures Contains(h, n)
  {
    var t := Take(h, m);
    var i: nat :| i <= |t| && OccursAt(t, n, i);
    assert h[i..i + |n|] == t[i..i + |n|];
    assert OccursAt(h, n, i);
  }

  // ---------------------------------------------------------------------
  // Keyword filter

  /** `a` is an ordered sublist of `b`. */
  predicate IsSubsequence<T(==)>(a: seq<T>, b: seq<T>)
    decreases |b|
  {
    a == [] || (b != [] && ((a[0] == b[0] && IsSubsequence(a[1..], b[1..])) || IsSubsequence(a, b[1..])))
  }

  /** `[k for k in keys if k in hay]`: the keys occurring in `hay`, in the
      order of `keys`. */
  function Select(keys: seq<string>, hay: string): (r: seq<string>)
    ensures forall k :: k in r <==> k in keys && Contains(hay, k)
    ensures IsSubsequence(r, keys)
    ensures |r| <= |keys|
  {
    if keys == [] then []
    else if Contains(hay, keys[0]) then [keys[0]] + Select(keys[1..], hay)
    else Select(keys[1..], hay)
  }

  /** No key occurs: the filter is empty. */
  lemma SelectNone(keys: seq<string>, hay: string)
    requires forall i :: 0 <= i < |keys| ==> !Contains(hay, keys[i])
    ensures Select(keys, hay) == []
  {
  }

  /** `sep.join(xs)`. */
  function Join(xs: seq<string>, sep: string): string {
    if |xs| == 0 then ""
    else if |xs| == 1 then xs[0]
    else xs[0] + sep + Join(xs[1..], sep)
  }

  // ---------------------------------------------------------------------
  // Whitespace stripping

  /** Python's `str.isspace()` for one character. */
  predicate IsSpace(c: char) {
    var n := c as int;
    (9 <= n <= 13) || (28 <= n <= 32) || n == 0x85 || n == 0xA0 || n == 0x1680
    || (0x2000 <= n <= 0x200A) || n == 0x2028 || n == 0x2029 || n == 0x202F
    || n == 0x205F || n == 0x3000
  }

  /** `s.lstrip()`: drops the longest all-whitespace prefix. */
  function TrimStart(s: string): (r: string)
    ensures |r| <= |s| && r == s[|s| - |r|..]
    ensures r == [] || !IsSpace(r[0])
    ensures forall i :: 0 <= i < |s| - |r| ==> IsSpace(s[i])
  {
    if s != [] && IsSpace(s[0]) then TrimStart(s[1..]) else s
  }

  /** `s.rstrip()`: drops the longest all-whitespace suffix. */
  function TrimEnd(s: string): (r: string)
    ensures |r| <= |s| && r == s[..|r|]
    ensures r == [] || !IsSpace(r[|r| - 1])
    ensures forall i :: |r| <= i < |s| ==> IsSpace(s[i])
  {
    if s != [] && IsSpace(s[|s| - 1]) then TrimEnd(s[..|s| - 1]) else s
  }

  /** `s.strip()`. */
  function Strip(s: string): string {
    TrimEnd(TrimStart(s))
  }

  /** One space on each side of a word is stripped off again. */
  lemma StripPadded(w: string)
    requires w != [] && !IsSpace(w[0]) && !IsSpace(w[|w| - 1])
    ensures Strip([' '] + w + [' ']) == w
  {
    assert ([' '] + w + [' '])[1..] == w + [' '];
    assert TrimStart(w + [' ']) == w + [' '];
    assert (w + [' '])[..|w|] == w;
    assert TrimEnd(w) == w;
  }

  /** `s.strip()` is empty exactly when `s` is all whitespace. */
  lemma StripEmptyIff(s: string)
    ensures Strip(s) == [] <==> forall i :: 0 <= i < |s| ==> IsSpace(s[i])
  {
  }

  // ---------------------------------------------------------------------
  // Title case

  /** `s.title()`: a letter is upper-cased when the character before it is
      not a letter, lower-cased otherwise; other characters are kept. */
  function TitleCase(s: string): (r: string)
    ensures |r| == |s|
  {
    TitleCaseAfter(s, false)
  }

  function TitleCaseAfter(s: string, afterLetter: bool): (r: string)
    ensures |r| == |s|
  {
    if s == [] then []
    else
      var c := s[0];
      var isLetter := IsUpper(c) || IsLowerLetter(c);
      var d := if !isLetter then c else if afterLetter then LowerChar(c) else UpperChar(c);
      [d] + TitleCaseAfter(s[1..], isLetter)
  }
}
