/** The Kotlin string operations the core relies on (`indexOf`, `contains`,
    `substringBefore`, `substringAfter`, `split`, `isBlank`, `trim`,
    `lowercase`, `replaceFirstChar`, `replace`), on `string = seq<char>`. */
module Strings {
  import opened Common

  /** `d` occurs in `s` starting at index `i`. */
  predicate OccursAt(s: string, d: string, i: int) {
    0 <= i && i + |d| <= |s| && s[i..i + |d|] == d
  }

  /** `CharSequence.contains(other)`. */
  predicate Contains(s: string, d: string) {
    exists i | 0 <= i <= |s| - |d| :: OccursAt(s, d, i)
  }

  function IndexFrom(s: string, d: string, k: nat): (r: Option<nat>)
    ensures r.Some? ==> k <= r.value && OccursAt(s, d, r.value)
    ensures r.Some? ==> forall j :: k <= j < r.value ==> !OccursAt(s, d, j)
    ensures r.None? ==> forall j :: k <= j ==> !OccursAt(s, d, j)
    decreases |s| - k
  {
    if k + |d| > |s| then None
    else if s[k..k + |d|] == d then Some(k)
    else IndexFrom(s, d, k + 1)
  }

  /** `CharSequence.indexOf(other)`: the first occurrence, if any. */
  function IndexOf(s: string, d: string): (r: Option<nat>)
    ensures r.Some? <==> Contains(s, d)
    ensures r.Some? ==> OccursAt(s, d, r.value)
    ensures r.Some? ==> forall j :: 0 <= j < r.value ==> !OccursAt(s, d, j)
  {
    IndexFrom(s, d, 0)
  }

  /** `String.substringBefore(delimiter)`: the whole string when the
      delimiter is missing. */
  function SubstringBefore(s: string, d: string): (r: string)
    ensures Contains(s, d) ==> r == s[..IndexOf(s, d).value]
    ensures |d| > 0 ==> !Contains(r, d)
    ensures !Contains(s, d) ==> r == s
  {
    match IndexOf(s, d)
    case None => s
    case Some(i) =>
      assert |d| > 0 ==> !Contains(s[..i], d) by {
        forall j | 0 <= j <= i - |d| && |d| > 0 ensures !OccursAt(s[..i], d, j) {
          assert s[..i][j..j + |d|] == s[j..j + |d|];
          assert !OccursAt(s, d, j);
        }
      }
      s[..i]
  }

  /** `String.substringAfter(delimiter, missingDelimiterValue)`. */
  function SubstringAfter(s: string, d: string, missing: string): (r: string)
    ensures Contains(s, d) ==> s == SubstringBefore(s, d) + d + r
    ensures !Contains(s, d) ==> r == missing
  {
    match IndexOf(s, d)
    case None => missing
    case Some(i) =>
      assert s == s[..i] + d + s[i + |d|..];
      s[i + |d|..]
  }

  /** `String.split(delimiter)` with a non-empty delimiter: every piece
      between occurrences, empty pieces included. */
  function Split(s: string, d: string): (parts: seq<string>)
    requires |d| > 0
    ensures |parts| >= 1
    ensures |parts| >= 2 <==> Contains(s, d)
    ensures !Contains(s, d) ==> parts == [s]
    decreases |s|
  {
    var r := IndexOf(s, d);
    if r.None? then [s] else [s[..r.value]] + Split(s[r.value + |d|..], d)
  }

  /** The first piece is the text before the first delimiter. */
  lemma SplitFirst(s: string, d: string)
    requires |d| > 0
    ensures Split(s, d)[0] == SubstringBefore(s, d)
  {
  }

  // ----- Occurrences in concatenations -----

  lemma OccursInLeft(a: string, b: string, d: string, i: int)
    requires OccursAt(a, d, i)
    ensures OccursAt(a + b, d, i)
  {
    assert (a + b)[i..i + |d|] == a[i..i + |d|];
  }

  lemma OccursInRight(a: string, b: string, d: string, i: int)
    requires OccursAt(b, d, i)
    ensures OccursAt(a + b, d, |a| + i)
  {
    assert (a + b)[|a| + i..|a| + i + |d|] == b[i..i + |d|];
  }

  lemma ContainsInRight(a: string, b: string, d: string)
    requires Contains(b, d)
    ensures Contains(a + b, d)
  {
    var i :| 0 <= i <= |b| - |d| && OccursAt(b, d, i);
    OccursInRight(a, b, d, i);
  }

  lemma ContainsInLeft(a: string, b: string, d: string)
    requires Contains(a, d)
    ensures Contains(a + b, d)
  {
    var i :| 0 <= i <= |a| - |d| && OccursAt(a, d, i);
    OccursInLeft(a, b, d, i);
  }

  /** A string whose characters do not include the first character of `d`
      cannot contain `d`. */
  lemma MissingFirstChar(s: string, d: string)
    requires |d| > 0 && d[0] !in s
    ensures !Contains(s, d)
  {
    forall i | 0 <= i <= |s| - |d| ensures !OccursAt(s, d, i) {
      assert s[i..i + |d|][0] == s[i];
    }
  }

  /** No occurrence of `d` straddles the seam of `u + v` when the first
      character of `v` does not appear in `d` after its first position, or
      the last character of `u` does not appear in `d` before its last one. */
  predicate SeamFree(u: string, v: string, d: string) {
    && |d| > 0
    && (|| (|v| > 0 && v[0] !in d[1..])
        || (|u| > 0 && u[|u| - 1] !in d[..|d| - 1]))
  }

  lemma NotContainsConcat(u: string, v: string, d: string)
    requires !Contains(u, d) && !Contains(v, d) && SeamFree(u, v, d)
    ensures !Contains(u + v, d)
  {
    var x := u + v;
    forall i | 0 <= i <= |x| - |d| ensures !OccursAt(x, d, i) {
      if i + |d| <= |u| {
        assert x[i..i + |d|] == u[i..i + |d|];
        assert !OccursAt(u, d, i);
      } else if i >= |u| {
        assert x[|u|..] == v;
        assert x[i..i + |d|] == x[|u|..][i - |u|..i - |u| + |d|];
        assert !OccursAt(v, d, i - |u|);
      } else if |v| > 0 && v[0] !in d[1..] {
        assert x[i..i + |d|][|u| - i] == v[0];
        assert d[|u| - i] == d[1..][|u| - i - 1];
        assert d[1..][|u| - i - 1] in d[1..];
      } else {
        assert x[i..i + |d|][|u| - 1 - i] == u[|u| - 1];
        assert d[|u| - 1 - i] == d[..|d| - 1][|u| - 1 - i];
        assert d[..|d| - 1][|u| - 1 - i] in d[..|d| - 1];
      }
    }
  }

  /** An occurrence of a delimiter whose first character never recurs in it
      excludes another occurrence starting inside it. */
  lemma NoOverlap(s: string, d: string, i: int, j: int)
    requires |d| > 0 && d[0] !in d[1..]
    requires OccursAt(s, d, i) && i < j < i + |d|
    ensures !OccursAt(s, d, j)
  {
    assert s[j] == s[i..i + |d|][j - i];
    assert d[j - i] == d[1..][j - i - 1];
    if j + |d| <= |s| {
      assert s[j..j + |d|][0] == s[j];
    }
  }

  /** In `a + d + b`, with `d` absent from `a`, the first `d` is the one
      written between them. */
  lemma FirstOccurrence(a: string, d: string, b: string)
    requires |d| > 0 && d[0] !in d[1..]
    requires !Contains(a, d)
    ensures IndexOf(a + d + b, d) == Some(|a|)
  {
    var x := a + d + b;
    assert x[|a|..|a| + |d|] == d;
    assert OccursAt(x, d, |a|);
    forall k | 0 <= k < |a| ensures !OccursAt(x, d, k) {
      if k + |d| <= |a| {
        assert x[k..k + |d|] == a[k..k + |d|];
        assert !OccursAt(a, d, k);
      } else {
        assert x[|a|..|a| + |d|] == d;
        if OccursAt(x, d, k) {
          NoOverlap(x, d, k, |a|);
        }
      }
    }
  }

  /** Splitting `a + d + b` when neither side holds `d` gives back the sides. */
  lemma SplitAround(a: string, d: string, b: string)
    requires |d| > 0 && d[0] !in d[1..]
    requires !Contains(a, d) && !Contains(b, d)
    ensures Split(a + d + b, d) == [a, b]
  {
    var x := a + d + b;
    FirstOccurrence(a, d, b);
    assert x[..|a|] == a;
    assert x[|a| + |d|..] == b;
  }

  /** With two delimiters, the first two pieces are the texts before and
      between them, whatever follows the second. */
  lemma SplitTwice(a: string, d: string, b: string, c: string)
    requires |d| > 0 && d[0] !in d[1..]
    requires !Contains(a, d) && !Contains(b, d)
    ensures |Split(a + d + (b + d + c), d)| >= 2
    ensures Split(a + d + (b + d + c), d)[0] == a
    ensures Split(a + d + (b + d + c), d)[1] == b
  {
    var y := b + d + c;
    var x := a + d + y;
    FirstOccurrence(a, d, y);
    FirstOccurrence(b, d, c);
    assert x[..|a|] == a;
    assert x[|a| + |d|..] == y;
    assert y[..|b|] == b;
  }

  // ----- Whitespace, blank, trim -----

  /** `Char.isWhitespace()`: the Unicode space separators plus the control
      characters that Kotlin treats as whitespace. */
  predicate IsWhitespace(c: char) {
    || c == ' ' || c == '\t' || c == '\n' || c == '\U{000B}' || c == '\U{000C}' || c == '\r'
    || ('\U{001C}' <= c <= '\U{001F}')
    || c == '\U{00A0}' || c == '\U{1680}'
    || ('\U{2000}' <= c <= '\U{200A}')
    || c == '\U{2028}' || c == '\U{2029}' || c == '\U{202F}' || c == '\U{205F}' || c == '\U{3000}'
  }

  /** `CharSequence.isBlank()`. */
  predicate IsBlank(s: string) {
    forall i :: 0 <= i < |s| ==> IsWhitespace(s[i])
  }

  function TrimStart(s: string): (r: string)
    ensures |r| <= |s| && r == s[|s| - |r|..]
    ensures forall i :: 0 <= i < |s| - |r| ==> IsWhitespace(s[i])
    ensures r == [] || !IsWhitespace(r[0])
  {
    if s == [] || !IsWhitespace(s[0]) then s else TrimStart(s[1..])
  }

  function TrimEnd(s: string): (r: string)
    ensures |r| <= |s| && r == s[..|r|]
    ensures forall i :: |r| <= i < |s| ==> IsWhitespace(s[i])
    ensures r == [] || !IsWhitespace(r[|r| - 1])
  {
    if s == [] || !IsWhitespace(s[|s| - 1]) then s else TrimEnd(s[..|s| - 1])
  }

  /** `String.trim()`: whitespace dropped at both ends. */
  function Trim(s: string): (r: string)
    ensures r == [] || (!IsWhitespace(r[0]) && !IsWhitespace(r[|r| - 1]))
    ensures r == [] <==> IsBlank(s)
  {
    var t := TrimStart(s);
    assert TrimEnd(t) == [] ==> t == [];
    TrimEnd(t)
  }

  /** `r` is `s[a..b]` and only whitespace lies outside it. */
  predicate CutOut(s: string, r: string, a: int, b: int) {
    && 0 <= a <= b <= |s|
    && r == s[a..b]
    && (forall i :: 0 <= i < a ==> IsWhitespace(s[i]))
    && (forall i :: b <= i < |s| ==> IsWhitespace(s[i]))
  }

  /** What `trim` leaves is a slice of the input, with only whitespace cut
      off before and after it. */
  lemma TrimIsSlice(s: string)
    ensures exists a, b :: CutOut(s, Trim(s), a, b)
  {
    var t := TrimStart(s);
    var a := |s| - |t|;
    var r := TrimEnd(t);
    CutOutOfSuffix(s, t, r, a);
    assert Trim(s) == r;
    assert CutOut(s, Trim(s), a, a + |r|);
  }

  /** Cutting whitespace off the front and then off the back of what is
      left cuts a slice out of the whole. */
  lemma CutOutOfSuffix(s: string, t: string, r: string, a: int)
    requires 0 <= a <= |s| && t == s[a..]
    requires forall i :: 0 <= i < a ==> IsWhitespace(s[i])
    requires |r| <= |t| && r == t[..|r|]
    requires forall i :: |r| <= i < |t| ==> IsWhitespace(t[i])
    ensures CutOut(s, r, a, a + |r|)
  {
    forall i | a + |r| <= i < |s| ensures IsWhitespace(s[i]) {
      assert s[i] == t[i - a];
    }
  }

  // ----- Case mapping -----

  /** `Char.lowercaseChar()` on ASCII letters; other characters unchanged. */
  function LowerChar(c: char): char {
    if 'A' <= c <= 'Z' then (c as int + 32) as char else c
  }

  /** `Char.titlecase()` / `Char.uppercase()` on ASCII letters. */
  function UpperChar(c: char): char {
    if 'a' <= c <= 'z' then (c as int - 32) as char else c
  }

  /** `String.lowercase()`. */
  function Lowercase(s: string): (r: string)
    ensures |r| == |s|
    ensures forall i :: 0 <= i < |s| ==> r[i] == LowerChar(s[i])
  {
    seq(|s|, i requires 0 <= i < |s| => LowerChar(s[i]))
  }

  /** `String.replaceFirstChar { it.titlecase() }`. */
  function CapitalizeFirst(s: string): (r: string)
    ensures |r| == |s|
    ensures |s| > 0 ==> r[0] == UpperChar(s[0]) && r[1..] == s[1..]
    ensures s == [] ==> r == []
  {
    if s == [] then s else [UpperChar(s[0])] + s[1..]
  }

  // ----- Replacement -----

  /** `String.replace(old, new)` for a one-character `old`. */
  function ReplaceChar(s: string, c: char, rep: string): (r: string)
    ensures c !in rep ==> c !in r
    ensures c !in s ==> r == s
  {
    if s == [] then []
    else (if s[0] == c then rep else [s[0]]) + ReplaceChar(s[1..], c, rep)
  }

  /** Replacement works piece by piece. */
  lemma {:induction false} ReplaceCharAppend(a: string, b: string, c: char, rep: string)
    ensures ReplaceChar(a + b, c, rep) == ReplaceChar(a, c, rep) + ReplaceChar(b, c, rep)
  {
    if a != [] {
      ReplaceCharAppend(a[1..], b, c, rep);
      assert (a + b)[1..] == a[1..] + b;
      var head := if a[0] == c then rep else [a[0]];
      assert ReplaceChar(a + b, c, rep) == head + ReplaceChar(a[1..] + b, c, rep);
      assert ReplaceChar(a, c, rep) == head + ReplaceChar(a[1..], c, rep);
    } else {
      assert a + b == b;
    }
  }

  /** An occurrence of the character becomes the replacement. */
  lemma ReplaceCharHit(c: char, rep: string)
    ensures ReplaceChar([c], c, rep) == rep
  {
  }

  lemma {:induction false} ReplaceCharSameLength(s: string, c: char, d: char)
    ensures |ReplaceChar(s, c, [d])| == |s|
    ensures forall i :: 0 <= i < |s| ==>
      ReplaceChar(s, c, [d])[i] == (if s[i] == c then d else s[i])
  {
    if s != [] {
      ReplaceCharSameLength(s[1..], c, d);
    }
  }
}
