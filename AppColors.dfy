/** The card colours of the app and the choice of one for a piece of text. */
module AppColors {
  import opened Common

  datatype CardColor = Blue | Purple | Green | Yellow | Orange

  /** The ARGB value of each colour. */
  function Argb(c: CardColor): int {
    match c
    case Blue => 0xFF61C7EA
    case Purple => 0xFFC2BCF5
    case Green => 0xFF71C09D
    case Yellow => 0xFFF3BB54
    case Orange => 0xFFF8643A
  }

  /** The sum of the character codes, without overflow. */
  function CodeSum(s: string): nat {
    if s == [] then 0 else CodeSum(s[..|s| - 1]) + s[|s| - 1] as int
  }

  /** `str.map { it.code }.sum()`: the sum in 32-bit `Int` arithmetic, which
      wraps past 2^31 - 1. */
  function IntCodeSum(s: string): (r: int)
    ensures IsInt32(r)
    ensures CodeSum(s) < TwoTo31 ==> r == CodeSum(s)
  {
    Wrap32(CodeSum(s))
  }

  /** `getForString`: the sum modulo 5 (truncating, so negative for a
      negative sum) picks the colour; anything but 0 to 3 gives orange. */
  function ColorFor(s: string): (c: CardColor)
    ensures var i := TruncRem(IntCodeSum(s), 5);
      && (i == 0 <==> c == Blue)
      && (i == 1 <==> c == Purple)
      && (i == 2 <==> c == Green)
      && (i == 3 <==> c == Yellow)
      && (i !in {0, 1, 2, 3} <==> c == Orange)
  {
    var index := TruncRem(IntCodeSum(s), 5);
    if index == 0 then Blue
    else if index == 1 then Purple
    else if index == 2 then Green
    else if index == 3 then Yellow
    else Orange
  }

  /** The empty text is blue. */
  lemma EmptyIsBlue()
    ensures ColorFor("") == Blue
  {
  }

  /** A sum that wrapped to a negative value can only give blue or orange. */
  lemma NegativeSumBlueOrOrange(s: string)
    requires IntCodeSum(s) < 0
    ensures ColorFor(s) == Blue || ColorFor(s) == Orange
  {
    var r := TruncRem(IntCodeSum(s), 5);
    assert -5 < r <= 0;
  }

  lemma {:induction false} CodeSumAppend(a: string, b: string)
    ensures CodeSum(a + b) == CodeSum(a) + CodeSum(b)
  {
    if b == [] {
      assert a + b == a;
    } else {
      assert (a + b)[..|a + b| - 1] == a + b[..|b| - 1];
      CodeSumAppend(a, b[..|b| - 1]);
    }
  }

  /** Taking one character out lowers the sum by its code. */
  lemma CodeSumRemove(s: string, i: int)
    requires 0 <= i < |s|
    ensures CodeSum(s) == CodeSum(s[..i] + s[i + 1..]) + s[i] as int
  {
    var pre, c, post := s[..i], [s[i]], s[i + 1..];
    assert s == (pre + c) + post;
    CodeSumAppend(pre + c, post);
    CodeSumAppend(pre, c);
    CodeSumAppend(pre, post);
    assert CodeSum(c) == s[i] as int by {
      assert c[..0] == [];
    }
  }

  /** The sum depends only on which characters occur how often. */
  lemma {:induction false} CodeSumPermutation(a: string, b: string)
    requires multiset(a) == multiset(b)
    ensures CodeSum(a) == CodeSum(b)
    decreases |a|
  {
    if a != [] {
      var n := |a| - 1;
      var c := a[n];
      assert c in multiset(b);
      var i :| 0 <= i < |b| && b[i] == c;
      var b' := b[..i] + b[i + 1..];
      assert a == a[..n] + [c];
      assert b == b[..i] + [c] + b[i + 1..];
      assert multiset(a) == multiset(a[..n]) + multiset{c};
      assert multiset(b) == multiset(b[..i]) + multiset{c} + multiset(b[i + 1..]);
      assert multiset(b') == multiset(b[..i]) + multiset(b[i + 1..]);
      assert multiset(a[..n]) == multiset(a) - multiset{c};
      assert multiset(b') == multiset(b) - multiset{c};
      CodeSumPermutation(a[..n], b');
      CodeSumRemove(b, i);
    } else {
      assert |b| == |multiset(b)| == 0;
    }
  }

  /** Rearranging the characters of a text keeps its colour. */
  lemma ColorForPermutation(a: string, b: string)
    requires multiset(a) == multiset(b)
    ensures ColorFor(a) == ColorFor(b)
  {
    CodeSumPermutation(a, b);
  }
}
