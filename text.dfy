/**
  The string helpers the report's summary needs: the decimal rendering of
  a count (what a template literal does with a non-negative integer), its
  inverse, and the division of a text into its lines.
 */
module Text {

  predicate IsDigit(c: char)
  {
    '0' <= c <= '9'
  }

  function DigitChar(d: nat): (c: char)
    requires d < 10
    ensures IsDigit(c) && c as int - '0' as int == d
  {
    ('0' as int + d) as char
  }

  /** Decimal digits of `n`, most significant first, without leading zeros. */
  function NatToString(n: nat): (s: string)
    ensures |s| >= 1
    ensures forall i :: 0 <= i < |s| ==> IsDigit(s[i])
    ensures s[0] == '0' ==> n == 0 && s == "0"
    decreases n
  {
    if n < 10 then [DigitChar(n)] else NatToString(n / 10) + [DigitChar(n % 10)]
  }

  /** The value of a string of decimal digits. */
  function ParseDecimal(s: string): nat
    requires forall i :: 0 <= i < |s| ==> IsDigit(s[i])
    decreases |s|
  {
    if s == [] then 0
    else
      assert IsDigit(s[|s| - 1]);
      ParseDecimal(s[..|s| - 1]) * 10 + (s[|s| - 1] as int - '0' as int)
  }

  /** Reading the rendered count back gives the count. */
  lemma {:induction false} ParseNatToString(n: nat)
    ensures ParseDecimal(NatToString(n)) == n
    decreases n
  {
    var s := NatToString(n);
    if n >= 10 {
      ParseNatToString(n / 10);
      assert s[..|s| - 1] == NatToString(n / 10);
    }
  }

  /** Position of the first `c` in `s`. */
  function IndexOf(s: string, c: char): (i: nat)
    requires c in s
    ensures i < |s| && s[i] == c && c !in s[..i]
    decreases |s|
  {
    if s[0] == c then 0
    else
      var i := 1 + IndexOf(s[1..], c);
      assert s[..i] == [s[0]] + s[1..][..i - 1];
      i
  }

  /** The lines joined back together with a line feed between each two. */
  function JoinLines(lines: seq<string>): string
    decreases |lines|
  {
    if |lines| <= 1 then (if lines == [] then "" else lines[0])
    else lines[0] + "\n" + JoinLines(lines[1..])
  }

  /** `s` cut at every line feed, as `String.prototype.split` with "\n" does. */
  function SplitLines(s: string): (lines: seq<string>)
    ensures |lines| >= 1
    ensures forall i :: 0 <= i < |lines| ==> '\n' !in lines[i]
    ensures JoinLines(lines) == s
    decreases |s|
  {
    if '\n' !in s then [s]
    else
      var i := IndexOf(s, '\n');
      var rest := SplitLines(s[i + 1..]);
      assert ([s[..i]] + rest)[1..] == rest;
      assert s == s[..i] + "\n" + s[i + 1..];
      [s[..i]] + rest
  }

  /** Splitting `a + "\n" + b` gives `a` as the first line when `a` has no line feed. */
  lemma SplitLinesAppend(a: string, b: string)
    requires '\n' !in a
    ensures SplitLines(a + "\n" + b) == [a] + SplitLines(b)
  {
    var s := a + "\n" + b;
    assert s[|a|] == '\n';
    var i := IndexOf(s, '\n');
    assert i == |a|;
    assert s[..i] == a;
    assert s[i + 1..] == b;
  }

  /** There is one more line than there are line feeds. */
  lemma {:induction false} LineCount(s: string)
    ensures |SplitLines(s)| == multiset(s)['\n'] + 1
    decreases |s|
  {
    if '\n' in s {
      var i := IndexOf(s, '\n');
      var a, b := s[..i], s[i + 1..];
      assert s == a + "\n" + b;
      SplitLinesAppend(a, b);
      LineCount(b);
      assert multiset(s) == multiset(a) + multiset{'\n'} + multiset(b);
      assert multiset(a)['\n'] == 0;
    } else {
      assert multiset(s)['\n'] == 0;
    }
  }

  /** Three texts joined by line feeds, the first or last holding a line feed itself, give more than three lines. */
  lemma MoreThanThreeLines(a: string, b: string, c: string)
    requires '\n' in a || '\n' in c
    ensures |SplitLines(a + "\n" + b + "\n" + c)| > 3
  {
    var s := a + "\n" + b + "\n" + c;
    assert multiset(s) == multiset(a) + multiset(c) + multiset{'\n', '\n'} + multiset(b);
    LineCount(s);
  }

  /** Three lines joined by line feeds split back into those three lines. */
  lemma SplitThreeLines(a: string, b: string, c: string)
    requires '\n' !in a && '\n' !in b && '\n' !in c
    ensures SplitLines(a + "\n" + b + "\n" + c) == [a, b, c]
  {
    var rest := b + "\n" + c;
    assert a + "\n" + b + "\n" + c == a + "\n" + rest;
    assert SplitLines(c) == [c];
    SplitLinesAppend(b, c);
    assert SplitLines(rest) == [b, c];
    SplitLinesAppend(a, rest);
    assert SplitLines(a + "\n" + rest) == [a] + [b, c];
  }
}
