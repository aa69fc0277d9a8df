/**
 * The small amount of text handling the generator's decisions depend on:
 * decimal numerals (std::to_string on a non-negative counter), the
 * ", "-separated lists it builds by appending and trimming, and ASCII
 * upper-casing (std::toupper in the "C" locale).
 */
module Text {

  predicate IsDigit(c: char)
  {
    '0' as int <= c as int <= '9' as int
  }

  function Digit(d: nat): (c: char)
    requires d < 10
    ensures IsDigit(c) && c as int - '0' as int == d
  {
    (d + '0' as int) as char
  }

  /** The decimal numeral of `n`, without leading zeros. */
  function NatToString(n: nat): (r: string)
    decreases n
    ensures |r| >= 1
    ensures forall k :: 0 <= k < |r| ==> IsDigit(r[k])
    ensures |r| == 1 <==> n < 10
  {
    if n < 10 then [Digit(n)] else NatToString(n / 10) + [Digit(n % 10)]
  }

  /** The number a string of digits denotes. */
  function DigitsValue(s: string): nat
    requires forall k :: 0 <= k < |s| ==> IsDigit(s[k])
  {
    if |s| == 0 then 0
    else
      assert IsDigit(s[|s| - 1]);
      DigitsValue(s[..|s| - 1]) * 10 + (s[|s| - 1] as int - '0' as int)
  }

  /** Reading a numeral back gives the number. */
  lemma {:induction false} NatToStringValue(n: nat)
    decreases n
    ensures DigitsValue(NatToString(n)) == n
  {
    if n >= 10 {
      var r := NatToString(n);
      assert r[..|r| - 1] == NatToString(n / 10);
      NatToStringValue(n / 10);
    }
  }

  lemma NatToStringInjective(a: nat, b: nat)
    ensures NatToString(a) == NatToString(b) <==> a == b
  {
    if NatToString(a) == NatToString(b) {
      NatToStringValue(a);
      NatToStringValue(b);
    }
  }

  /** A string of digits is not a proper prefix of another one ending in "_". */
  lemma ShorterNumeralDiffers(x: string, y: string, ta: string, tb: string)
    requires |x| < |y| && forall k :: 0 <= k < |y| ==> IsDigit(y[k])
    ensures x + "_" + ta != y + "_" + tb
  {
    var u, v := x + "_" + ta, y + "_" + tb;
    assert u[|x|] == '_';
    assert v[|x|] == y[|x|];
  }

  /** A numeral followed by "_" and a tag determines both the number and the tag: the
      numeral has no "_" in it. */
  lemma NumberedTagInjective(a: nat, ta: string, b: nat, tb: string)
    ensures NatToString(a) + "_" + ta == NatToString(b) + "_" + tb <==> a == b && ta == tb
  {
    var x, y := NatToString(a), NatToString(b);
    var u, v := x + "_" + ta, y + "_" + tb;
    if u == v {
      if |x| != |y| {
        ShorterNumeralDiffers(if |x| < |y| then x else y, if |x| < |y| then y else x,
                              if |x| < |y| then ta else tb, if |x| < |y| then tb else ta);
      }
      assert x == u[..|x|] && y == v[..|y|];
      NatToStringInjective(a, b);
      assert ta == u[|x| + 1..] && tb == v[|y| + 1..];
    }
  }

  lemma PrefixCancels(p: string, x: string, y: string)
    ensures p + x == p + y <==> x == y
  {
    if p + x == p + y {
      assert x == (p + x)[|p|..] && y == (p + y)[|p|..];
    }
  }

  /** The items separated by ", ". */
  function Join(xs: seq<string>): string
  {
    if |xs| == 0 then ""
    else if |xs| == 1 then xs[0]
    else Join(xs[..|xs| - 1]) + ", " + xs[|xs| - 1]
  }

  /** Every item followed by ", ", as a loop that always appends the separator builds it. */
  function Terminated(xs: seq<string>): string
  {
    if |xs| == 0 then "" else Terminated(xs[..|xs| - 1]) + xs[|xs| - 1] + ", "
  }

  /** Appending the separator after every item and then dropping the last two characters
      gives the joined list. */
  lemma {:induction false} TerminatedIsJoin(xs: seq<string>)
    requires |xs| > 0
    ensures Terminated(xs) == Join(xs) + ", "
    ensures Terminated(xs)[..|Terminated(xs)| - 2] == Join(xs)
  {
    if |xs| > 1 {
      TerminatedIsJoin(xs[..|xs| - 1]);
    }
    var j := Join(xs);
    assert (j + ", ")[..|j|] == j;
  }

  /** One more item appended with its separator. */
  lemma TerminatedStep(start: string, xs: seq<string>, n: nat)
    requires n < |xs|
    ensures start + Terminated(xs[..n + 1]) == start + Terminated(xs[..n]) + (xs[n] + ", ")
  {
    assert xs[..n + 1][..n] == xs[..n];
  }

  /** Dropping the last two characters of a terminated non-empty list behind a head. */
  lemma TrimSeparator(start: string, xs: seq<string>)
    requires |xs| > 0
    ensures var t := start + Terminated(xs); t[..|t| - 2] == start + Join(xs)
  {
    TerminatedIsJoin(xs);
    var j := start + Join(xs);
    assert start + Terminated(xs) == j + ", ";
    assert (j + ", ")[..|j|] == j;
  }

  /** The upper-case letter of an ASCII lower-case letter; every other character unchanged. */
  function UpperChar(c: char): (u: char)
    ensures 'a' <= c <= 'z' ==> 'A' <= u <= 'Z' && u as int == c as int - 32
    ensures !('a' <= c <= 'z') ==> u == c
  {
    if 'a' <= c <= 'z' then (c as int - 32) as char else c
  }
}
