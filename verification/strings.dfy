/** String and sequence primitives the source reaches through JavaScript's
    built-ins: `indexOf`, `startsWith`, and the anchored, substring and
    case-insensitive matches its two regular expressions perform. */
module Strings {

  /** `xs.indexOf(x)`: the first position holding `x`, or -1 when there is none. */
  function IndexOf<T(==)>(xs: seq<T>, x: T): (r: int)
    ensures -1 <= r < |xs|
    ensures r == -1 <==> x !in xs
    ensures 0 <= r ==> xs[r] == x && x !in xs[..r]
  {
    if |xs| == 0 then -1
    else if xs[0] == x then 0
    else
      var k := IndexOf(xs[1..], x);
      if k == -1 then -1 else k + 1
  }

  /** Where indexOf finds an element in a concatenation. */
  lemma {:induction false} IndexOfAppend<T>(xs: seq<T>, ys: seq<T>, x: T)
    ensures IndexOf(xs + ys, x) ==
              if x in xs then IndexOf(xs, x)
              else if x in ys then |xs| + IndexOf(ys, x)
              else -1
  {
    if |xs| > 0 {
      assert (xs + ys)[1..] == xs[1..] + ys;
      IndexOfAppend(xs[1..], ys, x);
    } else {
      assert xs + ys == ys;
    }
  }

  predicate StartsWith(s: string, p: string)
  {
    |p| <= |s| && s[..|p|] == p
  }

  /** A prefix fixes the first character. */
  lemma StartsWithHead(s: string, p: string)
    requires |p| > 0
    ensures StartsWith(s, p) ==> |s| > 0 && s[0] == p[0]
  {
    if StartsWith(s, p) {
      assert s[..|p|][0] == s[0];
    }
  }

  predicate EndsWith(s: string, p: string)
  {
    |p| <= |s| && s[|s| - |p|..] == p
  }

  /** A suffix fixes the last character. */
  lemma EndsWithLast(s: string, p: string)
    requires |p| > 0
    ensures EndsWith(s, p) ==> |s| > 0 && s[|s| - 1] == p[|p| - 1]
  {
    if EndsWith(s, p) {
      assert s[|s| - |p|..][|p| - 1] == s[|s| - 1];
    }
  }

  /** `s` holds `p` as a contiguous piece somewhere. */
  predicate Contains(s: string, p: string)
    decreases |s|
  {
    StartsWith(s, p) || (|s| > 0 && Contains(s[1..], p))
  }

  /** A contiguous occurrence at a known position is found by Contains. */
  lemma {:induction false} ContainsAt(s: string, p: string, i: nat)
    requires i + |p| <= |s| && s[i..i + |p|] == p
    ensures Contains(s, p)
    decreases i
  {
    if i > 0 {
      assert s[1..][i - 1..i - 1 + |p|] == s[i..i + |p|];
      ContainsAt(s[1..], p, i - 1);
    }
  }

  /** An occurrence of `p` brings its first character along. */
  lemma {:induction false} ContainsFirst(s: string, p: string)
    requires |p| > 0
    ensures Contains(s, p) ==> p[0] in s
    decreases |s|
  {
    if StartsWith(s, p) {
      assert s[..|p|][0] == s[0];
    } else if |s| > 0 {
      ContainsFirst(s[1..], p);
    }
  }

  predicate IsDigit(c: char)
  {
    '0' <= c <= '9'
  }

  /** The length of the run of decimal digits `s` starts with. */
  function LeadingDigits(s: string): (n: nat)
    ensures n <= |s|
    ensures forall i :: 0 <= i < n ==> IsDigit(s[i])
    ensures n < |s| ==> !IsDigit(s[n])
  {
    if |s| == 0 || !IsDigit(s[0]) then 0 else 1 + LeadingDigits(s[1..])
  }

  /** ASCII case folding to lower case; every other character is left alone. */
  function LowerAscii(c: char): char
  {
    if 'A' <= c <= 'Z' then (c as int + 32) as char else c
  }

  function ToLowerAscii(s: string): (r: string)
    ensures |r| == |s|
    ensures forall i :: 0 <= i < |s| ==> r[i] == LowerAscii(s[i])
  {
    seq(|s|, i requires 0 <= i < |s| => LowerAscii(s[i]))
  }

  /** Folding a string with no upper-case ASCII letter changes nothing. */
  lemma ToLowerAsciiNoUpper(s: string)
    requires forall i :: 0 <= i < |s| ==> !('A' <= s[i] <= 'Z')
    ensures ToLowerAscii(s) == s
  {
  }

  /** Folding twice is folding once. */
  lemma ToLowerAsciiIdempotent(s: string)
    ensures ToLowerAscii(ToLowerAscii(s)) == ToLowerAscii(s)
  {
  }
}
