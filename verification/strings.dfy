/** The string operations the Python code uses on keys: `str.startswith`,
    `str.endswith`, the `in` substring test, and `%i` / f-string formatting of a
    natural number. */
module Strings {

  predicate StartsWith(s: string, prefix: string) {
    |prefix| <= |s| && s[..|prefix|] == prefix
  }

  predicate EndsWith(s: string, suffix: string) {
    |suffix| <= |s| && s[|s| - |suffix|..] == suffix
  }

  /** `s.endswith(tuple)`: some alternative is a suffix of `s`. */
  predicate EndsWithAny(s: string, suffixes: seq<string>) {
    exists i :: 0 <= i < |suffixes| && EndsWith(s, suffixes[i])
  }

  lemma EndsWithNone(s: string, suffixes: seq<string>)
    requires forall t :: t in suffixes ==> !EndsWith(s, t)
    ensures !EndsWithAny(s, suffixes)
  {
  }

  /** `sub in s`, scanning `s` from the left. */
  predicate Contains(s: string, sub: string)
    decreases |s|
  {
    StartsWith(s, sub) || (|s| > 0 && Contains(s[1..], sub))
  }

  /** `sub` occurs in `s` at position `i`. */
  ghost predicate OccursAt(s: string, sub: string, i: int) {
    0 <= i && i + |sub| <= |s| && s[i..i + |sub|] == sub
  }

  /** The scan agrees with the positional definition of a substring. */
  lemma {:induction false} ContainsIff(s: string, sub: string)
    ensures Contains(s, sub) <==> exists i :: OccursAt(s, sub, i)
    decreases |s|
  {
    if StartsWith(s, sub) {
      assert OccursAt(s, sub, 0);
    } else if |s| == 0 {
    } else {
      ContainsIff(s[1..], sub);
      if Contains(s[1..], sub) {
        var i :| OccursAt(s[1..], sub, i);
        assert s[i + 1..i + 1 + |sub|] == s[1..][i..i + |sub|];
        assert OccursAt(s, sub, i + 1);
      } else {
        forall i | OccursAt(s, sub, i) && i > 0
          ensures OccursAt(s[1..], sub, i - 1)
        {
          assert s[1..][i - 1..i - 1 + |sub|] == s[i..i + |sub|];
        }
      }
    }
  }

  /** A string too short to hold `sub` does not contain it. */
  lemma {:induction false} ContainsShort(s: string, sub: string)
    requires |s| < |sub|
    ensures !Contains(s, sub)
    decreases |s|
  {
    if |s| > 0 {
      ContainsShort(s[1..], sub);
    }
  }

  /** Whatever surrounds it, a string contains itself. */
  lemma ContainsInfix(before: string, sub: string, after: string)
    ensures Contains(before + sub + after, sub)
  {
    var s := before + sub + after;
    assert s[|before|..|before| + |sub|] == sub;
    assert OccursAt(s, sub, |before|);
    ContainsIff(s, sub);
  }

  /** A suffix test on `prefix + tail` only looks at `tail` when the suffix fits in it. */
  lemma EndsWithAppend(prefix: string, tail: string, suffix: string)
    requires |suffix| <= |tail|
    ensures EndsWith(prefix + tail, suffix) <==> EndsWith(tail, suffix)
  {
    var s := prefix + tail;
    assert s[|s| - |suffix|..] == tail[|tail| - |suffix|..];
  }

  function DigitChar(d: nat): (c: char)
    requires d < 10
    ensures '0' <= c <= '9'
  {
    ('0' as int + d) as char
  }

  /** Decimal rendering of a natural number, as Python's `%i` and f-strings print it. */
  function NatToString(n: nat): (s: string)
    ensures |s| > 0
    ensures forall i :: 0 <= i < |s| ==> '0' <= s[i] <= '9'
    ensures n < 10 <==> |s| == 1
    decreases n
  {
    if n < 10 then [DigitChar(n)] else NatToString(n / 10) + [DigitChar(n % 10)]
  }

  /** Different numbers print differently. */
  lemma {:induction false} NatToStringInjective(a: nat, b: nat)
    requires NatToString(a) == NatToString(b)
    ensures a == b
    decreases a
  {
    var sa, sb := NatToString(a), NatToString(b);
    if a < 10 && b < 10 {
      assert DigitChar(a) == sa[0] == DigitChar(b);
    } else if a >= 10 && b >= 10 {
      assert sa[..|sa| - 1] == NatToString(a / 10);
      assert sb[..|sb| - 1] == NatToString(b / 10);
      NatToStringInjective(a / 10, b / 10);
      assert DigitChar(a % 10) == sa[|sa| - 1] == DigitChar(b % 10);
      assert a == 10 * (a / 10) + a % 10 && b == 10 * (b / 10) + b % 10;
    }
  }

  /** A key that holds no underscore. */
  predicate NoUnderscore(s: string) {
    forall i :: 0 <= i < |s| ==> s[i] != '_'
  }

  /** The text before the first underscore is determined by the string: two
      underscore-joined strings agree on their heads when neither head has one. */
  lemma HeadBeforeUnderscore(a: string, x: string, b: string, y: string)
    requires NoUnderscore(a) && NoUnderscore(b)
    requires a + "_" + x == b + "_" + y
    ensures a == b
    ensures x == y
  {
    var s := a + "_" + x;
    UnderscoreAfter(a, x);
    UnderscoreAfter(b, y);
    assert |a| == |b|;
    assert a == s[..|a|] && b == s[..|b|];
    assert x == s[|a| + 1..] && y == s[|b| + 1..];
  }

  lemma UnderscoreAfter(a: string, x: string)
    requires NoUnderscore(a)
    ensures (a + "_" + x)[|a|] == '_'
    ensures forall i :: 0 <= i < |a| ==> (a + "_" + x)[i] != '_'
  {
  }

  lemma UnderscoreBefore(x: string, a: string)
    requires NoUnderscore(a)
    ensures (x + "_" + a)[|x|] == '_'
    ensures forall i :: |x| < i < |x| + 1 + |a| ==> (x + "_" + a)[i] != '_'
  {
  }

  /** Symmetric to `HeadBeforeUnderscore`: the text after the last underscore. */
  lemma TailAfterUnderscore(x: string, a: string, y: string, b: string)
    requires NoUnderscore(a) && NoUnderscore(b)
    requires x + "_" + a == y + "_" + b
    ensures a == b
    ensures x == y
  {
    var s := x + "_" + a;
    UnderscoreBefore(x, a);
    UnderscoreBefore(y, b);
    assert |a| == |b|;
    assert a == s[|s| - |a|..] && b == s[|s| - |b|..];
    assert x == s[..|s| - |a| - 1] && y == s[..|s| - |b| - 1];
  }

  /** Wrapping a key in a fixed prefix and suffix loses nothing. */
  lemma AffixInjective(pre: string, k1: string, k2: string, suf: string)
    requires pre + k1 + suf == pre + k2 + suf
    ensures k1 == k2
  {
    var s := pre + k1 + suf;
    assert |k1| == |k2|;
    assert k1 == s[|pre|..|pre| + |k1|];
    assert k2 == (pre + k2 + suf)[|pre|..|pre| + |k2|];
  }

  /** Behind a common prefix, the text before the last underscore is determined
      when the tails hold none. */
  lemma PrefixedTailInjective(pre: string, x1: string, a1: string, x2: string, a2: string)
    requires NoUnderscore(a1) && NoUnderscore(a2)
    requires pre + x1 + "_" + a1 == pre + x2 + "_" + a2
    ensures x1 == x2
  {
    var t1, t2 := x1 + "_" + a1, x2 + "_" + a2;
    assert pre + x1 + "_" + a1 == pre + t1 + "";
    assert pre + x2 + "_" + a2 == pre + t2 + "";
    AffixInjective(pre, t1, t2, "");
    TailAfterUnderscore(x1, a1, x2, a2);
  }

  /** A string that starts with `p + q` starts with `p`. */
  lemma StartsWithShorter(s: string, p: string, q: string)
    requires StartsWith(s, p + q)
    ensures StartsWith(s, p)
  {
    assert s[..|p|] == (p + q)[..|p|];
  }

  /** Two serials without underscores that differ never start the same id:
      `{sn}_` determines `sn`. */
  lemma SerialsSeparate(s: string, sn1: string, sn2: string)
    requires NoUnderscore(sn1) && NoUnderscore(sn2)
    requires StartsWith(s, sn1 + "_") && StartsWith(s, sn2 + "_")
    ensures sn1 == sn2
  {
    assert s[|sn1|] == (sn1 + "_")[|sn1|] == '_';
    assert s[|sn2|] == (sn2 + "_")[|sn2|] == '_';
    assert forall i :: 0 <= i < |sn1| ==> s[i] == (sn1 + "_")[i] == sn1[i];
    assert forall i :: 0 <= i < |sn2| ==> s[i] == (sn2 + "_")[i] == sn2[i];
    assert |sn1| == |sn2|;
    assert sn1 == s[..|sn1|] == sn2;
  }
}
