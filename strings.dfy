/** The operations on Python `str` values the core relies on: the `in`
    operator on strings, lexicographic comparison (as used by `sorted`),
    `str.rfind` and `str.endswith`. Strings are sequences of code points. */
module Strings {

  /** `needle` occurs in `hay` starting at index `i`. */
  predicate OccursAt(hay: string, needle: string, i: int)
  {
    0 <= i && i + |needle| <= |hay| && hay[i..i + |needle|] == needle
  }

  /** Python's `needle in hay` for two strings. */
  predicate Contains(hay: string, needle: string)
  {
    exists i | 0 <= i <= |hay| :: OccursAt(hay, needle, i)
  }

  /** Some pair of adjacent characters of `hay` is `a` followed by `b`. */
  predicate HasPair(hay: string, a: char, b: char)
  {
    exists i | 0 <= i < |hay| - 1 :: hay[i] == a && hay[i + 1] == b
  }

  /** A string occurs in every string built around it. */
  lemma ContainsConcat(p: string, needle: string, q: string)
    ensures Contains(p + needle + q, needle)
  {
    var hay := p + needle + q;
    assert hay[|p|..|p| + |needle|] == needle;
    assert OccursAt(hay, needle, |p|);
  }

  /** Substring containment is transitive. */
  lemma ContainsTransitive(a: string, b: string, c: string)
    requires Contains(a, b) && Contains(b, c)
    ensures Contains(a, c)
  {
    var i :| 0 <= i <= |a| && OccursAt(a, b, i);
    var j :| 0 <= j <= |b| && OccursAt(b, c, j);
    assert b == a[i..i + |b|];
    assert forall k | 0 <= k < |c| :: a[i + j + k] == b[j + k] == c[k];
    assert a[i + j..i + j + |c|] == c;
    assert OccursAt(a, c, i + j);
  }

  /** Every adjacent pair of characters of a contained string is an adjacent
      pair of the containing string; so a missing pair rules a needle out. */
  lemma ContainsPair(hay: string, needle: string, k: int)
    requires Contains(hay, needle)
    requires 0 <= k < |needle| - 1
    ensures HasPair(hay, needle[k], needle[k + 1])
  {
    var i :| 0 <= i <= |hay| && OccursAt(hay, needle, i);
    assert hay[i + k] == needle[k] && hay[i + k + 1] == needle[k + 1];
  }

  /** Python's `s.endswith(suffix)`. */
  predicate EndsWith(s: string, suffix: string)
  {
    |suffix| <= |s| && s[|s| - |suffix|..] == suffix
  }

  /** Python's `s.rfind(c)` for a single character: the index of the last
      occurrence of `c`, or -1 when there is none. */
  function RFind(s: string, c: char): (i: int)
    ensures -1 <= i < |s|
    ensures i >= 0 ==> s[i] == c
    ensures forall j | i < j < |s| :: s[j] != c
  {
    if |s| == 0 then -1
    else if s[|s| - 1] == c then |s| - 1
    else RFind(s[..|s| - 1], c)
  }

  /** Python's `a <= b` on strings: code point by code point, and a proper
      prefix sorts first. */
  predicate LexLessEq(a: string, b: string)
    decreases |a|
  {
    |a| == 0 || (|b| > 0 && (a[0] < b[0] || (a[0] == b[0] && LexLessEq(a[1..], b[1..]))))
  }

  lemma {:induction false} LexReflexive(a: string)
    ensures LexLessEq(a, a)
  {
    if |a| > 0 { LexReflexive(a[1..]); }
  }

  lemma {:induction false} LexAntisymmetric(a: string, b: string)
    requires LexLessEq(a, b) && LexLessEq(b, a)
    ensures a == b
  {
    if |a| > 0 && |b| > 0 {
      LexAntisymmetric(a[1..], b[1..]);
      assert a == [a[0]] + a[1..] && b == [b[0]] + b[1..];
    }
  }

  lemma {:induction false} LexTransitive(a: string, b: string, c: string)
    requires LexLessEq(a, b) && LexLessEq(b, c)
    ensures LexLessEq(a, c)
  {
    if |a| > 0 && a[0] == b[0] && b[0] == c[0] {
      LexTransitive(a[1..], b[1..], c[1..]);
    }
  }

  lemma {:induction false} LexTotal(a: string, b: string)
    ensures LexLessEq(a, b) || LexLessEq(b, a)
  {
    if |a| > 0 && |b| > 0 && a[0] == b[0] {
      LexTotal(a[1..], b[1..]);
    }
  }
}
