/**
 Case-insensitive comparison of strings that may contain NUL characters: the
 C-string heads are compared, then the tails after the first NUL of each.
 */
module CaseInsensitive {

  const NUL: char := '\0'

  /** The case mapping of the locale; only NUL maps to NUL. */
  ghost predicate KeepsNul(fold: char -> char) {
    forall c :: fold(c) == NUL <==> c == NUL
  }

  function AsciiLower(c: char): char {
    if 'A' <= c <= 'Z' then c + 32 as char else c
  }

  /** A witness for `KeepsNul`. */
  lemma AsciiLowerKeepsNul()
    ensures KeepsNul(AsciiLower)
  {
  }

  /** The character of `s.c_str()` at a position, with the terminator. */
  function CharAt(s: string, i: nat): char {
    if i < |s| then s[i] else NUL
  }

  /** Compares two C strings up to the first NUL. */
  predicate CStringEquals(fold: char -> char, a: string, b: string, i: nat)
    decreases |a| - i
  {
    if fold(CharAt(a, i)) != fold(CharAt(b, i)) then false
    else if i >= |a| || a[i] == NUL then true
    else CStringEquals(fold, a, b, i + 1)
  }

  /** The position of the first NUL from `i` on; the length when there is none. */
  function FindNul(s: string, i: nat): (n: nat)
    requires i <= |s|
    ensures i <= n <= |s| && (n < |s| ==> s[n] == NUL)
    ensures forall k :: i <= k < n ==> s[k] != NUL
    decreases |s| - i
  {
    if i == |s| || s[i] == NUL then i else FindNul(s, i + 1)
  }

  predicate CaseInsensitiveStringEquals(fold: char -> char, s1: string, s2: string)
    decreases |s1|
  {
    if !CStringEquals(fold, s1, s2, 0) then false
    else
      var i1, i2 := FindNul(s1, 0), FindNul(s2, 0);
      if i1 == |s1| || i2 == |s2| then i1 == |s1| && i2 == |s2|
      else CaseInsensitiveStringEquals(fold, s1[i1 + 1..], s2[i2 + 1..])
  }

  /** Same length, and the same character at every position up to case. */
  ghost predicate SameUpToCase(fold: char -> char, s1: string, s2: string) {
    |s1| == |s2| && forall i :: 0 <= i < |s1| ==> fold(s1[i]) == fold(s2[i])
  }

  /** The C strings agree exactly when their heads have equal length and agree up to case. */
  lemma {:induction false} HeadsAgree(fold: char -> char, a: string, b: string, i: nat)
    requires KeepsNul(fold) && i <= |a| && i <= |b|
    ensures CStringEquals(fold, a, b, i) <==>
      FindNul(a, i) == FindNul(b, i) && SameUpToCase(fold, a[i..FindNul(a, i)], b[i..FindNul(b, i)])
    decreases |a| - i
  {
    var n, m := FindNul(a, i), FindNul(b, i);
    if i < n && i < m {
      HeadsAgree(fold, a, b, i + 1);
      assert a[i..n] == [a[i]] + a[i + 1..n] && b[i..m] == [b[i]] + b[i + 1..m];
      if SameUpToCase(fold, a[i..n], b[i..m]) {
        var ta, tb := a[i + 1..n], b[i + 1..m];
        forall k | 0 <= k < |ta| ensures fold(ta[k]) == fold(tb[k]) {
          assert ta[k] == a[i..n][k + 1] && tb[k] == b[i..m][k + 1];
        }
        assert a[i..n][0] == a[i] && b[i..m][0] == b[i];
      }
    }
  }

  lemma SplitAgrees(fold: char -> char, s1: string, s2: string, n: nat)
    requires n < |s1| && n < |s2| && s1[n] == s2[n]
    ensures SameUpToCase(fold, s1, s2) <==>
      SameUpToCase(fold, s1[..n], s2[..n]) && SameUpToCase(fold, s1[n + 1..], s2[n + 1..])
  {
  }

  /** Strings that agree up to case have their first NUL at the same place. */
  lemma SameNuls(fold: char -> char, s1: string, s2: string)
    requires KeepsNul(fold) && SameUpToCase(fold, s1, s2)
    ensures FindNul(s1, 0) == FindNul(s2, 0)
    ensures SameUpToCase(fold, s1[0..FindNul(s1, 0)], s2[0..FindNul(s2, 0)])
  {
  }

  /** The comparison means what its users expect, embedded NULs included. */
  lemma {:induction false} ComparesWholeStrings(fold: char -> char, s1: string, s2: string)
    requires KeepsNul(fold)
    ensures CaseInsensitiveStringEquals(fold, s1, s2) <==> SameUpToCase(fold, s1, s2)
    decreases |s1|
  {
    HeadsAgree(fold, s1, s2, 0);
    var i1, i2 := FindNul(s1, 0), FindNul(s2, 0);
    if i1 < |s1| && i2 < |s2| {
      var t1, t2 := s1[i1 + 1..], s2[i2 + 1..];
      ComparesWholeStrings(fold, t1, t2);
      if i1 == i2 {
        SplitAgrees(fold, s1, s2, i1);
      }
    }
    if SameUpToCase(fold, s1, s2) {
      SameNuls(fold, s1, s2);
    }
  }
}
