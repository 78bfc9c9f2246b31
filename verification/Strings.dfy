/**
 Names in the "C" locale: `tolower`, `toupper` and `StringRef::iequals`.
 */
module Strings {

  function LowerChar(c: char): char { if 'A' <= c <= 'Z' then c + 32 as char else c }

  function UpperChar(c: char): char { if 'a' <= c <= 'z' then c - 32 as char else c }

  function Lower(s: string): (l: string)
    ensures |l| == |s|
  {
    seq(|s|, i requires 0 <= i < |s| => LowerChar(s[i]))
  }

  function Capitals(): (s: string)
    ensures |s| == 26 && forall k :: 0 <= k < 26 ==> s[k] == k as char + 'A'
  {
    "ABCDEFGHIJKLMNOPQRSTUVWXYZ"
  }

  function Smalls(): (s: string)
    ensures |s| == 26 && forall k :: 0 <= k < 26 ==> s[k] == k as char + 'a'
  {
    "abcdefghijklmnopqrstuvwxyz"
  }

  /** The letters go to each other, and all other characters stay. */
  lemma CaseTable(c: char, k: nat)
    ensures c !in Capitals() ==> LowerChar(c) == c
    ensures c !in Smalls() ==> UpperChar(c) == c
    ensures k < 26 ==> LowerChar(Capitals()[k]) == Smalls()[k] && UpperChar(Smalls()[k]) == Capitals()[k]
  {
    hide Capitals, Smalls;
    if 'A' <= c <= 'Z' { assert Capitals()[(c - 'A') as nat] == c; }
    if 'a' <= c <= 'z' { assert Smalls()[(c - 'a') as nat] == c; }
  }

  /** Two characters are the same, or one letter in its two cases. */
  predicate SameLetter(c: char, d: char) {
    || c == d
    || exists k :: 0 <= k < 26 &&
         ((c == Capitals()[k] && d == Smalls()[k]) || (c == Smalls()[k] && d == Capitals()[k]))
  }

  /** Two names are the same up to case. */
  predicate SameUpToCase(a: string, b: string) { |a| == |b| && forall i :: 0 <= i < |a| ==> SameLetter(a[i], b[i]) }

  lemma LowerSameLetter(c: char, d: char)
    ensures LowerChar(c) == LowerChar(d) <==> SameLetter(c, d)
  {
    hide Capitals, Smalls;
    if 'A' <= c <= 'Z' { assert Capitals()[(c - 'A') as nat] == c; }
    if 'A' <= d <= 'Z' { assert Capitals()[(d - 'A') as nat] == d; }
  }

  lemma LowerMeans(a: string, b: string)
    ensures Lower(a) == Lower(b) <==> SameUpToCase(a, b)
  {
    forall i | 0 <= i < |a| && i < |b| ensures Lower(a)[i] == Lower(b)[i] <==> SameLetter(a[i], b[i]) {
      LowerSameLetter(a[i], b[i]);
    }
  }

  /** Names are compared in upper case and hashed in lower case; the two agree, and mean that the names are the same up
      to the case of their letters. */
  predicate IEquals(a: string, b: string): (r: bool)
    ensures r <==> Lower(a) == Lower(b)
    ensures r <==> SameUpToCase(a, b)
  {
    UpperLikeLower(a, b);
    LowerMeans(a, b);
    |a| == |b| && forall i :: 0 <= i < |a| ==> UpperChar(a[i]) == UpperChar(b[i])
  }

  lemma UpperLikeLower(a: string, b: string)
    ensures (|a| == |b| && forall i :: 0 <= i < |a| ==> UpperChar(a[i]) == UpperChar(b[i])) <==> Lower(a) == Lower(b)
  {
    if |a| == |b| {
      forall i | 0 <= i < |a| ensures UpperChar(a[i]) == UpperChar(b[i]) <==> Lower(a)[i] == Lower(b)[i] {
        UpperCharLikeLowerChar(a[i], b[i]);
      }
    }
  }

  lemma UpperCharLikeLowerChar(c: char, d: char)
    ensures UpperChar(c) == UpperChar(d) <==> LowerChar(c) == LowerChar(d)
  {
  }
}
