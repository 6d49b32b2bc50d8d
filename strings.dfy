/** The two string operations the view models apply to user-typed titles. */
module Strings {

  /** `s.replacingOccurrences(of: " ", with: "")`: only the space character is removed. */
  function RemovingSpaces(s: string): (r: string)
    ensures |r| <= |s|
    ensures forall i :: 0 <= i < |r| ==> r[i] != ' '
  {
    if |s| == 0 then ""
    else (if s[0] == ' ' then "" else [s[0]]) + RemovingSpaces(s[1..])
  }

  /** A title made of spaces only (tabs and newlines are not spaces here). */
  predicate IsSpacesOnly(s: string) {
    forall i :: 0 <= i < |s| ==> s[i] == ' '
  }

  lemma {:induction false} RemovingSpacesIsEmpty(s: string)
    ensures RemovingSpaces(s) == "" <==> IsSpacesOnly(s)
  {
    if |s| > 0 {
      RemovingSpacesIsEmpty(s[1..]);
      assert forall i :: 1 <= i < |s| ==> s[i] == s[1..][i - 1];
    }
  }

  /** `lowercased()` on one character; only the ASCII letters are folded in this model. */
  function LowercasedChar(c: char): (r: char)
    ensures !('A' <= r <= 'Z')
    ensures !('A' <= c <= 'Z') ==> r == c
  {
    if 'A' <= c <= 'Z' then (c as int + 32) as char else c
  }

  /** `s.lowercased()` */
  function Lowercased(s: string): (r: string)
    ensures |r| == |s|
    ensures forall i :: 0 <= i < |r| ==> !('A' <= r[i] <= 'Z')
  {
    seq(|s|, i requires 0 <= i < |s| => LowercasedChar(s[i]))
  }

  /** Lower-casing an already lower-cased title changes nothing. */
  lemma LowercasedIdempotent(s: string)
    ensures Lowercased(Lowercased(s)) == Lowercased(s)
  {
  }

  /** `a <= b` on titles: lexicographic by character code, a prefix before any longer title. */
  predicate LessOrEqual(a: string, b: string)
    decreases |a|
  {
    |a| == 0 || (|b| > 0 && (a[0] < b[0] || (a[0] == b[0] && LessOrEqual(a[1..], b[1..]))))
  }

  /** Any two titles are ordered one way or the other. */
  lemma {:induction false} LessOrEqualTotal(a: string, b: string)
    ensures LessOrEqual(a, b) || LessOrEqual(b, a)
  {
    if |a| > 0 && |b| > 0 && a[0] == b[0] {
      LessOrEqualTotal(a[1..], b[1..]);
    }
  }

  lemma {:induction false} LessOrEqualTransitive(a: string, b: string, c: string)
    requires LessOrEqual(a, b) && LessOrEqual(b, c)
    ensures LessOrEqual(a, c)
  {
    if |a| > 0 && a[0] == b[0] && b[0] == c[0] {
      LessOrEqualTransitive(a[1..], b[1..], c[1..]);
    }
  }
}
