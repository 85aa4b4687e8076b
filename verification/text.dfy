/** Case handling of names. Python's `str.lower()` is modelled on ASCII:
    only the letters A to Z change. */
module Text {

  /** ASCII lower-casing of one character. */
  function Lower(c: char): char
  {
    if 'A' <= c <= 'Z' then (c as int + 32) as char else c
  }

  /** `s.lower()`: the same length, no upper-case ASCII letter left, and
      every other character kept. */
  function LowerString(s: string): (r: string)
    ensures |r| == |s|
    ensures forall i :: 0 <= i < |r| ==> !('A' <= r[i] <= 'Z')
    ensures forall i :: 0 <= i < |s| && !('A' <= s[i] <= 'Z') ==> r[i] == s[i]
  {
    seq(|s|, i requires 0 <= i < |s| => Lower(s[i]))
  }

  /** `a.lower() == b.lower()`, the comparison used by the duplicate check
      and by every search. */
  predicate EqualsIgnoreCase(a: string, b: string)
    ensures a == b ==> EqualsIgnoreCase(a, b)
    ensures EqualsIgnoreCase(a, b) ==> |a| == |b|
  {
    LowerString(a) == LowerString(b)
  }

  /** Two names are equal ignoring case exactly when they have the same
      length and agree, character by character, after lower-casing. */
  lemma EqualsIgnoreCaseCharwise(a: string, b: string)
    ensures EqualsIgnoreCase(a, b) <==>
            |a| == |b| && forall i :: 0 <= i < |a| ==> Lower(a[i]) == Lower(b[i])
  {
    var la, lb := LowerString(a), LowerString(b);
    assert |la| == |a| && |lb| == |b|;
    assert forall i :: 0 <= i < |a| ==> la[i] == Lower(a[i]);
    assert forall i :: 0 <= i < |b| ==> lb[i] == Lower(b[i]);
  }

  /** The code points of a string, the form in which Python compares
      strings. */
  function CodePoints(s: string): (r: seq<int>)
    ensures |r| == |s|
  {
    seq(|s|, i requires 0 <= i < |s| => s[i] as int)
  }
}
