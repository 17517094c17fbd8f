/**
 * The `java.lang.String` operations the core relies on, restricted to ASCII:
 * `toLowerCase`, `trim`, `replace(char, char)`, `startsWith` and
 * `equalsIgnoreCase`.
 */
module Ascii {

  predicate IsUpper(c: char) {
    'A' <= c <= 'Z'
  }

  /** `Character.toLowerCase` on ASCII; every other character is unchanged. */
  function LowerChar(c: char): char {
    if IsUpper(c) then (c as int + 32) as char else c
  }

  /** `String.toLowerCase`, character by character. */
  function Lower(s: string): (r: string)
    ensures |r| == |s|
    ensures forall i :: 0 <= i < |s| ==> r[i] == LowerChar(s[i])
  {
    seq(|s|, i requires 0 <= i < |s| => LowerChar(s[i]))
  }

  predicate IsLowerCase(s: string) {
    forall i :: 0 <= i < |s| ==> !IsUpper(s[i])
  }

  /** A lower-cased string holds no upper-case letter, and lower-casing it again changes nothing. */
  lemma LowerIsLowerCase(s: string)
    ensures IsLowerCase(Lower(s))
    ensures Lower(Lower(s)) == Lower(s)
  {
  }

  lemma LowerOfLowerCase(s: string)
    requires IsLowerCase(s)
    ensures Lower(s) == s
  {
  }

  /** `String.equalsIgnoreCase` (ASCII). */
  predicate EqualsIgnoreCase(a: string, b: string) {
    Lower(a) == Lower(b)
  }

  /** Characters that `String.trim` strips: every code point up to and including the space. */
  predicate IsTrimmed(c: char) {
    c <= ' '
  }

  /** Index of the first character `trim` keeps. */
  function TrimStart(s: string): (a: nat)
    ensures a <= |s|
    ensures forall i :: 0 <= i < a ==> IsTrimmed(s[i])
    ensures a < |s| ==> !IsTrimmed(s[a])
  {
    if |s| == 0 || !IsTrimmed(s[0]) then 0 else 1 + TrimStart(s[1..])
  }

  /** One past the index of the last character `trim` keeps. */
  function TrimEnd(s: string): (b: nat)
    ensures b <= |s|
    ensures forall i :: b <= i < |s| ==> IsTrimmed(s[i])
    ensures 0 < b ==> !IsTrimmed(s[b - 1])
  {
    if |s| == 0 || !IsTrimmed(s[|s| - 1]) then |s| else TrimEnd(s[..|s| - 1])
  }

  /**
   * `String.trim`: the longest infix of `s` that neither starts nor ends with
   * a character up to the space; everything cut off is such a character.
   */
  function Trim(s: string): (r: string)
    ensures |r| <= |s|
    ensures r == [] || (!IsTrimmed(r[0]) && !IsTrimmed(r[|r| - 1]))
    ensures TrimStart(s) + |r| <= |s| && r == s[TrimStart(s)..TrimStart(s) + |r|]
    ensures forall i :: TrimStart(s) + |r| <= i < |s| ==> IsTrimmed(s[i])
  {
    var a := TrimStart(s);
    var b := TrimEnd(s[a..]);
    var r := s[a..][..b];
    assert r == s[a..a + b];
    assert forall i :: a + b <= i < |s| ==> s[i] == s[a..][i - a];
    r
  }

  /** Trimming a string that already starts and ends with a kept character changes nothing. */
  lemma TrimOfTrimmed(s: string)
    requires s == [] || (!IsTrimmed(s[0]) && !IsTrimmed(s[|s| - 1]))
    ensures Trim(s) == s
  {
    assert TrimStart(s) == 0;
    assert s[0..] == s;
  }

  /** `String.replace(char, char)`: every `from` becomes `to`, every other character stays. */
  function Replace(s: string, from: char, to: char): (r: string)
    ensures |r| == |s|
    ensures forall i :: 0 <= i < |s| ==> r[i] == (if s[i] == from then to else s[i])
  {
    seq(|s|, i requires 0 <= i < |s| => if s[i] == from then to else s[i])
  }
}
