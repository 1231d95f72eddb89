/** Python string behaviour that the bikeshare tool relies on: lower-casing of
    user input, title-casing of a weekday name, and the ordering of `str`
    values (which decides pandas' mode tie-break on text columns).
    Case mapping is modelled for ASCII letters only. */
module Strings {

  predicate IsUpper(c: char) { 'A' <= c <= 'Z' }
  predicate IsLower(c: char) { 'a' <= c <= 'z' }

  /** A cased character: one whose case `title()` and `lower()` can change. */
  predicate IsCased(c: char) { IsUpper(c) || IsLower(c) }

  function LowerChar(c: char): char
  {
    if IsUpper(c) then (c as int + 32) as char else c
  }

  function UpperChar(c: char): char
  {
    if IsLower(c) then (c as int - 32) as char else c
  }

  /** `str.lower()`. */
  function Lower(s: string): (r: string)
    ensures |r| == |s|
    ensures forall i :: 0 <= i < |r| ==> !IsUpper(r[i])
    ensures forall i :: 0 <= i < |r| ==> LowerChar(r[i]) == LowerChar(s[i])
  {
    seq(|s|, i requires 0 <= i < |s| => LowerChar(s[i]))
  }

  /** `str.title()` on the suffix of a string whose previous character was
      (`afterCased`) or was not cased: a cased character that follows a cased
      one is lower-cased, every other one is upper-cased. */
  function TitleFrom(s: string, afterCased: bool): (r: string)
    ensures |r| == |s|
    ensures forall i :: 0 <= i < |r| ==> LowerChar(r[i]) == LowerChar(s[i])
    ensures |s| > 0 && !afterCased ==> !IsLower(r[0])
    ensures |s| > 0 && afterCased ==> !IsUpper(r[0])
    ensures forall i :: 0 < i < |r| ==> (IsCased(s[i - 1]) ==> !IsUpper(r[i]))
    ensures forall i :: 0 < i < |r| ==> (!IsCased(s[i - 1]) ==> !IsLower(r[i]))
    decreases |s|
  {
    if s == [] then []
    else [if afterCased then LowerChar(s[0]) else UpperChar(s[0])] + TitleFrom(s[1..], IsCased(s[0]))
  }

  /** `str.title()`: every word starts upper-case, the rest of it is lower-case. */
  function Title(s: string): string
  {
    TitleFrom(s, false)
  }

  /** Title-casing a lower-case word capitalises its first letter only. */
  lemma TitleOfLowerWord(s: string)
    requires |s| > 0 && forall i :: 0 <= i < |s| ==> IsLower(s[i])
    ensures Title(s) == [UpperChar(s[0])] + s[1..]
  {
  }

  /** Python's `<` on `str`: lexicographic on code points, a proper prefix
      being smaller. */
  predicate StrLess(a: string, b: string)
    decreases |a|
  {
    if |a| == 0 then |b| > 0
    else if |b| == 0 then false
    else if a[0] != b[0] then a[0] < b[0]
    else StrLess(a[1..], b[1..])
  }

  lemma {:induction false} StrLessIrreflexive(a: string)
    ensures !StrLess(a, a)
    decreases |a|
  {
    if |a| > 0 {
      StrLessIrreflexive(a[1..]);
    }
  }

  lemma {:induction false} StrLessTransitive(a: string, b: string, c: string)
    requires StrLess(a, b) && StrLess(b, c)
    ensures StrLess(a, c)
    decreases |a|
  {
    if |a| > 0 && a[0] == b[0] && b[0] == c[0] {
      StrLessTransitive(a[1..], b[1..], c[1..]);
    }
  }

  lemma {:induction false} StrLessConnected(a: string, b: string)
    ensures a == b || StrLess(a, b) || StrLess(b, a)
    decreases |a|
  {
    if |a| > 0 && |b| > 0 && a[0] == b[0] {
      StrLessConnected(a[1..], b[1..]);
      if a[1..] == b[1..] {
        assert a == [a[0]] + a[1..] && b == [b[0]] + b[1..];
      }
    }
  }
}
