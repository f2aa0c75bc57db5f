/** Small functions that several of the modelled routines share. */
module Basics {

  function Min(a: int, b: int): int {
    if a < b then a else b
  }

  function Max(a: int, b: int): int {
    if a < b then b else a
  }

  /** The value, held between two bounds. */
  function Clamp(value: int, low: int, high: int): int {
    if value < low then low else if value > high then high else value
  }

  /** Integer division as the program's language has it: the quotient is cut off towards zero. */
  function Div(a: int, b: int): int
    requires b != 0
  {
    if a >= 0 then a / b else -((-a) / b)
  }

  /** Lower case, for the plain Latin letters. */
  function Lower(c: char): char {
    if 'A' <= c <= 'Z' then ((c as int) + 32) as char else c
  }

  /** StartsWithIgnoreCase, for the plain Latin letters. */
  predicate StartsWith(s: string, prefix: string) {
    |prefix| <= |s| && forall i :: 0 <= i < |prefix| ==> Lower(s[i]) == Lower(prefix[i])
  }

  function Concat(parts: seq<string>): string {
    if parts == [] then "" else parts[0] + Concat(parts[1..])
  }

  /** The one character that is trimmed off words and names. */
  const SPACE := {' '}

  function TrimStart(s: string, blanks: set<char>): string {
    if s != "" && s[0] in blanks then TrimStart(s[1..], blanks) else s
  }

  function TrimEnd(s: string, blanks: set<char>): string {
    if s != "" && s[|s| - 1] in blanks then TrimEnd(s[..|s| - 1], blanks) else s
  }

  function Trim(s: string, blanks: set<char>): string {
    TrimEnd(TrimStart(s, blanks), blanks)
  }

  /** The numbers from `low` up to but not including `high`. */
  function Span(low: int, high: int): (s: set<int>)
    requires low <= high
    ensures |s| == high - low && forall x :: x in s <==> low <= x < high
    decreases high - low
  {
    if low == high then {} else Span(low, high - 1) + {high - 1}
  }

  ghost predicate Distinct<T>(s: seq<T>) {
    forall i, j :: 0 <= i < j < |s| ==> s[i] != s[j]
  }

  // ----- what the functions above amount to, in plain terms

  /** The remainder of a division is smaller than the divisor, and has the sign of the dividend. */
  lemma DivIs(a: int, b: int)
    requires b > 0
    ensures var r := a - b * Div(a, b); -b < r < b && (a >= 0 ==> r >= 0) && (a <= 0 ==> r <= 0)
  {
  }

  /** The same character, or the two cases of one letter, by their codes. */
  predicate SameLetter(a: char, b: char) {
    || a == b
    || (65 <= a as int <= 90 && b as int == a as int + 32)
    || (65 <= b as int <= 90 && a as int == b as int + 32)
  }

  /** The strings differ at most in the case of their letters. */
  predicate CaseVariant(a: string, b: string) {
    |a| == |b| && forall i :: 0 <= i < |a| ==> SameLetter(a[i], b[i])
  }

  lemma LowerIs(a: char, b: char)
    ensures Lower(a) == Lower(b) <==> SameLetter(a, b)
  {
  }

  /** A string starts with another, ignoring case, exactly when its beginning is a case variant of it. */
  lemma StartsWithIs(s: string, prefix: string)
    ensures StartsWith(s, prefix) <==> |prefix| <= |s| && CaseVariant(s[..|prefix|], prefix)
  {
    hide Lower, SameLetter;
    forall i | 0 <= i < |prefix| && |prefix| <= |s|
      ensures Lower(s[i]) == Lower(prefix[i]) <==> SameLetter(s[..|prefix|][i], prefix[i])
    {
      LowerIs(s[i], prefix[i]);
    }
  }

  /** Case variants start with the same strings, and the same strings start with them. */
  lemma VariantsStart(a: string, b: string, other: string)
    requires CaseVariant(a, b)
    ensures StartsWith(a, other) <==> StartsWith(b, other)
    ensures StartsWith(other, a) <==> StartsWith(other, b)
  {
    hide Lower, SameLetter;
    forall i | 0 <= i < |a|
      ensures Lower(a[i]) == Lower(b[i])
    {
      LowerIs(a[i], b[i]);
    }
  }

  /** Trimming takes blanks off both ends, and leaves no blank at either. */
  lemma {:induction false} TrimIs(s: string, blanks: set<char>) returns (i: nat, j: nat)
    ensures i <= j <= |s| && Trim(s, blanks) == s[i..j]
    ensures forall k :: 0 <= k < i || j <= k < |s| ==> s[k] in blanks
    ensures i < j ==> s[i] !in blanks && s[j - 1] !in blanks
  {
    i := TrimStartIs(s, blanks);
    var k := TrimEndIs(s[i..], blanks);
    j := i + k;
    assert s[i..][..k] == s[i..j];
    forall l | j <= l < |s|
      ensures s[l] in blanks
    {
      assert s[l] == s[i..][l - i];
    }
  }

  lemma {:induction false} TrimStartIs(s: string, blanks: set<char>) returns (i: nat)
    ensures i <= |s| && TrimStart(s, blanks) == s[i..]
    ensures forall k :: 0 <= k < i ==> s[k] in blanks
    ensures i < |s| ==> s[i] !in blanks
    decreases |s|
  {
    i := 0;
    if s != "" && s[0] in blanks {
      var k := TrimStartIs(s[1..], blanks);
      i := k + 1;
      assert s[1..][k..] == s[i..];
      forall l | 0 < l < i
        ensures s[l] in blanks
      {
        assert s[l] == s[1..][l - 1];
      }
    }
  }

  lemma {:induction false} TrimEndIs(s: string, blanks: set<char>) returns (j: nat)
    ensures j <= |s| && TrimEnd(s, blanks) == s[..j]
    ensures forall k :: j <= k < |s| ==> s[k] in blanks
    ensures j > 0 ==> s[j - 1] !in blanks
    decreases |s|
  {
    j := |s|;
    if s != "" && s[|s| - 1] in blanks {
      var before := s[..|s| - 1];
      j := TrimEndIs(before, blanks);
      assert before[..j] == s[..j];
      assert forall k :: 0 <= k < |before| ==> s[k] == before[k];
    }
  }
}
