/** The string operations the registry relies on (`str.lower`,
    `str.capitalize` and the substring test `needle in haystack`), with
    case mapping restricted to the ASCII letters. */
module AsciiText {

  predicate IsUpper(c: char) { 'A' <= c <= 'Z' }

  predicate IsLower(c: char) { 'a' <= c <= 'z' }

  /** Lower-case letter for an upper-case one; every other character unchanged. */
  function LowerChar(c: char): (r: char)
    ensures !IsUpper(r)
    ensures IsUpper(c) ==> IsLower(r)
    ensures !IsUpper(c) ==> r == c
  {
    if IsUpper(c) then (c as int + 32) as char else c
  }

  /** Upper-case letter for a lower-case one; every other character unchanged. */
  function UpperChar(c: char): (r: char)
    ensures !IsLower(r)
    ensures IsLower(c) ==> IsUpper(r)
    ensures !IsLower(c) ==> r == c
  {
    if IsLower(c) then (c as int - 32) as char else c
  }

  /** Two characters that differ at most in ASCII case. */
  predicate SameLetter(a: char, b: char) { UpperChar(a) == UpperChar(b) }

  /** Python's `s.lower()`: no upper-case letter is left, and every character
      is the same letter as before. */
  function Lower(s: string): (r: string)
    ensures |r| == |s|
    ensures forall i | 0 <= i < |r| :: !IsUpper(r[i]) && SameLetter(r[i], s[i])
  {
    seq(|s|, i requires 0 <= i < |s| => LowerChar(s[i]))
  }

  /** Python's `s.capitalize()`: the first character upper-cased, all the
      others lower-cased. */
  function Capitalize(s: string): (r: string)
    ensures |r| == |s|
    ensures s != [] ==> !IsLower(r[0]) && SameLetter(r[0], s[0])
    ensures forall i | 1 <= i < |r| :: !IsUpper(r[i]) && SameLetter(r[i], s[i])
  {
    if s == [] then [] else [UpperChar(s[0])] + Lower(s[1..])
  }

  /** The name normalisation `x.lower().capitalize()`. */
  function Normalize(s: string): string
  {
    Capitalize(Lower(s))
  }

  /** A string in the form Normalize produces: nothing but the first
      character may be an upper-case letter, and that one may not be a
      lower-case letter. */
  predicate IsNormalized(s: string)
  {
    (s != [] ==> !IsLower(s[0])) && forall i | 1 <= i < |s| :: !IsUpper(s[i])
  }

  /** Two strings that are equal up to ASCII case. */
  predicate SameLetters(a: string, b: string)
  {
    |a| == |b| && forall i | 0 <= i < |a| :: SameLetter(a[i], b[i])
  }

  lemma SameLetterIsEquivalence(a: char, b: char, c: char)
    ensures SameLetter(a, a)
    ensures SameLetter(a, b) ==> SameLetter(b, a)
    ensures SameLetter(a, b) && SameLetter(b, c) ==> SameLetter(a, c)
  {
  }

  /** A character's case class has exactly one member that is not lower-case
      and exactly one that is not upper-case. */
  lemma SameLetterDeterminedByCase(a: char, b: char)
    requires SameLetter(a, b)
    ensures !IsLower(a) && !IsLower(b) ==> a == b
    ensures !IsUpper(a) && !IsUpper(b) ==> a == b
  {
  }

  /** Normalisation keeps the length, upper-cases the first character and
      lower-cases the rest: "MARIA" and "maria" both become "Maria". */
  lemma NormalizeShape(s: string)
    ensures |Normalize(s)| == |s|
    ensures IsNormalized(Normalize(s))
    ensures SameLetters(Normalize(s), s)
  {
    var l := Lower(s);
    var r := Normalize(s);
    forall i | 0 <= i < |s| ensures SameLetter(r[i], s[i]) {
      SameLetterIsEquivalence(r[i], l[i], s[i]);
    }
  }

  /** The normalised form is the only normalised string with the same letters. */
  lemma NormalizedUnique(s: string, t: string)
    requires IsNormalized(t) && SameLetters(t, s)
    ensures t == Normalize(s)
  {
    var r := Normalize(s);
    NormalizeShape(s);
    forall i | 0 <= i < |s| ensures t[i] == r[i] {
      SameLetterIsEquivalence(t[i], s[i], r[i]);
      SameLetterDeterminedByCase(t[i], r[i]);
    }
  }

  /** A string already in normal form is left unchanged. */
  lemma NormalizeFixesNormalized(s: string)
    requires IsNormalized(s)
    ensures Normalize(s) == s
  {
    assert SameLetters(s, s);
    NormalizedUnique(s, s);
  }

  /** Normalising twice is normalising once. */
  lemma NormalizeIdempotent(s: string)
    ensures Normalize(Normalize(s)) == Normalize(s)
  {
    NormalizeShape(s);
    NormalizeFixesNormalized(Normalize(s));
  }

  lemma NormalizeExample()
    ensures Normalize("MARIA") == "Maria"
    ensures Normalize("ana") == "Ana"
  {
  }

  /** `needle` occurs in `haystack` starting at index `i`. */
  predicate OccursAt(haystack: string, needle: string, i: int)
  {
    0 <= i && i + |needle| <= |haystack| && haystack[i..i + |needle|] == needle
  }

  /** Python's substring test `needle in haystack`, scanning left to right. */
  function Contains(haystack: string, needle: string): bool
    decreases |haystack|
  {
    |needle| <= |haystack| &&
    (haystack[..|needle|] == needle || (haystack != [] && Contains(haystack[1..], needle)))
  }

  /** The scan finds the needle exactly when it occurs at some position. */
  lemma {:induction false} ContainsIff(haystack: string, needle: string)
    ensures Contains(haystack, needle) <==> exists i :: OccursAt(haystack, needle, i)
    decreases |haystack|
  {
    if |needle| <= |haystack| {
      if haystack[..|needle|] == needle {
        assert OccursAt(haystack, needle, 0);
      } else {
        assert haystack != [];
        var tail := haystack[1..];
        forall i | OccursAt(haystack, needle, i) && i > 0 ensures OccursAt(tail, needle, i - 1) {
          assert tail[i - 1..i - 1 + |needle|] == haystack[i..i + |needle|];
        }
        ContainsIff(tail, needle);
        if Contains(tail, needle) {
          var j :| OccursAt(tail, needle, j);
          assert haystack[j + 1..j + 1 + |needle|] == tail[j..j + |needle|];
          assert OccursAt(haystack, needle, j + 1);
        }
      }
    }
  }

  /** The empty string occurs in every string. */
  lemma ContainsEmpty(haystack: string)
    ensures Contains(haystack, "")
  {
    assert haystack[..0] == "";
  }
}
