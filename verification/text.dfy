/**
 * The character and string predicates the screens rely on: Kotlin's `isBlank`,
 * `equals(…, ignoreCase = true)` and `contains(…, ignoreCase = true)`.
 * Case folding is modelled on ASCII letters only.
 */
module Text {

  /** Kotlin's `Char.isWhitespace()` on the JVM: Java's `isWhitespace` or `isSpaceChar`. */
  predicate IsWhitespace(c: char) {
    || c == ' ' || c == '\t' || c == '\n' || c == '\U{000B}' || c == '\U{000C}' || c == '\r'
    || ('\U{001C}' <= c <= '\U{001F}')
    || c == '\U{00A0}' || c == '\U{1680}'
    || ('\U{2000}' <= c <= '\U{200A}')
    || c == '\U{2028}' || c == '\U{2029}' || c == '\U{202F}' || c == '\U{205F}' || c == '\U{3000}'
  }

  /** Kotlin's `isBlank()`: empty, or whitespace only. */
  predicate IsBlank(s: string) {
    forall i :: 0 <= i < |s| ==> IsWhitespace(s[i])
  }

  /** Upper-case ASCII letters are mapped to lower case; every other character is kept. */
  function Fold(c: char): (r: char)
    ensures 'A' <= c <= 'Z' ==> 'a' <= r <= 'z'
    ensures !('A' <= c <= 'Z') ==> r == c
  {
    if 'A' <= c <= 'Z' then (c as int + 32) as char else c
  }

  /** Kotlin's `Char.equals(other, ignoreCase = true)` under ASCII folding. */
  predicate CharEqualsIgnoreCase(a: char, b: char) {
    Fold(a) == Fold(b)
  }

  /** `needle` occurs in `hay` at `offset`, ignoring case (Kotlin's `regionMatches`). */
  predicate RegionMatchesIgnoreCase(hay: string, offset: nat, needle: string)
    requires offset + |needle| <= |hay|
  {
    forall j :: 0 <= j < |needle| ==> CharEqualsIgnoreCase(hay[offset + j], needle[j])
  }

  /** Kotlin's `String.equals(other, ignoreCase = true)`: a whole-string comparison. */
  predicate EqualsIgnoreCase(a: string, b: string) {
    |a| == |b| && RegionMatchesIgnoreCase(a, 0, b)
  }

  /** Whole-string comparison ignoring case is an equivalence: reflexive, symmetric and transitive. */
  lemma EqualsIgnoreCaseEquivalence(a: string, b: string, c: string)
    ensures EqualsIgnoreCase(a, a)
    ensures EqualsIgnoreCase(a, b) ==> EqualsIgnoreCase(b, a)
    ensures EqualsIgnoreCase(a, b) && EqualsIgnoreCase(b, c) ==> EqualsIgnoreCase(a, c)
  {
    if EqualsIgnoreCase(a, b) && EqualsIgnoreCase(b, c) {
      forall j | 0 <= j < |c| ensures CharEqualsIgnoreCase(a[j], c[j]) {
        assert CharEqualsIgnoreCase(a[0 + j], b[j]) && CharEqualsIgnoreCase(b[0 + j], c[j]);
      }
    }
  }

  /** The JVM set covers no-break and ideographic spaces but not the zero-width space; blankness is per character. */
  lemma WhitespaceExamples()
    ensures IsWhitespace(' ') && IsWhitespace('\t') && IsWhitespace('\U{00A0}') && IsWhitespace('\U{3000}')
    ensures !IsWhitespace('a') && !IsWhitespace('\U{200B}') && !IsWhitespace('\U{0085}')
    ensures IsBlank("") && IsBlank(" \t\n") && !IsBlank(" a ")
  {
    assert !IsWhitespace(" a "[1]);
  }

  /**
   * Kotlin's `contains(needle, ignoreCase = true)`, computed as its `indexOf` does:
   * try each offset from the left until the region matches.
   */
  function ContainsIgnoreCase(hay: string, needle: string): (r: bool)
    ensures r <==> exists i :: 0 <= i && i + |needle| <= |hay| && RegionMatchesIgnoreCase(hay, i, needle)
    decreases |hay|
  {
    if |needle| > |hay| then false
    else if RegionMatchesIgnoreCase(hay, 0, needle) then true
    else
      ContainsStep(hay, needle);
      ContainsIgnoreCase(hay[1..], needle)
  }

  /** A match in the tail of `hay` is a match in `hay` one position further right, and back. */
  lemma ShiftRegion(hay: string, needle: string, i: nat)
    requires |hay| > 0 && i + |needle| <= |hay| - 1
    ensures RegionMatchesIgnoreCase(hay[1..], i, needle) <==> RegionMatchesIgnoreCase(hay, i + 1, needle)
  {
    forall j | 0 <= j < |needle|
      ensures CharEqualsIgnoreCase(hay[1..][i + j], needle[j]) == CharEqualsIgnoreCase(hay[i + 1 + j], needle[j])
    {
    }
  }

  /** When no match starts at 0, the matches of `hay` are exactly those of its tail, shifted. */
  lemma ContainsStep(hay: string, needle: string)
    requires |needle| <= |hay| && !RegionMatchesIgnoreCase(hay, 0, needle)
    ensures (exists i :: 0 <= i && i + |needle| <= |hay| && RegionMatchesIgnoreCase(hay, i, needle))
        <==> (exists i :: 0 <= i && i + |needle| <= |hay| - 1 && RegionMatchesIgnoreCase(hay[1..], i, needle))
  {
    if exists i :: 0 <= i && i + |needle| <= |hay| && RegionMatchesIgnoreCase(hay, i, needle) {
      var i :| 0 <= i && i + |needle| <= |hay| && RegionMatchesIgnoreCase(hay, i, needle);
      assert i > 0;
      ShiftRegion(hay, needle, i - 1);
    }
    if exists i :: 0 <= i && i + |needle| <= |hay| - 1 && RegionMatchesIgnoreCase(hay[1..], i, needle) {
      var i :| 0 <= i && i + |needle| <= |hay| - 1 && RegionMatchesIgnoreCase(hay[1..], i, needle);
      ShiftRegion(hay, needle, i);
    }
  }
}
