/** The few `String` operations the services rely on, with case folding
    restricted to ASCII letters and Java's full whitespace set. */
module Text {
  import opened Common

  function ToUpperChar(c: char): char {
    if 'a' <= c <= 'z' then (c as int - 32) as char else c
  }

  function ToLowerChar(c: char): char {
    if 'A' <= c <= 'Z' then (c as int + 32) as char else c
  }

  /** `String.toUpperCase`. */
  function ToUpper(s: string): (r: string)
    ensures |r| == |s|
    ensures forall i :: 0 <= i < |s| ==> r[i] == ToUpperChar(s[i])
  {
    seq(|s|, i requires 0 <= i < |s| => ToUpperChar(s[i]))
  }

  /** `String.toLowerCase`. */
  function ToLower(s: string): (r: string)
    ensures |r| == |s|
    ensures forall i :: 0 <= i < |s| ==> r[i] == ToLowerChar(s[i])
  {
    seq(|s|, i requires 0 <= i < |s| => ToLowerChar(s[i]))
  }

  /** `String.equalsIgnoreCase`: same length, and letters compared without case. */
  predicate EqualsIgnoreCase(a: string, b: string) {
    |a| == |b| && forall i :: 0 <= i < |a| ==> ToUpperChar(a[i]) == ToUpperChar(b[i])
  }

  /** `Character.isWhitespace`: the Unicode space, line and paragraph
      separators other than the no-break spaces (U+00A0, U+2007, U+202F), and
      the control characters U+0009 to U+000D and U+001C to U+001F. */
  predicate IsWhitespace(c: char) {
    var n := c as int;
    n == 0x20 || 0x09 <= n <= 0x0D || 0x1C <= n <= 0x1F
    || n == 0x1680 || 0x2000 <= n <= 0x2006 || 0x2008 <= n <= 0x200A
    || n == 0x2028 || n == 0x2029 || n == 0x205F || n == 0x3000
  }

  /** `String.isBlank`: empty, or only whitespace. */
  predicate IsBlank(s: string) {
    forall i :: 0 <= i < |s| ==> IsWhitespace(s[i])
  }

  /** The guard `x != null && !x.isEmpty() && !x.isBlank()`. */
  predicate HasText(x: Option<string>) {
    x.Some? && |x.value| > 0 && !IsBlank(x.value)
  }

  /** `String.contains`: `sub` occurs in `s` at some position. */
  predicate Contains(s: string, sub: string) {
    exists i :: 0 <= i <= |s| && sub <= s[i..]
  }

  /** Comparing without case is comparing the upper-cased strings. */
  lemma EqualsIgnoreCaseIsUpperEquality(a: string, b: string)
    ensures EqualsIgnoreCase(a, b) <==> ToUpper(a) == ToUpper(b)
  {
    if ToUpper(a) == ToUpper(b) {
      forall i | 0 <= i < |a| ensures ToUpperChar(a[i]) == ToUpperChar(b[i]) {
        assert ToUpper(a)[i] == ToUpper(b)[i];
      }
    }
  }

  lemma LowerOfUpperChar(c: char)
    ensures ToLowerChar(ToUpperChar(c)) == ToLowerChar(c)
  {
  }

  /** Lower-casing forgets whether the text was upper-cased first. */
  lemma LowerOfUpper(s: string)
    ensures ToLower(ToUpper(s)) == ToLower(s)
  {
    forall i | 0 <= i < |s| ensures ToLower(ToUpper(s))[i] == ToLower(s)[i] {
      LowerOfUpperChar(s[i]);
    }
  }

  /** Java counts the ideographic space as whitespace but not the no-break
      space, so a name of ideographic spaces is blank and one of no-break
      spaces is not. */
  lemma WideSpaceIsBlank()
    ensures !HasText(Some("\U{3000}\U{3000}"))
    ensures HasText(Some("\U{00A0}"))
  {
    assert !IsWhitespace("\U{00A0}"[0]);
  }

    /** The `isEmpty` test in the guard adds nothing: an empty string is blank. */
  lemma HasTextIsNonBlank(x: Option<string>)
    ensures HasText(x) <==> x.Some? && !IsBlank(x.value)
  {
  }
}
