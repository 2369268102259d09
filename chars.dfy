/** Character classes used by the text utilities: Python's whitespace set
    (what the argument-less `str.split()` and `str.strip()` treat as a
    separator), the regex word class `\w`, the digit class `[0-9,.]`, and the
    cased-character test behind `str.isupper()`. */
module Chars {

  /** Python's `str.isspace()` for a single character, by code point. */
  predicate IsSpace(c: char) {
    var k := c as int;
    || k == 0x20
    || 0x09 <= k <= 0x0D
    || 0x1C <= k <= 0x1F
    || k == 0x85
    || k == 0xA0
    || k == 0x1680
    || 0x2000 <= k <= 0x200A
    || k == 0x2028
    || k == 0x2029
    || k == 0x202F
    || k == 0x205F
    || k == 0x3000
  }

  /** A character that can be part of a whitespace-delimited token. */
  predicate IsNonSpace(c: char) {
    !IsSpace(c)
  }

  /** The regex class `\w`, restricted to ASCII: letters, digits and underscore. */
  predicate IsWordChar(c: char) {
    ('a' <= c <= 'z') || ('A' <= c <= 'Z') || ('0' <= c <= '9') || c == '_'
  }

  /** The characters kept by the special-character filter `[^\w ]+`. */
  predicate IsWordOrBlank(c: char) {
    IsWordChar(c) || c == ' '
  }

  /** The regex class `[0-9,.]`. */
  predicate IsDigitClass(c: char) {
    ('0' <= c <= '9') || c == ',' || c == '.'
  }

  /** An upper-case cased character (ASCII letters only). */
  predicate IsUpperCased(c: char) {
    'A' <= c <= 'Z'
  }

  /** A lower-case cased character (ASCII letters only). */
  predicate IsLowerCased(c: char) {
    'a' <= c <= 'z'
  }

  /** Python's `str.isupper()`: at least one cased character, and no cased
      character is lower-case. */
  predicate IsUpperText(t: string) {
    && (exists i :: 0 <= i < |t| && IsUpperCased(t[i]))
    && (forall i :: 0 <= i < |t| ==> !IsLowerCased(t[i]))
  }

  /** Digits alone are not upper-case text; digits beside an upper-case
      letter are. */
  lemma IsUpperExamples()
    ensures !IsUpperText("123")
    ensures IsUpperText("A1")
    ensures !IsUpperText("Ab")
  {
    assert "A1"[0] == 'A';
    assert "Ab"[1] == 'b';
  }

  /** The separators of `split()` include tab, newline, no-break space and
      the ideographic space, but not the zero-width space. */
  lemma IsSpaceExamples()
    ensures IsSpace(' ') && IsSpace('\t') && IsSpace('\n')
    ensures IsSpace('\U{A0}') && IsSpace('\U{3000}')
    ensures !IsSpace('\U{200B}') && !IsSpace('a')
  {
  }

  /** `\w` takes letters, digits and underscore; `[0-9,.]` takes digits,
      commas and periods. */
  lemma ClassExamples()
    ensures IsWordChar('a') && IsWordChar('Z') && IsWordChar('7') && IsWordChar('_')
    ensures !IsWordChar('#') && !IsWordChar('@') && !IsWordChar(' ')
    ensures IsDigitClass('0') && IsDigitClass(',') && IsDigitClass('.')
    ensures !IsDigitClass('a') && !IsDigitClass('-')
  {
  }

  lemma WordCharIsNonSpace(c: char)
    requires IsWordChar(c)
    ensures IsNonSpace(c)
  {
  }
}
