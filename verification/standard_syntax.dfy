/**
 Reference description of the standard syntax table, grouped by outcome rather
 than by match arm: for each syntax type and constituent trait, the characters
 that carry it. Letters, digits, exponent markers (found by lower-casing),
 whitespace (by code point) and the set of listed characters are stated
 independently of the classifier's arms; the two punctuation sets are the
 arms' own lists. The lemmas in `ClassifierProperties` show the two
 descriptions agree on every `char`.
 */
module StandardSyntax {
  import opened Wrappers
  import opened CharacterTypes

  predicate IsAsciiLetter(c: char)
  {
    'a' <= c <= 'z' || 'A' <= c <= 'Z'
  }

  predicate IsDecimalDigit(c: char)
  {
    '0' <= c <= '9'
  }

  /** The other-case form of an ASCII letter. */
  function SwapCase(c: char): (d: char)
    requires IsAsciiLetter(c)
    ensures IsAsciiLetter(d)
    ensures ('a' <= c <= 'z') <==> ('A' <= d <= 'Z')
    ensures d as int - c as int == 32 || c as int - d as int == 32
  {
    if 'a' <= c <= 'z' then (c as int - 32) as char else (c as int + 32) as char
  }

  /** The lower-case form of an ASCII letter. */
  function Downcase(c: char): (d: char)
    requires IsAsciiLetter(c)
    ensures 'a' <= d <= 'z'
    ensures d == c || d == SwapCase(c)
  {
    if 'A' <= c <= 'Z' then SwapCase(c) else c
  }

  /** Letters that can introduce a float exponent: d, e, f, l, s in either case. */
  predicate IsExponentMarker(c: char)
  {
    IsAsciiLetter(c) && Downcase(c) in {'d', 'e', 'f', 'l', 's'}
  }

  /** Tab, line feed, form feed, carriage return and space; nothing else. */
  predicate IsWhitespace(c: char)
  {
    c as int in {0x09, 0x0A, 0x0C, 0x0D, 0x20}
  }

  /** Constituents with the alphabetic trait and no refinement. */
  const PlainAlphabeticChars: set<char> :=
    {'!', '$', '%', '&', '*', '+', '-', '<', '=', '>', '?', '@', '[', ']', '^', '_', '{', '}', '~'}

  const TerminatingMacroChars: set<char> := {'"', '\'', '(', ')', ',', ';', '`'}

  const Backspace: char := '\U{8}'

  /** Characters the table gives a specific role; every other scalar is invalid. */
  predicate IsListed(c: char)
  {
    || c == Backspace
    || c in PlainAlphabeticChars
    || c == '.' || c == '/' || c == ':'
    || IsAsciiLetter(c) || IsDecimalDigit(c)
    || IsWhitespace(c)
    || c in TerminatingMacroChars || c == '#'
    || c == '\\' || c == '|'
  }

  /** Values the type admits but no character is classified as: the standalone
      digit trait, the plus- and minus-sign refinements, and a dot without its
      decimal-point refinement. */
  predicate Unproduced(t: SyntaxType)
  {
    || t == Constituent(Digit)
    || t == Constituent(Alphabetic(Some(PlusSign)))
    || t == Constituent(Alphabetic(Some(MinusSign)))
    || t == Constituent(Alphabetic(Some(Dot(None))))
  }
}
