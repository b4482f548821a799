/**
 The closed classification hierarchy returned by the character classifier of a
 Common Lisp reader. Its layers follow the syntax types and constituent traits of
 section 2.1.4, "Character Syntax Types", of ANSI Common Lisp.
 Each layer is a tagged variant; deeper layers refine a constituent character's
 role in token and number syntax.
 */
module CharacterTypes {
  import opened Wrappers

  /** Macro characters are terminating or non-terminating, depending on whether
      or not they end a token. */
  datatype MacroCharKind = Terminating | NonTerminating

  /** The only refinement of a dot: it can be the decimal point of a float. */
  datatype DotExt = DecimalPoint

  /** The role an alphabetic constituent can play in number syntax. */
  datatype AlphabeticExt =
    | PlusSign
    | MinusSign
    | Dot(ext: Option<DotExt>)
    | RatioMarker

  /** An alphadigit that can introduce the exponent of a float. */
  datatype AlphadigitExt = ExponentMarker

  /** The trait of a constituent character. Both refinements are called `ext`
      in the original enum; Dafny needs distinct field names within one
      datatype, hence `alphabeticExt` and `alphadigitExt`. */
  datatype ConsTrait =
    | Alphabetic(alphabeticExt: Option<AlphabeticExt>)
    | Digit
    | Alphadigit(alphadigitExt: Option<AlphadigitExt>)
    | PackageMarker
    | Invalid

  /** The classification the reader dispatches on. */
  datatype SyntaxType =
    | Constituent(traits: ConsTrait)
    | MacroCharacter(kind: MacroCharKind)
    | SingleEscape
    | MultipleEscape
    | Whitespace
    | Invalid
}
