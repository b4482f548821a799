/**
 Global properties of the classifier, each proved for every `char` against the
 reference description in `StandardSyntax`.
 */
module ClassifierProperties {
  import opened Wrappers
  import opened CharacterTypes
  import opened Classifier
  import opened StandardSyntax

  /** The dot is a dot refined as decimal point; the slash is the ratio marker. */
  lemma DotAndSlash(c: char)
    ensures SyntaxTypeOf(c) == Constituent(Alphabetic(Some(Dot(Some(DecimalPoint))))) <==> c == '.'
    ensures SyntaxTypeOf(c) == Constituent(Alphabetic(Some(RatioMarker))) <==> c == '/'
  {
    ClassifiesVia(c, 2);
    ClassifiesVia(c, 3);
  }

  /** The colon, and only the colon, is the package marker. */
  lemma PackageMarkerExactly(c: char)
    ensures SyntaxTypeOf(c) == Constituent(PackageMarker) <==> c == ':'
  {
    ClassifiesVia(c, 6);
  }

  /** Exactly the nineteen listed punctuation characters, `+` and `-` among
      them, are alphabetic constituents without refinement. */
  lemma PlainAlphabeticExactly(c: char)
    ensures SyntaxTypeOf(c) == Constituent(Alphabetic(None)) <==> c in PlainAlphabeticChars
  {
    ClassifiesVia(c, 1);
  }

  /** Letters and digits are the alphadigits; among them exactly d, e, f, l, s
      in either case carry the exponent-marker refinement. */
  lemma AlphadigitExactly(c: char)
    ensures SyntaxTypeOf(c) == Constituent(Alphadigit(Some(ExponentMarker))) <==> IsExponentMarker(c)
    ensures SyntaxTypeOf(c) == Constituent(Alphadigit(None))
        <==> IsDecimalDigit(c) || (IsAsciiLetter(c) && !IsExponentMarker(c))
  {
    ClassifiesVia(c, 4);
    ClassifiesVia(c, 5);
  }

  /** The lower- and upper-case forms of a letter are classified alike. */
  lemma CaseSymmetry(c: char)
    requires IsAsciiLetter(c)
    ensures SyntaxTypeOf(SwapCase(c)) == SyntaxTypeOf(c)
  {
    var d := SwapCase(c);
    assert Downcase(d) == Downcase(c);
    AlphadigitExactly(c);
    AlphadigitExactly(d);
  }

  /** Only the five listed control and space characters are whitespace. */
  lemma WhitespaceExactly(c: char)
    ensures SyntaxTypeOf(c) == Whitespace <==> IsWhitespace(c)
  {
    ClassifiesVia(c, 7);
  }

  /** `#` is the one non-terminating macro character; the seven characters
      `" ' ( ) , ; `` ` are the terminating ones. */
  lemma MacroCharactersExactly(c: char)
    ensures SyntaxTypeOf(c) == MacroCharacter(NonTerminating) <==> c == '#'
    ensures SyntaxTypeOf(c) == MacroCharacter(Terminating) <==> c in TerminatingMacroChars
    ensures SyntaxTypeOf(c).MacroCharacter? <==> c == '#' || c in TerminatingMacroChars
  {
    ClassifiesVia(c, 8);
    ClassifiesVia(c, 9);
  }

  /** Backspace is the only invalid constituent, `\` the only single escape
      and `|` the only multiple escape. */
  lemma EscapesAndBackspaceExactly(c: char)
    ensures SyntaxTypeOf(c) == Constituent(ConsTrait.Invalid) <==> c == Backspace
    ensures SyntaxTypeOf(c) == SingleEscape <==> c == '\\'
    ensures SyntaxTypeOf(c) == MultipleEscape <==> c == '|'
  {
    ClassifiesVia(c, 0);
    ClassifiesVia(c, 10);
    ClassifiesVia(c, 11);
  }

  /** A character is top-level invalid exactly when the table does not list it;
      in particular every character from U+0080 up is invalid. */
  lemma InvalidExactly(c: char)
    ensures SyntaxTypeOf(c) == SyntaxType.Invalid <==> !IsListed(c)
  {
    FallsThrough(c);
    if IsListed(c) {
      DotAndSlash(c);
      PackageMarkerExactly(c);
      PlainAlphabeticExactly(c);
      AlphadigitExactly(c);
      WhitespaceExactly(c);
      MacroCharactersExactly(c);
      EscapesAndBackspaceExactly(c);
    }
  }

  /** No character is classified with the digit trait, a sign refinement or
      an unrefined dot. */
  lemma NeverUnproduced(c: char)
    ensures !Unproduced(SyntaxTypeOf(c))
  {
    var k := FirstArm(c, 0);
    assert SyntaxTypeOf(c) == ArmBody(k);
  }

  /** The arm that returns `t`, for every `t` the classifier produces. */
  function ArmReturning(t: SyntaxType): (k: nat)
    requires !Unproduced(t)
    ensures k <= WildcardArm && ArmBody(k) == t
  {
    match t
    case Constituent(Invalid) => 0
    case Constituent(Alphabetic(None)) => 1
    case Constituent(Alphabetic(Some(Dot(Some(DecimalPoint))))) => 2
    case Constituent(Alphabetic(Some(RatioMarker))) => 3
    case Constituent(Alphadigit(None)) => 4
    case Constituent(Alphadigit(Some(ExponentMarker))) => 5
    case Constituent(PackageMarker) => 6
    case Constituent(_) => assert false; WildcardArm // only the unproduced constituents are left
    case Whitespace => 7
    case MacroCharacter(Terminating) => 8
    case MacroCharacter(NonTerminating) => 9
    case SingleEscape => 10
    case MultipleEscape => 11
    case Invalid => WildcardArm
  }

  /** A character that arm `k` dispatches on. */
  function Sample(k: nat): (c: char)
    requires k <= WildcardArm
    ensures SyntaxTypeOf(c) == ArmBody(k)
  {
    var c := match k
      case 0 => Backspace
      case 1 => '+'
      case 2 => '.'
      case 3 => '/'
      case 4 => 'a'
      case 5 => 'e'
      case 6 => ':'
      case 7 => ' '
      case 8 => '('
      case 9 => '#'
      case 10 => '\\'
      case 11 => '|'
      case _ => '\U{0}';
    if k < WildcardArm then ClassifiesVia(c, k); c else FallsThrough(c); c
  }

  /** A character classified as `t`, for every `t` the classifier produces. */
  function Representative(t: SyntaxType): (c: char)
    requires !Unproduced(t)
    ensures SyntaxTypeOf(c) == t
  {
    Sample(ArmReturning(t))
  }

  /** A value of the hierarchy is the classification of some character
      exactly when it is not one of the unproduced values. */
  lemma ProducedExactly(t: SyntaxType)
    ensures (exists c :: SyntaxTypeOf(c) == t) <==> !Unproduced(t)
  {
    if !Unproduced(t) {
      var c := Representative(t);
      assert SyntaxTypeOf(c) == t;
    } else {
      forall c: char
        ensures SyntaxTypeOf(c) != t
      {
        NeverUnproduced(c);
      }
    }
  }

  /** Concrete classifications of representative characters: letters, a digit,
      the package marker, line feed, `-`, NUL and a non-ASCII letter. */
  lemma Scenarios()
    ensures SyntaxTypeOf('a') == Constituent(Alphadigit(None))
    ensures SyntaxTypeOf('e') == Constituent(Alphadigit(Some(ExponentMarker)))
    ensures SyntaxTypeOf('E') == Constituent(Alphadigit(Some(ExponentMarker)))
    ensures SyntaxTypeOf('7') == Constituent(Alphadigit(None))
    ensures SyntaxTypeOf(':') == Constituent(PackageMarker)
    ensures SyntaxTypeOf('\n') == Whitespace
    ensures SyntaxTypeOf('-') == Constituent(Alphabetic(None))
    ensures SyntaxTypeOf('\U{0}') == SyntaxType.Invalid
    ensures SyntaxTypeOf('\U{E9}') == SyntaxType.Invalid
  {
    AlphadigitExactly('a');
    AlphadigitExactly('e');
    AlphadigitExactly('E');
    AlphadigitExactly('7');
    PackageMarkerExactly(':');
    WhitespaceExactly('\n');
    PlainAlphabeticExactly('-');
    InvalidExactly('\U{0}');
  }
}
