/**
 The classifier: one `match` over a Unicode scalar value. The match is kept
 arm by arm. `ArmPattern(k, c)` holds when `c` matches one of the patterns of
 arm `k`, and `ArmBody(k)` is the value that arm returns. Arms 0 to 11 are the
 explicit arms in source order. Arm 12 is the final wildcard, which answers
 top-level `Invalid`. As in any `match`, the first arm whose pattern matches wins.
 */
module Classifier {
  import opened Wrappers
  import opened CharacterTypes

  /** Index of the wildcard arm; the explicit arms are `0 .. WildcardArm - 1`. */
  const WildcardArm: nat := 12

  /** The patterns of arm `k`: alternatives joined by `|` and inclusive ranges. */
  predicate ArmPattern(k: nat, c: char)
  {
    match k
    case 0 => c == '\U{8}'
    case 1 =>
      c in {'!', '$', '%', '&', '*', '+', '-', '<', '=', '>', '?', '@', '[', ']', '^', '_', '{', '}', '~'}
    case 2 => c == '.'
    case 3 => c == '/'
    case 4 =>
      || '0' <= c <= '9'
      || 'a' <= c <= 'c' || 'A' <= c <= 'C'
      || 'g' <= c <= 'k' || 'G' <= c <= 'K'
      || 'm' <= c <= 'r' || 'M' <= c <= 'R'
      || 't' <= c <= 'z' || 'T' <= c <= 'Z'
    case 5 => 'd' <= c <= 'f' || 'D' <= c <= 'F' || c == 'l' || c == 's' || c == 'L' || c == 'S'
    case 6 => c == ':'
    case 7 => c == '\U{9}' || c == '\n' || c == '\U{C}' || c == '\U{D}' || c == '\U{20}'
    case 8 => c in {'"', '\'', '(', ')', ',', ';', '`'}
    case 9 => c == '#'
    case 10 => c == '\\'
    case 11 => c == '|'
    case 12 => true
    case _ => false
  }

  /** The value arm `k` returns. */
  function ArmBody(k: nat): SyntaxType
  {
    match k
    case 0 => Constituent(ConsTrait.Invalid)
    case 1 => Constituent(Alphabetic(None))
    case 2 => Constituent(Alphabetic(Some(Dot(Some(DecimalPoint)))))
    case 3 => Constituent(Alphabetic(Some(RatioMarker)))
    case 4 => Constituent(Alphadigit(None))
    case 5 => Constituent(Alphadigit(Some(ExponentMarker)))
    case 6 => Constituent(PackageMarker)
    case 7 => Whitespace
    case 8 => MacroCharacter(Terminating)
    case 9 => MacroCharacter(NonTerminating)
    case 10 => SingleEscape
    case 11 => MultipleEscape
    case _ => SyntaxType.Invalid
  }

  /** First-match semantics: the first arm at or after `k` whose pattern `c`
      matches. The wildcard guarantees that there is one. */
  function FirstArm(c: char, k: nat): (r: nat)
    requires k <= WildcardArm
    ensures k <= r <= WildcardArm
    ensures ArmPattern(r, c)
    ensures forall j :: k <= j < r ==> !ArmPattern(j, c)
    decreases WildcardArm - k
  {
    if ArmPattern(k, c) then k else FirstArm(c, k + 1)
  }

  /** The syntax type of `c`: the body of the first arm it matches. Every
      explicit pattern lists ASCII characters only, so anything from U+0080 up
      falls through to the wildcard. */
  function SyntaxTypeOf(c: char): (r: SyntaxType)
    ensures 0x80 <= c as int ==> r == SyntaxType.Invalid
  {
    ArmBody(FirstArm(c, 0))
  }

  /** No character matches two explicit arms, so their order is immaterial. */
  lemma ArmsDisjoint(c: char, j: nat, k: nat)
    requires j < WildcardArm && k < WildcardArm
    requires ArmPattern(j, c) && ArmPattern(k, c)
    ensures j == k
  {
  }

  /** Distinct arms return distinct values, so the result tells which arm fired. */
  lemma ArmBodiesDistinct(j: nat, k: nat)
    requires j <= WildcardArm && k <= WildcardArm
    ensures j != k ==> ArmBody(j) != ArmBody(k)
  {
  }

  /** A character matching explicit arm `k` is dispatched to arm `k`,
      whatever the arms before it. */
  lemma {:induction false} MatchedArm(c: char, k: nat)
    requires k < WildcardArm && ArmPattern(k, c)
    ensures FirstArm(c, 0) == k
  {
    var r := FirstArm(c, 0);
    assert r < WildcardArm;
    ArmsDisjoint(c, r, k);
  }

  /** The classifier returns arm `k`'s value exactly when `c` matches arm `k`. */
  lemma ClassifiesVia(c: char, k: nat)
    requires k < WildcardArm
    ensures SyntaxTypeOf(c) == ArmBody(k) <==> ArmPattern(k, c)
  {
    var r := FirstArm(c, 0);
    ArmBodiesDistinct(r, k);
    if ArmPattern(k, c) {
      MatchedArm(c, k);
    }
  }

  /** The result is top-level `Invalid` exactly when no explicit arm matches. */
  lemma FallsThrough(c: char)
    ensures SyntaxTypeOf(c) == SyntaxType.Invalid <==> forall k: nat :: k < WildcardArm ==> !ArmPattern(k, c)
  {
    var r := FirstArm(c, 0);
    ArmBodiesDistinct(r, WildcardArm);
  }
}
