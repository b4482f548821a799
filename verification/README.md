# Character syntax classifier of a Common Lisp reader, in Dafny

The crate consists of one pure, total classifier, `syntax_type`, that maps a
Unicode scalar value to a syntax type. Its table follows the standard syntax of
ANSI Common Lisp (section 2.1.4, "Character Syntax Types") with two exceptions.
The standard makes U+007F (Rubout) a constituent with the invalid trait, but the
crate classifies it as top-level `Invalid`. The standard gives `+` and `-` the
plus-sign and minus-sign traits, but the crate leaves them unrefined alphabetic
constituents. The model follows the crate.
The result comes from a closed hierarchy. At the top is `SyntaxType`:
constituent, macro character, single escape, multiple escape, whitespace or
invalid. Constituents are refined by a `ConsTrait`. Some traits are refined
further by `AlphabeticExt`, `DotExt` or `AlphadigitExt`.

Files:

- `wrappers.dfy`: the `Option` type used by the `ext` refinements.
- `character_types.dfy` (module `CharacterTypes`): one datatype per enum.
- `classifier.dfy` (module `Classifier`): the `match` of `syntax_type`, kept
  arm by arm. `ArmPattern(k, c)` holds when `c` matches one of arm `k`'s
  patterns; `ArmBody(k)` is the value arm `k` returns. Arms 0 to 11 are the
  explicit arms in source order and arm 12 is the `_` wildcard. `FirstArm`
  gives the first arm that matches, and `SyntaxTypeOf(c)` is that arm's body.
  The generic lemmas show that the explicit arms are pairwise disjoint and
  that their bodies are pairwise distinct. Hence the result is arm `k`'s body
  exactly when `c` matches arm `k`, whatever the order of the arms.
- `standard_syntax.dfy` (module `StandardSyntax`): a reference description of
  the table grouped by outcome. These parts are stated independently of the
  arms: letters and digits, the exponent-marker letters (found by
  lower-casing), whitespace by code point, the set of listed characters, and
  the values that are never produced. The two punctuation sets (plain
  alphabetic and terminating macro) repeat the arms' own lists. For those the
  lemmas add only that no other arm yields the same value.
- `classifier_properties.dfy` (module `ClassifierProperties`): each global
  property proved for every `char` against that reference. It also has the
  inverse of the arm table (`ArmReturning`) and a representative character for
  every value the classifier produces.

Dafny's `char` is a Unicode scalar value, the same domain as Rust's `char`.

## Model

| member | source | states |
|---|---|---|
| Classifier.FirstArm | src/character_types/mod.rs:49-67 | the chosen arm matches `c`, and no earlier arm does (first-match semantics of `match`); the wildcard guarantees an arm is always found |
| Classifier.SyntaxTypeOf | src/character_types/mod.rs:47-69 | the classifier is total on every scalar value, and every character from U+0080 up is top-level `Invalid` |
| Classifier.ArmsDisjoint | src/character_types/mod.rs:50-65 | no character matches two explicit arms, so the order of the arms does not matter |
| Classifier.ArmBodiesDistinct | src/character_types/mod.rs:50-66 | two different arms never return the same value, so the result identifies the arm that fired |
| Classifier.MatchedArm | src/character_types/mod.rs:49-65 | a character matching explicit arm `k` is dispatched to arm `k` |
| Classifier.ClassifiesVia | src/character_types/mod.rs:50-65 | the result equals arm `k`'s value if and only if the character matches arm `k` |
| Classifier.FallsThrough | src/character_types/mod.rs:66 | the result is top-level `Invalid` if and only if no explicit arm matches |
| ClassifierProperties.DotAndSlash | src/character_types/mod.rs:52-53 | `.` and only `.` is a dot refined as decimal point; `/` and only `/` is the ratio marker |
| ClassifierProperties.PackageMarkerExactly | src/character_types/mod.rs:56 | `:` and only `:` is the package marker |
| ClassifierProperties.PlainAlphabeticExactly | src/character_types/mod.rs:51 | a character is an unrefined alphabetic constituent exactly when it is one of the nineteen listed punctuation characters, `+` and `-` included |
| ClassifierProperties.AlphadigitExactly | src/character_types/mod.rs:54-55 | exponent marker exactly for d, e, f, l, s in either case; unrefined alphadigit exactly for the digits and the other ASCII letters |
| ClassifierProperties.CaseSymmetry | src/character_types/mod.rs:54-55 | the lower- and upper-case forms of every ASCII letter classify identically |
| ClassifierProperties.WhitespaceExactly | src/character_types/mod.rs:57 | whitespace exactly for U+0009, U+000A, U+000C, U+000D and U+0020 |
| ClassifierProperties.MacroCharactersExactly | src/character_types/mod.rs:58-63 | `#` is the only non-terminating macro character; the terminating ones are exactly the seven characters `" ' ( ) , ;` and backquote |
| ClassifierProperties.EscapesAndBackspaceExactly | src/character_types/mod.rs:50-65 | U+0008 is the only invalid constituent, backslash the only single escape, vertical bar the only multiple escape |
| ClassifierProperties.InvalidExactly | src/character_types/mod.rs:50-66 | a character is top-level `Invalid` exactly when the table does not list it; this covers unlisted ASCII and every non-ASCII character |
| ClassifierProperties.NeverUnproduced | src/character_types/mod.rs:11-28 | no character yields the `Digit` trait, the `PlusSign` or `MinusSign` refinement, or a dot without its decimal-point refinement |
| ClassifierProperties.ArmReturning | src/character_types/mod.rs:50-66 | inverse of the arm bodies: for every produced value, the arm that returns it |
| ClassifierProperties.Sample | src/character_types/mod.rs:50-66 | for every arm, a character the classifier sends to that arm |
| ClassifierProperties.Representative | src/character_types/mod.rs:31-39 | every value that is not an unproduced one is the classification of some character |
| ClassifierProperties.ProducedExactly | src/character_types/mod.rs:1-39 | a value of the hierarchy is the result for some character if and only if it is not one of the unproduced values |
| ClassifierProperties.Scenarios | src/character_types/mod.rs:50-66 | concrete classifications: `a`, `7` unrefined alphadigit; `e`, `E` exponent marker; `:`; line feed; `-`; U+0000 and U+00E9 invalid |

## Left out

- The `Character` trait (src/character_types/mod.rs:43-45) is not modelled. The
  method it declares is the free function `Classifier.SyntaxTypeOf`, since a
  trait adds nothing to verify.
- Determinism and absence of side effects have no lemma. They hold by
  construction, because `SyntaxTypeOf` is a pure Dafny function without
  preconditions.
- The Rust enums name both refinements of `ConsTrait` `ext`. Dafny needs
  distinct field names within one datatype, so they are `alphabeticExt` and
  `alphadigitExt` here.
- Readers, tokenizers, number parsers and macro dispatch are not modelled,
  because the crate does not contain them. This includes re-reading an escaped
  character as an alphabetic constituent, which is the caller's duty.
- Unicode general categories and locale-dependent whitespace are not modelled,
  because the classifier never consults them.

The classifier never produces `Dot { ext: None }`. The same holds for
`ConsTrait::Digit`, `PlusSign` and `MinusSign`: `+` and `-` are unrefined
alphabetic constituents, and digits are unrefined alphadigits. These values
exist only in the type declarations. `NeverUnproduced` and `ProducedExactly`
record this. For `PlusSign` and `MinusSign` it is a departure from the
standard, which gives `+` and `-` those traits.
