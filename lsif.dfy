/**
 * The values the syntax highlighter exchanges: the highlight events that
 * the tree-sitter highlighter produces, the LSIF occurrences the emitters
 * build from them, and the 32-bit integers an occurrence's range is packed
 * into. The generated protobuf module that defines `Document`,
 * `Occurrence` and `SyntaxKind` is not part of this model; only the fields
 * the emitters set are kept.
 */
module Lsif {
  import opened Wrappers

  /** The syntax kinds the two emitters' tables use. */
  datatype SyntaxKind =
    | UnspecifiedSyntaxKind
    | Comment
    | Identifier
    | BuiltinIdentifier
    | FunctionDefinition
    | MethodIdentifier
    | Keyword
    | Operator
    | StringLiteral
    | TypeIdentifier

  /** The name a kind prints under with Rust's `{:?}`. */
  function KindName(k: SyntaxKind): (name: string)
    ensures |name| > 0
  {
    match k
    case UnspecifiedSyntaxKind => "UnspecifiedSyntaxKind"
    case Comment => "Comment"
    case Identifier => "Identifier"
    case BuiltinIdentifier => "BuiltinIdentifier"
    case FunctionDefinition => "FunctionDefinition"
    case MethodIdentifier => "MethodIdentifier"
    case Keyword => "Keyword"
    case Operator => "Operator"
    case StringLiteral => "StringLiteral"
    case TypeIdentifier => "TypeIdentifier"
  }

  /** An occurrence with the fields the emitters fill; the default has an empty range. */
  datatype Occurrence = Occurrence(range: seq<int>, kind: SyntaxKind)

  /** `Highlight(i)` names the i-th entry of the configured highlight names. */
  datatype HighlightEvent =
    | HighlightStart(highlight: nat)
    | HighlightEnd
    | Source(start: nat, end: nat)

  /** The failures tree-sitter's highlighter reports. */
  datatype HighlightError = Cancelled | InvalidLanguage | Unknown

  /** One item of the highlighter's iterator. */
  type Event = Result<HighlightEvent, HighlightError>

  /** What an emitter's `render` does: returns a document, returns an error, or panics. */
  datatype RenderOutcome =
    | Rendered(occurrences: seq<Occurrence>)
    | Failed(error: HighlightError)
    | Panicked

  const TwoTo31: int := 0x8000_0000
  const TwoTo32: int := 0x1_0000_0000

  predicate IsI32(x: int) { -TwoTo31 <= x < TwoTo31 }

  /** Rust's `n as i32` on a `usize`: keep the low 32 bits, read as two's complement. */
  function AsI32(n: nat): (x: int)
    ensures IsI32(x)
    ensures n < TwoTo31 ==> x == n
  {
    if n < TwoTo31 then n
    else
      var low := n % TwoTo32;
      if low < TwoTo31 then low else low - TwoTo32
  }

  /** The cast keeps the value modulo 2^32. */
  lemma AsI32Congruent(n: nat)
    ensures (AsI32(n) - n) % TwoTo32 == 0
  {
    if n >= TwoTo31 {
      var low := n % TwoTo32;
      var q := n / TwoTo32;
      assert n == TwoTo32 * q + low;
      if low < TwoTo31 {
        assert AsI32(n) - n == TwoTo32 * (-q);
      } else {
        assert AsI32(n) - n == TwoTo32 * (-q - 1);
      }
    }
  }
}
