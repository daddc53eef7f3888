/** `TrimmedLiteral` and `LiteralSet` as far as the developer-comment pipeline
    relies on them. Both types are defined outside src/documentation/developer.rs
    and are not part of this model; what follows states the behaviour the
    pipeline and its unit tests take for granted, as assumptions:
    - `TrimmedLiteral::from(variant, raw, pre, post, line, column)` fails
      exactly when the prefix and postfix together are longer than `raw`;
    - a literal's text is `raw` without `pre` leading and `post` trailing
      scalars, and its span runs on line `line` from column `column + pre` to
      column `column + |raw| - post - 1`;
    - a `LiteralSet` holds at least one literal, and `add_adjacent` accepts a
      literal exactly when it lies on the line after the set's last literal,
      handing it back unchanged otherwise. */
module Literals {
  import opened Basics

  /** `CommentVariant`: the pipeline only ever uses `Unknown`. */
  datatype CommentVariant = Unknown

  /** Why a step of the pipeline produced no literal or no literal set. The
      source reports these as message strings; only the reason is kept. */
  datatype Failure =
    | WrongKind            // the token is not of the kind the step handles
    | ImproperlyDelimited  // a block token whose text is not delimited as a block comment
    | TrimExceedsRaw       // `TrimmedLiteral::from` refused the trim lengths
    | NotAdjacent          // `LiteralSet::add_adjacent` refused the literal

  /** A literal: the raw text of one source line of a comment, how many
      scalars of delimiter it starts and ends with, and where it starts. */
  datatype TrimmedLiteral = TrimmedLiteral(
    variant: CommentVariant, raw: seq<char>, pre: nat, post: nat, line: nat, column: nat)
  {
    /** What `TrimmedLiteral::from` guarantees of the literals it builds. */
    predicate Valid()
    {
      pre + post <= |raw|
    }

    /** `as_str`: the text between the delimiters; the delimiters and the
        text together give back the raw line. */
    function AsStr(): (text: seq<char>)
      requires Valid()
      ensures raw[..pre] + text + raw[|raw| - post..] == raw
      ensures |text| + pre + post == |raw|
    {
      assert raw == raw[..pre] + raw[pre..|raw| - post] + raw[|raw| - post..];
      raw[pre..|raw| - post]
    }

    /** `len_in_chars`. */
    function LenInChars(): (n: nat)
      requires Valid()
      ensures n == |AsStr()|
    {
      |raw| - pre - post
    }

    /** `span`: the first and last scalar of the text, on the literal's line;
        the end column is one less than the start column for an empty text. */
    function LiteralSpan(): (s: Basics.Span)
      ensures s.start.line == line && s.end.line == line
      ensures s.start.column == column + pre
      ensures Valid() ==> s.end.column - s.start.column + 1 == |raw| - pre - post
    {
      Basics.Span(Position(line, column + pre), Position(line, column + |raw| - post - 1))
    }
  }

  /** `TrimmedLiteral::from`. */
  function TrimmedLiteralFrom(variant: CommentVariant, raw: seq<char>, pre: nat, post: nat, line: nat, column: nat)
    : (r: Result<TrimmedLiteral, Failure>)
    ensures r.Ok? <==> pre + post <= |raw|
    ensures r.Ok? ==> r.value.Valid() && r.value == TrimmedLiteral(variant, raw, pre, post, line, column)
    ensures r.Err? ==> r.error == TrimExceedsRaw
  {
    if pre + post > |raw| then Err(TrimExceedsRaw)
    else Ok(TrimmedLiteral(variant, raw, pre, post, line, column))
  }

  /** A run of literals on consecutive lines; never empty. */
  datatype LiteralSet = LiteralSet(literals: seq<TrimmedLiteral>)
  {
    predicate Valid()
    {
      |literals| > 0
    }

    /** The literal added last. */
    function Last(): TrimmedLiteral
      requires Valid()
    {
      literals[|literals| - 1]
    }
  }

  /** `LiteralSet::from`: a set of one literal. */
  function LiteralSetFrom(literal: TrimmedLiteral): (literalSet: LiteralSet)
    ensures literalSet.Valid() && literalSet.literals == [literal]
  {
    LiteralSet([literal])
  }

  /** `LiteralSet::add_adjacent`, on values: the grown set, or the literal handed
      back when it does not lie on the line after the set's last literal. */
  function AddAdjacent(literalSet: LiteralSet, literal: TrimmedLiteral): (r: Result<LiteralSet, TrimmedLiteral>)
    requires literalSet.Valid()
    ensures r.Ok? <==> literal.line == literalSet.Last().line + 1
    ensures r.Ok? ==> r.value.Valid() && r.value.literals == literalSet.literals + [literal]
    ensures r.Err? ==> r.error == literal
  {
    if literal.line == literalSet.Last().line + 1 then Ok(LiteralSet(literalSet.literals + [literal]))
    else Err(literal)
  }
}
