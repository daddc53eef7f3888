/** `extract_developer_comments` in src/documentation/developer.rs: the whole
    pipeline from a source text, cut by the lexer into tokens of the given
    byte lengths, to the literal sets of its developer comments; first the
    sets of the line comments, then one set per block comment. Modelled as
    written, where only the last run of line comments survives, and with the
    clustering corrected. */
module Extraction {
  import opened Basics
  import opened Tokens
  import opened Classification
  import opened Literals
  import opened DeveloperComments

  /** The sets the block-comment loop pushes: one per token for which
      `literal_set_from_block_comment` succeeds, in order. */
  function BlockSets(tokens: seq<TokenWithType>): (sets: seq<LiteralSet>)
    ensures |sets| <= |tokens|
  {
    if tokens == [] then []
    else
      var init, last := tokens[..|tokens| - 1], tokens[|tokens| - 1];
      BlockSets(init) + (match BlockCommentSet(last) case Ok(s) => [s] case Err(_) => [])
  }

  /** The developer comments of the source, classified, with their lines and
      columns, in source order. */
  function DeveloperTokens(source: seq<char>, lens: seq<nat>): seq<TokenWithType>
    requires IsTokenization(source, lens)
  {
    RetainOnlyDeveloperComments(ClassifyTokens(LineColumnTokens(source, LocatedTokens(source, lens))))
  }

  /** The sets the two loops of `extract_developer_comments` build from the
      developer comment tokens: the line-comment sets, clustered as written,
      then the block-comment sets. */
  function TokenCommentSets(tokens: seq<TokenWithType>): seq<LiteralSet>
  {
    ClusteredAsWritten(LineLiterals(OfKind(tokens, LineComment))) + BlockSets(OfKind(tokens, BlockComment))
  }

  /** The same with the corrected clustering, which keeps every run. */
  function TokenCommentSetsCorrected(tokens: seq<TokenWithType>): seq<LiteralSet>
  {
    Clustered(LineLiterals(OfKind(tokens, LineComment))) + BlockSets(OfKind(tokens, BlockComment))
  }

  /** What `extract_developer_comments` returns. */
  function DeveloperCommentSets(source: seq<char>, lens: seq<nat>): seq<LiteralSet>
    requires IsTokenization(source, lens)
  {
    TokenCommentSets(DeveloperTokens(source, lens))
  }

  /** What `extract_developer_comments` returns once the clustering is corrected. */
  function DeveloperCommentSetsCorrected(source: seq<char>, lens: seq<nat>): seq<LiteralSet>
    requires IsTokenization(source, lens)
  {
    TokenCommentSetsCorrected(DeveloperTokens(source, lens))
  }

  /** The line-comment loop of `extract_developer_comments`: every set is
      pushed, in order, onto the empty result. */
  method PushLineCommentSets(sets: seq<LiteralSet>) returns (result: seq<LiteralSet>)
    ensures result == sets
  {
    result := [];
    for k := 0 to |sets|
      invariant result == sets[..k]
    {
      assert sets[..k + 1] == sets[..k] + [sets[k]];
      result := result + [sets[k]];
    }
    assert sets[..|sets|] == sets;
  }

  /** The block-comment loop of `extract_developer_comments`: a set is pushed
      for every comment for which `literal_set_from_block_comment` builds one;
      a failure is only logged. */
  method PushBlockCommentSets(literalSets: seq<LiteralSet>, blockComments: seq<TokenWithType>)
    returns (result: seq<LiteralSet>)
    ensures result == literalSets + BlockSets(blockComments)
  {
    result := literalSets;
    for k := 0 to |blockComments|
      invariant result == literalSets + BlockSets(blockComments[..k])
    {
      var comment := blockComments[k];
      BlockSetsStep(blockComments, k);
      var r := LiteralSetFromBlockComment(comment);
      match r {
        case Ok(ls) =>
          result := result + [ls];
        case Err(_) =>
      }
    }
    assert blockComments[..|blockComments|] == blockComments;
  }

  /** The two loops of `extract_developer_comments`: the sets of the line
      comments, clustered as written, are pushed first, then the sets of the
      block comments. */
  method CommentSetsFromTokens(tokens: seq<TokenWithType>) returns (literalSets: seq<LiteralSet>)
    ensures literalSets == TokenCommentSets(tokens)
  {
    var blockComments := OfKind(tokens, BlockComment);
    var lineComments := OfKind(tokens, LineComment);
    var sets := LiteralSetsFromLineCommentsAsWritten(lineComments);
    literalSets := PushLineCommentSets(sets);
    literalSets := PushBlockCommentSets(literalSets, blockComments);
  }

  /** The same two loops over the corrected clustering. */
  method CommentSetsFromTokensCorrected(tokens: seq<TokenWithType>) returns (literalSets: seq<LiteralSet>)
    ensures literalSets == TokenCommentSetsCorrected(tokens)
  {
    var blockComments := OfKind(tokens, BlockComment);
    var lineComments := OfKind(tokens, LineComment);
    var sets := LiteralSetsFromLineComments(lineComments);
    literalSets := PushLineCommentSets(sets);
    literalSets := PushBlockCommentSets(literalSets, blockComments);
  }

  /** The first statement of `extract_developer_comments`: lex, locate,
      classify and keep the developer comments. */
  method DeveloperCommentTokens(source: seq<char>, lens: seq<nat>) returns (tokens: seq<TokenWithType>)
    requires IsTokenization(source, lens)
    ensures tokens == DeveloperTokens(source, lens)
  {
    var located := SourceToTokensWithLocation(source, lens);
    var lineColumn := TokensWithLocationToTokensWithLineAndColumn(source, located);
    tokens := RetainOnlyDeveloperComments(ClassifyTokens(lineColumn));
  }

  /** `extract_developer_comments` as written, with the lexer's token lengths
      as a parameter. */
  method ExtractDeveloperComments(source: seq<char>, lens: seq<nat>) returns (literalSets: seq<LiteralSet>)
    requires IsTokenization(source, lens)
    ensures literalSets == DeveloperCommentSets(source, lens)
  {
    var tokens := DeveloperCommentTokens(source, lens);
    literalSets := CommentSetsFromTokens(tokens);
  }

  /** `extract_developer_comments` with the corrected clustering. */
  method ExtractDeveloperCommentsCorrected(source: seq<char>, lens: seq<nat>) returns (literalSets: seq<LiteralSet>)
    requires IsTokenization(source, lens)
    ensures literalSets == DeveloperCommentSetsCorrected(source, lens)
  {
    var tokens := DeveloperCommentTokens(source, lens);
    literalSets := CommentSetsFromTokensCorrected(tokens);
  }

  /** Every developer comment token carries the kind its content is classified
      as, and that kind is not `Other`. */
  lemma DeveloperTokensClassified(source: seq<char>, lens: seq<nat>)
    requires IsTokenization(source, lens)
    ensures forall t :: t in DeveloperTokens(source, lens) ==> t.kind == Classify(t.content) && t.kind != Other
  {
    var typed := ClassifyTokens(LineColumnTokens(source, LocatedTokens(source, lens)));
    assert forall t :: t in typed ==> t.kind == Classify(t.content);
  }

  /** Line comments of at least two scalars each give one literal, in order:
      the whole token, trimmed of "//", at the token's line and column. */
  lemma {:induction false} LineLiteralsAll(tokens: seq<TokenWithType>)
    requires forall t :: t in tokens ==> t.kind == LineComment && |t.content| >= 2
    ensures |LineLiterals(tokens)| == |tokens|
    ensures forall i :: 0 <= i < |tokens| ==>
              LineLiterals(tokens)[i] == TrimmedLiteral(Unknown, tokens[i].content, 2, 0, tokens[i].line, tokens[i].column)
  {
    if tokens != [] {
      var init := tokens[..|tokens| - 1];
      assert forall t :: t in init ==> t in tokens;
      LineLiteralsAll(init);
      var last := tokens[|tokens| - 1];
      assert last in tokens;
      var literal := TrimmedLiteral(Unknown, last.content, 2, 0, last.line, last.column);
      assert LiteralFromLineComment(last) == Ok(literal);
      assert LineLiterals(tokens) == LineLiterals(init) + [literal];
      forall i | 0 <= i < |tokens|
        ensures LineLiterals(tokens)[i] == TrimmedLiteral(Unknown, tokens[i].content, 2, 0, tokens[i].line, tokens[i].column)
      {
        if i < |init| {
          assert tokens[i] == init[i];
        }
      }
    }
  }

  /** Delimited block comments give one set each, in order. */
  lemma {:induction false} BlockSetsAll(tokens: seq<TokenWithType>)
    requires forall t :: t in tokens ==> t.kind == BlockComment && IsBlockCommentText(t.content)
    ensures |BlockSets(tokens)| == |tokens|
    ensures forall i :: 0 <= i < |tokens| ==> BlockCommentSet(tokens[i]) == Ok(BlockSets(tokens)[i])
  {
    if tokens != [] {
      var init, last := tokens[..|tokens| - 1], tokens[|tokens| - 1];
      assert forall t :: t in init ==> t in tokens;
      BlockSetsAll(init);
      assert last in tokens;
      assert BlockCommentSet(last).Ok? by { BlockCommentSetOk(last); }
      assert BlockSets(tokens) == BlockSets(init) + [BlockCommentSet(last).value];
      forall i | 0 <= i < |tokens|
        ensures BlockCommentSet(tokens[i]) == Ok(BlockSets(tokens)[i])
      {
        if i < |init| {
          assert tokens[i] == init[i];
        }
      }
    }
  }

  /** Reading one more block comment pushes its set, if it has one. */
  lemma BlockSetsStep(tokens: seq<TokenWithType>, k: nat)
    requires k < |tokens|
    ensures BlockCommentSet(tokens[k]).Ok? ==> BlockSets(tokens[..k + 1]) == BlockSets(tokens[..k]) + [BlockCommentSet(tokens[k]).value]
    ensures BlockCommentSet(tokens[k]).Err? ==> BlockSets(tokens[..k + 1]) == BlockSets(tokens[..k])
  {
    assert tokens[..k + 1][..k] == tokens[..k];
  }

  /** With the corrected clustering no developer comment is lost: the result
      holds first the line-comment literals, every one of them, clustered into
      maximal runs on consecutive lines, and then exactly one set per block
      comment, in source order. */
  lemma CorrectedExtractionComplete(source: seq<char>, lens: seq<nat>)
    requires IsTokenization(source, lens)
    ensures var tokens := DeveloperTokens(source, lens);
            var lineComments, blockComments := OfKind(tokens, LineComment), OfKind(tokens, BlockComment);
            var literals := LineLiterals(lineComments);
            var sets := DeveloperCommentSetsCorrected(source, lens);
            var n := |Clustered(literals)|;
            && |literals| == |lineComments|
            && (forall i :: 0 <= i < |lineComments| ==>
                  literals[i] == TrimmedLiteral(Unknown, lineComments[i].content, 2, 0,
                                                lineComments[i].line, lineComments[i].column))
            && |sets| == n + |blockComments|
            && Flatten(sets[..n]) == literals
            && IsClustering(sets[..n])
            && (forall i :: 0 <= i < |blockComments| ==> BlockCommentSet(blockComments[i]) == Ok(sets[n + i]))
  {
    var tokens := DeveloperTokens(source, lens);
    DeveloperTokensClassified(source, lens);
    var lineComments, blockComments := OfKind(tokens, LineComment), OfKind(tokens, BlockComment);
    OfKindMembers(tokens, LineComment);
    OfKindMembers(tokens, BlockComment);
    LineLiteralsAll(lineComments);
    BlockSetsAll(blockComments);
    var literals := LineLiterals(lineComments);
    ClusteredKeepsLiterals(literals);
    ClusteredIsClustering(literals);
    var sets := DeveloperCommentSetsCorrected(source, lens);
    assert sets[..|Clustered(literals)|] == Clustered(literals);
  }

  /** As written, the line-comment part of the result is at most one set: the
      last maximal run of line comments on consecutive lines. Every earlier
      line comment is lost; the block-comment sets follow unchanged. */
  lemma ExtractionAsWritten(source: seq<char>, lens: seq<nat>)
    requires IsTokenization(source, lens)
    ensures var tokens := DeveloperTokens(source, lens);
            var runs := Clustered(LineLiterals(OfKind(tokens, LineComment)));
            DeveloperCommentSets(source, lens)
              == (if runs == [] then [] else [runs[|runs| - 1]]) + BlockSets(OfKind(tokens, BlockComment))
  {
    var tokens := DeveloperTokens(source, lens);
    AsWrittenKeepsOnlyLastCluster(LineLiterals(OfKind(tokens, LineComment)));
  }
}
