/** Literal construction in src/documentation/developer.rs: one literal per
    developer line comment (`literal_from_line_comment`), one literal set per
    block comment with a literal per line (`literal_set_from_block_comment`),
    clustering of line-comment literals on consecutive lines into sets
    (`literal_sets_from_line_comments`), both as written and as evidently
    intended. */
module DeveloperComments {
  import opened Basics
  import opened Coordinates
  import opened Tokens
  import opened Classification
  import opened Literals

  // ---------------------------------------------------------------------
  // Line comments
  // ---------------------------------------------------------------------

  /** `literal_from_line_comment`: the whole token, trimmed of the "//" prefix. */
  function LiteralFromLineComment(token: TokenWithType): (r: Result<TrimmedLiteral, Failure>)
    ensures r.Ok? <==> token.kind == LineComment && |token.content| >= 2
    ensures token.kind != LineComment ==> r == Err(WrongKind)
    ensures r.Ok? ==> r.value.Valid() && r.value.raw == token.content
  {
    match token.kind
    case LineComment =>
      TrimmedLiteralFrom(Unknown, token.content, LineComment.PreInChars(), LineComment.PostInChars(),
                         token.line, token.column)
    case _ => Err(WrongKind)
  }

  /** A token classified as a developer line comment always yields a literal:
      its text is everything after "//", and its span runs on the token's line
      from two columns right of the token to the token's last scalar. */
  lemma LineCommentLiteral(token: TokenWithType)
    requires token.kind == Classify(token.content) == LineComment
    ensures var r := LiteralFromLineComment(token);
            && r.Ok?
            && r.value.pre == 2 && r.value.post == 0
            && r.value.AsStr() == token.content[2..]
            && r.value.LiteralSpan() == Span(Position(token.line, token.column + 2),
                                            Position(token.line, token.column + |token.content| - 1))
  {
  }

  // ---------------------------------------------------------------------
  // Block comments
  // ---------------------------------------------------------------------

  // `str::ends_with(BLOCK_COMMENT_POSTFIX)`.
  predicate EndsWithBlockPostfix(line: seq<char>)
  {
    |line| >= 2 && line[|line| - 2..] == BlockComment.Post()
  }

  /** The postfix length given to a continuation line of a block comment. */
  function ContinuationPost(line: seq<char>): nat
  {
    if EndsWithBlockPostfix(line) then BlockComment.PostInChars() else 0
  }

  /** The `while let` loop of `literal_set_from_block_comment` over the lines
      after the first, `lineNumber` being the line of the previous one. */
  function AddLines(literalSet: LiteralSet, lines: seq<seq<char>>, lineNumber: nat): Result<LiteralSet, Failure>
    requires literalSet.Valid()
    decreases |lines|
  {
    if lines == [] then Ok(literalSet)
    else
      match TrimmedLiteralFrom(Unknown, lines[0], 0, ContinuationPost(lines[0]), lineNumber + 1, 0)
      case Err(e) => Err(e)
      case Ok(literal) =>
        match AddAdjacent(literalSet, literal)
        case Err(_) => Err(NotAdjacent)
        case Ok(grown) => AddLines(grown, lines[1..], lineNumber + 1)
  }

  /** What `literal_set_from_block_comment` returns. */
  function BlockCommentSet(token: TokenWithType): (r: Result<LiteralSet, Failure>)
    ensures token.kind != BlockComment ==> r == Err(WrongKind)
    ensures token.kind == BlockComment && !IsBlockCommentText(token.content) ==> r == Err(ImproperlyDelimited)
  {
    if token.kind != BlockComment then Err(WrongKind)
    else if !IsBlockCommentText(token.content) then Err(ImproperlyDelimited)
    else
      var lines := Split(token.content);
      if |lines| == 1 then
        match TrimmedLiteralFrom(Unknown, token.content, BlockComment.PreInChars(), BlockComment.PostInChars(),
                                 token.line, token.column)
        case Err(e) => Err(e)
        case Ok(literal) => Ok(LiteralSetFrom(literal))
      else
        match TrimmedLiteralFrom(Unknown, lines[0], BlockComment.PreInChars(), 0, token.line, token.column)
        case Err(e) => Err(e)
        case Ok(literal) => AddLines(LiteralSetFrom(literal), lines[1..], token.line)
  }

  /** `literal_set_from_block_comment`. */
  method LiteralSetFromBlockComment(token: TokenWithType) returns (r: Result<LiteralSet, Failure>)
    ensures r == BlockCommentSet(token)
  {
    if token.kind != BlockComment {
      return Err(WrongKind);
    }
    if !IsBlockCommentText(token.content) {
      return Err(ImproperlyDelimited);
    }
    var lines := Split(token.content);
    var numberOfLines := |lines|;
    if numberOfLines == 1 {
      var single := TrimmedLiteralFrom(Unknown, token.content, BlockComment.PreInChars(),
                                       BlockComment.PostInChars(), token.line, token.column);
      // The source returns an error when `TrimmedLiteral::from` fails; a
      // delimited block comment has at least four scalars, so it cannot.
      assert single.Ok?;
      return Ok(LiteralSetFrom(single.value));
    }
    // The first `lines.next()` cannot be `None`: a split has at least one piece.
    var first := TrimmedLiteralFrom(Unknown, lines[0], BlockComment.PreInChars(), 0, token.line, token.column);
    if first.Err? {
      return Err(first.error);
    }
    var literalSet := LiteralSetFrom(first.value);
    var lineNumber := token.line;
    var i := 1;
    while i < |lines|
      invariant 1 <= i <= |lines|
      invariant literalSet.Valid()
      invariant AddLines(literalSet, lines[i..], lineNumber) == AddLines(LiteralSetFrom(first.value), lines[1..], token.line)
      decreases |lines| - i
    {
      var nextLine := lines[i];
      lineNumber := lineNumber + 1;
      var post := if EndsWithBlockPostfix(nextLine) then BlockComment.PostInChars() else 0;
      var literal := TrimmedLiteralFrom(Unknown, nextLine, 0, post, lineNumber, 0);
      // The source returns an error when `TrimmedLiteral::from` fails; the
      // postfix is only trimmed from a line that ends in it, so it cannot.
      assert literal.Ok?;
      var added := AddAdjacent(literalSet, literal.value);
      if added.Err? {
        return Err(NotAdjacent);
      }
      literalSet := added.value;
      i := i + 1;
    }
    return Ok(literalSet);
  }

  /** The literals the loop adds for the lines after the first. */
  function ContinuationLiterals(lines: seq<seq<char>>, lineNumber: nat): (literals: seq<TrimmedLiteral>)
    ensures |literals| == |lines|
    decreases |lines|
  {
    if lines == [] then []
    else [TrimmedLiteral(Unknown, lines[0], 0, ContinuationPost(lines[0]), lineNumber + 1, 0)]
         + ContinuationLiterals(lines[1..], lineNumber + 1)
  }

  /** Continuation literal `k` holds line `k` on the `k + 1`-th line after
      `lineNumber`, at column 0, without prefix, and with a postfix exactly
      when the line ends the comment. */
  lemma {:induction false} ContinuationLiteralAt(lines: seq<seq<char>>, lineNumber: nat, k: nat)
    requires k < |lines|
    ensures ContinuationLiterals(lines, lineNumber)[k]
            == TrimmedLiteral(Unknown, lines[k], 0, ContinuationPost(lines[k]), lineNumber + 1 + k, 0)
    decreases k
  {
    if k > 0 {
      ContinuationLiteralAt(lines[1..], lineNumber + 1, k - 1);
    }
  }

  /** Once a set ends on `lineNumber`, the loop accepts every remaining line. */
  lemma {:induction false} AddLinesOk(literalSet: LiteralSet, lines: seq<seq<char>>, lineNumber: nat)
    requires literalSet.Valid() && literalSet.Last().line == lineNumber
    ensures AddLines(literalSet, lines, lineNumber)
            == Ok(LiteralSet(literalSet.literals + ContinuationLiterals(lines, lineNumber)))
    decreases |lines|
  {
    if lines == [] {
      assert literalSet.literals + [] == literalSet.literals;
    } else {
      var literal := TrimmedLiteral(Unknown, lines[0], 0, ContinuationPost(lines[0]), lineNumber + 1, 0);
      var grown := LiteralSet(literalSet.literals + [literal]);
      AddLinesOk(grown, lines[1..], lineNumber + 1);
      assert grown.literals + ContinuationLiterals(lines[1..], lineNumber + 1)
          == literalSet.literals + ContinuationLiterals(lines, lineNumber);
    }
  }

  /** A delimited block comment always yields a set: a single-line comment one
      literal trimmed on both sides; otherwise one literal per line, the first
      at the token's position without postfix and the others as
      `ContinuationLiterals`. */
  lemma BlockCommentSetOk(token: TokenWithType)
    requires token.kind == BlockComment && IsBlockCommentText(token.content)
    ensures var lines := Split(token.content);
            var r := BlockCommentSet(token);
            && r.Ok?
            && (|lines| == 1 ==>
                  r.value.literals == [TrimmedLiteral(Unknown, token.content, 2, 2, token.line, token.column)])
            && (|lines| > 1 ==>
                  r.value.literals == [TrimmedLiteral(Unknown, lines[0], 2, 0, token.line, token.column)]
                                      + ContinuationLiterals(lines[1..], token.line))
  {
    var lines := Split(token.content);
    if |lines| > 1 {
      FirstLineHoldsPrefix(token.content);
      AddLinesOk(LiteralSetFrom(TrimmedLiteral(Unknown, lines[0], 2, 0, token.line, token.column)),
                 lines[1..], token.line);
    }
  }

  /** The first line of a block comment spanning several lines holds the
      whole block prefix. */
  lemma FirstLineHoldsPrefix(content: seq<char>)
    requires IsBlockCommentText(content)
    requires |Split(content)| > 1
    ensures |Split(content)[0]| >= 2
  {
    var lines := Split(content);
    JoinSplit(content);
    JoinFirst(lines);
    assert content[..2] == "/*";
    assert content[|lines[0]|] == '\n';
  }

  /** The last line of a block comment spanning several lines always ends in
      the block postfix, so its literal is trimmed of it. */
  lemma LastLineEndsComment(content: seq<char>)
    requires IsBlockCommentText(content)
    requires |Split(content)| > 1
    ensures EndsWithBlockPostfix(Split(content)[|Split(content)| - 1])
  {
    var lines := Split(content);
    var last := lines[|lines| - 1];
    JoinSplit(content);
    JoinLast(lines);
    assert content[|content| - 2] == '*' && content[|content| - 1] == '/';
    assert |last| >= 2;
    assert last[|last| - 2..] == content[|content| - 2..];
  }

  /** Each literal of a block comment set: the pieces of the split in order, on
      consecutive lines from the token's line, the first at the token's column
      and the rest at column 0, with the block prefix trimmed only from the
      first and the postfix trimmed from the last and from any line ending in it. */
  lemma BlockCommentLiterals(token: TokenWithType, i: nat)
    requires token.kind == BlockComment && IsBlockCommentText(token.content)
    requires i < |Split(token.content)|
    ensures var lines := Split(token.content);
            var r := BlockCommentSet(token);
            && r.Ok?
            && var literals := r.value.literals;
            && |literals| == |lines|
            && literals[i].line == token.line + i
            && literals[i].column == (if i == 0 then token.column else 0)
            && literals[i].pre == (if i == 0 then 2 else 0)
            && (|lines| > 1 ==> literals[i].raw == lines[i])
            && (i == |lines| - 1 ==> literals[i].post == 2)
            && (0 < i < |lines| - 1 ==> (literals[i].post == 2 <==> EndsWithBlockPostfix(lines[i])))
            && (i == 0 < |lines| - 1 ==> literals[i].post == 0)
  {
    BlockCommentSetOk(token);
    var lines := Split(token.content);
    if i > 0 {
      ContinuationLiteralAt(lines[1..], token.line, i - 1);
      if i == |lines| - 1 {
        LastLineEndsComment(token.content);
      }
    }
  }

  /** The raw lines of a block comment's literals, joined with newlines, give
      back the comment. */
  lemma BlockCommentCovered(token: TokenWithType)
    requires token.kind == BlockComment && IsBlockCommentText(token.content)
    requires |Split(token.content)| > 1
    ensures var r := BlockCommentSet(token);
            && r.Ok?
            && var literals := r.value.literals;
            && |literals| == |Split(token.content)|
            && Join(seq(|literals|, i requires 0 <= i < |literals| => literals[i].raw)) == token.content
  {
    BlockCommentSetOk(token);
    var lines := Split(token.content);
    var literals := BlockCommentSet(token).value.literals;
    forall i | 0 <= i < |literals|
      ensures literals[i].raw == lines[i]
    {
      BlockCommentLiterals(token, i);
    }
    assert seq(|literals|, i requires 0 <= i < |literals| => literals[i].raw) == lines;
    JoinSplit(token.content);
  }

  // ---------------------------------------------------------------------
  // Clustering line comments
  // ---------------------------------------------------------------------

  /** The literals `literal_sets_from_line_comments` obtains from `tokens`, in
      order: tokens that are not line comments are skipped, and so are the
      ones whose literal cannot be built. */
  function LineLiterals(tokens: seq<TokenWithType>): (literals: seq<TrimmedLiteral>)
    ensures |literals| <= |tokens|
  {
    if tokens == [] then []
    else
      var init, last := tokens[..|tokens| - 1], tokens[|tokens| - 1];
      var literal := LiteralFromLineComment(last);
      LineLiterals(init) + (if last.kind == LineComment && literal.Ok? then [literal.value] else [])
  }

  predicate AllValid(sets: seq<LiteralSet>)
  {
    forall k :: 0 <= k < |sets| ==> sets[k].Valid()
  }

  /** One step of the loop as the pop/push logic evidently intends it: the
      literal joins the last set when it is adjacent, and otherwise the last
      set is kept and a new set is started. */
  function Push(sets: seq<LiteralSet>, literal: TrimmedLiteral): (result: seq<LiteralSet>)
    requires AllValid(sets)
    ensures AllValid(result)
  {
    if sets == [] then [LiteralSetFrom(literal)]
    else
      var last := sets[|sets| - 1];
      match AddAdjacent(last, literal)
      case Err(rejected) => sets + [LiteralSetFrom(rejected)]
      case Ok(grown) => sets[..|sets| - 1] + [grown]
  }

  /** One step of the loop as written (src/documentation/developer.rs:311-319):
      when `add_adjacent` refuses the literal, the set just popped is dropped. */
  function PushAsWritten(sets: seq<LiteralSet>, literal: TrimmedLiteral): (result: seq<LiteralSet>)
    requires AllValid(sets)
    ensures AllValid(result)
  {
    if sets == [] then [LiteralSetFrom(literal)]
    else
      var last := sets[|sets| - 1];
      match AddAdjacent(last, literal)
      case Err(rejected) => sets[..|sets| - 1] + [LiteralSetFrom(rejected)]
      case Ok(grown) => sets[..|sets| - 1] + [grown]
  }

  /** The literal sets built from `literals` one at a time, as intended. */
  function Clustered(literals: seq<TrimmedLiteral>): (sets: seq<LiteralSet>)
    ensures AllValid(sets)
  {
    if literals == [] then [] else Push(Clustered(literals[..|literals| - 1]), literals[|literals| - 1])
  }

  /** The literal sets built from `literals` one at a time, as written. */
  function ClusteredAsWritten(literals: seq<TrimmedLiteral>): (sets: seq<LiteralSet>)
    ensures AllValid(sets)
  {
    if literals == [] then [] else PushAsWritten(ClusteredAsWritten(literals[..|literals| - 1]), literals[|literals| - 1])
  }

  /** Reading one more token adds its literal, if any, to the line literals. */
  lemma LineLiteralsStep(tokens: seq<TokenWithType>, i: nat)
    requires i < |tokens|
    ensures var literal := LiteralFromLineComment(tokens[i]);
            if tokens[i].kind == LineComment && literal.Ok?
            then LineLiterals(tokens[..i + 1]) == LineLiterals(tokens[..i]) + [literal.value]
            else LineLiterals(tokens[..i + 1]) == LineLiterals(tokens[..i])
  {
    assert tokens[..i + 1][..i] == tokens[..i];
  }

  /** Clustering one more literal is one more step of either loop. */
  lemma ClusteringStep(literals: seq<TrimmedLiteral>, literal: TrimmedLiteral)
    ensures Clustered(literals + [literal]) == Push(Clustered(literals), literal)
    ensures ClusteredAsWritten(literals + [literal]) == PushAsWritten(ClusteredAsWritten(literals), literal)
  {
    assert (literals + [literal])[..|literals|] == literals;
  }

  /** The loop body of `literal_sets_from_line_comments` for a literal that was
      built, as intended: pop the last set, try to grow it, and push back
      either the grown set or the popped set followed by a new one. */
  method PushLiteral(sets: seq<LiteralSet>, literal: TrimmedLiteral) returns (result: seq<LiteralSet>)
    requires AllValid(sets)
    ensures result == Push(sets, literal)
  {
    if sets == [] {
      return [LiteralSetFrom(literal)];
    }
    var popped := sets[|sets| - 1];
    result := sets[..|sets| - 1];
    var added := AddAdjacent(popped, literal);
    if added.Err? {
      assert result + [popped] == sets;
      result := result + [popped, LiteralSetFrom(added.error)];
    } else {
      result := result + [added.value];
    }
  }

  /** The same loop body as written (src/documentation/developer.rs:311-319):
      on refusal only the new set is pushed. */
  method PushLiteralAsWritten(sets: seq<LiteralSet>, literal: TrimmedLiteral) returns (result: seq<LiteralSet>)
    requires AllValid(sets)
    ensures result == PushAsWritten(sets, literal)
  {
    if sets == [] {
      return [LiteralSetFrom(literal)];
    }
    var popped := sets[|sets| - 1];
    result := sets[..|sets| - 1];
    var added := AddAdjacent(popped, literal);
    if added.Err? {
      result := result + [LiteralSetFrom(added.error)];
    } else {
      result := result + [added.value];
    }
  }

  /** `literal_sets_from_line_comments` with the dropped set pushed back. */
  method LiteralSetsFromLineComments(tokens: seq<TokenWithType>) returns (sets: seq<LiteralSet>)
    ensures sets == Clustered(LineLiterals(tokens))
  {
    sets := [];
    for i := 0 to |tokens|
      invariant sets == Clustered(LineLiterals(tokens[..i]))
    {
      var token := tokens[i];
      LineLiteralsStep(tokens, i);
      if token.kind != LineComment {
        continue;
      }
      var literal := LiteralFromLineComment(token);
      if literal.Err? {
        continue;
      }
      ClusteringStep(LineLiterals(tokens[..i]), literal.value);
      sets := PushLiteral(sets, literal.value);
    }
    assert tokens[..|tokens|] == tokens;
  }

  /** `literal_sets_from_line_comments` as written. */
  method LiteralSetsFromLineCommentsAsWritten(tokens: seq<TokenWithType>) returns (sets: seq<LiteralSet>)
    ensures sets == ClusteredAsWritten(LineLiterals(tokens))
  {
    sets := [];
    for i := 0 to |tokens|
      invariant sets == ClusteredAsWritten(LineLiterals(tokens[..i]))
    {
      var token := tokens[i];
      LineLiteralsStep(tokens, i);
      if token.kind != LineComment {
        continue;
      }
      var literal := LiteralFromLineComment(token);
      if literal.Err? {
        continue;
      }
      ClusteringStep(LineLiterals(tokens[..i]), literal.value);
      sets := PushLiteralAsWritten(sets, literal.value);
    }
    assert tokens[..|tokens|] == tokens;
  }

  /** All literals of `sets`, set after set. */
  function Flatten(sets: seq<LiteralSet>): seq<TrimmedLiteral>
  {
    if sets == [] then [] else Flatten(sets[..|sets| - 1]) + sets[|sets| - 1].literals
  }

  /** Within a set the literals lie on consecutive lines. */
  predicate Consecutive(s: LiteralSet)
  {
    forall k :: 0 <= k < |s.literals| - 1 ==> s.literals[k + 1].line == s.literals[k].line + 1
  }

  /** The sets are maximal: no set starts on the line after the previous set ends. */
  predicate Separated(sets: seq<LiteralSet>)
    requires AllValid(sets)
  {
    forall j :: 0 <= j < |sets| - 1 ==> sets[j + 1].literals[0].line != sets[j].Last().line + 1
  }

  /** A partition of literals into maximal runs on consecutive lines. */
  predicate IsClustering(sets: seq<LiteralSet>)
  {
    && AllValid(sets)
    && (forall j :: 0 <= j < |sets| ==> Consecutive(sets[j]))
    && Separated(sets)
  }

  lemma FlattenPush(sets: seq<LiteralSet>, literal: TrimmedLiteral)
    requires AllValid(sets)
    ensures Flatten(Push(sets, literal)) == Flatten(sets) + [literal]
  {
    if sets != [] {
      var init, last := sets[..|sets| - 1], sets[|sets| - 1];
      var pushed := Push(sets, literal);
      if AddAdjacent(last, literal).Err? {
        assert pushed[..|pushed| - 1] == sets;
      } else {
        assert pushed[..|pushed| - 1] == init;
      }
    } else {
      assert Push(sets, literal)[..0] == [];
    }
  }

  lemma PushKeepsClustering(sets: seq<LiteralSet>, literal: TrimmedLiteral)
    requires IsClustering(sets)
    ensures IsClustering(Push(sets, literal))
  {
    var pushed := Push(sets, literal);
    if sets != [] {
      var last := sets[|sets| - 1];
      if AddAdjacent(last, literal).Ok? {
        var grown := AddAdjacent(last, literal).value;
        assert forall k :: 0 <= k < |last.literals| ==> grown.literals[k] == last.literals[k];
        assert Consecutive(grown);
        assert grown.literals[0] == last.literals[0];
      }
    }
  }

  /** Clustering puts every literal into exactly one set, in order. */
  lemma {:induction false} ClusteredKeepsLiterals(literals: seq<TrimmedLiteral>)
    ensures Flatten(Clustered(literals)) == literals
  {
    if literals != [] {
      var init := literals[..|literals| - 1];
      ClusteredKeepsLiterals(init);
      FlattenPush(Clustered(init), literals[|literals| - 1]);
      assert init + [literals[|literals| - 1]] == literals;
    }
  }

  /** The sets of a clustering are maximal runs on consecutive lines. */
  lemma {:induction false} ClusteredIsClustering(literals: seq<TrimmedLiteral>)
    ensures IsClustering(Clustered(literals))
  {
    if literals != [] {
      var init := literals[..|literals| - 1];
      ClusteredIsClustering(init);
      PushKeepsClustering(Clustered(init), literals[|literals| - 1]);
    }
  }

  /** As written, at most one set survives: the last maximal run; every
      literal before it is lost. */
  lemma {:induction false} AsWrittenKeepsOnlyLastCluster(literals: seq<TrimmedLiteral>)
    ensures var sets := Clustered(literals);
            ClusteredAsWritten(literals) == if sets == [] then [] else [sets[|sets| - 1]]
  {
    if literals != [] {
      var init, literal := literals[..|literals| - 1], literals[|literals| - 1];
      AsWrittenKeepsOnlyLastCluster(init);
      var sets := Clustered(init);
      if sets != [] {
        var last := sets[|sets| - 1];
        if AddAdjacent(last, literal).Ok? {
          assert [last][..0] == [];
        }
      }
    }
  }

  /** The two line comments of the unit test at
      src/documentation/developer.rs:847-871, on lines 1 and 3. */
  function SeparatedLineCommentTokens(): seq<TokenWithType>
  {
    [ TokenWithType(LineComment, "// line comment 1 ", 1, 0),
      TokenWithType(LineComment, "// line comment 2 ", 3, 0) ]
  }

  /** As written, the two non-adjacent comments of the unit test end up in a
      single set holding only the second one; the test expects two sets. */
  lemma AsWrittenLosesFirstComment()
    ensures var literals := LineLiterals(SeparatedLineCommentTokens());
            && ClusteredAsWritten(literals) == [LiteralSet([TrimmedLiteral(Unknown, "// line comment 2 ", 2, 0, 3, 0)])]
            && |Clustered(literals)| == 2
  {
    var tokens := SeparatedLineCommentTokens();
    var l1 := TrimmedLiteral(Unknown, "// line comment 1 ", 2, 0, 1, 0);
    var l2 := TrimmedLiteral(Unknown, "// line comment 2 ", 2, 0, 3, 0);
    assert tokens[..1][..0] == [];
    assert LineLiterals(tokens[..1]) == [l1];
    assert tokens[..|tokens| - 1] == tokens[..1];
    assert LineLiterals(tokens) == [l1, l2];
    assert [l1, l2][..1] == [l1];
    assert [l1][..0] == [];
    var sets := [LiteralSetFrom(l1)];
    assert sets[..0] == [];
  }

  /** The corrected loop gives the unit test's expected result: two sets of one
      literal each, the first comment first. */
  lemma CorrectedSeparatesComments()
    ensures Clustered(LineLiterals(SeparatedLineCommentTokens()))
            == [ LiteralSet([TrimmedLiteral(Unknown, "// line comment 1 ", 2, 0, 1, 0)]),
                 LiteralSet([TrimmedLiteral(Unknown, "// line comment 2 ", 2, 0, 3, 0)]) ]
  {
    var tokens := SeparatedLineCommentTokens();
    var l1 := TrimmedLiteral(Unknown, "// line comment 1 ", 2, 0, 1, 0);
    var l2 := TrimmedLiteral(Unknown, "// line comment 2 ", 2, 0, 3, 0);
    assert tokens[..1][..0] == [];
    assert tokens[..|tokens| - 1] == tokens[..1];
    assert LineLiterals(tokens) == [l1, l2];
    assert [l1, l2][..1] == [l1];
    assert [l1][..0] == [];
  }
}
