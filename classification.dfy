/** Comment classification in src/documentation/developer.rs: the two regular
    expressions that recognise developer comments, `TokenType` with its
    delimiters, `TokenWithType::from`, the map over all tokens and
    `retain_only_developer_comments`. */
module Classification {
  import opened Tokens

  // `^/\*(?s)(?P<content>.*)\*/$`: opens with "/" "*", closes with "*" "/", and
  // the two delimiters do not overlap. Doc blocks (slash, two stars) and
  // (slash, star, bang) match too.
  predicate IsBlockCommentText(s: seq<char>)
  {
    |s| >= 4 && s[..2] == "/*" && s[|s| - 2..] == "*/"
  }

  /** `^//([^[/|!]].*)$`: "//", then one scalar that is not '/', '|' or '!'
      (a negated class also matches a newline), then scalars other than a
      newline up to the end of the text. */
  predicate IsLineCommentText(s: seq<char>)
  {
    && |s| >= 3
    && s[..2] == "//"
    && s[2] !in {'/', '|', '!'}
    && forall k :: 3 <= k < |s| ==> s[k] != '\n'
  }

  /** `TokenType`: a developer block comment, a developer line comment, or
      anything else. */
  datatype TokenType = BlockComment | LineComment | Other {
    /** `TokenType::pre`. */
    function Pre(): (p: seq<char>)
      ensures this == Other <==> p == []
      ensures this != Other ==> |p| == 2 && p[0] == '/'
    {
      match this
      case BlockComment => "/*"
      case LineComment => "//"
      case Other => ""
    }

    /** `TokenType::post`. */
    function Post(): (p: seq<char>)
      ensures this == BlockComment <==> p != []
      ensures this == BlockComment ==> |p| == 2 && p[1] == '/'
    {
      match this
      case BlockComment => "*/"
      case LineComment => ""
      case Other => ""
    }

    /** `TokenType::pre_in_chars`: the prefix length in scalars. */
    function PreInChars(): (n: nat)
      ensures n == if this == Other then 0 else 2
    {
      |Pre()|
    }

    /** `TokenType::post_in_chars`: the postfix length in scalars. */
    function PostInChars(): (n: nat)
      ensures n == if this == BlockComment then 2 else 0
    {
      |Post()|
    }
  }

  /** The kind `TokenWithType::from` assigns: the block test is made first. */
  function Classify(content: seq<char>): (kind: TokenType)
    ensures kind == BlockComment <==> IsBlockCommentText(content)
    ensures kind == LineComment <==> !IsBlockCommentText(content) && IsLineCommentText(content)
    ensures kind == Other <==> !IsBlockCommentText(content) && !IsLineCommentText(content)
  {
    if IsBlockCommentText(content) then BlockComment
    else if IsLineCommentText(content) then LineComment
    else Other
  }

  /** A token with its kind, 1-indexed line and 0-indexed scalar column. */
  datatype TokenWithType = TokenWithType(kind: TokenType, content: seq<char>, line: nat, column: nat)

  /** `TokenWithType::from`: the kind is worked out from the content; content,
      line and column are carried over. */
  function TokenWithTypeFrom(token: TokenWithLineColumn): (typed: TokenWithType)
    ensures typed.content == token.content && typed.line == token.line && typed.column == token.column
    ensures typed.kind == BlockComment <==> IsBlockCommentText(token.content)
    ensures typed.kind == LineComment <==> !IsBlockCommentText(token.content) && IsLineCommentText(token.content)
  {
    TokenWithType(Classify(token.content), token.content, token.line, token.column)
  }

  /** `token_with_line_column_to_token_with_type`. */
  function ClassifyTokens(tokens: seq<TokenWithLineColumn>): (typed: seq<TokenWithType>)
    ensures |typed| == |tokens|
    ensures forall i :: 0 <= i < |tokens| ==> typed[i] == TokenWithTypeFrom(tokens[i])
  {
    seq(|tokens|, i requires 0 <= i < |tokens| => TokenWithTypeFrom(tokens[i]))
  }

  /** The tokens of `tokens` whose kind is `kind`, in order (the `filter` on
      kind in `extract_developer_comments`). */
  function OfKind(tokens: seq<TokenWithType>, kind: TokenType): (kept: seq<TokenWithType>)
    ensures |kept| <= |tokens|
  {
    if tokens == [] then []
    else
      var init, last := tokens[..|tokens| - 1], tokens[|tokens| - 1];
      OfKind(init, kind) + (if last.kind == kind then [last] else [])
  }

  /** The filter keeps exactly the tokens of the kind. */
  lemma {:induction false} OfKindMembers(tokens: seq<TokenWithType>, kind: TokenType)
    ensures forall t :: t in OfKind(tokens, kind) <==> t in tokens && t.kind == kind
  {
    if tokens != [] {
      var init, last := tokens[..|tokens| - 1], tokens[|tokens| - 1];
      assert tokens == init + [last];
      OfKindMembers(init, kind);
    }
  }

  /** `retain_only_developer_comments`: the tokens that are not `Other`, in order. */
  function RetainOnlyDeveloperComments(tokens: seq<TokenWithType>): (kept: seq<TokenWithType>)
    ensures |kept| <= |tokens|
    ensures forall t :: t in kept <==> t in tokens && t.kind != Other
  {
    if tokens == [] then []
    else
      var init, last := tokens[..|tokens| - 1], tokens[|tokens| - 1];
      assert tokens == init + [last];
      RetainOnlyDeveloperComments(init) + (if last.kind != Other then [last] else [])
  }

  /** The filter distributes over concatenation, so it keeps the relative
      order of the tokens it retains. */
  lemma {:induction false} RetainDistributes(a: seq<TokenWithType>, b: seq<TokenWithType>)
    ensures RetainOnlyDeveloperComments(a + b) == RetainOnlyDeveloperComments(a) + RetainOnlyDeveloperComments(b)
    decreases |b|
  {
    if b == [] {
      assert a + b == a;
    } else {
      var init := b[..|b| - 1];
      assert (a + b)[..|a + b| - 1] == a + init;
      RetainDistributes(a, init);
    }
  }

  /** A sequence of developer comments is left untouched, and a sequence
      without any is emptied. */
  lemma {:induction false} RetainExtremes(tokens: seq<TokenWithType>)
    ensures (forall t :: t in tokens ==> t.kind != Other) ==> RetainOnlyDeveloperComments(tokens) == tokens
    ensures (forall t :: t in tokens ==> t.kind == Other) ==> RetainOnlyDeveloperComments(tokens) == []
  {
    if tokens != [] {
      var init := tokens[..|tokens| - 1];
      assert forall t :: t in init ==> t in tokens;
      RetainExtremes(init);
      assert tokens == init + [tokens[|tokens| - 1]];
    }
  }

  /** The kind's delimiters really delimit the content: a classified token
      starts with its kind's prefix, ends with its postfix, and is long
      enough for both. */
  lemma ClassifiedDelimiters(content: seq<char>)
    ensures var kind := Classify(content);
            && kind.PreInChars() + kind.PostInChars() <= |content|
            && content[..kind.PreInChars()] == kind.Pre()
            && content[|content| - kind.PostInChars()..] == kind.Post()
  {
  }

  // Outer and inner doc line comments, a bare "//" and "//|" are not
  // developer comments; doc blocks opened by slash, star, star are classified
  // as block comments.
  lemma DocCommentsClassified(rest: seq<char>)
    ensures Classify("///" + rest) == Other && Classify("//!" + rest) == Other
    ensures Classify("//") == Other
    ensures Classify("//|" + rest) == Other
    ensures Classify("/**" + rest + "*/") == BlockComment
    ensures '\n' !in rest && rest != [] && rest[0] !in {'/', '|', '!'} ==> Classify("//" + rest) == LineComment
  {
    var s := "/**" + rest + "*/";
    assert s[..2] == "/*" && s[|s| - 2..] == "*/";
    var l := "//" + rest;
    if '\n' !in rest && rest != [] {
      assert l[..2] == "//";
      assert forall k :: 3 <= k < |l| ==> l[k] == rest[k - 2];
    }
    var d, b, p := "///" + rest, "//!" + rest, "//|" + rest;
    assert d[..2] == "//" && d[2] == '/';
    assert b[..2] == "//" && b[2] == '!';
    assert p[..2] == "//" && p[2] == '|';
  }

  /** The kind filter distributes over concatenation, so it keeps the
      relative order of the tokens it retains. */
  lemma {:induction false} OfKindDistributes(a: seq<TokenWithType>, b: seq<TokenWithType>, kind: TokenType)
    ensures OfKind(a + b, kind) == OfKind(a, kind) + OfKind(b, kind)
    decreases |b|
  {
    if b == [] {
      assert a + b == a;
      assert OfKind(a, kind) + OfKind(b, kind) == OfKind(a, kind);
    } else {
      var init, last := b[..|b| - 1], b[|b| - 1];
      assert a + b == (a + init) + [last];
      assert b == init + [last];
      OfKindDistributes(a, init, kind);
      OfKindSnoc(a + init, last, kind);
      OfKindSnoc(init, last, kind);
      var x, y := OfKind(a, kind), OfKind(init, kind);
      if last.kind == kind {
        assert (x + y) + [last] == x + (y + [last]);
      }
    }
  }

  lemma OfKindSnoc(tokens: seq<TokenWithType>, t: TokenWithType, kind: TokenType)
    ensures t.kind == kind ==> OfKind(tokens + [t], kind) == OfKind(tokens, kind) + [t]
    ensures t.kind != kind ==> OfKind(tokens + [t], kind) == OfKind(tokens, kind)
  {
    assert (tokens + [t])[..|tokens|] == tokens;
  }

  /** A single token is kept exactly when it has the kind; with
      `OfKindDistributes`, every matching token is kept as often as it occurs. */
  lemma OfKindSingleton(t: TokenWithType, kind: TokenType)
    ensures OfKind([t], kind) == if t.kind == kind then [t] else []
  {
    assert [t][..0] == [];
  }
}
