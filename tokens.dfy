/** The token passes of src/documentation/developer.rs: cutting the source
    into located tokens from the lengths the lexer reports
    (`source_to_tokens_with_location`) and attaching a line and a column to
    every token (`tokens_with_location_to_tokens_with_line_and_column`). */
module Tokens {
  import opened Basics
  import opened Utf8Text
  import opened Coordinates

  /** A token and the byte offset at which it starts in the source. */
  datatype TokenWithLocation = TokenWithLocation(content: seq<char>, location: nat)

  /** A token and the line (1-indexed) and scalar column (0-indexed) of its
      first scalar. */
  datatype TokenWithLineColumn = TokenWithLineColumn(content: seq<char>, line: nat, column: nat)

  /** The sum of the first `i` lengths: the byte offset at which token `i` starts. */
  function Offset(lens: seq<nat>, i: nat): nat
    requires i <= |lens|
  {
    if i == 0 then 0 else Offset(lens, i - 1) + lens[i - 1]
  }

  predicate OnBoundary(source: seq<char>, b: nat)
  {
    CharIndex(source, b).Some?
  }

  /** What the lexer `ra_ap_syntax::tokenize` guarantees of the byte lengths
      it reports: each is positive, every running total falls on a scalar
      boundary, and together they cover the source. */
  predicate IsTokenization(source: seq<char>, lens: seq<nat>)
  {
    && (forall i :: 0 <= i < |lens| ==> lens[i] > 0)
    && (forall i {:trigger OnBoundary(source, Offset(lens, i))} :: 0 <= i <= |lens| ==> OnBoundary(source, Offset(lens, i)))
    && Offset(lens, |lens|) == ByteLen(source)
  }

  /** The contents of `tokens` written one after the other. */
  function Text(tokens: seq<TokenWithLocation>): seq<char>
  {
    if tokens == [] then [] else Text(tokens[..|tokens| - 1]) + tokens[|tokens| - 1].content
  }

  /** Token `i` starts at the sum of the lengths of tokens `0..i` and holds
      the source bytes up to the next running total. */
  function LocatedToken(source: seq<char>, lens: seq<nat>, i: nat): TokenWithLocation
    requires IsTokenization(source, lens)
    requires i < |lens|
  {
    assert OnBoundary(source, Offset(lens, i)) && OnBoundary(source, Offset(lens, i + 1));
    TokenWithLocation(ByteSlice(source, Offset(lens, i), Offset(lens, i + 1)), Offset(lens, i))
  }

  /** The first `n` located tokens. */
  function LocatedPrefix(source: seq<char>, lens: seq<nat>, n: nat): (tokens: seq<TokenWithLocation>)
    requires IsTokenization(source, lens)
    requires n <= |lens|
    ensures |tokens| == n
    ensures forall t :: t in tokens ==> CharIndex(source, t.location).Some?
  {
    if n == 0 then []
    else
      assert OnBoundary(source, Offset(lens, n - 1));
      LocatedPrefix(source, lens, n - 1) + [LocatedToken(source, lens, n - 1)]
  }

  /** All located tokens. */
  function LocatedTokens(source: seq<char>, lens: seq<nat>): (tokens: seq<TokenWithLocation>)
    requires IsTokenization(source, lens)
    ensures |tokens| == |lens|
    ensures forall t :: t in tokens ==> CharIndex(source, t.location).Some?
  {
    LocatedPrefix(source, lens, |lens|)
  }

  /** `source_to_tokens_with_location`: a running byte offset slices one token
      per reported length. */
  method SourceToTokensWithLocation(source: seq<char>, lens: seq<nat>) returns (tokens: seq<TokenWithLocation>)
    requires IsTokenization(source, lens)
    ensures tokens == LocatedTokens(source, lens)
  {
    tokens := [];
    var location := 0;
    for i := 0 to |lens|
      invariant location == Offset(lens, i)
      invariant tokens == LocatedPrefix(source, lens, i)
    {
      var length := lens[i];
      assert location + length == Offset(lens, i + 1);
      assert OnBoundary(source, location) && OnBoundary(source, location + length) by {
        assert OnBoundary(source, Offset(lens, i)) && OnBoundary(source, Offset(lens, i + 1));
      }
      tokens := tokens + [TokenWithLocation(ByteSlice(source, location, location + length), location)];
      location := location + length;
    }
  }

  /** Token `i` of every prefix is `LocatedToken(source, lens, i)`: it starts at
      the sum of the lengths before it, and the prefixes agree with each other. */
  lemma {:induction false} LocatedPrefixAt(source: seq<char>, lens: seq<nat>, n: nat, i: nat)
    requires IsTokenization(source, lens)
    requires i < n <= |lens|
    ensures LocatedPrefix(source, lens, n)[i] == LocatedToken(source, lens, i)
    ensures LocatedPrefix(source, lens, n)[i].location == Offset(lens, i)
    ensures LocatedPrefix(source, lens, n)[..i] == LocatedPrefix(source, lens, i)
  {
    if i < n - 1 {
      LocatedPrefixAt(source, lens, n - 1, i);
      var p := LocatedPrefix(source, lens, n - 1);
      assert LocatedPrefix(source, lens, n)[..n - 1] == p;
      assert LocatedPrefix(source, lens, n)[..i] == p[..i];
    } else {
      assert LocatedPrefix(source, lens, n)[..i] == LocatedPrefix(source, lens, n - 1);
    }
  }

  /** Each token is as many bytes long as the lexer reported. */
  lemma LocatedTokenLen(source: seq<char>, lens: seq<nat>, i: nat)
    requires IsTokenization(source, lens)
    requires i < |lens|
    ensures ByteLen(LocatedToken(source, lens, i).content) == lens[i]
  {
    assert OnBoundary(source, Offset(lens, i)) && OnBoundary(source, Offset(lens, i + 1));
    ByteSliceLen(source, Offset(lens, i), Offset(lens, i + 1));
  }

  lemma TextSnoc(tokens: seq<TokenWithLocation>, t: TokenWithLocation)
    ensures Text(tokens + [t]) == Text(tokens) + t.content
  {
    assert (tokens + [t])[..|tokens|] == tokens;
  }

  lemma PrefixConcat(s: seq<char>, i: nat, j: nat)
    requires i <= j <= |s|
    ensures s[..j] == s[..i] + s[i..j]
  {
  }

  /** Reassembly: the first `n` tokens spell out the source up to the byte
      offset where token `n` starts. */
  lemma {:induction false} LocatedTokensReassemble(source: seq<char>, lens: seq<nat>, n: nat)
    requires IsTokenization(source, lens)
    requires n <= |lens|
    ensures OnBoundary(source, Offset(lens, n))
    ensures Text(LocatedPrefix(source, lens, n)) == BytePrefix(source, Offset(lens, n))
  {
    assert OnBoundary(source, Offset(lens, n));
    if n > 0 {
      LocatedTokensReassemble(source, lens, n - 1);
      var a, b := Offset(lens, n - 1), Offset(lens, n);
      CharIndexMonotone(source, a, b);
      var ca, cb := CharIndex(source, a).value, CharIndex(source, b).value;
      var token := LocatedToken(source, lens, n - 1);
      TextSnoc(LocatedPrefix(source, lens, n - 1), token);
      assert token.content == source[ca..cb];
      PrefixConcat(source, ca, cb);
    }
  }

  /** Concatenating all tokens reproduces the source. */
  lemma LocatedTokensCoverSource(source: seq<char>, lens: seq<nat>)
    requires IsTokenization(source, lens)
    ensures Text(LocatedTokens(source, lens)) == source
  {
    LocatedTokensReassemble(source, lens, |lens|);
    CharIndexComplete(source, |source|);
    assert source[..|source|] == source;
  }

  /** Line and column of a token at byte offset `location`. */
  function LineColumnOf(source: seq<char>, t: TokenWithLocation): TokenWithLineColumn
    requires CharIndex(source, t.location).Some?
  {
    var before := BytePrefix(source, t.location);
    TokenWithLineColumn(t.content, CountLines(before), CalculateColumn(before))
  }

  function LineColumnTokens(source: seq<char>, tokens: seq<TokenWithLocation>): (out: seq<TokenWithLineColumn>)
    requires forall t :: t in tokens ==> CharIndex(source, t.location).Some?
    ensures |out| == |tokens|
  {
    if tokens == [] then []
    else
      var init, last := tokens[..|tokens| - 1], tokens[|tokens| - 1];
      assert forall t :: t in init ==> t in tokens;
      LineColumnTokens(source, init) + [LineColumnOf(source, last)]
  }

  /** Output token `i` is input token `i` with the line and column of the
      source prefix before it. */
  lemma {:induction false} LineColumnTokensAt(source: seq<char>, tokens: seq<TokenWithLocation>, i: nat)
    requires forall t :: t in tokens ==> CharIndex(source, t.location).Some?
    requires i < |tokens|
    ensures LineColumnTokens(source, tokens)[i] == LineColumnOf(source, tokens[i])
  {
    var init := tokens[..|tokens| - 1];
    assert forall t :: t in init ==> t in tokens;
    var out := LineColumnTokens(source, tokens);
    assert out == LineColumnTokens(source, init) + [LineColumnOf(source, tokens[|tokens| - 1])];
    if i < |init| {
      LineColumnTokensAt(source, init, i);
      assert out[i] == LineColumnTokens(source, init)[i];
    }
  }

  /** `tokens_with_location_to_tokens_with_line_and_column`: one output token
      per input token, in order, with the same content. */
  method TokensWithLocationToTokensWithLineAndColumn(source: seq<char>, tokensIn: seq<TokenWithLocation>)
    returns (tokensOut: seq<TokenWithLineColumn>)
    requires forall t :: t in tokensIn ==> CharIndex(source, t.location).Some?
    ensures tokensOut == LineColumnTokens(source, tokensIn)
  {
    tokensOut := [];
    for i := 0 to |tokensIn|
      invariant tokensOut == LineColumnTokens(source, tokensIn[..i])
    {
      var token := tokensIn[i];
      assert token in tokensIn;
      assert tokensIn[..i + 1][..i] == tokensIn[..i];
      var before := BytePrefix(source, token.location);
      tokensOut := tokensOut + [TokenWithLineColumn(token.content, CountLines(before), CalculateColumn(before))];
    }
    assert tokensIn[..|tokensIn|] == tokensIn;
  }

  /** Every token's line and column are those of its first scalar: the
      position a scalar-by-scalar scan from line 1, column 0 reaches after
      reading all the tokens before it. */
  lemma TokenPositionIsScanPosition(source: seq<char>, lens: seq<nat>, i: nat)
    requires IsTokenization(source, lens)
    requires i < |lens|
    ensures var located := LocatedTokens(source, lens);
            var t := LineColumnTokens(source, located)[i];
            t.content == located[i].content &&
            Position(t.line, t.column) == Advance(Position(1, 0), Text(located[..i]))
  {
    var located := LocatedTokens(source, lens);
    LocatedPrefixAt(source, lens, |lens|, i);
    LineColumnTokensAt(source, located, i);
    LocatedTokensReassemble(source, lens, i);
    ScannerAgrees(Text(LocatedPrefix(source, lens, i)));
  }
}
