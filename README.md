# Developer comments and checkable chunks of cargo-spellcheck, in Dafny

This project models two parts of cargo-spellcheck and proves properties of the model.

The first part is the developer-comment pipeline of `src/documentation/developer.rs`. It takes a Rust source text and returns literal sets:
- it cuts the source into tokens using the byte lengths the lexer reports;
- it gives each token the 1-indexed line and the 0-indexed scalar column of its first scalar;
- it classifies each token as a developer block comment, a developer line comment or something else, and keeps only the developer comments;
- it builds one literal per line comment and groups literals on consecutive lines into literal sets. As written, this loop drops a set whenever the next comment is not on the following line, so only the last run of line comments reaches the result (see "## Findings");
- it builds one literal set per block comment, with a literal per line of the comment.

The pipeline is modelled twice. `Extraction.ExtractDeveloperComments` follows the code as written. `Extraction.ExtractDeveloperCommentsCorrected` keeps every run of line comments.

The second part is `CheckableChunk` from `src/documentation/chunk.rs`: rendered content plus an insertion-ordered map from byte ranges of the content to source spans. It includes `find_spans`, which maps a range of the content back to source spans, and the conversion of a file's clusters into chunks.

Modules, one file each:
- `Basics` (`basics.dfy`): `Option`, `Result`, `Range`, `Position`, `Span`.
- `Utf8Text` (`utf8_text.dfy`): UTF-8 byte lengths of scalar sequences, and byte offsets turned into scalar indices. This is how `&source[a..b]` on a `&str` is modelled.
- `Coordinates` (`coordinates.dfy`): `count_lines`, `calculate_column` and `str::split("\n")`, with an independent scalar-by-scalar scanner as their reference.
- `Tokens` (`tokens.dfy`): `source_to_tokens_with_location` and `tokens_with_location_to_tokens_with_line_and_column`.
- `Classification` (`classification.dfy`): the two regular expressions as predicates, `TokenType`, `TokenWithType::from`, the map over tokens and `retain_only_developer_comments`.
- `Literals` (`literals.dfy`): what the pipeline assumes of `TrimmedLiteral` and `LiteralSet`. Both are defined in files that are not part of this model.
- `DeveloperComments` (`developer_comments.dfy`): literal construction and line-comment clustering.
- `Extraction` (`extraction.dfy`): `extract_developer_comments`, as written and corrected.
- `Chunk` (`chunk.dfy`): `CheckableChunk`, `IndexMap` insertion, `find_spans`, and `From<Clusters>`.

Each loop in the source is a method with a `for` or `while` loop. Its postcondition ties the result to a specification function, and lemmas about those functions state what the source promises. Functions model the pure parts: the regex tests, the map, the filters and `calculate_column`.

Some behaviour of the code is easy to misread:
- One might expect `find_spans(2..9)` on the mapping `{0..5 -> L1C2-L1C6, 6..11 -> L2C0-L2C4}` to cut the second entry to `6..9 -> L2C0-L2C2`. The code keeps `6..11 -> L2C0-L2C4` whole. Once `active` is set, every later entry takes the `else if active` branch, and the branch that cuts at the query end is never reached (`Chunk.ExampleQueryKeepsSecondEntryWhole`).
- The line-comment regex `^//([^[/|!]].*)$` also rejects `//|`, because `|` is inside the character class.
- The regex's negated class also matches a newline at the third position.
- Retention keeps `/** ... */` and `/*! ... */` blocks, because the block regex matches them (`Classification.DocCommentsClassified`).

`find_spans` also panics when a query ends exactly at the start of an entry it does not otherwise reach (`Chunk.QueryEndingAtEntryStartPanics`):
- Take a query whose start lies in a gap between mapping entries and whose end equals the start of the next entry, for example `5..6` on the mapping above.
- That entry yields the empty fragment `6..6`. Its end column becomes one less than its start column, and the end-column subtraction underflows.

## Model

| member | source | states |
|---|---|---|
| Coordinates.CountLines | src/documentation/developer.rs:195-197 | the line is at least 1, and it is 1 exactly when the prefix holds no newline |
| Coordinates.CalculateColumn | src/documentation/developer.rs:201-206 | the column never exceeds the prefix's length; `ColumnMeaning` says which scalars it counts |
| Coordinates.NewlineCountZero | src/documentation/developer.rs:195-197 | a text counts no newline exactly when it contains none |
| Coordinates.CountLinesAppend | src/documentation/developer.rs:195-197 | reading `b` after `a` moves the line down by the number of newlines in `b` |
| Coordinates.LastNewlineMeaning | src/documentation/developer.rs:201-206 | `rfind('\n')` finds a position exactly when the text has a newline; that position holds a newline and no newline follows it |
| Coordinates.ColumnMeaning | src/documentation/developer.rs:199-206 | the column is the number of scalars after the last newline: none of them is a newline, and the scalar before them is one |
| Coordinates.ColumnUnique | src/documentation/developer.rs:199-206 | those facts determine the column uniquely |
| Coordinates.ColumnAppend | src/documentation/developer.rs:199-206 | after appending `b`, the column restarts if `b` has a newline and otherwise grows by `|b|` |
| Coordinates.AdvanceLine | src/documentation/developer.rs:193-197 | a scalar-by-scalar scanner moves down one line per newline |
| Coordinates.AdvanceColumn | src/documentation/developer.rs:199-206 | the scanner's column equals `calculate_column` after a newline, and otherwise grows by the scalars read |
| Coordinates.ScannerAgrees | src/documentation/developer.rs:193-206 | `(count_lines(s), calculate_column(s))` is exactly the position a scan from line 1, column 0 reaches after `s` |
| Coordinates.NewlineCountAppend | src/documentation/developer.rs:195-197 | newline counts add up over concatenation |
| Coordinates.Split | src/documentation/developer.rs:233-234 | `split("\n")` gives `count_lines` pieces, none containing a newline |
| Coordinates.JoinSplit | src/documentation/developer.rs:233-234 | joining the pieces of a split with newlines gives the text back |
| Coordinates.SplitJoin | src/documentation/developer.rs:233-234 | splitting a join of newline-free pieces gives the pieces back |
| Coordinates.SplitAfterNewline | src/documentation/developer.rs:233-234 | splitting `a + "\n" + b`, with `b` newline-free, gives the pieces of `a` followed by `b` |
| Coordinates.JoinFirst | src/documentation/developer.rs:246-253 | the first piece is a prefix of the text, followed by a newline when there are more pieces |
| Coordinates.JoinLast | src/documentation/developer.rs:261-267 | the last piece is a suffix of the text, preceded by a newline when there are more pieces |
| Utf8Text.ByteLen | src/documentation/developer.rs:163-176 | the byte length of a text lies between its scalar count and four times that count |
| Utf8Text.CharIndexSound | src/documentation/developer.rs:185-187 | the scalar prefix found for a byte offset is exactly that many bytes long |
| Utf8Text.CharIndexComplete | src/documentation/developer.rs:185-187 | every scalar boundary is found as a byte offset |
| Utf8Text.CharIndexMonotone | src/documentation/developer.rs:166-171 | larger byte offsets give larger scalar indices |
| Utf8Text.ByteSliceLen | src/documentation/developer.rs:166-171 | `source[a..b]` is `b - a` bytes long |
| Utf8Text.BytePrefixLen | src/documentation/developer.rs:185-187 | `source[..b]` is `b` bytes long |
| Tokens.SourceToTokensWithLocation | src/documentation/developer.rs:162-176 | the loop with the running `location` builds exactly the located tokens: token `i` starts at the sum of the first `i` lengths |
| Tokens.LocatedPrefixAt | src/documentation/developer.rs:162-176 | token `i` starts at byte offset `Offset(lens, i)`, and prefixes agree |
| Tokens.LocatedTokenLen | src/documentation/developer.rs:166-171 | each token is as many bytes long as the lexer reported |
| Tokens.LocatedTokensReassemble | src/documentation/developer.rs:162-176 | the first `n` tokens spell out the source up to the byte offset of token `n` |
| Tokens.LocatedTokensCoverSource | src/documentation/developer.rs:162-176 | concatenating all tokens reproduces the source |
| Tokens.TokensWithLocationToTokensWithLineAndColumn | src/documentation/developer.rs:178-191 | one output token per input token, in order, each with the line and column of the source prefix before it |
| Tokens.LineColumnTokensAt | src/documentation/developer.rs:178-191 | output token `i` is input token `i` with `count_lines` and `calculate_column` of `source[..location]` |
| Tokens.TokenPositionIsScanPosition | src/documentation/developer.rs:178-206 | every token's line and column are where a scan reaches after reading all the tokens before it, and its content is unchanged |
| Classification.Classify | src/documentation/developer.rs:28-33 | the block kind exactly when the block regex matches; the line kind exactly when only the line regex matches; otherwise `Other` |
| Classification.TokenWithTypeFrom | src/documentation/developer.rs:120-133 | the kind follows the regexes, block first, and content, line and column are carried over |
| Classification.ClassifyTokens | src/documentation/developer.rs:208-212 | one typed token per input token, each `TokenWithType::from` of its input |
| Classification.OfKind | src/documentation/developer.rs:144-147 | the filter keeps no more tokens than it is given |
| Classification.OfKindMembers | src/documentation/developer.rs:144-147 | the filter keeps exactly the tokens of the given kind |
| Classification.OfKindDistributes | src/documentation/developer.rs:144-147 | the filter distributes over concatenation, so it keeps order and multiplicity |
| Classification.OfKindSingleton | src/documentation/developer.rs:144-147 | a single token is kept exactly when it has the kind |
| Classification.RetainOnlyDeveloperComments | src/documentation/developer.rs:214-219 | exactly the tokens whose kind is not `Other` are kept |
| Classification.RetainDistributes | src/documentation/developer.rs:214-219 | the filter distributes over concatenation, so it keeps the order |
| Classification.RetainExtremes | src/documentation/developer.rs:214-219 | all-developer input is kept unchanged, and input without developer comments is emptied |
| Classification.TokenType.Pre | src/documentation/developer.rs:80-86 | the prefix is empty exactly for `Other`, and two scalars starting with `/` for a comment |
| Classification.TokenType.Post | src/documentation/developer.rs:88-94 | the postfix is non-empty exactly for a block comment, where it is two scalars ending in `/` |
| Classification.TokenType.PreInChars | src/documentation/developer.rs:96-98 | the prefix is 2 scalars long for a comment and 0 for `Other` |
| Classification.TokenType.PostInChars | src/documentation/developer.rs:100-102 | the postfix is 2 scalars long for a block comment and 0 otherwise |
| Classification.ClassifiedDelimiters | src/documentation/developer.rs:78-102 | every classified token starts with its kind's `pre`, ends with its `post`, and is long enough for both |
| Classification.DocCommentsClassified | src/documentation/developer.rs:28-33 | `///`, `//!`, `//|` and a bare `//` are not line comments; `/** */` is a block comment; `//` plus other text is a line comment |
| Literals.TrimmedLiteralFrom | src/documentation/developer.rs:285-292 | assumed: `TrimmedLiteral::from` fails exactly when `pre + post` exceeds the raw length, and otherwise keeps its arguments |
| Literals.AddAdjacent | src/documentation/developer.rs:311-319 | assumed: `add_adjacent` accepts a literal exactly on the line after the set's last, and otherwise hands it back unchanged |
| Literals.LiteralSetFrom | src/documentation/developer.rs:311-316 | assumed: `LiteralSet::from` gives a valid set holding just the literal |
| Literals.TrimmedLiteral.AsStr | src/documentation/developer.rs:285-292 | assumed: the text between the delimiters, which with them gives the raw line back |
| Literals.TrimmedLiteral.LiteralSpan | src/documentation/developer.rs:285-292 | assumed: the span starts `pre` columns in and is as wide as the text |
| DeveloperComments.LiteralFromLineComment | src/documentation/developer.rs:284-292 | a literal exactly for a line-comment token of at least two scalars, holding the whole token; `WrongKind` for any other kind |
| DeveloperComments.LineCommentLiteral | src/documentation/developer.rs:284-292 | a classified line comment always gives a literal, trimmed of `//`, whose span runs from two columns after the token to its last scalar |
| DeveloperComments.BlockCommentSet | src/documentation/developer.rs:221-281 | the error cases: `WrongKind` for a token of another kind, `ImproperlyDelimited` for a block token the regex rejects |
| DeveloperComments.LiteralSetFromBlockComment | src/documentation/developer.rs:221-281 | the method with its `while let` loop returns exactly what the function `BlockCommentSet` gives, error cases included |
| DeveloperComments.ContinuationLiteralAt | src/documentation/developer.rs:261-273 | the loop's `k`-th literal holds line `k` of the rest, `k + 1` lines down, at column 0, with postfix 2 exactly when the line ends in `*/` |
| DeveloperComments.AddLinesOk | src/documentation/developer.rs:261-278 | once the set ends on the current line, the loop accepts every remaining line |
| DeveloperComments.FirstLineHoldsPrefix | src/documentation/developer.rs:246-253 | the first line of a multi-line block comment is long enough to trim the `/*` |
| DeveloperComments.BlockCommentSetOk | src/documentation/developer.rs:221-281 | a delimited block comment always gives a set: one literal trimmed both sides, or the first line without postfix followed by the continuation literals |
| DeveloperComments.LastLineEndsComment | src/documentation/developer.rs:261-267 | the last line of a multi-line block comment always ends in `*/` |
| DeveloperComments.BlockCommentLiterals | src/documentation/developer.rs:221-281 | literal `i` of a block comment: line `token.line + i`, the token's column only for the first, prefix 2 only on the first, postfix 2 on the last |
| DeveloperComments.BlockCommentCovered | src/documentation/developer.rs:233-281 | the raw lines of the literals, joined with newlines, give the comment back |
| DeveloperComments.LineLiteralsStep | src/documentation/developer.rs:299-310 | one more token adds its literal exactly when it is a line comment whose literal can be built |
| DeveloperComments.ClusteringStep | src/documentation/developer.rs:311-319 | clustering one more literal is one more pop/push step, in both the intended and the as-written version |
| DeveloperComments.PushLiteral | src/documentation/developer.rs:311-319 | the intended pop/push step: an adjacent literal grows the last set; otherwise the last set is pushed back and a new set follows |
| DeveloperComments.PushLiteralAsWritten | src/documentation/developer.rs:311-319 | the step as written: on refusal only the new set is pushed |
| DeveloperComments.LiteralSetsFromLineComments | src/documentation/developer.rs:294-322 | the loop, with the popped set kept, gives `Clustered` of the line literals of the tokens |
| DeveloperComments.LiteralSetsFromLineCommentsAsWritten | src/documentation/developer.rs:294-322 | the loop as written gives `ClusteredAsWritten` of the line literals |
| DeveloperComments.FlattenPush | src/documentation/developer.rs:311-319 | corrected: a step appends its literal to the concatenation of all sets |
| DeveloperComments.PushKeepsClustering | src/documentation/developer.rs:311-319 | corrected: a step keeps the sets non-empty, each on consecutive lines, and maximal |
| DeveloperComments.ClusteredKeepsLiterals | src/documentation/developer.rs:294-322 | corrected: every literal lands in exactly one set, in order |
| DeveloperComments.ClusteredIsClustering | src/documentation/developer.rs:294-322 | corrected: the sets are maximal runs of literals on consecutive lines |
| DeveloperComments.AsWrittenKeepsOnlyLastCluster | src/documentation/developer.rs:311-319 | as written, only the last maximal run survives |
| DeveloperComments.AsWrittenLosesFirstComment | src/documentation/developer.rs:847-871 | as written, the test's two non-adjacent comments give one set holding only the second |
| DeveloperComments.CorrectedSeparatesComments | src/documentation/developer.rs:847-871 | the corrected loop gives the test's two sets, first comment first |
| Extraction.PushLineCommentSets | src/documentation/developer.rs:148-150 | the loop pushes every line-comment set, in order |
| Extraction.PushBlockCommentSets | src/documentation/developer.rs:151-158 | the loop pushes one set per block comment whose set can be built, in order |
| Extraction.CommentSetsFromTokens | src/documentation/developer.rs:142-159 | as written: the line-comment sets of the as-written clustering come first, then the block-comment sets |
| Extraction.CommentSetsFromTokensCorrected | src/documentation/developer.rs:142-159 | corrected: the same two loops over the clustering that keeps every run |
| Extraction.DeveloperCommentTokens | src/documentation/developer.rs:139-141 | the lexed, located, classified and retained tokens are `DeveloperTokens` of the source |
| Extraction.ExtractDeveloperComments | src/documentation/developer.rs:136-160 | as written: the whole pipeline returns `DeveloperCommentSets` of the source and its token lengths |
| Extraction.ExtractDeveloperCommentsCorrected | src/documentation/developer.rs:136-160 | corrected: the pipeline returns `DeveloperCommentSetsCorrected` |
| Extraction.ExtractionAsWritten | src/documentation/developer.rs:136-160 | as written, the result is the last maximal run of line comments, if any, then one set per block comment that yields one; every earlier line comment is lost |
| Extraction.DeveloperTokensClassified | src/documentation/developer.rs:139-141 | every retained token carries its content's kind, which is not `Other` |
| Extraction.LineLiteralsAll | src/documentation/developer.rs:284-310 | line comments of two or more scalars each give their literal, in order |
| Extraction.BlockSetsAll | src/documentation/developer.rs:151-158 | delimited block comments each give their set, in order |
| Extraction.BlockSetsStep | src/documentation/developer.rs:151-158 | one more block comment pushes its set exactly when one can be built |
| Extraction.CorrectedExtractionComplete | src/documentation/developer.rs:136-160 | corrected: no developer comment is lost: every line comment's literal, clustered into maximal runs, then exactly one set per block comment, in source order |
| Chunk.CheckableChunk.AsStr | src/documentation/chunk.rs:100-102 | `as_str` gives the content, scalar for scalar |
| Chunk.FromString | src/documentation/chunk.rs:48-53 | the chunk's text is the given content and its mapping the given map |
| Chunk.FromStr | src/documentation/chunk.rs:43-46 | the same for a borrowed string |
| Chunk.FromStringRoundTrip | src/documentation/chunk.rs:43-53 | `from_string` and `from_str` store content and mapping unchanged, and `as_str` gives the content back |
| Chunk.KeyIndex | src/documentation/chunk.rs:97 | the position found holds the key, and no position holds it when none is found |
| Chunk.InsertSemantics | src/documentation/chunk.rs:97 | `IndexMap::insert`: the key maps to the new value, other keys are unchanged, keys stay distinct, and a new key goes last |
| Chunk.CollectDistinct | src/documentation/chunk.rs:97 | the collected map has distinct keys |
| Chunk.CollectIdentity | src/documentation/chunk.rs:97 | pairs with distinct keys are collected unchanged |
| Chunk.Fragment | src/documentation/chunk.rs:70-84 | a fragment exactly for an entry holding the start, an entry reached while active, or one holding the end; it lies inside the entry; taken whole while active; inside the query otherwise |
| Chunk.ActiveAfterMeaning | src/documentation/chunk.rs:66-80 | `active` is set exactly when an entry already visited holds the query start, and is never cleared |
| Chunk.AdjustKeepsWidth | src/documentation/chunk.rs:89-92 | lines are unchanged, a span as wide as its range becomes as wide as its fragment, and an uncut entry keeps its span |
| Chunk.EmittedStep | src/documentation/chunk.rs:67-97 | visiting an entry appends its adjusted fragment exactly when it has one |
| Chunk.SelectFragment | src/documentation/chunk.rs:70-84 | the closure's branches pick `Fragment` and leave `active` set exactly when it was set or the entry holds the start |
| Chunk.FindSpans | src/documentation/chunk.rs:64-98 | the scan, with the source's three assertions checked, gives the collected adjusted fragments in mapping order |
| Chunk.EmittedFromEntries | src/documentation/chunk.rs:67-97 | the output follows the mapping's order, each pair is a fragment inside its entry's range, and its span is that entry's span adjusted |
| Chunk.NothingBeforeStart | src/documentation/chunk.rs:70-84 | on a well-formed mapping, nothing is emitted before the entry holding the query start |
| Chunk.EmittedFromStart | src/documentation/chunk.rs:70-84 | from that entry on: its clipped fragment, then every later entry whole |
| Chunk.StartInEntryNoPanic | src/documentation/chunk.rs:89-93 | on a well-formed mapping, a non-empty query starting inside an entry passes every assertion |
| Chunk.ClippedDistinct | src/documentation/chunk.rs:97 | the clipped fragment and the later entries have distinct ranges |
| Chunk.StartInEntry | src/documentation/chunk.rs:64-98 | such a query yields the entry's fragment from the query start to the query end or the entry's end, then every later entry unchanged |
| Chunk.FullQueryGivesMapping | src/documentation/chunk.rs:64-98 | a query over the whole content of a mapping that starts at byte 0 gives the mapping back |
| Chunk.GapStart | src/documentation/chunk.rs:77-84 | a query starting in a gap never activates the scan and yields only the entry holding the end, cut at the end, or nothing |
| Chunk.ExampleQueryNoPanic | src/documentation/chunk.rs:89-93 | the example mapping is well formed and the query 2..9 passes every assertion |
| Chunk.ExampleQueryKeepsSecondEntryWhole | src/documentation/chunk.rs:70-78 | the query 2..9 yields `2..5 -> L1C4-L1C6` and the whole `6..11 -> L2C0-L2C4` |
| Chunk.QueryEndingAtEntryStartPanics | src/documentation/chunk.rs:79-93 | the query 5..6 gets the empty fragment 6..6 and fails an assertion |
| Chunk.ChunksFromClusters | src/documentation/chunk.rs:105-114 | one chunk per literal set, in the same order |
| Chunk.ChunksAppend | src/documentation/chunk.rs:105-114 | the conversion distributes over concatenated clusters |

## Left out

- `src/config/search_dirs.rs` is not part of this model. It is configuration plumbing: deserialization, a process-wide constant, per-OS defaults and a home-directory lookup.
- The lexer `ra_ap_syntax::tokenize` is foreign code. It is replaced by the sequence of token byte lengths it reports, with the precondition `IsTokenization`: lengths are positive, each running total falls on a scalar boundary, and the lengths cover the source.
- The `regex` engine is replaced by the predicates `IsBlockCommentText` and `IsLineCommentText`.
- Logging (`log::trace!`), `Display for TokenType` and the error-message strings are left out. Errors keep only their reason (`Failure`).
- `TrimmedLiteral`, `LiteralSet`, `LiteralSet::into_chunk`, `PlainOverlay`/`erase_markdown` and `Clusters` live in files that are not part of this model.
  - `Literals` states as assumptions the behaviour the pipeline relies on.
  - `into_chunk` is a function parameter of `ChunksFromClusters`.
  - `erase_markdown` and `from_literalset` are not modelled.
- `Hash for CheckableChunk` only feeds a hasher and is not modelled. `ContentOrigin` is a tag around a path and is not modelled.
- `LiteralSet::add_adjacent` mutates its set in place. The model returns the grown set as a value.
- Vectors and `IndexMap`s are sequences that the methods reassign. Ownership and aliasing are not modelled.
- Integers are unbounded.
  - `usize` overflow of `location + length`, `line_number += 1` and `span.start.column +=` is not modelled.
  - The one subtraction that can underflow, the end column in `find_spans`, is modelled by letting `Position.column` be an `int` and counting a negative result as a failed assertion (`EntryPanics`). This is the debug-build behaviour.
- Chunk.FindSpans: the source's assertions are preconditions (`NoPanic`), not modelled as panics. `StartInEntryNoPanic` and `QueryEndingAtEntryStartPanics` say when they hold and when they fail.
- Chunk.WellFormed: the source shifts scalar columns by byte differences, which is exact only for ASCII text. The model does not relate ranges to the bytes of the content. It takes "a span as wide as its range" as an assumption of `WellFormed` and proves nothing about multibyte content.
- Multi-line spans in `find_spans` are unsupported by the source and count as a failed assertion.
- OfKind: its own contract only bounds the length of the result. `OfKindMembers`, `OfKindDistributes` and `OfKindSingleton` state which tokens it keeps and in what order, because putting membership into the function's contract made every proof that uses the filter too expensive.
- CalculateColumn: its own contract only bounds the column. `ColumnMeaning` and `ColumnUnique` state which scalars it counts.
- BlockCommentSet: its own contract states only the two error cases. `BlockCommentSetOk` and `BlockCommentLiterals` state what a delimited block comment yields.

## Findings

| source | as written | input that shows it | evidently intended | confidence | as-written member | corrected member |
|---|---|---|---|---|---|---|
| src/documentation/developer.rs:311-319 | when `add_adjacent` refuses a literal, the set just popped is dropped and only a new set is pushed | the unit test at src/documentation/developer.rs:847-871: comments `// line comment 1 ` on line 1 and `// line comment 2 ` on line 3 give one set holding only the second comment | the popped set is pushed back before the new set, so the test gets its two sets | not executed; follows from the stated `add_adjacent` behaviour | DeveloperComments.AsWrittenLosesFirstComment | DeveloperComments.CorrectedSeparatesComments |
