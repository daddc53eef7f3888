/** The coordinate index of src/documentation/developer.rs: the 1-indexed line
    and the 0-indexed scalar column reached after a source prefix
    (`count_lines`, `calculate_column`), and `str::split("\n")`, which the
    block-comment literal construction relies on. */
module Coordinates {
  import opened Basics

  /** Number of '\n' scalars in `s`. */
  function NewlineCount(s: seq<char>): (n: nat)
    ensures n <= |s|
  {
    if s == [] then 0 else (if s[0] == '\n' then 1 else 0) + NewlineCount(s[1..])
  }

  /** A text has no newline exactly when it counts none. */
  lemma {:induction false} NewlineCountZero(s: seq<char>)
    ensures NewlineCount(s) == 0 <==> '\n' !in s
  {
    if s != [] {
      assert s == [s[0]] + s[1..];
      NewlineCountZero(s[1..]);
    }
  }

  lemma {:induction false} NewlineCountAppend(a: seq<char>, b: seq<char>)
    ensures NewlineCount(a + b) == NewlineCount(a) + NewlineCount(b)
  {
    if a == [] {
      assert a + b == b;
    } else {
      assert (a + b)[1..] == a[1..] + b;
      NewlineCountAppend(a[1..], b);
    }
  }

  /** `count_lines`: the 1-indexed line on which the scalar just after
      `fragment` lies; the number of newlines plus one. */
  function CountLines(fragment: seq<char>): (line: nat)
    ensures line >= 1
    ensures line == 1 <==> '\n' !in fragment
  {
    NewlineCountZero(fragment);
    NewlineCount(fragment) + 1
  }

  /** Reading `b` after `a` moves down one line per newline of `b`. */
  lemma CountLinesAppend(a: seq<char>, b: seq<char>)
    ensures CountLines(a + b) == CountLines(a) + NewlineCount(b)
  {
    NewlineCountAppend(a, b);
  }

  /** `str::rfind('\n')`, as a scalar index: the position of the last newline. */
  function LastNewline(s: seq<char>): (r: Option<nat>)
    ensures r.Some? ==> r.value < |s|
  {
    if s == [] then None
    else if s[|s| - 1] == '\n' then Some(|s| - 1)
    else LastNewline(s[..|s| - 1])
  }

  /** `LastNewline` finds a newline exactly when there is one, and no newline
      follows the one it finds. */
  lemma {:induction false} LastNewlineMeaning(s: seq<char>)
    ensures LastNewline(s).None? <==> '\n' !in s
    ensures LastNewline(s).Some? ==> s[LastNewline(s).value] == '\n' && '\n' !in s[LastNewline(s).value + 1..]
  {
    if s != [] && s[|s| - 1] != '\n' {
      var init := s[..|s| - 1];
      assert s == init + [s[|s| - 1]];
      LastNewlineMeaning(init);
      if LastNewline(init).Some? {
        var p := LastNewline(init).value;
        assert s[p + 1..] == init[p + 1..] + [s[|s| - 1]];
      }
    }
  }

  /** `calculate_column`: the scalar count of `fragment` minus the scalar count
      up to its last newline minus one, or the whole scalar count when there
      is no newline. Its meaning: the number of scalars after the last newline. */
  function CalculateColumn(fragment: seq<char>): (column: nat)
    ensures column <= |fragment|
  {
    match LastNewline(fragment)
    case Some(p) => |fragment| - |fragment[..p]| - 1
    case None => |fragment|
  }

  /** The column is the number of scalars after the last newline: none of
      them is a newline, and the scalar before them is one. */
  lemma ColumnMeaning(fragment: seq<char>)
    ensures var column := CalculateColumn(fragment);
            && '\n' !in fragment[|fragment| - column..]
            && (column < |fragment| ==> fragment[|fragment| - column - 1] == '\n')
  {
    LastNewlineMeaning(fragment);
    if LastNewline(fragment).None? {
      assert fragment[0..] == fragment;
    }
  }

  /** The three facts in `CalculateColumn`'s contract determine the column. */
  lemma ColumnUnique(s: seq<char>, c: nat)
    requires c <= |s|
    requires '\n' !in s[|s| - c..]
    requires c < |s| ==> s[|s| - c - 1] == '\n'
    ensures CalculateColumn(s) == c
  {
    var c0 := CalculateColumn(s);
    ColumnMeaning(s);
    assert forall k | |s| - c <= k < |s| :: s[k] == s[|s| - c..][k - (|s| - c)];
    assert forall k | |s| - c0 <= k < |s| :: s[k] == s[|s| - c0..][k - (|s| - c0)];
  }

  /** Reading `b` after `a`: the column restarts after a newline of `b`,
      otherwise it grows by the scalar count of `b`. */
  lemma ColumnAppend(a: seq<char>, b: seq<char>)
    ensures CalculateColumn(a + b) == if '\n' in b then CalculateColumn(b) else CalculateColumn(a) + |b|
  {
    var s := a + b;
    ColumnMeaning(a);
    ColumnMeaning(b);
    if '\n' in b {
      var c := CalculateColumn(b);
      assert s[|s| - c..] == b[|b| - c..];
      assert b[0..] == b;
      assert s[|s| - c - 1] == b[|b| - c - 1];
      ColumnUnique(s, c);
    } else {
      var c := CalculateColumn(a) + |b|;
      assert s[|s| - c..] == a[|a| - CalculateColumn(a)..] + b;
      if c < |s| {
        assert s[|s| - c - 1] == a[|a| - CalculateColumn(a) - 1];
      }
      ColumnUnique(s, c);
    }
  }

  /** An independent reference for the coordinate index: the position a scanner
      reaches from `p` by reading `s` one scalar at a time. */
  function Advance(p: Position, s: seq<char>): Position
    decreases |s|
  {
    if s == [] then p
    else if s[0] == '\n' then Advance(Position(p.line + 1, 0), s[1..])
    else Advance(Position(p.line, p.column + 1), s[1..])
  }

  lemma {:induction false} AdvanceLine(p: Position, s: seq<char>)
    ensures Advance(p, s).line == p.line + NewlineCount(s)
    decreases |s|
  {
    if s != [] {
      if s[0] == '\n' {
        AdvanceLine(Position(p.line + 1, 0), s[1..]);
      } else {
        AdvanceLine(Position(p.line, p.column + 1), s[1..]);
      }
    }
  }

  lemma {:induction false} AdvanceColumn(p: Position, s: seq<char>)
    ensures Advance(p, s).column == if '\n' in s then CalculateColumn(s) else p.column + |s|
    decreases |s|
  {
    if s != [] {
      var rest := s[1..];
      assert s == [s[0]] + rest;
      assert ('\n' in s) == (s[0] == '\n' || '\n' in rest);
      ColumnAppend([s[0]], rest);
      if s[0] == '\n' {
        assert [s[0]][1..] == [];
        ColumnUnique([s[0]], 0);
        AdvanceColumn(Position(p.line + 1, 0), rest);
      } else {
        assert [s[0]][0..] == [s[0]];
        ColumnUnique([s[0]], 1);
        AdvanceColumn(Position(p.line, p.column + 1), rest);
      }
    }
  }

  /** `count_lines` and `calculate_column` of a prefix are exactly the line and
      column a scalar-by-scalar scan from line 1, column 0 reaches. */
  lemma ScannerAgrees(s: seq<char>)
    ensures Advance(Position(1, 0), s) == Position(CountLines(s), CalculateColumn(s))
  {
    AdvanceLine(Position(1, 0), s);
    AdvanceColumn(Position(1, 0), s);
    if '\n' !in s {
      assert s[|s| - |s|..] == s;
      ColumnUnique(s, |s|);
    }
  }

  /** `str::split("\n")`: the pieces between newlines, in order; a text with
      `k` newlines has `k + 1` pieces. */
  function Split(s: seq<char>): (lines: seq<seq<char>>)
    ensures |lines| == CountLines(s)
    ensures forall i :: 0 <= i < |lines| ==> '\n' !in lines[i]
    decreases |s|
  {
    LastNewlineMeaning(s);
    match LastNewline(s)
    case None =>
      NewlineCountZero(s);
      [s]
    case Some(p) =>
      assert s == s[..p] + s[p..];
      assert s[p..] == [s[p]] + s[p + 1..];
      NewlineCountAppend(s[..p], s[p..]);
      NewlineCountZero(s[p + 1..]);
      Split(s[..p]) + [s[p + 1..]]
  }

  /** `slice::join("\n")`. */
  function Join(lines: seq<seq<char>>): seq<char>
    requires |lines| > 0
  {
    if |lines| == 1 then lines[0]
    else Join(lines[..|lines| - 1]) + ['\n'] + lines[|lines| - 1]
  }

  /** Joining the pieces of a split gives the text back. */
  lemma {:induction false} JoinSplit(s: seq<char>)
    ensures Join(Split(s)) == s
    decreases |s|
  {
    var r := LastNewline(s);
    LastNewlineMeaning(s);
    if r.Some? {
      var p := r.value;
      var init, tail := Split(s[..p]), s[p + 1..];
      var lines := init + [tail];
      assert Split(s) == lines;
      assert lines[..|lines| - 1] == init;
      assert Join(lines) == Join(init) + ['\n'] + tail;
      JoinSplit(s[..p]);
      assert s == s[..p] + ['\n'] + tail;
    }
  }

  lemma {:induction false} LastNewlineAt(a: seq<char>, b: seq<char>)
    requires '\n' !in b
    ensures LastNewline(a + ['\n'] + b) == Some(|a|)
    decreases |b|
  {
    var j := a + ['\n'] + b;
    if b != [] {
      var init := b[..|b| - 1];
      assert b == init + [b[|b| - 1]];
      assert j[..|j| - 1] == a + ['\n'] + init;
      LastNewlineAt(a, init);
    }
  }

  lemma SplitAfterNewline(a: seq<char>, b: seq<char>)
    requires '\n' !in b
    ensures Split(a + ['\n'] + b) == Split(a) + [b]
  {
    var j := a + ['\n'] + b;
    LastNewlineAt(a, b);
    assert j[..|a|] == a;
    assert j[|a| + 1..] == b;
  }

  /** Splitting a join of newline-free pieces gives the pieces back. */
  lemma {:induction false} SplitJoin(lines: seq<seq<char>>)
    requires |lines| > 0
    requires forall i :: 0 <= i < |lines| ==> '\n' !in lines[i]
    ensures Split(Join(lines)) == lines
  {
    if |lines| > 1 {
      var init, last := lines[..|lines| - 1], lines[|lines| - 1];
      assert '\n' !in last;
      SplitAfterNewline(Join(init), last);
      SplitJoin(init);
      assert lines == init + [last];
    } else {
      LastNewlineMeaning(lines[0]);
    }
  }

  /** The first piece of a split is the text up to its first newline. */
  lemma {:induction false} JoinFirst(lines: seq<seq<char>>)
    requires |lines| > 0
    ensures lines[0] <= Join(lines)
    ensures |lines| > 1 ==> |lines[0]| < |Join(lines)| && Join(lines)[|lines[0]|] == '\n'
  {
    if |lines| > 1 {
      var init := lines[..|lines| - 1];
      JoinFirst(init);
      assert init[0] == lines[0];
      if |init| == 1 {
        assert Join(lines) == lines[0] + ['\n'] + lines[|lines| - 1];
      }
    }
  }

  /** The last piece of a split is the text after its last newline. */
  lemma JoinLast(lines: seq<seq<char>>)
    requires |lines| > 0
    ensures |lines[|lines| - 1]| <= |Join(lines)|
    ensures Join(lines)[|Join(lines)| - |lines[|lines| - 1]|..] == lines[|lines| - 1]
    ensures |lines| > 1 ==> Join(lines)[|Join(lines)| - |lines[|lines| - 1]| - 1] == '\n'
  {
    if |lines| > 1 {
      var init, last := lines[..|lines| - 1], lines[|lines| - 1];
      assert Join(lines) == (Join(init) + ['\n']) + last;
    }
  }
}
