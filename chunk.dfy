/** `CheckableChunk` of src/documentation/chunk.rs: rendered content with an
    insertion-ordered map from byte ranges of the content to spans of the
    source file, the lookup `find_spans` that maps a range of the content back
    to source spans, and the conversion of a file's clusters into chunks. */
module Chunk {
  import opened Basics
  import opened Literals

  /** An `IndexMap<Range, Span>`: its entries in insertion order. */
  type Mapping = seq<(Range, Span)>

  /** A chunk: rendered content and its source mapping. */
  datatype CheckableChunk = CheckableChunk(content: seq<char>, sourceMapping: Mapping)
  {
    /** `as_str`. */
    function AsStr(): (s: seq<char>)
      ensures |s| == |content| && forall i :: 0 <= i < |s| ==> s[i] == content[i]
    {
      content
    }
  }

  /** `CheckableChunk::from_string`. */
  function FromString(content: seq<char>, sourceMapping: Mapping): (chunk: CheckableChunk)
    ensures chunk.AsStr() == content && chunk.sourceMapping == sourceMapping
  {
    CheckableChunk(content, sourceMapping)
  }

  /** `CheckableChunk::from_str`. */
  function FromStr(content: seq<char>, sourceMapping: Mapping): (chunk: CheckableChunk)
    ensures chunk.AsStr() == content && chunk.sourceMapping == sourceMapping
  {
    FromString(content, sourceMapping)
  }

  /** A chunk built from a string gives that string back, keeps the mapping
      as it was handed over, and both constructors agree. */
  lemma FromStringRoundTrip(content: seq<char>, sourceMapping: Mapping)
    ensures FromString(content, sourceMapping).AsStr() == content
    ensures FromString(content, sourceMapping).sourceMapping == sourceMapping
    ensures FromStr(content, sourceMapping) == FromString(content, sourceMapping)
  {
  }

  // ---------------------------------------------------------------------
  // IndexMap semantics
  // ---------------------------------------------------------------------

  predicate DistinctKeys(m: Mapping)
  {
    forall i, j :: 0 <= i < j < |m| ==> m[i].0 != m[j].0
  }

  /** The position of key `k` among the entries, if it is there. */
  function KeyIndex(m: Mapping, k: Range): (r: Option<nat>)
    ensures r.Some? ==> r.value < |m| && m[r.value].0 == k
    ensures r.None? ==> forall i :: 0 <= i < |m| ==> m[i].0 != k
  {
    if m == [] then None
    else if m[0].0 == k then Some(0)
    else match KeyIndex(m[1..], k)
      case Some(i) => Some(i + 1)
      case None => None
  }

  /** The value stored under `k`. */
  function Lookup(m: Mapping, k: Range): Option<Span>
  {
    match KeyIndex(m, k)
    case Some(i) => Some(m[i].1)
    case None => None
  }

  /** `IndexMap::insert`: a new key goes at the end, an existing key keeps its
      place and takes the new value. */
  function Insert(m: Mapping, k: Range, v: Span): Mapping
  {
    match KeyIndex(m, k)
    case Some(i) => m[i := (k, v)]
    case None => m + [(k, v)]
  }

  /** With distinct keys, the entry found for a key is the only one holding it. */
  lemma KeyIndexUnique(m: Mapping, k: Range, i: nat)
    requires DistinctKeys(m)
    requires i < |m| && m[i].0 == k
    ensures KeyIndex(m, k) == Some(i)
  {
  }

  /** After an insert the key maps to the new value, every other key maps to
      what it mapped to before, the keys stay distinct, and the key order is
      the old order with a new key appended. */
  lemma InsertSemantics(m: Mapping, k: Range, v: Span)
    requires DistinctKeys(m)
    ensures var r := Insert(m, k, v);
            && DistinctKeys(r)
            && Lookup(r, k) == Some(v)
            && (forall k' :: k' != k ==> Lookup(r, k') == Lookup(m, k'))
            && (KeyIndex(m, k).Some? ==> |r| == |m| && forall i :: 0 <= i < |m| ==> r[i].0 == m[i].0)
            && (KeyIndex(m, k).None? ==> r == m + [(k, v)])
  {
    var r := Insert(m, k, v);
    assert DistinctKeys(r);
    var n := if KeyIndex(m, k).Some? then KeyIndex(m, k).value else |m|;
    KeyIndexUnique(r, k, n);
    forall k' | k' != k
      ensures Lookup(r, k') == Lookup(m, k')
    {
      match KeyIndex(m, k')
      case Some(j) =>
        KeyIndexUnique(r, k', j);
      case None =>
        assert forall i :: 0 <= i < |r| ==> r[i].0 != k';
    }
  }

  /** `collect::<IndexMap<_, _>>()`: the pairs inserted one after the other. */
  function Collect(pairs: Mapping): Mapping
  {
    if pairs == [] then []
    else Insert(Collect(pairs[..|pairs| - 1]), pairs[|pairs| - 1].0, pairs[|pairs| - 1].1)
  }

  lemma CollectSnoc(pairs: Mapping, p: (Range, Span))
    ensures Collect(pairs + [p]) == Insert(Collect(pairs), p.0, p.1)
  {
    assert (pairs + [p])[..|pairs|] == pairs;
  }

  /** The collected map has distinct keys. */
  lemma {:induction false} CollectDistinct(pairs: Mapping)
    ensures DistinctKeys(Collect(pairs))
  {
    if pairs != [] {
      var init, last := pairs[..|pairs| - 1], pairs[|pairs| - 1];
      CollectDistinct(init);
      InsertSemantics(Collect(init), last.0, last.1);
    }
  }

  /** Pairs whose keys are already distinct are collected unchanged. */
  lemma {:induction false} CollectIdentity(pairs: Mapping)
    requires DistinctKeys(pairs)
    ensures Collect(pairs) == pairs
  {
    if pairs != [] {
      var init, last := pairs[..|pairs| - 1], pairs[|pairs| - 1];
      assert DistinctKeys(init);
      CollectIdentity(init);
      assert KeyIndex(init, last.0).None?;
      assert init + [last] == pairs;
    }
  }

  // ---------------------------------------------------------------------
  // find_spans
  // ---------------------------------------------------------------------

  /** The part of entry range `r` emitted for the query `q` when the scan
      is `active` before this entry (src/documentation/chunk.rs:70-84): the
      entry holding the query start is cut at the start, and at the end when
      it also holds the last byte; after that every entry is taken whole;
      before that only an entry holding the query end is taken, cut there. */
  function Fragment(r: Range, q: Range, active: bool): (f: Option<Range>)
    ensures f.Some? <==> r.Contains(q.start) || active || r.Contains(q.end)
    ensures f.Some? ==> r.start <= f.value.start && f.value.end <= r.end
    ensures active && !r.Contains(q.start) ==> f == Some(r)
    ensures f.Some? && q.start < q.end && !(active && !r.Contains(q.start)) ==>
              q.start <= f.value.start <= f.value.end <= q.end
  {
    if r.Contains(q.start) then
      if q.end > 0 && r.Contains(q.end - 1) then Some(Range(q.start, q.end))
      else Some(Range(q.start, r.end))
    else if active then Some(r)
    else if r.Contains(q.end) then Some(Range(r.start, q.end))
    else None
  }

  /** Whether `active` is set once the first `n` entries have been visited. */
  function ActiveAfter(m: Mapping, q: Range, n: nat): bool
    requires n <= |m|
  {
    n > 0 && (ActiveAfter(m, q, n - 1) || m[n - 1].0.Contains(q.start))
  }

  /** `active` is set exactly when an entry already visited holds the query
      start; once set it is never cleared. */
  lemma {:induction false} ActiveAfterMeaning(m: Mapping, q: Range, n: nat)
    requires n <= |m|
    ensures ActiveAfter(m, q, n) <==> exists i :: 0 <= i < n && m[i].0.Contains(q.start)
  {
    if n > 0 {
      ActiveAfterMeaning(m, q, n - 1);
    }
  }

  /** The span emitted for fragment `f` of the entry `(r, s)`
      (src/documentation/chunk.rs:90-92): the start column moves right by
      what was cut at the front, the end column left by what was cut at the
      back. */
  function Adjust(r: Range, s: Span, f: Range): Span
  {
    Span(Position(s.start.line, s.start.column + (f.start - r.start)),
         Position(s.end.line, s.end.column - (r.end - f.end)))
  }

  /** A span as wide as its range stays as wide as the fragment cut from it,
      on the same lines; an uncut entry keeps its span. */
  lemma AdjustKeepsWidth(r: Range, s: Span, f: Range)
    requires s.end.column - s.start.column + 1 == r.end - r.start
    ensures var a := Adjust(r, s, f);
            && a.start.line == s.start.line && a.end.line == s.end.line
            && a.end.column - a.start.column + 1 == f.end - f.start
            && (f == r ==> a == s)
  {
  }

  /** The assertions of src/documentation/chunk.rs:89-93 fail for fragment
      `f` of `(r, s)`: the span covers several lines, the end column drops
      below zero (`usize` underflow), or the start column passes the end. */
  predicate EntryPanics(r: Range, s: Span, f: Range)
  {
    var a := Adjust(r, s, f);
    s.start.line != s.end.line || a.end.column < 0 || a.start.column > a.end.column
  }

  /** Entry `i` does not panic when it is visited. */
  predicate EntryOk(m: Mapping, q: Range, i: nat)
    requires i < |m|
  {
    match Fragment(m[i].0, q, ActiveAfter(m, q, i))
    case Some(f) => !EntryPanics(m[i].0, m[i].1, f)
    case None => true
  }

  /** `find_spans` runs to the end without a failed assertion. */
  predicate NoPanic(m: Mapping, q: Range)
  {
    forall i :: 0 <= i < |m| ==> EntryOk(m, q, i)
  }

  /** The pairs the `filter_map` yields from the first `n` entries, in order. */
  function Emitted(m: Mapping, q: Range, n: nat): (pairs: Mapping)
    requires n <= |m|
    ensures |pairs| <= n
  {
    if n == 0 then []
    else
      var r, s := m[n - 1].0, m[n - 1].1;
      Emitted(m, q, n - 1)
      + match Fragment(r, q, ActiveAfter(m, q, n - 1))
        case Some(f) => [(f, Adjust(r, s, f))]
        case None => []
  }

  /** Visiting entry `n` appends its adjusted fragment, if it has one. */
  lemma EmittedStep(m: Mapping, q: Range, n: nat)
    requires n < |m|
    ensures var f := Fragment(m[n].0, q, ActiveAfter(m, q, n));
            if f.Some?
            then Emitted(m, q, n + 1) == Emitted(m, q, n) + [(f.value, Adjust(m[n].0, m[n].1, f.value))]
            else Emitted(m, q, n + 1) == Emitted(m, q, n)
  {
  }

  /** The selection step of the `filter_map` closure of `find_spans`
      (src/documentation/chunk.rs:70-84): which fragment of the entry's range
      is emitted, and the captured `active` flag afterwards. */
  method SelectFragment(entryRange: Range, range: Range, active: bool) returns (fragment: Option<Range>, nowActive: bool)
    ensures fragment == Fragment(entryRange, range, active)
    ensures nowActive == (active || entryRange.Contains(range.start))
  {
    var start, end := range.start, range.end;
    nowActive := active;
    if entryRange.Contains(start) {
      nowActive := true;
      if end > 0 && entryRange.Contains(end - 1) {
        fragment := Some(Range(start, end));
      } else {
        fragment := Some(Range(start, entryRange.end));
      }
    } else if active {
      fragment := Some(entryRange);
    } else if entryRange.Contains(end) {
      nowActive := false;
      fragment := Some(Range(entryRange.start, end));
    } else {
      fragment := None;
    }
  }

  /** `find_spans`: scan the entries in order with the `active` flag, adjust
      the span of every emitted fragment, checking the source's assertions,
      and collect the pairs into a map. */
  method FindSpans(chunk: CheckableChunk, range: Range) returns (spans: Mapping)
    requires NoPanic(chunk.sourceMapping, range)
    ensures spans == Collect(Emitted(chunk.sourceMapping, range, |chunk.sourceMapping|))
  {
    var m := chunk.sourceMapping;
    var active := false;
    spans := [];
    for i := 0 to |m|
      invariant active == ActiveAfter(m, range, i)
      invariant spans == Collect(Emitted(m, range, i))
    {
      var entryRange, span := m[i].0, m[i].1;
      EmittedStep(m, range, i);
      var fragment;
      fragment, active := SelectFragment(entryRange, range, active);
      if fragment.Some? {
        var f := fragment.value;
        assert EntryOk(m, range, i);
        assert span.start.line == span.end.line;
        var adjusted := Span(Position(span.start.line, span.start.column + (f.start - entryRange.start)),
                             Position(span.end.line, span.end.column - (entryRange.end - f.end)));
        assert adjusted.end.column >= 0;
        assert adjusted.start.column <= adjusted.end.column;
        CollectSnoc(Emitted(m, range, i), (f, adjusted));
        spans := Insert(spans, f, adjusted);
      }
    }
  }

  /** The entries that emit a fragment, by index. */
  function Sources(m: Mapping, q: Range, n: nat): seq<nat>
    requires n <= |m|
  {
    if n == 0 then []
    else Sources(m, q, n - 1) + if Fragment(m[n - 1].0, q, ActiveAfter(m, q, n - 1)).Some? then [n - 1] else []
  }

  /** The output follows the mapping's order, and each emitted pair is a
      fragment of its entry's range with that entry's span adjusted to it. */
  lemma {:induction false} EmittedFromEntries(m: Mapping, q: Range, n: nat)
    requires n <= |m|
    ensures var pairs, sources := Emitted(m, q, n), Sources(m, q, n);
            && |sources| == |pairs|
            && (forall k, l :: 0 <= k < l < |sources| ==> sources[k] < sources[l])
            && forall k :: 0 <= k < |sources| ==>
                 var i := sources[k];
                 && i < n
                 && Fragment(m[i].0, q, ActiveAfter(m, q, i)) == Some(pairs[k].0)
                 && m[i].0.start <= pairs[k].0.start && pairs[k].0.end <= m[i].0.end
                 && pairs[k].1 == Adjust(m[i].0, m[i].1, pairs[k].0)
  {
    if n > 0 {
      EmittedFromEntries(m, q, n - 1);
    }
  }

  // ---------------------------------------------------------------------
  // Well-formed mappings
  // ---------------------------------------------------------------------

  /** The mapping of a chunk built from literals: non-empty ranges in
      ascending order without overlap, each mapped to a single-line span with
      non-negative columns that covers as many columns as the range has bytes
      (which is exact for ASCII text). */
  predicate WellFormed(m: Mapping)
  {
    && (forall i :: 0 <= i < |m| ==>
          && m[i].0.start < m[i].0.end
          && m[i].1.start.line == m[i].1.end.line
          && 0 <= m[i].1.start.column
          && m[i].1.end.column - m[i].1.start.column + 1 == m[i].0.end - m[i].0.start)
    && (forall i, j :: 0 <= i < j < |m| ==> m[i].0.end <= m[j].0.start)
  }

  /** The fragment of the entry holding the query start: from the query start
      to the query end or the entry's end, whichever comes first. */
  function Clip(r: Range, q: Range): Range
  {
    Range(q.start, if q.end <= r.end then q.end else r.end)
  }

  /** Before the entry holding the query start nothing is emitted and the
      scan is not active. */
  lemma {:induction false} NothingBeforeStart(m: Mapping, q: Range, j: nat, n: nat)
    requires WellFormed(m)
    requires j < |m| && m[j].0.Contains(q.start) && q.start < q.end
    requires n <= j
    ensures !ActiveAfter(m, q, n) && Emitted(m, q, n) == []
  {
    if n > 0 {
      NothingBeforeStart(m, q, j, n - 1);
      assert m[n - 1].0.end <= m[j].0.start;
    }
  }

  /** From the entry holding the query start on: its clipped fragment, then
      every later entry whole. */
  lemma {:induction false} EmittedFromStart(m: Mapping, q: Range, j: nat, n: nat)
    requires WellFormed(m)
    requires j < |m| && m[j].0.Contains(q.start) && q.start < q.end
    requires j < n <= |m|
    ensures ActiveAfter(m, q, n)
    ensures Emitted(m, q, n) == [(Clip(m[j].0, q), Adjust(m[j].0, m[j].1, Clip(m[j].0, q)))] + m[j + 1..n]
  {
    if n == j + 1 {
      NothingBeforeStart(m, q, j, j);
      assert m[j + 1..n] == [];
    } else {
      EmittedFromStart(m, q, j, n - 1);
      var r := m[n - 1].0;
      assert m[j].0.end <= r.start;
      AdjustKeepsWidth(r, m[n - 1].1, r);
      assert m[j + 1..n] == m[j + 1..n - 1] + [m[n - 1]];
    }
  }

  /** On a well-formed mapping, a non-empty query starting inside an entry
      passes every assertion of src/documentation/chunk.rs:89-93. */
  lemma StartInEntryNoPanic(m: Mapping, q: Range, j: nat)
    requires WellFormed(m)
    requires j < |m| && m[j].0.Contains(q.start) && q.start < q.end
    ensures NoPanic(m, q)
  {
    forall i | 0 <= i < |m|
      ensures EntryOk(m, q, i)
    {
      if i < j {
        NothingBeforeStart(m, q, j, i);
        assert m[i].0.end <= m[j].0.start;
      } else if i == j {
        NothingBeforeStart(m, q, j, j);
        AdjustKeepsWidth(m[j].0, m[j].1, Clip(m[j].0, q));
      } else {
        EmittedFromStart(m, q, j, i);
        assert m[j].0.end <= m[i].0.start;
        AdjustKeepsWidth(m[i].0, m[i].1, m[i].0);
      }
    }
  }

  /** The clipped first fragment and the later entries have distinct keys. */
  lemma ClippedDistinct(m: Mapping, q: Range, j: nat, first: (Range, Span))
    requires WellFormed(m)
    requires j < |m| && m[j].0.Contains(q.start) && first.0 == Clip(m[j].0, q)
    ensures DistinctKeys([first] + m[j + 1..])
  {
    var pairs := [first] + m[j + 1..];
    forall k, l | 0 <= k < l < |pairs|
      ensures pairs[k].0 != pairs[l].0
    {
      assert pairs[l] == m[j + l];
      if k == 0 {
        assert m[j].0.end <= m[j + l].0.start;
      } else {
        assert pairs[k] == m[j + k];
        assert m[j + k].0.end <= m[j + l].0.start;
      }
    }
  }

  /** On a well-formed mapping, a non-empty query starting inside entry `j`
      yields the clipped fragment of entry `j` followed by every later entry
      unchanged, whatever the query end (src/documentation/chunk.rs:70-78). */
  lemma StartInEntry(m: Mapping, q: Range, j: nat)
    requires WellFormed(m)
    requires j < |m| && m[j].0.Contains(q.start) && q.start < q.end
    ensures var first := (Clip(m[j].0, q), Adjust(m[j].0, m[j].1, Clip(m[j].0, q)));
            Collect(Emitted(m, q, |m|)) == [first] + m[j + 1..]
  {
    var c := Clip(m[j].0, q);
    EmittedFromStart(m, q, j, |m|);
    assert m[j + 1..|m|] == m[j + 1..];
    ClippedDistinct(m, q, j, (c, Adjust(m[j].0, m[j].1, c)));
    CollectIdentity([(c, Adjust(m[j].0, m[j].1, c))] + m[j + 1..]);
  }

  /** A query over the whole content of a chunk whose mapping starts at byte
      0 gives back the mapping itself. */
  lemma FullQueryGivesMapping(m: Mapping, length: nat)
    requires WellFormed(m)
    requires |m| > 0 && m[0].0.start == 0 && m[|m| - 1].0.end <= length
    ensures NoPanic(m, Range(0, length))
    ensures Collect(Emitted(m, Range(0, length), |m|)) == m
  {
    var q := Range(0, length);
    assert m[0].0.end <= length by {
      if |m| > 1 {
        assert m[0].0.end <= m[|m| - 1].0.start;
      }
    }
    StartInEntryNoPanic(m, q, 0);
    StartInEntry(m, q, 0);
    assert Clip(m[0].0, q) == m[0].0;
    AdjustKeepsWidth(m[0].0, m[0].1, m[0].0);
    assert [(m[0].0, m[0].1)] + m[1..] == m;
  }

  /** A query starting in a gap between entries never activates the scan:
      when an entry holds the query end, its range cut at the query end is
      the only fragment (src/documentation/chunk.rs:79-81). */
  lemma {:induction false} GapStart(m: Mapping, q: Range, n: nat)
    requires WellFormed(m)
    requires forall i :: 0 <= i < |m| ==> !m[i].0.Contains(q.start)
    requires n <= |m|
    ensures !ActiveAfter(m, q, n)
    ensures forall i :: 0 <= i < n && m[i].0.Contains(q.end) ==>
              Emitted(m, q, n) == [(Range(m[i].0.start, q.end), Adjust(m[i].0, m[i].1, Range(m[i].0.start, q.end)))]
    ensures (forall i :: 0 <= i < n ==> !m[i].0.Contains(q.end)) ==> Emitted(m, q, n) == []
  {
    if n > 0 {
      GapStart(m, q, n - 1);
      forall i | 0 <= i < n - 1 && m[i].0.Contains(q.end)
        ensures !m[n - 1].0.Contains(q.end)
      {
        assert m[i].0.end <= m[n - 1].0.start;
      }
    }
  }

  /** The mapping of the example chunk: bytes 0..5 on line 1, columns 2 to 6,
      and bytes 6..11 on line 2, columns 0 to 4. */
  function ExampleMapping(): Mapping
  {
    [ (Range(0, 5), Span(Position(1, 2), Position(1, 6))),
      (Range(6, 11), Span(Position(2, 0), Position(2, 4))) ]
  }

  /** The example mapping is well formed, so the query 2..9 passes every
      assertion. */
  lemma ExampleQueryNoPanic()
    ensures WellFormed(ExampleMapping())
    ensures NoPanic(ExampleMapping(), Range(2, 9))
  {
    var m := ExampleMapping();
    assert WellFormed(m);
    StartInEntryNoPanic(m, Range(2, 9), 0);
  }

  /** The query 2..9 on the example chunk: the first entry is cut to 2..5 with
      its span moved to column 4, and the second entry is emitted whole,
      6..11 rather than 6..9, because the active scan never trims at the
      query end. */
  lemma ExampleQueryKeepsSecondEntryWhole()
    ensures Collect(Emitted(ExampleMapping(), Range(2, 9), 2))
            == [ (Range(2, 5), Span(Position(1, 4), Position(1, 6))),
                 (Range(6, 11), Span(Position(2, 0), Position(2, 4))) ]
  {
    var m, q := ExampleMapping(), Range(2, 9);
    ExampleQueryNoPanic();
    StartInEntry(m, q, 0);
    var first := (Clip(m[0].0, q), Adjust(m[0].0, m[0].1, Clip(m[0].0, q)));
    assert first == (Range(2, 5), Span(Position(1, 4), Position(1, 6)));
    assert m[1..] == [m[1]];
    calc {
      Collect(Emitted(m, q, |m|));
      [first] + m[1..];
      [first, m[1]];
    }
  }

  /** A query starting in the gap between two entries and ending exactly where
      the second one starts gets the empty fragment 6..6, whose end column
      falls one below its start column: `find_spans` panics on it. */
  lemma QueryEndingAtEntryStartPanics()
    ensures Fragment(ExampleMapping()[1].0, Range(5, 6), false) == Some(Range(6, 6))
    ensures !NoPanic(ExampleMapping(), Range(5, 6))
  {
    var m := ExampleMapping();
    assert !ActiveAfter(m, Range(5, 6), 1);
    assert !EntryOk(m, Range(5, 6), 1);
  }

  // ---------------------------------------------------------------------
  // Clusters
  // ---------------------------------------------------------------------

  /** The literal sets of one file. */
  datatype Clusters = Clusters(literalSets: seq<LiteralSet>)

  /** `From<Clusters> for Vec<CheckableChunk>`: one chunk per literal set, in
      order, each made by `intoChunk` (`LiteralSet::into_chunk`). */
  function ChunksFromClusters(clusters: Clusters, intoChunk: LiteralSet -> CheckableChunk): (chunks: seq<CheckableChunk>)
    ensures |chunks| == |clusters.literalSets|
    ensures forall i :: 0 <= i < |chunks| ==> chunks[i] == intoChunk(clusters.literalSets[i])
    decreases |clusters.literalSets|
  {
    if clusters.literalSets == [] then []
    else [intoChunk(clusters.literalSets[0])] + ChunksFromClusters(Clusters(clusters.literalSets[1..]), intoChunk)
  }

  /** Converting the clusters of two runs of sets one after the other gives
      the chunks of each run, one after the other. */
  lemma ChunksAppend(a: seq<LiteralSet>, b: seq<LiteralSet>, intoChunk: LiteralSet -> CheckableChunk)
    ensures ChunksFromClusters(Clusters(a + b), intoChunk)
            == ChunksFromClusters(Clusters(a), intoChunk) + ChunksFromClusters(Clusters(b), intoChunk)
  {
    var l := ChunksFromClusters(Clusters(a + b), intoChunk);
    var r := ChunksFromClusters(Clusters(a), intoChunk) + ChunksFromClusters(Clusters(b), intoChunk);
    assert forall i :: 0 <= i < |l| ==> l[i] == r[i];
  }
}
