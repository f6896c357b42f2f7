/**
  The game's word-tracing search (class Game in wordfind.js). The search's
  methods only read `this.board`, `this.boardHeight` and `this.boardWidth`,
  so they are modelled as functions that take those three as parameters
  (board, h, w); the class below holds the state that findWord and
  findWords change.
*/
module WordFind {
  import opened Wrappers
  import opened Grid
  import opened Seqs

  /** The `offsets` array of getAdjacentPositions. */
  const Offsets: seq<int> := [-1, 0, 1]

  predicate Increasing(s: seq<int>)
  {
    forall i, j :: 0 <= i < j < |s| ==> s[i] < s[j]
  }

  // ---------------------------------------------------------------------
  // getAllPositions
  // ---------------------------------------------------------------------

  /** The inner loop of getAllPositions: columns `column`, `column + 1`, ... of one row. */
  function ColumnsFrom(w: nat, row: int, column: nat): (r: seq<Position>)
    decreases w - column
    ensures StrictlySorted(r)
    ensures forall p :: p in r <==> p.row == row && column <= p.column < w
    ensures |r| == if column <= w then w - column else 0
  {
    if column < w then [Position(row, column)] + ColumnsFrom(w, row, column + 1) else []
  }

  /** The outer loop of getAllPositions: rows `row`, `row + 1`, ... */
  function RowsFrom(h: nat, w: nat, row: nat): (r: seq<Position>)
    decreases h - row
    ensures StrictlySorted(r)
    ensures forall p :: p in r <==> row <= p.row < h && 0 <= p.column < w
    ensures |r| == if row <= h then (h - row) * w else 0
  {
    if row < h then
      var here, later := ColumnsFrom(w, row, 0), RowsFrom(h, w, row + 1);
      SortedConcat(here, later);
      assert (h - row) * w == w + (h - (row + 1)) * w;
      here + later
    else []
  }

  /** getAllPositions: every cell of the h-by-w grid once, in row-major order. */
  function AllPositions(h: nat, w: nat): (r: seq<Position>)
    ensures StrictlySorted(r)
    ensures forall p :: p in r <==> InBounds(h, w, p)
    ensures |r| == h * w
  {
    RowsFrom(h, w, 0)
  }

  // ---------------------------------------------------------------------
  // getAdjacentPositions
  // ---------------------------------------------------------------------

  /** The inner loop of getAdjacentPositions, for one row offset, over the remaining column offsets. */
  function ColumnSweep(h: nat, w: nat, row: int, column: int, rowOffset: int, columnOffsets: seq<int>): (r: seq<Position>)
    requires Increasing(columnOffsets)
    ensures StrictlySorted(r)
    ensures forall p :: p in r <==>
      InBounds(h, w, p) && p.row == row + rowOffset && p.column - column in columnOffsets
      && (rowOffset != 0 || p.column != column)
    ensures |r| + (if rowOffset == 0 && 0 in columnOffsets then 1 else 0) <= |columnOffsets|
  {
    if columnOffsets == [] then []
    else
      var columnOffset := columnOffsets[0];
      var rest := ColumnSweep(h, w, row, column, rowOffset, columnOffsets[1..]);
      assert forall d :: d in columnOffsets <==> d == columnOffset || d in columnOffsets[1..];
      assert forall d :: d in columnOffsets[1..] ==> columnOffset < d;
      if rowOffset == 0 && columnOffset == 0 then rest
      else
        var p := Position(row + rowOffset, column + columnOffset);
        if InBounds(h, w, p) then
          SortedConcat([p], rest);
          [p] + rest
        else rest
  }

  /** The outer loop of getAdjacentPositions, over the remaining row offsets. */
  function RowSweep(h: nat, w: nat, row: int, column: int, rowOffsets: seq<int>): (r: seq<Position>)
    requires Increasing(rowOffsets)
    ensures StrictlySorted(r)
    ensures forall p :: p in r <==>
      InBounds(h, w, p) && p.row - row in rowOffsets && p.column - column in Offsets
      && p != Position(row, column)
    ensures |r| + (if 0 in rowOffsets then 1 else 0) <= 3 * |rowOffsets|
  {
    if rowOffsets == [] then []
    else
      var rowOffset := rowOffsets[0];
      var here := ColumnSweep(h, w, row, column, rowOffset, Offsets);
      var later := RowSweep(h, w, row, column, rowOffsets[1..]);
      assert forall d :: d in rowOffsets <==> d == rowOffset || d in rowOffsets[1..];
      assert forall d :: d in rowOffsets[1..] ==> rowOffset < d;
      SortedConcat(here, later);
      here + later
  }

  /** getAdjacentPositions: the in-bounds neighbours of (row, column), in row-major order. */
  function AdjacentPositions(h: nat, w: nat, row: int, column: int): (r: seq<Position>)
    ensures StrictlySorted(r)
    ensures forall p :: p in r <==> InBounds(h, w, p) && Adjacent(Position(row, column), p)
    ensures |r| <= 8
  {
    RowSweep(h, w, row, column, Offsets)
  }

  // ---------------------------------------------------------------------
  // tracePath
  // ---------------------------------------------------------------------

  /** p may follow the partial path: on the board and, after a first position, next to the last one. */
  predicate Step(h: nat, w: nat, path: seq<Position>, p: Position)
  {
    InBounds(h, w, p) && (|path| > 0 ==> Adjacent(path[|path| - 1], p))
  }

  /**
    The `nextPositions` of tracePath: every cell for an empty path, the
    neighbours of the last position otherwise.
  */
  function NextPositions(h: nat, w: nat, path: seq<Position>): (r: seq<Position>)
    ensures StrictlySorted(r)
    ensures forall p :: p in r <==> Step(h, w, path, p)
  {
    if |path| > 0 then
      var lastPosition := path[|path| - 1];
      AdjacentPositions(h, w, lastPosition.row, lastPosition.column)
    else
      AllPositions(h, w)
  }

  /**
    tracePath(word, path). `path` is `undefined` (None) at the top level and
    an array (Some) inside the recursion; an exhausted word returns `path` as
    it is, so the empty word at the top level yields None. The board is only
    read for a non-empty word. A returned path extends the given one by one
    position per letter.
  */
  function TracePath(board: Board, h: nat, w: nat, word: string, path: Option<seq<Position>>): (r: Option<seq<Position>>)
    requires |word| == 0 || Covers(board, h, w)
    decreases |word|, 1
    ensures r.Some? && path.Some? ==>
      |r.value| == |path.value| + |word| && r.value[..|path.value|] == path.value
  {
    if |word| == 0 then path
    else
      var p := if path.Some? then path.value else [];
      FirstTrace(board, h, w, word, p, NextPositions(h, w, p))
  }

  /**
    The `for (const position of nextPositions)` loop of tracePath over the
    candidates not yet tried: the first candidate carrying `word[0]`, not yet
    on the path and from which the rest of the word traces, wins.
  */
  function FirstTrace(board: Board, h: nat, w: nat, word: string, path: seq<Position>, candidates: seq<Position>): (r: Option<seq<Position>>)
    requires Covers(board, h, w) && |word| > 0
    requires forall c :: c in candidates ==> Step(h, w, path, c)
    decreases |word|, 0, |candidates|
    ensures r.Some? ==> |r.value| == |path| + |word| && r.value[..|path|] == path
  {
    if |candidates| == 0 then None
    else
      var position := candidates[0];
      assert position in candidates && Step(h, w, path, position);
      if LetterAt(board, h, w, position) != word[0] || PathIncludes(path, position) then
        FirstTrace(board, h, w, word, path, candidates[1..])
      else
        var newPath := TracePath(board, h, w, word[1..], Some(path + [position]));
        if newPath.Some? then
          assert newPath.value[..|path|] == newPath.value[..|path| + 1][..|path|];
          newPath
        else FirstTrace(board, h, w, word, path, candidates[1..])
  }

  // ---------------------------------------------------------------------
  // Splitting and joining extensions of a partial path
  // ---------------------------------------------------------------------

  /** An extension starts with a next position carrying the first letter, and the rest extends the longer path. */
  lemma ExtendsSplit(board: Board, h: nat, w: nat, path: seq<Position>, s: seq<Position>, word: string)
    requires Covers(board, h, w) && |word| > 0 && Extends(board, h, w, path, s, word)
    ensures Step(h, w, path, s[0])
    ensures LetterAt(board, h, w, s[0]) == word[0] && s[0] !in path
    ensures Extends(board, h, w, path + [s[0]], s[1..], word[1..])
  {
    var q := path + s;
    assert q == (path + [s[0]]) + s[1..];
    assert q[|path|] == s[0];
    if |path| > 0 {
      assert q[|path| - 1] == path[|path| - 1];
    }
    forall i | 0 <= i < |path| ensures path[i] != s[0] {
      assert q[i] == path[i];
    }
    forall i | 0 <= i < |s| - 1 ensures LetterAt(board, h, w, s[1..][i]) == word[1..][i] {
      assert s[1..][i] == s[i + 1];
    }
  }

  /** A valid first step followed by an extension of the longer path is an extension. */
  lemma ExtendsJoin(board: Board, h: nat, w: nat, path: seq<Position>, c: Position, t: seq<Position>, word: string)
    requires Covers(board, h, w) && |word| > 0
    requires InBounds(h, w, c) && LetterAt(board, h, w, c) == word[0]
    requires Extends(board, h, w, path + [c], t, word[1..])
    ensures Extends(board, h, w, path, [c] + t, word)
  {
    assert path + ([c] + t) == (path + [c]) + t;
  }

  // ---------------------------------------------------------------------
  // Soundness: a returned path spells the word along a valid path
  // ---------------------------------------------------------------------

  lemma {:induction false} TraceSound(board: Board, h: nat, w: nat, word: string, path: seq<Position>)
    requires Covers(board, h, w) && ValidPath(h, w, path)
    decreases |word|, 1
    ensures var r := TracePath(board, h, w, word, Some(path));
      r.Some? ==> |path| <= |r.value| && r.value[..|path|] == path
                  && Extends(board, h, w, path, r.value[|path|..], word)
  {
    if |word| > 0 {
      FirstTraceSound(board, h, w, word, path, NextPositions(h, w, path));
    } else {
      assert path + [] == path;
    }
  }

  lemma {:induction false} FirstTraceSound(board: Board, h: nat, w: nat, word: string, path: seq<Position>, candidates: seq<Position>)
    requires Covers(board, h, w) && |word| > 0 && ValidPath(h, w, path)
    requires forall c :: c in candidates ==> Step(h, w, path, c)
    decreases |word|, 0, |candidates|
    ensures var r := FirstTrace(board, h, w, word, path, candidates);
      r.Some? ==> |path| <= |r.value| && r.value[..|path|] == path
                  && Extends(board, h, w, path, r.value[|path|..], word)
  {
    if |candidates| > 0 {
      var c := candidates[0];
      assert c in candidates;
      assert forall x :: x in candidates[1..] ==> x in candidates;
      FirstTraceSound(board, h, w, word, path, candidates[1..]);
      if LetterAt(board, h, w, c) == word[0] && !PathIncludes(path, c) {
        StepSound(board, h, w, word, path, c);
      }
    }
  }

  /** One accepted candidate: what the recursive call returns for it extends the path. */
  lemma {:induction false} StepSound(board: Board, h: nat, w: nat, word: string, path: seq<Position>, c: Position)
    requires Covers(board, h, w) && |word| > 0 && ValidPath(h, w, path)
    requires Step(h, w, path, c) && LetterAt(board, h, w, c) == word[0] && c !in path
    decreases |word|, 0, 0
    ensures var r := TracePath(board, h, w, word[1..], Some(path + [c]));
      r.Some? ==> |path| <= |r.value| && r.value[..|path|] == path
                  && Extends(board, h, w, path, r.value[|path|..], word)
  {
    var p := path + [c];
    ValidPathPush(h, w, path, c);
    TraceSound(board, h, w, word[1..], p);
    var sub := TracePath(board, h, w, word[1..], Some(p));
    if sub.Some? {
      var r := sub.value;
      var t := r[|p|..];
      SplitAfterStep(path, c, r);
      ExtendsJoin(board, h, w, path, c, t, word);
    }
  }

  /** A sequence that starts with path + [c] splits after path into c and the rest. */
  lemma SplitAfterStep(path: seq<Position>, c: Position, r: seq<Position>)
    requires |path| + 1 <= |r| && r[..|path| + 1] == path + [c]
    ensures r[..|path|] == path && r[|path|..] == [c] + r[|path| + 1..]
  {
  }

  // ---------------------------------------------------------------------
  // Completeness: None only when no extension exists
  // ---------------------------------------------------------------------

  lemma {:induction false} TraceComplete(board: Board, h: nat, w: nat, word: string, path: seq<Position>, s: seq<Position>)
    requires Covers(board, h, w) && Extends(board, h, w, path, s, word)
    decreases |word|, 1
    ensures TracePath(board, h, w, word, Some(path)).Some?
  {
    if |word| > 0 {
      ExtendsSplit(board, h, w, path, s, word);
      FirstTraceComplete(board, h, w, word, path, NextPositions(h, w, path), s);
    }
  }

  lemma {:induction false} FirstTraceComplete(board: Board, h: nat, w: nat, word: string, path: seq<Position>, candidates: seq<Position>, s: seq<Position>)
    requires Covers(board, h, w) && |word| > 0 && Extends(board, h, w, path, s, word)
    requires forall c :: c in candidates ==> Step(h, w, path, c)
    requires s[0] in candidates
    decreases |word|, 0, |candidates|
    ensures FirstTrace(board, h, w, word, path, candidates).Some?
  {
    ExtendsSplit(board, h, w, path, s, word);
    var c := candidates[0];
    assert c in candidates;
    if c == s[0] {
      TraceComplete(board, h, w, word[1..], path + [c], s[1..]);
    } else {
      assert s[0] in candidates[1..];
      FirstTraceComplete(board, h, w, word, path, candidates[1..], s);
    }
  }

  // ---------------------------------------------------------------------
  // First found is least: the search returns the row-major least extension
  // ---------------------------------------------------------------------

  lemma {:induction false} TraceLeast(board: Board, h: nat, w: nat, word: string, path: seq<Position>, s: seq<Position>)
    requires Covers(board, h, w) && ValidPath(h, w, path) && Extends(board, h, w, path, s, word)
    decreases |word|, 1
    ensures var r := TracePath(board, h, w, word, Some(path));
      r.Some? && |path| <= |r.value| && LexLeq(r.value[|path|..], s)
  {
    TraceComplete(board, h, w, word, path, s);
    TraceSound(board, h, w, word, path);
    if |word| > 0 {
      ExtendsSplit(board, h, w, path, s, word);
      FirstTraceLeast(board, h, w, word, path, NextPositions(h, w, path), s);
    }
  }

  lemma {:induction false} FirstTraceLeast(board: Board, h: nat, w: nat, word: string, path: seq<Position>, candidates: seq<Position>, s: seq<Position>)
    requires Covers(board, h, w) && |word| > 0 && ValidPath(h, w, path) && Extends(board, h, w, path, s, word)
    requires StrictlySorted(candidates)
    requires forall c :: c in candidates ==> Step(h, w, path, c)
    requires s[0] in candidates
    decreases |word|, 0, |candidates|
    ensures var r := FirstTrace(board, h, w, word, path, candidates);
      r.Some? && |path| < |r.value| && LexLeq(r.value[|path|..], s)
  {
    FirstTraceComplete(board, h, w, word, path, candidates, s);
    FirstTraceSound(board, h, w, word, path, candidates);
    ExtendsSplit(board, h, w, path, s, word);
    var c := candidates[0];
    assert c in candidates;
    var rest := candidates[1..];
    assert forall x :: x in rest ==> x in candidates;
    var r := FirstTrace(board, h, w, word, path, candidates).value;
    if LetterAt(board, h, w, c) != word[0] || PathIncludes(path, c) {
      assert s[0] in rest;
      FirstTraceLeast(board, h, w, word, path, rest, s);
    } else {
      var p := path + [c];
      ValidPathPush(h, w, path, c);
      var sub := TracePath(board, h, w, word[1..], Some(p));
      if c == s[0] {
        TraceLeast(board, h, w, word[1..], p, s[1..]);
        TraceSound(board, h, w, word[1..], p);
        assert r == sub.value;
        assert r[|path|..][0] == c;
        assert r[|path|..][1..] == r[|p|..];
        assert s == [s[0]] + s[1..];
      } else if sub.Some? {
        TraceSound(board, h, w, word[1..], p);
        assert r == sub.value;
        assert r[|path|..][0] == r[|path|] == c;
        assert s[0] in rest;
        var k :| 0 < k < |candidates| && candidates[k] == s[0];
        assert Before(c, s[0]);
      } else {
        assert s[0] in rest;
        FirstTraceLeast(board, h, w, word, path, rest, s);
      }
    }
  }

  // ---------------------------------------------------------------------
  // The search at the top level: tracePath(word)
  // ---------------------------------------------------------------------

  /** A path tracePath(word) returns spells the word, stays on the board, steps to neighbours and never repeats. */
  lemma TracePathSound(board: Board, h: nat, w: nat, word: string)
    requires Covers(board, h, w)
    ensures var r := TracePath(board, h, w, word, None);
      r.Some? ==> |word| > 0 && IsTracing(board, h, w, word, r.value)
  {
    if |word| > 0 {
      var r := TracePath(board, h, w, word, None);
      assert r == TracePath(board, h, w, word, Some([]));
      TraceSound(board, h, w, word, []);
      if r.Some? {
        assert r.value[0..] == r.value && [] + r.value == r.value;
      }
    }
  }

  /** Whenever some tracing of a non-empty word exists, tracePath(word) finds one. */
  lemma TracePathComplete(board: Board, h: nat, w: nat, word: string, path: seq<Position>)
    requires Covers(board, h, w) && |word| > 0 && IsTracing(board, h, w, word, path)
    ensures TracePath(board, h, w, word, None).Some?
  {
    assert [] + path == path;
    TraceComplete(board, h, w, word, [], path);
  }

  /** tracePath(word) returns the row-major lexicographically least tracing of a non-empty word. */
  lemma TracePathLeast(board: Board, h: nat, w: nat, word: string, path: seq<Position>)
    requires Covers(board, h, w) && |word| > 0 && IsTracing(board, h, w, word, path)
    ensures var r := TracePath(board, h, w, word, None);
      r.Some? && LexLeq(r.value, path)
  {
    assert [] + path == path;
    TraceLeast(board, h, w, word, [], path);
  }

  /** tracePath(word) is truthy exactly when the word is non-empty and some tracing of it exists. */
  lemma TracePathFinds(board: Board, h: nat, w: nat, word: string)
    requires Covers(board, h, w)
    ensures TracePath(board, h, w, word, None).Some?
            <==> |word| > 0 && exists path :: IsTracing(board, h, w, word, path)
  {
    TracePathSound(board, h, w, word);
    if |word| > 0 && exists path :: IsTracing(board, h, w, word, path) {
      var path :| IsTracing(board, h, w, word, path);
      TracePathComplete(board, h, w, word, path);
    }
  }

  // ---------------------------------------------------------------------
  // findWords
  // ---------------------------------------------------------------------

  /** The dictionary filtered by `word => this.tracePath(word)`. */
  function FindableWords(board: Board, h: nat, w: nat, dictionary: seq<string>): (r: seq<string>)
    requires Covers(board, h, w)
    ensures forall word :: word in r ==> word in dictionary && |word| > 0
  {
    Filter(dictionary, word => TracePath(board, h, w, word, None).Some?)
  }

  /**
    findWords keeps the dictionary's order, keeps every occurrence of a word
    with a tracing and drops every word without one.
  */
  lemma FindableWordsSpec(board: Board, h: nat, w: nat, dictionary: seq<string>)
    requires Covers(board, h, w)
    ensures var r := FindableWords(board, h, w, dictionary);
      && IsSubsequence(r, dictionary)
      && (forall word :: word in r <==> word in dictionary && |word| > 0
                                          && exists path :: IsTracing(board, h, w, word, path))
      && (forall word :: multiset(r)[word] == if TracePath(board, h, w, word, None).Some? then multiset(dictionary)[word] else 0)
  {
    forall word ensures TracePath(board, h, w, word, None).Some?
                        <==> |word| > 0 && exists path :: IsTracing(board, h, w, word, path) {
      TracePathFinds(board, h, w, word);
    }
  }

  // ---------------------------------------------------------------------
  // The round's found words and findWord
  // ---------------------------------------------------------------------

  /** The words of a round that have been credited so far (the timer is not modelled). */
  class Round {
    var wordsFound: seq<string>

    constructor ()
      ensures wordsFound == []
    {
      wordsFound := [];
    }
  }

  /**
    The game's state that findWord and findWords touch. `lookup` stands for
    `this.dictionary.lookup`, the dictionary's membership test; `board` is the
    board newBoard has built.
  */
  class Game {
    var boardHeight: nat
    var boardWidth: nat
    var board: Board
    var lookup: string -> bool
    var round: Round?
    var words: seq<string>

    constructor (boardHeight: nat, boardWidth: nat, board: Board, lookup: string -> bool)
      ensures this.boardHeight == boardHeight && this.boardWidth == boardWidth
      ensures this.board == board && this.lookup == lookup
      ensures round == null && words == []
    {
      this.boardHeight := boardHeight;
      this.boardWidth := boardWidth;
      this.board := board;
      this.lookup := lookup;
      round := null;
      words := [];
    }

    /** Every credited word is listed once, has a tracing on this board and passes the dictionary. */
    ghost predicate Credited(wordsFound: seq<string>)
      reads this
      requires Covers(board, boardHeight, boardWidth)
    {
      && (forall i, j :: 0 <= i < j < |wordsFound| ==> wordsFound[i] != wordsFound[j])
      && (forall word :: word in wordsFound ==>
            TracePath(board, boardHeight, boardWidth, word, None).Some? && lookup(word))
    }

    /** findWords: `this.words` becomes the traceable words of the dictionary. */
    method FindWords(dictionary: seq<string>)
      requires Covers(board, boardHeight, boardWidth)
      modifies this`words
      ensures words == FindableWords(board, boardHeight, boardWidth, dictionary)
    {
      words := FindableWords(board, boardHeight, boardWidth, dictionary);
    }

    /**
      findWord: credit the word when it is new this round, traces on the board
      and passes the dictionary; otherwise change nothing.
    */
    method FindWord(word: string) returns (accepted: bool)
      requires round != null && Covers(board, boardHeight, boardWidth)
      modifies round
      ensures accepted <==> word !in old(round.wordsFound)
                            && TracePath(board, boardHeight, boardWidth, word, None).Some?
                            && lookup(word)
      ensures round.wordsFound == if accepted then old(round.wordsFound) + [word] else old(round.wordsFound)
      ensures accepted ==> |word| > 0
      ensures Credited(old(round.wordsFound)) ==> Credited(round.wordsFound)
    {
      TracePathSound(board, boardHeight, boardWidth, word);
      if word !in round.wordsFound
         && TracePath(board, boardHeight, boardWidth, word, None).Some?
         && lookup(word)
      {
        round.wordsFound := round.wordsFound + [word];
        return true;
      }
      return false;
    }
  }
}
