/**
  The worker's copy of the search (find.js). The board arrives as a message;
  its height is `board.length` and its width `board[0].length`. Each function
  is proved to compute what the game's copy computes on a grid of those
  dimensions, so the game's soundness, completeness and least-path results
  carry over.
*/
module Find {
  import opened Wrappers
  import opened Grid
  import opened Seqs
  import WordFind

  /** Every row is at least as long as the first, so each cell the search visits can be read. */
  predicate WellFormed(board: Board)
  {
    Covers(board, |board|, Width(board))
  }

  // ---------------------------------------------------------------------
  // getAllPositions(board)
  // ---------------------------------------------------------------------

  function ColumnsFrom(board: Board, row: nat, column: nat): (r: seq<Position>)
    requires row < |board|
    decreases |board[0]| - column
    ensures r == WordFind.ColumnsFrom(Width(board), row, column)
  {
    if column < |board[0]| then [Position(row, column)] + ColumnsFrom(board, row, column + 1) else []
  }

  function RowsFrom(board: Board, row: nat): (r: seq<Position>)
    decreases |board| - row
    ensures r == WordFind.RowsFrom(|board|, Width(board), row)
  {
    if row < |board| then ColumnsFrom(board, row, 0) + RowsFrom(board, row + 1) else []
  }

  /** getAllPositions(board): every cell once, in row-major order. */
  function AllPositions(board: Board): (r: seq<Position>)
    ensures r == WordFind.AllPositions(|board|, Width(board))
    ensures StrictlySorted(r)
    ensures forall p :: p in r <==> InBounds(|board|, Width(board), p)
    ensures |r| == |board| * Width(board)
  {
    RowsFrom(board, 0)
  }

  // ---------------------------------------------------------------------
  // getAdjacentPositions(board, row, column)
  // ---------------------------------------------------------------------

  function ColumnSweep(board: Board, row: int, column: int, rowOffset: int, columnOffsets: seq<int>): (r: seq<Position>)
    requires WordFind.Increasing(columnOffsets)
    ensures r == WordFind.ColumnSweep(|board|, Width(board), row, column, rowOffset, columnOffsets)
  {
    if columnOffsets == [] then []
    else
      var columnOffset := columnOffsets[0];
      var rest := ColumnSweep(board, row, column, rowOffset, columnOffsets[1..]);
      if rowOffset == 0 && columnOffset == 0 then rest
      else
        var newRow, newColumn := row + rowOffset, column + columnOffset;
        if 0 <= newRow && newRow < |board| && 0 <= newColumn && newColumn < |board[0]| then
          [Position(newRow, newColumn)] + rest
        else rest
  }

  function RowSweep(board: Board, row: int, column: int, rowOffsets: seq<int>): (r: seq<Position>)
    requires WordFind.Increasing(rowOffsets)
    ensures r == WordFind.RowSweep(|board|, Width(board), row, column, rowOffsets)
  {
    if rowOffsets == [] then []
    else ColumnSweep(board, row, column, rowOffsets[0], WordFind.Offsets) + RowSweep(board, row, column, rowOffsets[1..])
  }

  /** getAdjacentPositions(board, row, column): the in-bounds neighbours, in row-major order. */
  function AdjacentPositions(board: Board, row: int, column: int): (r: seq<Position>)
    ensures r == WordFind.AdjacentPositions(|board|, Width(board), row, column)
    ensures StrictlySorted(r)
    ensures forall p :: p in r <==> InBounds(|board|, Width(board), p) && Adjacent(Position(row, column), p)
    ensures |r| <= 8
  {
    RowSweep(board, row, column, WordFind.Offsets)
  }

  // ---------------------------------------------------------------------
  // tracePath(board, word, path)
  // ---------------------------------------------------------------------

  function NextPositions(board: Board, path: seq<Position>): (r: seq<Position>)
    ensures r == WordFind.NextPositions(|board|, Width(board), path)
  {
    if |path| > 0 then
      var lastPosition := path[|path| - 1];
      AdjacentPositions(board, lastPosition.row, lastPosition.column)
    else
      AllPositions(board)
  }

  /**
    tracePath(board, word, path): the game's search, on the board's own
    dimensions. As there, the board is only read for a non-empty word.
  */
  function TracePath(board: Board, word: string, path: Option<seq<Position>>): (r: Option<seq<Position>>)
    requires |word| == 0 || WellFormed(board)
    decreases |word|, 1
    ensures r == WordFind.TracePath(board, |board|, Width(board), word, path)
  {
    if |word| == 0 then path
    else
      var p := if path.Some? then path.value else [];
      FirstTrace(board, word, p, NextPositions(board, p))
  }

  function FirstTrace(board: Board, word: string, path: seq<Position>, candidates: seq<Position>): (r: Option<seq<Position>>)
    requires WellFormed(board) && |word| > 0
    requires forall c :: c in candidates ==> WordFind.Step(|board|, Width(board), path, c)
    decreases |word|, 0, |candidates|
    ensures r == WordFind.FirstTrace(board, |board|, Width(board), word, path, candidates)
  {
    if |candidates| == 0 then None
    else
      var position := candidates[0];
      assert position in candidates && WordFind.Step(|board|, Width(board), path, position);
      if board[position.row][position.column].letter != word[0] || PathIncludes(path, position) then
        FirstTrace(board, word, path, candidates[1..])
      else
        var newPath := TracePath(board, word[1..], Some(path + [position]));
        if newPath.Some? then newPath else FirstTrace(board, word, path, candidates[1..])
  }

  /** A path the worker returns spells the word, stays on the board, steps to neighbours and never repeats. */
  lemma TracePathSound(board: Board, word: string)
    requires WellFormed(board)
    ensures var r := TracePath(board, word, None);
      r.Some? ==> |word| > 0 && IsTracing(board, |board|, Width(board), word, r.value)
  {
    WordFind.TracePathSound(board, |board|, Width(board), word);
  }

  /** The worker finds a path whenever the non-empty word has a tracing on the board. */
  lemma TracePathComplete(board: Board, word: string, path: seq<Position>)
    requires WellFormed(board) && |word| > 0 && IsTracing(board, |board|, Width(board), word, path)
    ensures TracePath(board, word, None).Some?
  {
    WordFind.TracePathComplete(board, |board|, Width(board), word, path);
  }

  // ---------------------------------------------------------------------
  // onmessage
  // ---------------------------------------------------------------------

  /** The reply onmessage posts: the dictionary filtered by `word => tracePath(board, word)`. */
  function OnMessage(board: Board, dictionary: seq<string>): (r: seq<string>)
    requires WellFormed(board)
    ensures r == WordFind.FindableWords(board, |board|, Width(board), dictionary)
  {
    FilterCongruent(dictionary, word => TracePath(board, word, None).Some?,
                    word => WordFind.TracePath(board, |board|, Width(board), word, None).Some?);
    Filter(dictionary, word => TracePath(board, word, None).Some?)
  }

  /**
    The worker's reply is the dictionary in its order, with exactly the words
    that trace on the board, and it is the list the game's findWords builds
    for a board of the same dimensions.
  */
  lemma OnMessageSpec(board: Board, dictionary: seq<string>)
    requires WellFormed(board)
    ensures var r := OnMessage(board, dictionary);
      && r == WordFind.FindableWords(board, |board|, Width(board), dictionary)
      && IsSubsequence(r, dictionary)
      && (forall word :: word in r <==> word in dictionary && |word| > 0
                                          && exists path :: IsTracing(board, |board|, Width(board), word, path))
  {
    WordFind.FindableWordsSpec(board, |board|, Width(board), dictionary);
  }
}
