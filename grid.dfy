/**
  The board, its positions and the properties of a traced path, shared by the
  game's search (wordfind.js) and the worker's copy of it (find.js).
*/
module Grid {

  /** A `{row, column}` object. */
  datatype Position = Position(row: int, column: int)

  /** A `{letter, selected}` tile; `selected` only drives the view. */
  datatype Cell = Cell(letter: char, selected: bool)

  /** An array of rows of tiles, indexed `board[row][column]`. */
  type Board = seq<seq<Cell>>

  predicate InBounds(h: int, w: int, p: Position)
  {
    0 <= p.row < h && 0 <= p.column < w
  }

  /** Every cell of an h-by-w grid can be read from `board`: the shape a freshly built board has. */
  predicate Covers(board: Board, h: nat, w: nat)
  {
    h <= |board| && forall r :: 0 <= r < h ==> w <= |board[r]|
  }

  /** `board[0].length`, which is only ever read when the board has a row. */
  function Width(board: Board): (n: nat)
  {
    if |board| == 0 then 0 else |board[0]|
  }

  function LetterAt(board: Board, h: nat, w: nat, p: Position): (c: char)
    requires Covers(board, h, w) && InBounds(h, w, p)
  {
    board[p.row][p.column].letter
  }

  /** One of the (up to) eight cells surrounding p. */
  predicate Adjacent(p: Position, q: Position)
  {
    -1 <= q.row - p.row <= 1 && -1 <= q.column - p.column <= 1 && p != q
  }

  /** Row-major order on positions. */
  predicate Before(p: Position, q: Position)
  {
    p.row < q.row || (p.row == q.row && p.column < q.column)
  }

  predicate StrictlySorted(s: seq<Position>)
  {
    forall i, j :: 0 <= i < j < |s| ==> Before(s[i], s[j])
  }

  /** `pathIncludes`: some position on the path has the same row and column. */
  function PathIncludes(path: seq<Position>, position: Position): (r: bool)
    ensures r <==> position in path
  {
    |path| > 0
    && ((path[0].row == position.row && path[0].column == position.column)
        || PathIncludes(path[1..], position))
  }

  /** In bounds, each step to an adjacent cell, and no position visited twice. */
  predicate ValidPath(h: nat, w: nat, path: seq<Position>)
  {
    && (forall i :: 0 <= i < |path| ==> InBounds(h, w, path[i]))
    && (forall i :: 0 < i < |path| ==> Adjacent(path[i - 1], path[i]))
    && (forall i, j :: 0 <= i < j < |path| ==> path[i] != path[j])
  }

  /** The letters at the positions of s, read in order, are the word. */
  predicate Spells(board: Board, h: nat, w: nat, s: seq<Position>, word: string)
    requires Covers(board, h, w)
  {
    |s| == |word|
    && forall i :: 0 <= i < |s| ==> InBounds(h, w, s[i]) && LetterAt(board, h, w, s[i]) == word[i]
  }

  /** path is a tracing of word on the board. */
  predicate IsTracing(board: Board, h: nat, w: nat, word: string, path: seq<Position>)
    requires Covers(board, h, w)
  {
    ValidPath(h, w, path) && Spells(board, h, w, path, word)
  }

  /** s continues the partial path `prefix` into a tracing of `word` after it. */
  predicate Extends(board: Board, h: nat, w: nat, prefix: seq<Position>, s: seq<Position>, word: string)
    requires Covers(board, h, w)
  {
    ValidPath(h, w, prefix + s) && Spells(board, h, w, s, word)
  }

  /** Lexicographic order on equally long paths, by row-major order of positions. */
  predicate LexLeq(a: seq<Position>, b: seq<Position>)
  {
    a == [] || b == [] || Before(a[0], b[0]) || (a[0] == b[0] && LexLeq(a[1..], b[1..]))
  }

  /** A row-major sorted sequence followed by one whose elements all come later is sorted. */
  lemma SortedConcat(a: seq<Position>, b: seq<Position>)
    requires StrictlySorted(a) && StrictlySorted(b)
    requires forall x, y :: x in a && y in b ==> Before(x, y)
    ensures StrictlySorted(a + b)
  {
  }

  /** Extending a valid path by an in-bounds, adjacent, unvisited position keeps it valid. */
  lemma ValidPathPush(h: nat, w: nat, path: seq<Position>, p: Position)
    requires ValidPath(h, w, path) && InBounds(h, w, p) && p !in path
    requires |path| > 0 ==> Adjacent(path[|path| - 1], p)
    ensures ValidPath(h, w, path + [p])
  {
  }
}
