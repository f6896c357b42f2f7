/**
  The worked scenarios for a 2-by-2 board with rows "ca" and "ts", derived
  from the theorems about the search rather than by running it.
*/
module Scenarios {
  import opened Wrappers
  import opened Grid
  import WordFind

  function CatBoard(): Board
  {
    [[Cell('c', false), Cell('a', false)], [Cell('t', false), Cell('s', false)]]
  }

  /** Each letter of the board sits in exactly one cell. */
  lemma CatBoardCell(p: Position)
    requires InBounds(2, 2, p)
    ensures LetterAt(CatBoard(), 2, 2, p) == 'c' <==> p == Position(0, 0)
    ensures LetterAt(CatBoard(), 2, 2, p) == 'a' <==> p == Position(0, 1)
    ensures LetterAt(CatBoard(), 2, 2, p) == 't' <==> p == Position(1, 0)
    ensures LetterAt(CatBoard(), 2, 2, p) == 's' <==> p == Position(1, 1)
  {
  }

  /**
    "cat" traces (0,0) -> (0,1) -> (1,0).
    The board and the word are parameters pinned by the requires: with the
    literals written into the call, the solver unfolds the search without end.
  */
  lemma CatTraces(b: Board, word: string)
    requires b == CatBoard() && word == "cat"
    ensures WordFind.TracePath(b, 2, 2, word, None) == Some([Position(0, 0), Position(0, 1), Position(1, 0)])
  {
    var path := [Position(0, 0), Position(0, 1), Position(1, 0)];
    CatPath(b, word, path);
    WordFind.TracePathComplete(b, 2, 2, word, path);
    WordFind.TracePathSound(b, 2, 2, word);
    CatOnlyPath(b, word, WordFind.TracePath(b, 2, 2, word, None).value);
  }

  lemma CatPath(b: Board, word: string, path: seq<Position>)
    requires b == CatBoard() && word == "cat" && path == [Position(0, 0), Position(0, 1), Position(1, 0)]
    ensures IsTracing(b, 2, 2, word, path)
  {
  }

  /** The only tracing of "cat". */
  lemma CatOnlyPath(b: Board, word: string, path: seq<Position>)
    requires b == CatBoard() && word == "cat" && IsTracing(b, 2, 2, word, path)
    ensures path == [Position(0, 0), Position(0, 1), Position(1, 0)]
  {
  }

  /**
    "cats" traces (0,0) -> (0,1) -> (1,0) -> (1,1).
    The board and the word are parameters pinned by the requires: with the
    literals written into the call, the solver unfolds the search without end.
  */
  lemma CatsTraces(b: Board, word: string)
    requires b == CatBoard() && word == "cats"
    ensures WordFind.TracePath(b, 2, 2, word, None)
            == Some([Position(0, 0), Position(0, 1), Position(1, 0), Position(1, 1)])
  {
    var path := [Position(0, 0), Position(0, 1), Position(1, 0), Position(1, 1)];
    CatsPath(b, word, path);
    WordFind.TracePathComplete(b, 2, 2, word, path);
    WordFind.TracePathSound(b, 2, 2, word);
    CatsOnlyPath(b, word, WordFind.TracePath(b, 2, 2, word, None).value);
  }

  lemma CatsPath(b: Board, word: string, path: seq<Position>)
    requires b == CatBoard() && word == "cats"
    requires path == [Position(0, 0), Position(0, 1), Position(1, 0), Position(1, 1)]
    ensures IsTracing(b, 2, 2, word, path)
  {
  }

  /** The only tracing of "cats". */
  lemma CatsOnlyPath(b: Board, word: string, path: seq<Position>)
    requires b == CatBoard() && word == "cats" && IsTracing(b, 2, 2, word, path)
    ensures path == [Position(0, 0), Position(0, 1), Position(1, 0), Position(1, 1)]
  {
  }

  /** "dog" has no tracing: no cell carries a 'd'. */
  lemma DogMissing()
    ensures WordFind.TracePath(CatBoard(), 2, 2, "dog", None) == None
  {
    var b := CatBoard();
    WordFind.TracePathSound(b, 2, 2, "dog");
    var r := WordFind.TracePath(b, 2, 2, "dog", None);
    if r.Some? {
      CatBoardCell(r.value[0]);
      assert false;
    }
  }

  /** The empty word is not found, although it vacuously has the empty tracing. */
  lemma EmptyWordMissing()
    ensures IsTracing(CatBoard(), 2, 2, "", [])
    ensures WordFind.TracePath(CatBoard(), 2, 2, "", None) == None
  {
  }
}
