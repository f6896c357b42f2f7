# Word tracing on a letter grid

A Dafny model of the word-finding core of a Boggle-style game
(`projects/wordfind/`). Given a grid of letter tiles and a word, the search
looks for a path of distinct grid positions. Each step of the path goes to one
of the eight surrounding cells, and the letters along the path spell the word.
The search is a depth-first backtracking search with a fixed exploration
order. It returns the first path it finds, or `undefined` when it finds none.

The code has two copies of the search:

- `Game.tracePath` in `wordfind.js`. Its board size comes from the game's
  `boardHeight` and `boardWidth`. Two operations build on it: `findWord`,
  which accepts a submitted word into the round's `wordsFound` list, and
  `findWords`, which filters a word list.
- The free function `tracePath` in `find.js`. This runs in a worker. It takes
  the board as an argument and reads the size from `board.length` and
  `board[0].length`. The worker's `onmessage` filters the dictionary through
  it.

Modules:

- `Grid` (`grid.dfy`): positions, tiles, the board, and the path predicates
  used in the theorems (`ValidPath`, `Spells`, `IsTracing`, `Extends`,
  `LexLeq`). It also holds `pathIncludes`, which is identical in both files.
- `WordFind` (`wordfind.dfy`): the game's copy.
  - The generators `getAllPositions` and `getAdjacentPositions` become
    sequence-valued functions whose recursion follows the nested counter
    loops.
  - `tracePath` becomes two mutually recursive functions. `TracePath` is the
    function body. `FirstTrace` is its early-returning `for` loop over the
    candidate positions.
  - `findWord` and `findWords` are methods on a class `Game`, which holds the
    round's `wordsFound` inside a `Round` object. The methods take the game's
    fields as their inputs.
- `Find` (`find.dfy`): the worker's copy, written the way `find.js` writes
  it. Every function is proved to equal its `WordFind` counterpart for a grid
  of the board's own size.
- `Seqs` (`seqs.dfy`): `Array.prototype.filter`, with a contract that fully
  determines its result.
- `Scenarios` (`scenarios.dfy`): worked examples on the board with rows `ca`
  and `ts`.

Main results:

- **Soundness.** A returned path has the word's length and spells it. It
  stays in bounds, each step goes to an adjacent cell, and no position
  repeats.
- **Completeness.** For a non-empty word, the result is `undefined` only
  when no such path exists. The empty word always gives `undefined`.
- **Least path.** Both enumerators list positions in row-major order, so the
  path found first is the lexicographically least tracing in row-major order.
- **Equivalence.** The worker's copy returns exactly what the game's copy
  returns.

In four places the code does something other than what a reader of the game
would expect. The model follows the code in each:

- An empty word at the top level gives `undefined` (line 163 of `wordfind.js`
  returns `path` before it is defaulted). It does not give the empty path.
- `findWord` does not check whether the round is over.
- `wordsFound` is an array that is searched with `indexOf`, not a set.
- The search is described as returning the "first found" path, not the
  lexicographically smallest one. Under row-major order on positions, the first path found is in
  fact the smallest (`WordFind.TracePathLeast`).

## Model

| member | source | states |
|---|---|---|
| `Grid.PathIncludes` | projects/wordfind/wordfind.js:212-216 | true exactly when some position on the path has the same row and column, i.e. the position is on the path (find.js:53-57 is the same code) |
| `WordFind.ColumnsFrom` | projects/wordfind/wordfind.js:206-208 | the inner loop gives column, column+1, ... of one row, each once, in increasing order, `w - column` of them |
| `WordFind.RowsFrom` | projects/wordfind/wordfind.js:205-209 | the outer loop gives every cell of rows `row` to `h-1`, each once, in row-major order, `(h - row) * w` of them |
| `WordFind.AllPositions` | projects/wordfind/wordfind.js:204-210 | getAllPositions gives every in-bounds cell exactly once, in strictly increasing row-major order; `h * w` cells |
| `WordFind.ColumnSweep` | projects/wordfind/wordfind.js:190-200 | for one row offset: exactly the in-bounds cells in that row at the remaining column offsets, skipping the centre, in increasing column order |
| `WordFind.RowSweep` | projects/wordfind/wordfind.js:188-201 | over the remaining row offsets: exactly the in-bounds cells at those offsets within one column of the centre, other than the centre, in row-major order |
| `WordFind.AdjacentPositions` | projects/wordfind/wordfind.js:187-202 | getAdjacentPositions gives exactly the in-bounds 8-neighbours of (row, column), never the centre, at most 8, in row-offset-then-column-offset (row-major) order |
| `WordFind.NextPositions` | projects/wordfind/wordfind.js:165-174 | the candidates are exactly the in-bounds cells for an empty path, or the in-bounds neighbours of the last position; sorted row-major |
| `WordFind.TracePath` | projects/wordfind/wordfind.js:162-185 | a path returned for a given path keeps that path as its prefix and adds one position per letter; the board is read only for a non-empty word; what the path spells and that it is least are `WordFind.TraceSound`, `WordFind.TraceComplete`, `WordFind.TraceLeast` and `WordFind.TracePathFinds` |
| `WordFind.FirstTrace` | projects/wordfind/wordfind.js:175-184 | a path the candidate loop returns keeps the given path as its prefix and adds one position per letter; the rest of its contract is `WordFind.FirstTraceSound`, `WordFind.FirstTraceComplete` and `WordFind.FirstTraceLeast` |
| `WordFind.TraceSound` | projects/wordfind/wordfind.js:162-185 | inside the recursion, a returned path starts with the given valid path, and the rest spells the remaining word along a valid path; an exhausted word returns the path unchanged |
| `WordFind.FirstTraceSound` | projects/wordfind/wordfind.js:175-184 | whatever the candidate loop returns extends the path validly with the word |
| `WordFind.StepSound` | projects/wordfind/wordfind.js:176-183 | a candidate that has the letter and is not on the path extends the path validly; the recursive call only appends to `[...path, position]` |
| `WordFind.TraceComplete` | projects/wordfind/wordfind.js:162-185 | if any valid extension of the path spells the remaining word, the recursion returns a path |
| `WordFind.FirstTraceComplete` | projects/wordfind/wordfind.js:175-184 | if the first step of some valid extension is among the candidates, the loop returns a path |
| `WordFind.TraceLeast` | projects/wordfind/wordfind.js:162-185 | the returned extension is lexicographically no greater (row-major) than any other valid extension of the path |
| `WordFind.FirstTraceLeast` | projects/wordfind/wordfind.js:175-184 | over sorted candidates, the loop's result is no greater than any valid extension whose first step is a candidate |
| `WordFind.TracePathSound` | projects/wordfind/wordfind.js:162-185 | a path returned by tracePath(word) is for a non-empty word; it has the word's length, the letter at each position is the word's letter there, all positions are in bounds, consecutive positions are 8-adjacent and distinct, and no position repeats |
| `WordFind.TracePathComplete` | projects/wordfind/wordfind.js:175-184 | if any in-bounds, adjacent, repeat-free tracing of a non-empty word exists, tracePath(word) returns a path, not undefined |
| `WordFind.TracePathLeast` | projects/wordfind/wordfind.js:175-184 | the returned path is lexicographically least (row-major) among all tracings of the word, which pins down the first-found result |
| `WordFind.TracePathFinds` | projects/wordfind/wordfind.js:162-164 | tracePath(word) is truthy if and only if the word is non-empty and some tracing exists; so the empty word gives undefined |
| `WordFind.FindableWords` | projects/wordfind/wordfind.js:159 | every word in the list comes from the dictionary and is non-empty; the full contract is `WordFind.FindableWordsSpec` |
| `WordFind.FindableWordsSpec` | projects/wordfind/wordfind.js:158-160 | the filtered list is a subsequence of the dictionary; it holds exactly the dictionary words that are non-empty and have a tracing, each with its dictionary multiplicity |
| `WordFind.Round.constructor` | projects/wordfind/wordfind.js:51 | a new round has no words found |
| `WordFind.Game.constructor` | projects/wordfind/wordfind.js:91-122 | the game holds the given sizes, board and dictionary lookup, with no round and no words |
| `WordFind.Game.FindWords` | projects/wordfind/wordfind.js:158-160 | `words` becomes the traceable words of the dictionary; nothing else changes |
| `WordFind.Game.FindWord` | projects/wordfind/wordfind.js:218-228 | accepts exactly when the word is not yet in wordsFound, tracePath(word) is truthy and lookup(word) holds; on acceptance wordsFound gains the word once at its end, otherwise it is unchanged; an accepted word is non-empty; it preserves "no duplicates, every credited word traces and passes the dictionary" |
| `Seqs.Filter` | projects/wordfind/find.js:61 | the result is a subsequence of the input; it keeps every occurrence of a kept element and no other element |
| `Find.ColumnsFrom` | projects/wordfind/find.js:47-49 | the worker's inner loop equals the game's, with the width `board[0].length` |
| `Find.RowsFrom` | projects/wordfind/find.js:46-50 | the worker's outer loop equals the game's, with height `board.length` |
| `Find.AllPositions` | projects/wordfind/find.js:45-51 | equals the game's getAllPositions for `board.length` by `board[0].length`; every cell once, row-major |
| `Find.ColumnSweep` | projects/wordfind/find.js:31-41 | equals the game's inner neighbour loop on the board's own size |
| `Find.RowSweep` | projects/wordfind/find.js:30-42 | equals the game's outer neighbour loop on the board's own size |
| `Find.AdjacentPositions` | projects/wordfind/find.js:28-43 | equals the game's getAdjacentPositions; exactly the in-bounds 8-neighbours other than the centre, at most 8, in the fixed offset order |
| `Find.NextPositions` | projects/wordfind/find.js:6-15 | the worker's choice of candidates equals the game's |
| `Find.TracePath` | projects/wordfind/find.js:3-26 | the worker's tracePath(board, word, path) returns the same result as the game's tracePath with boardHeight = board.length and boardWidth = board[0].length |
| `Find.FirstTrace` | projects/wordfind/find.js:16-25 | the worker's candidate loop returns the same result as the game's |
| `Find.TracePathSound` | projects/wordfind/find.js:3-26 | a path the worker returns is for a non-empty word, has its length, spells it, stays within board.length by board[0].length, steps to 8-neighbours and never repeats a position |
| `Find.TracePathComplete` | projects/wordfind/find.js:16-25 | the worker returns a path whenever the non-empty word has a tracing on the board |
| `Find.OnMessage` | projects/wordfind/find.js:59-62 | the worker's reply equals the game's findWords list for a board of the same dimensions; the rest of its contract is `Find.OnMessageSpec` |
| `Find.OnMessageSpec` | projects/wordfind/find.js:59-62 | the reply is the dictionary filtered in its original order; it holds exactly the non-empty words with a tracing; it equals the game's findWords list for the same board |
| `Scenarios.CatTraces` | projects/wordfind/wordfind.js:162-185 | on rows `ca`/`ts`, "cat" traces (0,0), (0,1), (1,0) |
| `Scenarios.CatsTraces` | projects/wordfind/wordfind.js:162-185 | on rows `ca`/`ts`, "cats" traces (0,0), (0,1), (1,0), (1,1) |
| `Scenarios.DogMissing` | projects/wordfind/wordfind.js:175-185 | on rows `ca`/`ts`, "dog" gives undefined, because no tile carries a `d` |
| `Scenarios.EmptyWordMissing` | projects/wordfind/wordfind.js:163 | the empty word has the empty path as a vacuous tracing, yet tracePath("") is undefined |

## Left out

- `cumSums`, `weightedChoice` and `testWeightedChoice` (wordfind.js:2-39):
  they use floating-point sums and `Math.random`.
- `Game.newBoard` and `chooseLetter` (wordfind.js:140-156): they depend on the
  random sampler. The board they build is an input to the `Game`
  constructor, and every tile holds a letter. A tile whose letter came back
  `undefined` from the sampler is not modelled.
- The `Round` timer (`start`, `updateTimer`, `end`, `isOver`;
  wordfind.js:48-88): it is driven by `Date.now`, `requestAnimationFrame` and
  callbacks. `Round` keeps only `wordsFound`. `findWord` never reads
  `isOver`.
- The `Worker` in the `Game` constructor, `newRound`'s message listener, and
  the `postMessage`/`onmessage` transport (wordfind.js:120, 124-138;
  find.js:59-63): these are concurrency and event plumbing. `Find.OnMessage`
  models only the reply's contents.
- The Vue view model (wordfind.js:234-284): it is UI only.
- The `DICTIONARY` list and `DICTIONARY_TRIE` (find.js:1, wordfind.js:103):
  they are external data. The word list is a sequence parameter, and
  `dictionary.lookup` is the function-valued field `Game.lookup`, about which
  nothing is assumed.
- `WordFind.TracePath` and `Find.TracePath` require, for a non-empty word, the
  full h-by-w board that `newBoard` builds (`Covers` / `WellFormed`). The
  empty word is accepted on any board, as the source returns `undefined`
  before reading it. On a ragged board the source throws only if the search
  reads a missing cell, and may otherwise return a path. Such boards are not
  modelled.
- `WordFind.Game.FindWord` requires a current round. With `round` null the
  source throws a TypeError.
- Game state: the game's `tracePath` reads only `this.board`,
  `this.boardHeight` and `this.boardWidth`. The model passes these as
  arguments instead of making it a class member.
- Integers and text: JavaScript strings are modelled as sequences of Dafny
  characters, with no UTF-16 surrogate handling. Board sizes are natural
  numbers.
