# Impossible tic-tac-toe engine, in Dafny

A model of the engine of a terminal tic-tac-toe game (`src/main.rs`). The computer
plays X and maximises, and the human plays O and minimises. The board is nine tiles
in row-major order. The computer chooses its move by exhaustive minimax.

Modules:

- `Wrappers` (wrappers.dfy): `Option`.
- `Grid` (grid.dfy): `Tile`, the 9-tile `Board`, `Game::new`'s board, `get_mut`, the
  "is full" test, and `evaluate`. It also holds an independent table of the eight
  winning lines (`Wins`) and a precedence-ranked reference scorer (`FirstWinner`)
  that `evaluate` is proved against.
- `Search` (search.dfy): `minmax` and `get_best_move_index` as pure recursive
  functions. Each loop of the source is a fold over the tile indices 0..n-1 (`Scan`,
  `BestMoveScan`). The lemmas say what these folds compute: the maximum or minimum
  over the moves, and the smallest index that reaches the best score.
- `Turn` (turn.dfy): the game logic inside `main`, apart from the terminal. This is
  the validation of the human's move and the checks that end a turn, written as pure
  steps from a board to a status and the next board.
- `Engine` (engine.dfy): the `Game` class. Its tiles are an `array<Tile>` that is
  written in place. `MinMax` and `GetBestMoveIndex` loop over the tiles, clone the
  game, mark the clone and recurse, as the source does. Each method is proved equal to
  its pure counterpart. The search methods have no `modifies` clause, so Dafny checks
  that they leave the searched game's tiles unchanged and write only to clones.

Conventions, as in the source:

- Scores: -1 means the human (O) has won, 1 means the computer (X) has won, 0 means
  neither.
- Whose turn it is comes from an explicit `isComputer` flag that flips at each level.
  It is not derived from the parity of the empty tiles.
- A tile index is an `i32`. `get_mut` casts it with `index as usize`, so a negative
  index wraps to a huge value and finds nothing. `AsUsize` writes that wrap out for a
  64-bit target.

Two behaviours of the code that are easy to miss:

- `get_best_move_index` returns -1 not only when no tile is empty. It also returns -1
  when tiles are empty but every one of them scores -1 for X, because its scan keeps a
  move only when the score is strictly greater than the seed -1. `main` then prints
  "Tie!". `Turn.TieDeclaredWithMovesLeft` shows such a board: four tiles are empty and
  the minimax score is -1.
- Only the human's move is validated, and it always writes O. The computer's move is
  written through an unchecked `get_mut(..).unwrap()` (`Engine.Game.SetTile`).

## Model

| member | source | states |
|---|---|---|
| Grid.NewBoard | src/main.rs:34-39 | the new board has nine tiles, all of them Empty |
| Grid.NewBoardUndecided | src/main.rs:34-39 | the new board evaluates to 0, is not full, and has nine empty tiles |
| Grid.AsUsize | src/main.rs:42 | `index as usize` keeps a non-negative index and sends a negative one to at least 2^63 |
| Grid.GetMut | src/main.rs:41-43 | `get_mut(index)` is None exactly when the index is outside 0..8, and otherwise is the tile at that index |
| Grid.EmptyCountZero | src/main.rs:112 | no tile is Empty exactly when the count of empty tiles is 0 |
| Grid.FullHasNoEmpty | src/main.rs:112 | the board is full exactly when no tile is empty |
| Grid.EmptyCountPlace | src/main.rs:119-121 | marking an empty tile lowers the count of empty tiles by exactly one, which is the search's termination measure |
| Grid.Evaluate | src/main.rs:65-108 | the score is -1, 0 or 1 |
| Grid.RowsMeaning | src/main.rs:73-79 | the chunked-row check finds a row all of one mark exactly when one of the three row lines of the table is all that mark |
| Grid.ColumnsMeaning | src/main.rs:82-88 | the column check finds a full column exactly when one of the three column lines of the table is all that mark |
| Grid.DiagonalsMeaning | src/main.rs:91-105 | the two diagonal tests hold exactly when one of the two diagonal lines of the table is all that mark |
| Grid.WinsByGroup | src/main.rs:72-105 | a player holds one of the eight lines exactly when they hold a row, a column or a diagonal |
| Grid.EvaluateMeaning | src/main.rs:65-108 | score 0 exactly when neither player has a line; -1 exactly when O has a line; 1 exactly when X has a line and O has none |
| Grid.EvaluateByPrecedence | src/main.rs:72-105 | evaluate reports the winner of the first group, in the order rows, columns, diagonals, that holds a complete line, with O ahead of X in each group |
| Grid.OverlappingRowsFavourO | src/main.rs:73-79 | with X on the top row and O on the middle row, O's row is reported (-1) |
| Search.MinMax | src/main.rs:110-141 | minmax always returns a score in -1..1; the proof uses the range of every recursive search |
| Search.ChildScore | src/main.rs:118-123 | the score of one candidate move, searched with the turn passed on, lies in -1..1 |
| Search.Scan | src/main.rs:116-139 | the loop's running best score stays in -1..1 |
| Search.MinMaxTerminal | src/main.rs:111-114 | on a decided or full board minmax returns evaluate() unchanged |
| Search.ScanMax | src/main.rs:116-127 | after the computer's loop has visited tiles 0..n-1, the running score is at least every visited empty tile's child score, and equals one of them unless it is still the seed -1 |
| Search.ScanMin | src/main.rs:128-139 | after the human's loop has visited tiles 0..n-1, the running score is at most every visited empty tile's child score, and equals one of them unless it is still the seed 1 |
| Search.MinMaxMaximizes | src/main.rs:116-127 | on an undecided, non-full board minmax(true) is the maximum over the empty tiles i of minmax(false) on the board with X at i: it bounds them all and is attained |
| Search.MinMaxMinimizes | src/main.rs:128-139 | on an undecided, non-full board minmax(false) is the minimum over the empty tiles i of minmax(true) on the board with O at i: it bounds them all and is attained |
| Search.ImmediateWin | src/main.rs:110-141 | a side that can complete a line with its next move gets the winning score from minmax |
| Search.BestMoveScan | src/main.rs:143-158 | during the scan, the best index is -1 exactly when the best score is still -1; otherwise the index is an empty tile already visited, and the score is in -1..1 |
| Search.BestMoveIndex | src/main.rs:143-161 | get_best_move_index returns -1 or the index, in 0..8, of an empty tile |
| Search.BestMoveScanChoice | src/main.rs:147-158 | after a prefix of the scan: the index is -1 exactly when every visited empty tile scores -1; otherwise it is the first visited empty tile whose score is the largest seen |
| Search.BestMoveIndexChoice | src/main.rs:143-161 | -1 exactly when every empty tile scores -1 under minmax(false); otherwise the smallest empty index reaching the maximum of those scores |
| Search.BestMoveIndexFull | src/main.rs:143-161 | on a full board the result is -1 |
| Search.BestMoveIsOptimal | src/main.rs:143-161 | on an undecided, non-full board the chosen move reaches minmax(true) of the board, and -1 is returned exactly when that score is -1 |
| Search.CompletesRow | src/main.rs:143-161 | on [X,X,_,O,O,_,_,_,_] the chosen move is 2, and the board after it evaluates to 1 |
| Turn.HumanStep | src/main.rs:201-220 | a parse failure, a number outside 1..9 and an occupied tile are each reported and each leave the board unchanged; otherwise exactly the chosen tile becomes O and the other eight stay as they were |
| Turn.HumanStepFills | src/main.rs:208-220 | the human's move only fills an empty tile with O, and an accepted move removes exactly one empty tile |
| Turn.HumanStepOutOfRange | src/main.rs:208-212 | the inputs 0 and 10 (0-based -1 and 9) are rejected as invalid tiles |
| Turn.EndOfTurnMeaning | src/main.rs:222-250 | "You won" exactly when evaluate is -1, and then O has a line and no move is made; "You lost" only when X has a line; a full board is a tie; a game that goes on is undecided and not full; the computer adds at most one X and never changes a marked tile |
| Turn.EndOfTurnOptimal | src/main.rs:229-238 | on an undecided, non-full board a tie is declared without a move exactly when minmax(true) is -1; otherwise X is placed on an empty tile whose score equals minmax(true) |
| Turn.TieDeclaredWithMovesLeft | src/main.rs:229-237 | on [O,O,_,O,_,X,_,X,_] no move is chosen (-1) although four tiles are empty, and the turn ends as a tie with the board unchanged |
| Turn.LosingReply | src/main.rs:128-139 | if O can complete a line right after X's move, that move scores -1 |
| Engine.Game.constructor | src/main.rs:34-39 | a new game holds nine empty tiles in a fresh array |
| Engine.Game.Clone | src/main.rs:27-31 | a clone holds the same tiles in an array of its own |
| Engine.Game.SetTile | src/main.rs:120-121 | writing through an unwrapped `get_mut` changes exactly that tile |
| Engine.Game.MinMax | src/main.rs:110-141 | the method's score equals the `Search.MinMax` function of the game's tiles, and it changes no tile of the game it is called on |
| Engine.Game.GetBestMoveIndex | src/main.rs:143-161 | the returned index equals the `Search.BestMoveIndex` function of the game's tiles, and it changes no tile of the game |
| Engine.Game.HumanMove | src/main.rs:208-220 | the status and the new tiles are the human step applied to the old tiles |
| Engine.Game.PlayRound | src/main.rs:195-250 | a rejected input leaves the tiles unchanged and ends nothing; an accepted move is followed by the end-of-turn checks |
| Engine.Game.EndTurn | src/main.rs:222-250 | the outcome and the new tiles are the end-of-turn step applied to the old tiles |

## Left out

- Terminal I/O: the screen clearing, the `prettytable` rendering in `print`, the
  prompts, flushes and `read_line` calls (src/main.rs:45-63, 168-199). These are side
  effects through libraries that are not part of this model.
- The "who starts first (u/c)" prompt loop (src/main.rs:167-191). This includes the
  computer's opening move at src/main.rs:179-181. That move's `unwrap` is safe only
  if the best move on the empty board is not -1, and showing that needs the value of
  the whole game tree.
- Input parsing: `parse::<i32>()` is taken as already done. It reaches the model as
  `Option<I32>`, with None for a failed parse.
- Turn.HumanStep: `result.unwrap() - 1` is computed on unbounded integers. For the
  input i32::MIN, a debug build panics on the overflow. A release build wraps it to
  i32::MAX, which is also rejected as an invalid tile. The model gives "invalid tile"
  and does not model the debug panic.
- `sleep` before the computer's move, which only affects timing (src/main.rs:233).
- `Tile::to_string`, which is used only for display (src/main.rs:18-24).
- The `first` field: it is written but never read by the game logic
  (src/main.rs:29, 181).
- Whole-game optimality: there is no proof that the computer never loses from the
  empty board, because that would mean unfolding the full game tree of about 9!
  lines of play. Only a few concrete positions are checked.
