# Connect Four game-state engine

A Dafny model of the game logic of a browser Connect Four page (`script.js`):
a 6-row by 7-column board whose cells hold 0 (empty), 1 or 2, the player to
move, dropping a token into a column, the four-in-a-row check, the draw check,
the list of playable columns, the random automated opponent and the turn
sequencing (win, then draw, then the other player).

Two modules:

- `Board` (`board.dfy`) states the rules over board values (`Grid`, a sequence
  of six rows of seven cells): where a dropped token lands (`LowestEmpty`,
  `Drop`), the gravity invariant (`Settled`: no empty cell below an occupied
  one), four in a row (`HasFour`, which follows the source's four scan
  directions, and `HasLine`, an independent definition that accepts a line
  read in any of the eight directions), a full board, the ascending list of
  open columns, and the verdict after a move (`Verdict`).
- `Game` (`game.dfy`) is the page's mutable state as a class `ConnectFour`:
  the board as an `array2<int>` updated in place and `currentPlayer`. A ghost
  field `Cells` holds the board as a value; `Valid()` ties it to the array and
  also requires the cells to be 0, 1 or 2, gravity to hold,
  `currentPlayer` to be 1 or 2, and, while the game goes on (ghost flag
  `gameOver` unset), the player not to move to have no line of four. Every
  method keeps `Valid()`. `MakeMove` and
  `CheckWinner` are loops, like the source's. `IsDraw` and `GetValidMoves` are
  functions, because the source computes them as single expressions.

Row 0 is the top row, as in the source. `makeMove` has two callers: the
click handler passes the `data-col` of a rendered cell, and the automated
player's callback passes a column taken from `getValidMoves`. Both pass a
column in 0..6, so `MakeMove` requires `0 <= col < COLS`; the `undefined`
column the automated player could produce is discussed under "Left out".

## Model

| member | source | states |
|---|---|---|
| `Board.Other` | script.js:90 | the other player of 1 is 2 and of 2 is 1; the result is a player and differs from the argument |
| `Board.LowestEmpty` | script.js:33-34 | the scan finds no row exactly when the column is full; a row it finds is empty and every cell below it is occupied |
| `Board.Drop` | script.js:32-39 | a full column gives no board; otherwise exactly one cell changes, namely the lowest empty cell of the column, which now holds the player; no occupied cell changes |
| `Board.DropStep` | script.js:33-37 | a token dropped into a column that is empty from the top down to row `row` and owned by the player below it lands on `row` |
| `Board.DropKeepsSettled` | script.js:33-36 | a drop keeps the gravity invariant, and keeps every cell in {0, 1, 2} when the dropper is player 1 or 2 |
| `Board.FullIffTopOccupied` | script.js:33-39 | under gravity a column is full exactly when its top cell (row 0) is occupied |
| `Board.DropFailsIffTopOccupied` | script.js:32-39 | under gravity a drop fails exactly when the top cell of the column is occupied, so the columns listed as valid moves are exactly those a drop succeeds in |
| `Board.ReverseRun` | script.js:49-58 | a line of four read from its far end in the opposite direction covers the same four cells |
| `Board.HasFourIffHasLine` | script.js:42-64 | scanning only right, down, down-right and down-left from every cell finds a four in a row exactly when one exists in any of the eight directions |
| `Board.DropGivesNoFourToOthers` | script.js:32-39 | a drop by one player never completes a line of four for any other player, so after a move only the mover can have a new win |
| `Board.FirstDropNoWinner` | script.js:32-64 | after one drop into the all-zero board the drop succeeds, no player has four in a row and the board is not full |
| `Board.EmptyGridHasNoWinner` | script.js:11-12 | on the all-zero starting board neither player 1 nor player 2 has four in a row |
| `Board.FourDropsWinVertically` | script.js:33-59 | four successive drops by one player into an empty column all succeed, and afterwards that player owns the vertical line of four from row 2 down to the bottom row of that column, so has four in a row |
| `Board.OnlyFirstColumnFull` | script.js:70-72 | when only column 0 has an occupied top cell, the ascending list of open columns is exactly [1, 2, 3, 4, 5, 6] |
| `Board.FullIffNoOpenColumn` | script.js:66-72 | under gravity the board is full exactly when the list of open columns is empty |
| `Board.Verdict` | script.js:79-90 | after a move the mover has won exactly when the mover has four in a row; a draw exactly when the board is full and the mover has not won; otherwise play passes to the other player |
| `Game.ConnectFour.constructor` | script.js:110 | loading the page starts a game: a fresh all-empty 6 x 7 board, player 1 to move, game not over, invariant established |
| `Game.ConnectFour.InitGame` | script.js:10-16 | a restart allocates a fresh all-empty board, sets player 1 to move and starts a game that is not over |
| `Game.ConnectFour.MakeMove` | script.js:32-40 | returns true exactly when the column has an empty cell; the new board is the drop of the current player's token into the lowest empty cell, or the old board when the column is full; the player to move and the invariants (gravity, cell range, no line of four for the player not to move) are kept |
| `Game.ConnectFour.CheckWinner` | script.js:42-64 | the nested scan returns true exactly when the player owns four cells in a row from some cell, in one of the four scan directions, every cell on the board |
| `Game.ConnectFour.IsDraw` | script.js:66-68 | true exactly when every one of the 42 cells is non-zero |
| `Game.ConnectFour.GetValidMoves` | script.js:70-72 | the result contains exactly the columns whose top cell is empty, strictly increasing (hence without duplicates) |
| `Game.ConnectFour.SimpleAIMove` | script.js:74-77 | whatever index the random draw yields, the chosen column is open and a drop into it succeeds |
| `Game.ConnectFour.NextTurn` | script.js:79-90 | reports a win for the mover when the mover has four in a row, else a draw when the board is full, else passes the turn to the other player; the player to move stays 1 or 2, is unchanged after a win or draw, and a player who is handed the turn always has an open column; a draw reached during play has no line of four for either player |
| `Game.ConnectFour.AITurn` | script.js:92-96 | the delayed callback drops the token of whoever is to move when it fires into an open column, then settles the turn exactly as `NextTurn` does: the same verdict and player to move, the game over exactly when the verdict is a win or draw, an open column for whoever is handed the move, and no line of four for either player on a draw reached during play |
| `Game.ConnectFour.AITurnGuarded` | script.js:91-96 | the callback with a check that player 2 is to move: it plays exactly when player 2 is to move, then drops only player 2's token and hands the move back to player 1 unless the game is over, with the other guarantees of `NextTurn`; otherwise it needs no open column and leaves board, player to move and the game-over flag unchanged |
| `Game.VerticalWinScenario` | script.js:33-59 | on a fresh game, four drops by player 1 into column 3 make the win check report true |
| `Game.RestartDuringAIDelay` | script.js:90-95 | player 1 moves and the turn passes to player 2; after a restart the pending callback places a token of player 1 on the fresh board and hands the move to player 2 again |

## Left out

- Rendering and the page: `renderBoard`, the element lookups, `message.textContent` and `pointerEvents` (script.js:6-8, 13-15, 18-30, 82-83, 87) are presentation. `NextTurn` returns the verdict the message would show instead.
- The click and restart listeners and the `parseInt` of the clicked cell's column (script.js:100-108) are event plumbing. Their effect on the model is the precondition `0 <= col < COLS` of `MakeMove`.
- The 500 ms `setTimeout` before the automated move (script.js:92) is not modelled as a timer. `AITurn` runs the callback's body whenever it is called, in whatever state it finds, which covers a callback that fires after a restart (see "Findings"). The model does not track how many callbacks are pending.
- `Math.random` (script.js:76) becomes the parameter `pick`, the index into the list of open columns.
- SimpleAIMove: the source returns `undefined` when no column is open; the model requires an index into a non-empty list instead. A callback that `NextTurn` has just scheduled always finds an open column, because `NextTurn` guarantees one when it passes the turn. Only a stale callback left over from before a restart (see "Findings") could reach a full board; there `makeMove(undefined)` changes nothing, and that case is not modelled for `AITurn`. `AITurnGuarded` returns before picking a column when player 1 is to move, so it needs no open column in that case.
- Minimax search with alpha-beta pruning and a positional evaluator: `script.js` contains neither, so there is nothing to model.
- JavaScript numbers are doubles, but every value involved (cells 0 to 2, indices below 7) is a small integer, so unbounded `int` is exact.
- The global `board` and `currentPlayer` variables become the fields of one `ConnectFour` object.

## Findings

| source | as written | input that shows it | evidently intended | confidence | as-written member | corrected member |
|---|---|---|---|---|---|---|
| script.js:92-96 | the automated move's `setTimeout` callback is never cancelled, and it plays for whoever `currentPlayer` is when it fires | restart (script.js:108, which resets `currentPlayer` to 1 at script.js:12) within 500 ms of the human's move: the callback drops a token of player 1 on the fresh board and passes the move to player 2 | the automated move is only ever made for player 2 | not executed | `Game.RestartDuringAIDelay` | `Game.ConnectFour.AITurnGuarded` |
