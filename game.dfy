/** The game state of the page script: a 6 x 7 board updated in place and the
    player whose turn it is. */
module Game {
  import opened Board

  class ConnectFour {
    /** Cell (r, c) of the board; row 0 is the top row. */
    var board: array2<int>
    /** The player to move, 1 or 2. */
    var currentPlayer: int
    /** The board as a value; Valid() keeps it equal to the array. */
    ghost var Cells: Grid
    /** The last verdict ended the game (a win or a draw). */
    ghost var gameOver: bool

    ghost predicate Valid()
      reads this, board
    {
      board.Length0 == ROWS && board.Length1 == COLS &&
      WellFormed(Cells) &&
      (forall r, c :: InBounds(r, c) ==> board[r, c] == Cells[r][c]) &&
      CellsInRange(Cells) && Settled(Cells) && IsPlayer(currentPlayer) &&
      // while the game goes on, only the player to move can have completed a line
      (!gameOver ==> !HasFour(Cells, Other(currentPlayer)))
    }

    /** Loading the page starts a game. */
    constructor ()
      ensures Valid() && fresh(board)
      ensures Cells == EmptyGrid() && currentPlayer == 1 && !gameOver
    {
      board := new int[0, 0];
      currentPlayer := 1;
      new;
      InitGame();
    }

    /** Starts a new game: an all-empty board, player 1 to move. */
    method InitGame()
      modifies this
      ensures Valid() && fresh(board)
      ensures Cells == EmptyGrid() && currentPlayer == 1 && !gameOver
    {
      board := new int[ROWS, COLS]((_, _) => EMPTY);
      currentPlayer := 1;
      Cells := EmptyGrid();
      gameOver := false;
      EmptyGridHasNoWinner(2);
    }

    /** The current player drops a token into column `col`. The column is
        scanned from the bottom row upward; the first empty cell receives the
        token. A full column leaves the board as it is and reports false. */
    method MakeMove(col: int) returns (placed: bool)
      requires Valid() && 0 <= col < COLS
      modifies this`Cells, board
      ensures Valid() && board == old(board) && currentPlayer == old(currentPlayer)
      ensures placed <==> Drop(old(Cells), col, currentPlayer).Some?
      ensures Cells == if placed then Drop(old(Cells), col, currentPlayer).value else old(Cells)
    {
      var r := ROWS - 1;
      while r >= 0
        invariant -1 <= r < ROWS
        invariant Valid() && Cells == old(Cells)
        invariant forall k :: r < k < ROWS ==> Cells[k][col] != EMPTY
      {
        if board[r, col] == EMPTY {
          ghost var g := Cells;
          assert IsLowestEmpty(g, col, r);
          assert LowestEmpty(g, col) == Some(r);
          DropKeepsSettled(g, col, currentPlayer);
          DropGivesNoFourToOthers(g, col, currentPlayer, Other(currentPlayer));
          board[r, col] := currentPlayer;
          Cells := g[r := g[r][col := currentPlayer]];
          placed := true;
          return;
        }
        r := r - 1;
      }
      placed := false;
    }

    /** Does `player` own four in a row? Every cell the player owns is tried as
        the start of a run to the right, down, down-right and down-left; a run
        needs the three following cells on the board and owned by the player. */
    method CheckWinner(player: int) returns (won: bool)
      requires Valid()
      ensures won <==> HasFour(Cells, player)
    {
      for r := 0 to ROWS
        invariant forall r', c' :: 0 <= r' < r && 0 <= c' < COLS ==> NoRunAt(Cells, r', c', player)
      {
        for c := 0 to COLS
          invariant forall r', c' :: 0 <= r' < r && 0 <= c' < COLS ==> NoRunAt(Cells, r', c', player)
          invariant forall c' :: 0 <= c' < c ==> NoRunAt(Cells, r, c', player)
        {
          if board[r, c] != player {
            forall k | 0 <= k < 4 ensures !RunFrom(Cells, r, c, DIRECTIONS[k].0, DIRECTIONS[k].1, player) {
              assert !OwnsStep(Cells, r, c, DIRECTIONS[k].0, DIRECTIONS[k].1, 0, player);
            }
            continue;
          }
          for k := 0 to |DIRECTIONS|
            invariant forall k' :: 0 <= k' < k ==> !RunFrom(Cells, r, c, DIRECTIONS[k'].0, DIRECTIONS[k'].1, player)
          {
            var (dr, dc) := DIRECTIONS[k];
            var win := true;
            var i := 1;
            while i < 4
              invariant 1 <= i <= 4 && win
              invariant forall j :: 1 <= j < i ==> OwnsStep(Cells, r, c, dr, dc, j, player)
            {
              var nr := r + dr * i;
              var nc := c + dc * i;
              if nr < 0 || nr >= ROWS || nc < 0 || nc >= COLS || board[nr, nc] != player {
                assert !OwnsStep(Cells, r, c, dr, dc, i, player);
                win := false;
                break;
              }
              i := i + 1;
            }
            if win {
              assert OwnsStep(Cells, r, c, dr, dc, 0, player);
              assert RunFrom(Cells, r, c, DIRECTIONS[k].0, DIRECTIONS[k].1, player);
              return true;
            }
          }
        }
      }
      forall r, c, k | 0 <= k < 4 ensures !RunFrom(Cells, r, c, DIRECTIONS[k].0, DIRECTIONS[k].1, player) {
        if InBounds(r, c) {
          assert NoRunAt(Cells, r, c, player);
        } else {
          assert !OwnsStep(Cells, r, c, DIRECTIONS[k].0, DIRECTIONS[k].1, 0, player);
        }
      }
      return false;
    }

    /** The game is drawn when no cell is empty. */
    predicate IsDraw()
      reads this, board
      requires Valid()
      ensures IsDraw() <==> Full(Cells)
    {
      forall r, c :: 0 <= r < ROWS && 0 <= c < COLS ==> board[r, c] != EMPTY
    }

    /** The columns whose top cell is empty, in ascending order. */
    function GetValidMoves(): (moves: seq<int>)
      reads this, board
      requires Valid()
      ensures IsOpenColumnList(Cells, moves)
    {
      OpenColumnsFrom(0)
    }

    /** The open columns among `c` .. COLS - 1, in ascending order. */
    function OpenColumnsFrom(c: int): (moves: seq<int>)
      reads this, board
      requires Valid() && 0 <= c <= COLS
      ensures StrictlyIncreasing(moves)
      ensures forall x :: x in moves <==> c <= x && IsOpen(Cells, x)
      decreases COLS - c
    {
      if c == COLS then []
      else
        var rest := OpenColumnsFrom(c + 1);
        if board[0, c] == EMPTY then
          assert forall i :: 0 <= i < |rest| ==> rest[i] in rest;
          [c] + rest
        else rest
    }

    /** The automated player picks one of the open columns; `pick` stands for the
        random index into the list of open columns. */
    function SimpleAIMove(pick: nat): (col: int)
      reads this, board
      requires Valid() && pick < |GetValidMoves()|
      ensures IsOpen(Cells, col)
      ensures Drop(Cells, col, currentPlayer).Some?
    {
      var moves := GetValidMoves();
      assert moves[pick] in moves;
      DropFailsIffTopOccupied(Cells, moves[pick], currentPlayer);
      moves[pick]
    }

    /** After a move by the current player: a win by the mover ends the game,
        otherwise a full board ends it as a draw, otherwise the other player is
        to move, who then always has an open column. A draw reached while the
        game was going on has no line of four for either player. */
    method NextTurn() returns (outcome: Outcome)
      requires Valid()
      modifies this`currentPlayer, this`gameOver
      ensures Valid()
      ensures outcome == Verdict(Cells, old(currentPlayer))
      ensures currentPlayer == if outcome.InProgress? then outcome.next else old(currentPlayer)
      ensures gameOver <==> !outcome.InProgress?
      ensures outcome.InProgress? ==> |GetValidMoves()| > 0
      ensures outcome.Drawn? && !old(gameOver) ==> !HasFour(Cells, 1) && !HasFour(Cells, 2)
    {
      var won := CheckWinner(currentPlayer);
      if won {
        gameOver := true;
        return Won(currentPlayer);
      }
      if IsDraw() {
        gameOver := true;
        return Drawn;
      }
      currentPlayer := if currentPlayer == 1 then 2 else 1;
      gameOver := false;
      FullIffNoOpenColumn(Cells, GetValidMoves());
      outcome := InProgress(currentPlayer);
    }

    /** The delayed callback of the automated player, as written: it drops a
        token of whoever is to move when it fires into a randomly picked open
        column and settles the turn. That is player 2 when NextTurn scheduled
        it, but a restart during the delay makes it player 1. */
    method AITurn(pick: nat) returns (col: int, outcome: Outcome)
      requires Valid() && pick < |GetValidMoves()|
      modifies this, board
      ensures Valid() && board == old(board)
      ensures IsOpen(old(Cells), col)
      ensures Drop(old(Cells), col, old(currentPlayer)) == Some(Cells)
      ensures outcome == Verdict(Cells, old(currentPlayer))
      ensures currentPlayer == if outcome.InProgress? then outcome.next else old(currentPlayer)
      ensures gameOver <==> !outcome.InProgress?
      ensures outcome.InProgress? ==> |GetValidMoves()| > 0
      ensures outcome.Drawn? && !old(gameOver) ==> !HasFour(Cells, 1) && !HasFour(Cells, 2)
    {
      col := SimpleAIMove(pick);
      var placed := MakeMove(col);
      outcome := NextTurn();
    }

    /** The automated move as intended: the callback only plays while player 2
        is to move, so it never places a token of player 1. Otherwise it returns
        before picking a column, so it then needs no open column and leaves the
        whole state as it was. */
    method AITurnGuarded(pick: nat) returns (moved: bool, col: int, outcome: Outcome)
      requires Valid() && (currentPlayer == 2 ==> pick < |GetValidMoves()|)
      modifies this, board
      ensures Valid() && board == old(board)
      ensures moved <==> old(currentPlayer) == 2
      ensures moved ==> IsOpen(old(Cells), col) && Drop(old(Cells), col, 2) == Some(Cells)
      ensures moved ==> outcome == Verdict(Cells, 2)
      ensures moved ==> currentPlayer == if outcome.InProgress? then 1 else 2
      ensures moved ==> (gameOver <==> !outcome.InProgress?)
      ensures moved && outcome.InProgress? ==> |GetValidMoves()| > 0
      ensures moved && outcome.Drawn? && !old(gameOver) ==> !HasFour(Cells, 1) && !HasFour(Cells, 2)
      ensures !moved ==> Cells == old(Cells) && currentPlayer == old(currentPlayer) && gameOver == old(gameOver)
    {
      moved := currentPlayer == 2;
      if !moved {
        col, outcome := -1, InProgress(currentPlayer);
        return;
      }
      col, outcome := AITurn(pick);
    }
  }

  /** A fresh game in which player 1 drops four tokens into column 3 without
      the turn passing: the vertical check then reports a win. */
  method VerticalWinScenario() returns (won: bool)
    ensures won
  {
    var game := new ConnectFour();
    var placed := game.MakeMove(3);
    placed := game.MakeMove(3);
    placed := game.MakeMove(3);
    placed := game.MakeMove(3);
    FourDropsWinVertically(EmptyGrid(), 3, 1);
    won := game.CheckWinner(1);
  }

  /** Player 1 moves and NextTurn hands the move to player 2, scheduling the
      automated move; the page is restarted before it fires. The restart does
      not cancel the callback, which then drops a token of player 1 (the player
      to move on the fresh board) and hands the move to player 2 once more. */
  method RestartDuringAIDelay() returns (scheduled: Outcome, owner: int, outcome: Outcome)
    ensures scheduled == InProgress(2)
    ensures owner == 1 && outcome == InProgress(2)
  {
    var game := new ConnectFour();
    var placed := game.MakeMove(3);
    FirstDropNoWinner(3, 1, 1);
    scheduled := game.NextTurn();
    game.InitGame();
    var col;
    col, outcome := game.AITurn(0);
    FirstDropNoWinner(col, 1, 1);
    ghost var h := DropStep(EmptyGrid(), col, 1, ROWS - 1);
    owner := game.board[ROWS - 1, col];
  }
}
