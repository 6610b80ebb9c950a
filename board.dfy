/** The rules of the 6 x 7 drop-token game, stated over board VALUES.
    Row 0 is the top row, row ROWS - 1 the bottom one; a cell holds EMPTY (0)
    or the number of the player who owns it. */
module Board {

  const ROWS: int := 6
  const COLS: int := 7
  const EMPTY: int := 0

  datatype Option<T> = None | Some(value: T)

  /** A board value: ROWS rows of COLS cells each. */
  type Grid = seq<seq<int>>

  predicate WellFormed(g: Grid) {
    |g| == ROWS && forall r :: 0 <= r < ROWS ==> |g[r]| == COLS
  }

  predicate InBounds(r: int, c: int) {
    0 <= r < ROWS && 0 <= c < COLS
  }

  predicate IsPlayer(p: int) {
    p == 1 || p == 2
  }

  /** The other player: 1 becomes 2 and 2 becomes 1. */
  function Other(p: int): (q: int)
    requires IsPlayer(p)
    ensures IsPlayer(q) && q != p
  {
    if p == 1 then 2 else 1
  }

  /** Every cell is empty or owned by one of the two players. */
  ghost predicate CellsInRange(g: Grid)
    requires WellFormed(g)
  {
    forall r, c :: InBounds(r, c) ==> g[r][c] == EMPTY || IsPlayer(g[r][c])
  }

  /** The cell below (r, c) is occupied when (r, c) is. */
  predicate Supported(g: Grid, r: int, c: int)
    requires WellFormed(g) && 0 <= r < ROWS - 1 && 0 <= c < COLS
  {
    g[r][c] != EMPTY ==> g[r + 1][c] != EMPTY
  }

  /** Gravity: the cell below an occupied cell is never empty. */
  predicate Settled(g: Grid)
    requires WellFormed(g)
  {
    forall r, c :: 0 <= r < ROWS - 1 && 0 <= c < COLS ==> Supported(g, r, c)
  }

  /** The board a game starts with: every cell empty. */
  function EmptyGrid(): (g: Grid)
    ensures WellFormed(g)
  {
    seq(ROWS, _ => seq(COLS, _ => EMPTY))
  }

  // ---------------------------------------------------------------------------
  // Dropping a token
  // ---------------------------------------------------------------------------

  predicate ColumnFull(g: Grid, col: int)
    requires WellFormed(g) && 0 <= col < COLS
  {
    forall r :: 0 <= r < ROWS ==> g[r][col] != EMPTY
  }

  /** Row `row` is the lowest empty cell of column `col`: it is empty and every
      cell below it is occupied. */
  predicate IsLowestEmpty(g: Grid, col: int, row: int)
    requires WellFormed(g) && 0 <= col < COLS
  {
    0 <= row < ROWS && g[row][col] == EMPTY &&
    forall r :: row < r < ROWS ==> g[r][col] != EMPTY
  }

  /** Scans column `col` upward from row `row`, every cell below `row` being
      known to be occupied. */
  function LowestEmptyFrom(g: Grid, col: int, row: int): (res: Option<int>)
    requires WellFormed(g) && 0 <= col < COLS && -1 <= row < ROWS
    requires forall r :: row < r < ROWS ==> g[r][col] != EMPTY
    ensures res.Some? ==> IsLowestEmpty(g, col, res.value)
    ensures res.None? ==> ColumnFull(g, col)
    decreases row + 1
  {
    if row < 0 then None
    else if g[row][col] == EMPTY then Some(row)
    else LowestEmptyFrom(g, col, row - 1)
  }

  /** The row a token dropped into `col` lands on, or None when the column is full. */
  function LowestEmpty(g: Grid, col: int): (res: Option<int>)
    requires WellFormed(g) && 0 <= col < COLS
    ensures res.None? <==> ColumnFull(g, col)
    ensures res.Some? ==> IsLowestEmpty(g, col, res.value)
  {
    LowestEmptyFrom(g, col, ROWS - 1)
  }

  /** `h` is `g` with cell (row, col) set to `p` and every other cell kept. */
  ghost predicate OnlyCellChanged(g: Grid, h: Grid, row: int, col: int, p: int)
    requires WellFormed(g) && WellFormed(h) && InBounds(row, col)
  {
    h[row][col] == p &&
    forall r, c :: InBounds(r, c) && (r != row || c != col) ==> h[r][c] == g[r][c]
  }

  /** Player `p` drops a token into column `col`: None when the column is full,
      otherwise the board with the lowest empty cell of the column set to `p`. */
  function Drop(g: Grid, col: int, p: int): (res: Option<Grid>)
    requires WellFormed(g) && 0 <= col < COLS
    ensures res.None? <==> ColumnFull(g, col)
    ensures res.Some? ==> WellFormed(res.value)
    ensures res.Some? ==> exists row :: IsLowestEmpty(g, col, row) && OnlyCellChanged(g, res.value, row, col, p)
    ensures res.Some? ==> forall r, c :: InBounds(r, c) && g[r][c] != EMPTY ==> res.value[r][c] == g[r][c]
  {
    match LowestEmpty(g, col)
    case None => None
    case Some(row) =>
      var h := g[row := g[row][col := p]];
      assert OnlyCellChanged(g, h, row, col, p);
      Some(h)
  }

  /** `n` successive drops by the same player into the same column. */
  function DropMany(g: Grid, col: int, p: int, n: nat): (res: Option<Grid>)
    requires WellFormed(g) && 0 <= col < COLS
    ensures res.Some? ==> WellFormed(res.value)
    decreases n
  {
    if n == 0 then Some(g)
    else match Drop(g, col, p)
      case None => None
      case Some(h) => DropMany(h, col, p, n - 1)
  }

  /** A drop keeps the gravity invariant and the range of the cells. */
  lemma DropKeepsSettled(g: Grid, col: int, p: int)
    requires WellFormed(g) && 0 <= col < COLS && Settled(g)
    requires Drop(g, col, p).Some?
    ensures Settled(Drop(g, col, p).value)
    ensures CellsInRange(g) && IsPlayer(p) ==> CellsInRange(Drop(g, col, p).value)
  {
    var h := Drop(g, col, p).value;
    var row := LowestEmpty(g, col).value;
    assert h == g[row := g[row][col := p]];
    forall r, c | 0 <= r < ROWS - 1 && 0 <= c < COLS ensures Supported(h, r, c) {
      assert Supported(g, r, c);
    }
  }

  /** Under gravity a column is full exactly when its top cell is occupied. */
  lemma {:induction false} FullIffTopOccupied(g: Grid, col: int)
    requires WellFormed(g) && 0 <= col < COLS && Settled(g)
    ensures ColumnFull(g, col) <==> g[0][col] != EMPTY
  {
    if g[0][col] != EMPTY {
      var r := 0;
      while r < ROWS - 1
        invariant 0 <= r < ROWS
        invariant forall k :: 0 <= k <= r ==> g[k][col] != EMPTY
      {
        assert Supported(g, r, col);
        r := r + 1;
      }
    }
  }

  /** Under gravity a drop fails exactly when the top cell of the column is
      occupied, that is, exactly when the column is not an open column. */
  lemma DropFailsIffTopOccupied(g: Grid, col: int, p: int)
    requires WellFormed(g) && 0 <= col < COLS && Settled(g)
    ensures Drop(g, col, p).None? <==> g[0][col] != EMPTY
  {
    FullIffTopOccupied(g, col);
  }

  // ---------------------------------------------------------------------------
  // Four in a row
  // ---------------------------------------------------------------------------

  /** The four directions the win check follows from each cell:
      right, down, down-right and down-left. */
  const DIRECTIONS: seq<(int, int)> := [(0, 1), (1, 0), (1, 1), (1, -1)]

  /** The cell `j` steps from (r, c) in direction (dr, dc) is on the board and owned by `p`. */
  predicate OwnsStep(g: Grid, r: int, c: int, dr: int, dc: int, j: int, p: int)
    requires WellFormed(g)
  {
    InBounds(r + dr * j, c + dc * j) && g[r + dr * j][c + dc * j] == p
  }

  /** Four cells owned by `p`, starting at (r, c) and following (dr, dc). */
  predicate RunFrom(g: Grid, r: int, c: int, dr: int, dc: int, p: int)
    requires WellFormed(g)
  {
    forall j :: 0 <= j < 4 ==> OwnsStep(g, r, c, dr, dc, j, p)
  }

  /** Player `p` owns a run of four starting at some cell in one of the four
      scanned directions. */
  ghost predicate HasFour(g: Grid, p: int)
    requires WellFormed(g)
  {
    exists r, c, k :: 0 <= k < 4 && RunFrom(g, r, c, DIRECTIONS[k].0, DIRECTIONS[k].1, p)
  }

  /** No run of four starts at (r, c) in any of the scanned directions. */
  ghost predicate NoRunAt(g: Grid, r: int, c: int, p: int)
    requires WellFormed(g)
  {
    forall k :: 0 <= k < 4 ==> !RunFrom(g, r, c, DIRECTIONS[k].0, DIRECTIONS[k].1, p)
  }

  predicate IsDirection(dr: int, dc: int) {
    -1 <= dr <= 1 && -1 <= dc <= 1 && (dr != 0 || dc != 0)
  }

  /** Reference notion of four in a row: a horizontal, vertical or diagonal
      line of four cells owned by `p`, read in any of the eight directions. */
  ghost predicate HasLine(g: Grid, p: int)
    requires WellFormed(g)
  {
    exists r, c, dr, dc :: IsDirection(dr, dc) && RunFrom(g, r, c, dr, dc, p)
  }

  /** Reading a line backwards from its far end gives the same four cells. */
  lemma ReverseRun(g: Grid, r: int, c: int, dr: int, dc: int, p: int)
    requires WellFormed(g) && IsDirection(dr, dc)
    requires RunFrom(g, r, c, dr, dc, p)
    ensures RunFrom(g, r + 3 * dr, c + 3 * dc, -dr, -dc, p)
  {
    var r0, c0, dr0, dc0 := r + 3 * dr, c + 3 * dc, -dr, -dc;
    forall j | 0 <= j < 4 ensures OwnsStep(g, r0, c0, dr0, dc0, j, p) {
      assert OwnsStep(g, r, c, dr, dc, 3 - j, p);
      assert r + dr * (3 - j) == r0 + dr0 * j;
      assert c + dc * (3 - j) == c0 + dc0 * j;
    }
  }

  /** Scanning only four directions from every cell finds every line of four. */
  lemma HasFourIffHasLine(g: Grid, p: int)
    requires WellFormed(g)
    ensures HasFour(g, p) <==> HasLine(g, p)
  {
    if HasFour(g, p) {
      var r, c, k :| 0 <= k < 4 && RunFrom(g, r, c, DIRECTIONS[k].0, DIRECTIONS[k].1, p);
      assert IsDirection(DIRECTIONS[k].0, DIRECTIONS[k].1);
    }
    if HasLine(g, p) {
      var r, c, dr, dc :| IsDirection(dr, dc) && RunFrom(g, r, c, dr, dc, p);
      if (dr, dc) in DIRECTIONS {
        var k :| 0 <= k < 4 && DIRECTIONS[k] == (dr, dc);
        assert RunFrom(g, r, c, DIRECTIONS[k].0, DIRECTIONS[k].1, p);
      } else {
        ReverseRun(g, r, c, dr, dc, p);
        assert (-dr, -dc) in DIRECTIONS;
        var k :| 0 <= k < 4 && DIRECTIONS[k] == (-dr, -dc);
        assert RunFrom(g, r + 3 * dr, c + 3 * dc, DIRECTIONS[k].0, DIRECTIONS[k].1, p);
      }
    }
  }

  /** A drop by `p` never gives another player `q` a four in a row that `q`
      did not have before: only the mover can have completed a line. */
  lemma DropGivesNoFourToOthers(g: Grid, col: int, p: int, q: int)
    requires WellFormed(g) && 0 <= col < COLS && Drop(g, col, p).Some? && q != p
    ensures HasFour(Drop(g, col, p).value, q) ==> HasFour(g, q)
  {
    var h := Drop(g, col, p).value;
    if HasFour(h, q) {
      var r, c, k :| 0 <= k < 4 && RunFrom(h, r, c, DIRECTIONS[k].0, DIRECTIONS[k].1, q);
      var row :| IsLowestEmpty(g, col, row) && OnlyCellChanged(g, h, row, col, p);
      forall j | 0 <= j < 4 ensures OwnsStep(g, r, c, DIRECTIONS[k].0, DIRECTIONS[k].1, j, q) {
        assert OwnsStep(h, r, c, DIRECTIONS[k].0, DIRECTIONS[k].1, j, q);
      }
      assert RunFrom(g, r, c, DIRECTIONS[k].0, DIRECTIONS[k].1, q);
    }
  }

  /** After the first drop into an empty board nobody has four in a row and
      the board is not full. */
  lemma FirstDropNoWinner(col: int, p: int, q: int)
    requires 0 <= col < COLS && q != EMPTY
    ensures Drop(EmptyGrid(), col, p).Some?
    ensures !HasFour(Drop(EmptyGrid(), col, p).value, q)
    ensures !Full(Drop(EmptyGrid(), col, p).value)
  {
    var g := EmptyGrid();
    assert g[ROWS - 1][col] == EMPTY;
    var h := Drop(g, col, p).value;
    var row :| IsLowestEmpty(g, col, row) && OnlyCellChanged(g, h, row, col, p);
    // the first two cells of a run are distinct, so one of them is still empty
    forall r, c, k | 0 <= k < 4 ensures !RunFrom(h, r, c, DIRECTIONS[k].0, DIRECTIONS[k].1, q) {
      if OwnsStep(h, r, c, DIRECTIONS[k].0, DIRECTIONS[k].1, 0, q) {
        assert !OwnsStep(h, r, c, DIRECTIONS[k].0, DIRECTIONS[k].1, 1, q);
      }
    }
    var other := if col == 0 then 1 else 0;
    assert h[0][other] == EMPTY;
  }

  /** Nobody has four in a row on the starting board. */
  lemma EmptyGridHasNoWinner(p: int)
    requires IsPlayer(p)
    ensures !HasFour(EmptyGrid(), p)
  {
    var g := EmptyGrid();
    forall r, c, k | 0 <= k < 4 ensures !RunFrom(g, r, c, DIRECTIONS[k].0, DIRECTIONS[k].1, p) {
      assert !OwnsStep(g, r, c, DIRECTIONS[k].0, DIRECTIONS[k].1, 0, p);
    }
  }

  predicate ColumnEmpty(g: Grid, col: int)
    requires WellFormed(g) && 0 <= col < COLS
  {
    forall r :: 0 <= r < ROWS ==> g[r][col] == EMPTY
  }

  /** Four drops by one player into an empty column win through the vertical direction. */
  lemma FourDropsWinVertically(g: Grid, col: int, p: int)
    requires WellFormed(g) && 0 <= col < COLS && ColumnEmpty(g, col) && IsPlayer(p)
    ensures DropMany(g, col, p, 4).Some?
    ensures RunFrom(DropMany(g, col, p, 4).value, 2, col, 1, 0, p)
    ensures HasFour(DropMany(g, col, p, 4).value, p)
  {
    var g1 := DropStep(g, col, p, 5);
    var g2 := DropStep(g1, col, p, 4);
    var g3 := DropStep(g2, col, p, 3);
    var g4 := DropStep(g3, col, p, 2);
    assert DropMany(g3, col, p, 1) == Some(g4);
    assert DropMany(g2, col, p, 2) == Some(g4);
    assert DropMany(g1, col, p, 3) == Some(g4);
    assert DropMany(g, col, p, 4) == Some(g4);
    forall j | 0 <= j < 4 ensures OwnsStep(g4, 2, col, 1, 0, j, p) {
    }
    assert RunFrom(g4, 2, col, DIRECTIONS[1].0, DIRECTIONS[1].1, p);
  }

  /** One drop into a column whose rows `row` and above are empty and whose rows
      below are owned by `p`: the token lands on `row`. */
  lemma DropStep(g: Grid, col: int, p: int, row: int) returns (h: Grid)
    requires WellFormed(g) && 0 <= col < COLS && IsPlayer(p) && 0 <= row < ROWS
    requires forall r :: 0 <= r <= row ==> g[r][col] == EMPTY
    requires forall r :: row < r < ROWS ==> g[r][col] == p
    ensures Drop(g, col, p) == Some(h) && WellFormed(h)
    ensures forall r :: 0 <= r < row ==> h[r][col] == EMPTY
    ensures forall r :: row <= r < ROWS ==> h[r][col] == p
  {
    assert g[row][col] == EMPTY;
    h := Drop(g, col, p).value;
    var lo :| IsLowestEmpty(g, col, lo) && OnlyCellChanged(g, h, lo, col, p);
    assert lo == row;
  }

  // ---------------------------------------------------------------------------
  // Draw and the columns still open
  // ---------------------------------------------------------------------------

  /** Every cell of the board is occupied. */
  ghost predicate Full(g: Grid)
    requires WellFormed(g)
  {
    forall r, c :: InBounds(r, c) ==> g[r][c] != EMPTY
  }

  /** A move into `col` is legal: its top cell is empty. */
  predicate IsOpen(g: Grid, col: int)
    requires WellFormed(g)
  {
    0 <= col < COLS && g[0][col] == EMPTY
  }

  predicate StrictlyIncreasing(s: seq<int>) {
    forall i, j :: 0 <= i < j < |s| ==> s[i] < s[j]
  }

  /** `moves` lists exactly the open columns, in ascending order. */
  ghost predicate IsOpenColumnList(g: Grid, moves: seq<int>)
    requires WellFormed(g)
  {
    StrictlyIncreasing(moves) && forall c :: c in moves <==> IsOpen(g, c)
  }

  /** Two ascending lists with the same elements are equal. */
  lemma {:induction false} StrictlyIncreasingUnique(a: seq<int>, b: seq<int>)
    requires StrictlyIncreasing(a) && StrictlyIncreasing(b)
    requires forall x :: x in a <==> x in b
    ensures a == b
    decreases |a|
  {
    assert a != [] ==> a[0] in a;
    assert b != [] ==> b[0] in b;
    if a != [] && b != [] {
      // the head of each list is the least element of both
      HeadIsLeast(a, b[0]);
      HeadIsLeast(b, a[0]);
      assert a[0] == b[0];
      forall x ensures x in a[1..] <==> x in b[1..] {
        TailMembers(a, x);
        TailMembers(b, x);
      }
      StrictlyIncreasingUnique(a[1..], b[1..]);
      assert a == [a[0]] + a[1..] && b == [b[0]] + b[1..];
    }
  }

  lemma HeadIsLeast(s: seq<int>, x: int)
    requires StrictlyIncreasing(s) && x in s
    ensures s[0] <= x
  {
  }

  lemma TailMembers(s: seq<int>, x: int)
    requires StrictlyIncreasing(s) && s != []
    ensures x in s[1..] <==> x in s && x != s[0]
  {
  }

  /** With only column 0 full, the open columns are 1 to 6 in order. */
  lemma OnlyFirstColumnFull(g: Grid, moves: seq<int>)
    requires WellFormed(g) && g[0][0] != EMPTY
    requires forall c :: 1 <= c < COLS ==> g[0][c] == EMPTY
    requires IsOpenColumnList(g, moves)
    ensures moves == [1, 2, 3, 4, 5, 6]
  {
    var expected := [1, 2, 3, 4, 5, 6];
    forall x ensures x in moves <==> x in expected {
      assert IsOpen(g, x) <==> 1 <= x < COLS;
    }
    StrictlyIncreasingUnique(moves, expected);
  }

  /** Under gravity the board is full exactly when no column is open, so a
      board that is not a draw always has a legal move. */
  lemma FullIffNoOpenColumn(g: Grid, moves: seq<int>)
    requires WellFormed(g) && Settled(g) && IsOpenColumnList(g, moves)
    ensures Full(g) <==> moves == []
  {
    if moves == [] {
      forall r, c | InBounds(r, c) ensures g[r][c] != EMPTY {
        assert !IsOpen(g, c);
        FullIffTopOccupied(g, c);
      }
    } else {
      assert IsOpen(g, moves[0]);
    }
  }

  // ---------------------------------------------------------------------------
  // Turn sequencing
  // ---------------------------------------------------------------------------

  /** What the game shows after a move by `mover`: the mover's win, a draw on a
      full board, or the game goes on with the other player to move. */
  datatype Outcome = Won(winner: int) | Drawn | InProgress(next: int)

  /** The verdict after `mover` has moved: a win is checked before a draw, and
      only when neither holds does the turn pass. */
  ghost function Verdict(g: Grid, mover: int): (o: Outcome)
    requires WellFormed(g) && IsPlayer(mover)
    ensures o.Won? <==> HasFour(g, mover)
    ensures o.Drawn? <==> Full(g) && !HasFour(g, mover)
    ensures o.InProgress? ==> o.next == Other(mover)
    ensures o.Won? ==> o.winner == mover
  {
    if HasFour(g, mover) then Won(mover)
    else if Full(g) then Drawn
    else InProgress(Other(mover))
  }
}
