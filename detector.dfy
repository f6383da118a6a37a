/** winning_move: does a side own four cells in a row? (identical in both engines) */
module Detector {
  import opened Board
  import opened Windows

  /** Every cell of the run starting at (r, c) in direction d holds `p`. */
  predicate LineAt(g: Grid, p: Piece, d: Direction, r: int, c: int)
    requires Fits(d, r, c)
  {
    forall i :: 0 <= i < WINDOW_LENGTH ==> Window(g, d, r, c)[i] == p
  }

  /** Some horizontal, vertical, ascending or descending run of four cells on the
      board is entirely `p`. */
  predicate HasWin(g: Grid, p: Piece)
  {
    exists d: Direction, r, c | 0 <= r < ROWS && 0 <= c < COLS :: Fits(d, r, c) && LineAt(g, p, d, r, c)
  }

  /** Some run of four in direction d is entirely `p`. */
  predicate WinIn(g: Grid, p: Piece, d: Direction)
  {
    exists r, c | 0 <= r < ROWS && 0 <= c < COLS :: Fits(d, r, c) && LineAt(g, p, d, r, c)
  }

  /** A win lies in one of the four directions. */
  lemma HasWinByDirection(g: Grid, p: Piece)
    ensures HasWin(g, p) <==> WinIn(g, p, Horizontal) || WinIn(g, p, Vertical) || WinIn(g, p, Ascending) || WinIn(g, p, Descending)
  {
  }

  /** winning_move: the four scans of the source in order, returning as soon as one
      finds a run of four. */
  method WinningMove(board: array2<Cell>, piece: Piece) returns (win: bool)
    requires IsBoard(board)
    ensures win <==> HasWin(Snapshot(board), piece)
  {
    HasWinByDirection(Snapshot(board), piece);
    win := HorizontalWin(board, piece);
    if win {
      return;
    }
    win := VerticalWin(board, piece);
    if win {
      return;
    }
    win := AscendingWin(board, piece);
    if win {
      return;
    }
    win := DescendingWin(board, piece);
  }

  /** The horizontal scan of winning_move: c in 0..COLS - 3 - 1, then r in 0..ROWS - 1,
      testing the cells `board[r][c+i]` for i in 0..3. */
  method HorizontalWin(board: array2<Cell>, piece: Piece) returns (win: bool)
    requires IsBoard(board)
    ensures win <==> WinIn(Snapshot(board), piece, Horizontal)
  {
    ghost var g := Snapshot(board);
    for c := 0 to COLS - 3
      invariant forall c', r' :: 0 <= c' < c && 0 <= r' < ROWS ==> !LineAt(g, piece, Horizontal, r', c')
    {
      for r := 0 to ROWS
        invariant forall c', r' :: (0 <= c' < c && 0 <= r' < ROWS) || (c' == c && 0 <= r' < r) ==> !LineAt(g, piece, Horizontal, r', c')
      {
        var window := ReadWindow(board, Horizontal, r, c);
        if forall i :: 0 <= i < WINDOW_LENGTH ==> window[i] == piece {
          return true;
        }
      }
    }
    return false;
  }

  /** The vertical scan of winning_move: c in 0..COLS - 1, then r in 0..ROWS - 3 - 1,
      testing the cells `board[r+i][c]` for i in 0..3. */
  method VerticalWin(board: array2<Cell>, piece: Piece) returns (win: bool)
    requires IsBoard(board)
    ensures win <==> WinIn(Snapshot(board), piece, Vertical)
  {
    ghost var g := Snapshot(board);
    for c := 0 to COLS
      invariant forall c', r' :: 0 <= c' < c && 0 <= r' < ROWS - 3 ==> !LineAt(g, piece, Vertical, r', c')
    {
      for r := 0 to ROWS - 3
        invariant forall c', r' :: (0 <= c' < c && 0 <= r' < ROWS - 3) || (c' == c && 0 <= r' < r) ==> !LineAt(g, piece, Vertical, r', c')
      {
        var window := ReadWindow(board, Vertical, r, c);
        if forall i :: 0 <= i < WINDOW_LENGTH ==> window[i] == piece {
          return true;
        }
      }
    }
    return false;
  }

  /** The positive diagonal scan of winning_move: c in 0..COLS - 3 - 1, then r in 0..ROWS - 3 - 1,
      testing the cells `board[r+i][c+i]` for i in 0..3. */
  method AscendingWin(board: array2<Cell>, piece: Piece) returns (win: bool)
    requires IsBoard(board)
    ensures win <==> WinIn(Snapshot(board), piece, Ascending)
  {
    ghost var g := Snapshot(board);
    for c := 0 to COLS - 3
      invariant forall c', r' :: 0 <= c' < c && 0 <= r' < ROWS - 3 ==> !LineAt(g, piece, Ascending, r', c')
    {
      for r := 0 to ROWS - 3
        invariant forall c', r' :: (0 <= c' < c && 0 <= r' < ROWS - 3) || (c' == c && 0 <= r' < r) ==> !LineAt(g, piece, Ascending, r', c')
      {
        var window := ReadWindow(board, Ascending, r, c);
        if forall i :: 0 <= i < WINDOW_LENGTH ==> window[i] == piece {
          return true;
        }
      }
    }
    return false;
  }

  /** The negative diagonal scan of winning_move: c in 0..COLS - 3 - 1, then r in 3..ROWS - 1,
      testing the cells `board[r-i][c+i]` for i in 0..3. */
  method DescendingWin(board: array2<Cell>, piece: Piece) returns (win: bool)
    requires IsBoard(board)
    ensures win <==> WinIn(Snapshot(board), piece, Descending)
  {
    ghost var g := Snapshot(board);
    for c := 0 to COLS - 3
      invariant forall c', r' :: 0 <= c' < c && 3 <= r' < ROWS ==> !LineAt(g, piece, Descending, r', c')
    {
      for r := 3 to ROWS
        invariant forall c', r' :: (0 <= c' < c && 3 <= r' < ROWS) || (c' == c && 3 <= r' < r) ==> !LineAt(g, piece, Descending, r', c')
      {
        var window := ReadWindow(board, Descending, r, c);
        if forall i :: 0 <= i < WINDOW_LENGTH ==> window[i] == piece {
          return true;
        }
      }
    }
    return false;
  }

  /** A longer run counts too: any n >= 4 consecutive in-bounds cells owned by `p`
      contain a winning run of four. */
  lemma LongerRunWins(g: Grid, p: Piece, d: Direction, r: int, c: int, n: int)
    requires n >= WINDOW_LENGTH
    requires InBounds(CellOf(d, r, c, 0)) && InBounds(CellOf(d, r, c, n - 1))
    requires forall i :: 0 <= i < n ==> g[CellOf(d, r, c, i).0][CellOf(d, r, c, i).1] == p
    ensures HasWin(g, p)
  {
    assert Fits(d, r, c);
    assert LineAt(g, p, d, r, c);
  }

  /** Exchanging the two sides on the board exchanges their wins. */
  lemma HasWinSwapped(g: Grid, p: Piece)
    ensures HasWin(Swapped(g), Opponent(p)) <==> HasWin(g, p)
  {
    if HasWin(g, p) {
      var d, r, c :| Fits(d, r, c) && LineAt(g, p, d, r, c);
      WindowSwapped(g, d, r, c);
      assert LineAt(Swapped(g), Opponent(p), d, r, c);
    }
    if HasWin(Swapped(g), Opponent(p)) {
      var d, r, c :| Fits(d, r, c) && LineAt(Swapped(g), Opponent(p), d, r, c);
      WindowSwapped(g, d, r, c);
      assert forall i :: 0 <= i < WINDOW_LENGTH ==> SwapCell(Window(g, d, r, c)[i]) == Opponent(p);
      assert LineAt(g, p, d, r, c);
    }
  }
}
