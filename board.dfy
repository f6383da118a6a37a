/** The 6x7 grid shared by both engines: cells, pieces, grid values, and the
    primitive operations create_board, drop_piece and board.copy() on the
    mutable grid (a two-dimensional array, as the numpy matrix is). */
module Board {

  const ROWS: int := 6
  const COLS: int := 7

  /** EMPTY = 0, PLAYER_PIECE = 1, AI_PIECE = 2 in the source. */
  datatype Cell = Empty | PlayerPiece | AIPiece

  /** The values a caller passes as `piece`: never EMPTY. */
  type Piece = c: Cell | c != Empty witness PlayerPiece

  type Row = r: int | 0 <= r < ROWS
  type Column = c: int | 0 <= c < COLS

  /** A value snapshot of the board: ROWS rows of COLS cells, indexed [row][col]. */
  type Grid = g: seq<seq<Cell>> | |g| == ROWS && forall r :: 0 <= r < |g| ==> |g[r]| == COLS
    witness seq(6, _ => seq(7, _ => Empty))

  /** `opp_piece` of evaluate_window: the other side's piece. */
  function Opponent(p: Piece): (q: Piece)
    ensures q != p
  {
    if p == AIPiece then PlayerPiece else AIPiece
  }

  /** `list.count`: how many cells of `s` hold `x`. */
  function Count(s: seq<Cell>, x: Cell): (n: nat)
    ensures n <= |s|
  {
    if s == [] then 0 else (if s[0] == x then 1 else 0) + Count(s[1..], x)
  }

  /** Every cell of a sequence is empty, holds `p` or holds the opponent's piece. */
  lemma {:induction false} CountPartition(s: seq<Cell>, p: Piece)
    ensures Count(s, p) + Count(s, Opponent(p)) + Count(s, Empty) == |s|
  {
    if s != [] {
      CountPartition(s[1..], p);
    }
  }

  /** Count over a concatenation is the sum of the counts. */
  lemma {:induction false} CountAppend(s: seq<Cell>, t: seq<Cell>, x: Cell)
    ensures Count(s + t, x) == Count(s, x) + Count(t, x)
  {
    if s == [] {
      assert s + t == t;
    } else {
      assert (s + t)[1..] == s[1..] + t;
      CountAppend(s[1..], t, x);
    }
  }

  /** A sequence in which no cell holds `x` counts zero of it. */
  lemma {:induction false} CountNone(s: seq<Cell>, x: Cell)
    requires forall i :: 0 <= i < |s| ==> s[i] != x
    ensures Count(s, x) == 0
  {
    if s != [] {
      CountNone(s[1..], x);
    }
  }

  /** A sequence in which `x` occurs at no two different positions counts it at most once,
      and exactly once when it occurs at all. */
  lemma {:induction false} CountAtMostOne(s: seq<Cell>, x: Cell)
    requires forall i, j :: 0 <= i < |s| && 0 <= j < |s| && s[i] == x && s[j] == x ==> i == j
    ensures Count(s, x) <= 1
    ensures (exists i :: 0 <= i < |s| && s[i] == x) ==> Count(s, x) == 1
  {
    if s != [] {
      if s[0] == x {
        CountNone(s[1..], x);
      } else {
        CountAtMostOne(s[1..], x);
        if exists i :: 0 <= i < |s| && s[i] == x {
          var i :| 0 <= i < |s| && s[i] == x;
          assert s[1..][i - 1] == x;
        }
      }
    }
  }

  /** Two grids holding the same cell everywhere are the same grid. */
  lemma GridsEqual(g: Grid, h: Grid)
    requires forall r, c :: 0 <= r < ROWS && 0 <= c < COLS ==> g[r][c] == h[r][c]
    ensures g == h
  {
    forall r | 0 <= r < ROWS
      ensures g[r] == h[r]
    {
      assert forall c :: 0 <= c < COLS ==> g[r][c] == h[r][c];
    }
  }

  /** The grid `g` with cell (row, col) set to `x`, every other cell as it was. */
  function SetCell(g: Grid, row: Row, col: Column, x: Cell): (h: Grid)
    ensures h[row][col] == x
    ensures forall r, c {:trigger h[r][c]} :: 0 <= r < ROWS && 0 <= c < COLS && (r != row || c != col) ==> h[r][c] == g[r][c]
  {
    g[row := g[row][col := x]]
  }

  /** `np.zeros((ROW_COUNT, COLUMN_COUNT))`: every cell empty. */
  function EmptyGrid(): (g: Grid)
    ensures forall r, c :: 0 <= r < ROWS && 0 <= c < COLS ==> g[r][c] == Empty
  {
    seq(ROWS, _ => seq(COLS, _ => Empty))
  }

  /** A cell with the two sides exchanged. */
  function SwapCell(x: Cell): Cell
  {
    match x
    case Empty => Empty
    case PlayerPiece => AIPiece
    case AIPiece => PlayerPiece
  }

  /** A sequence of cells with the two sides exchanged. */
  function SwapAll(s: seq<Cell>): (t: seq<Cell>)
    ensures |t| == |s| && forall i :: 0 <= i < |s| ==> t[i] == SwapCell(s[i])
  {
    seq(|s|, i requires 0 <= i < |s| => SwapCell(s[i]))
  }

  /** The board with every PLAYER_PIECE cell and every AI_PIECE cell exchanged. */
  function Swapped(g: Grid): (h: Grid)
    ensures forall r, c :: 0 <= r < ROWS && 0 <= c < COLS ==> h[r][c] == SwapCell(g[r][c])
  {
    seq(ROWS, r requires 0 <= r < ROWS => SwapAll(g[r]))
  }

  /** Exchanging the sides maps the count of `x` to the count of its image. */
  lemma {:induction false} CountSwapAll(s: seq<Cell>, x: Cell)
    ensures Count(SwapAll(s), SwapCell(x)) == Count(s, x)
  {
    if s != [] {
      assert SwapAll(s)[1..] == SwapAll(s[1..]);
      CountSwapAll(s[1..], x);
    }
  }

  /** The mutable board is a ROW_COUNT x COLUMN_COUNT matrix. */
  predicate IsBoard(board: array2<Cell>)
  {
    board.Length0 == ROWS && board.Length1 == COLS
  }

  /** The value currently held by the mutable board. */
  function Snapshot(board: array2<Cell>): (g: Grid)
    reads board
    requires IsBoard(board)
    ensures forall r, c :: 0 <= r < ROWS && 0 <= c < COLS ==> g[r][c] == board[r, c]
  {
    seq(ROWS, r reads board requires 0 <= r < ROWS =>
      seq(COLS, c reads board requires 0 <= c < COLS => board[r, c]))
  }

  /** create_board: a fresh board whose cells are all empty. */
  method CreateBoard() returns (board: array2<Cell>)
    ensures fresh(board) && IsBoard(board)
    ensures Snapshot(board) == EmptyGrid()
  {
    board := new Cell[ROWS, COLS]((_, _) => Empty);
    GridsEqual(Snapshot(board), EmptyGrid());
  }

  /** drop_piece: writes `piece` into cell (row, col) and nothing else; the caller
      supplies the row (no validation happens here). */
  method DropPiece(board: array2<Cell>, row: Row, col: Column, piece: Piece)
    requires IsBoard(board)
    modifies board
    ensures board[row, col] == piece
    ensures forall r, c :: 0 <= r < ROWS && 0 <= c < COLS && (r != row || c != col) ==> board[r, c] == old(board[r, c])
    ensures Snapshot(board) == SetCell(old(Snapshot(board)), row, col, piece)
  {
    ghost var before := Snapshot(board);
    board[row, col] := piece;
    GridsEqual(Snapshot(board), SetCell(before, row, col, piece));
  }

  /** board.copy(): a fresh board holding the same cells, independent of the original. */
  method CopyBoard(board: array2<Cell>) returns (copy: array2<Cell>)
    requires IsBoard(board)
    ensures fresh(copy) && IsBoard(copy)
    ensures Snapshot(copy) == Snapshot(board)
  {
    copy := new Cell[ROWS, COLS];
    for r := 0 to ROWS
      invariant forall r', c :: 0 <= r' < r && 0 <= c < COLS ==> copy[r', c] == board[r', c]
    {
      for c := 0 to COLS
        invariant forall r', c' :: 0 <= r' < r && 0 <= c' < COLS ==> copy[r', c'] == board[r', c']
        invariant forall c' :: 0 <= c' < c ==> copy[r, c'] == board[r, c']
      {
        copy[r, c] := board[r, c];
      }
    }
    GridsEqual(Snapshot(copy), Snapshot(board));
  }
}
