/** evaluate_window and score_position: the heuristic value of a position for one
    side (identical in both engines). */
module Evaluator {
  import opened Board
  import opened Windows

  /** Weight of each own piece in the centre column. */
  const CENTER_WEIGHT: int := 6

  /** evaluate_window: +100 for four own pieces, else +10 for three own and one
      empty, else +5 for two own and two empty; independently -80 when the
      opponent has three and one cell is empty. */
  function EvaluateWindow(window: seq<Cell>, piece: Piece): int
  {
    var opp := Opponent(piece);
    var bonus :=
      if Count(window, piece) == 4 then 100
      else if Count(window, piece) == 3 && Count(window, Empty) == 1 then 10
      else if Count(window, piece) == 2 && Count(window, Empty) == 2 then 5
      else 0;
    if Count(window, opp) == 3 && Count(window, Empty) == 1 then bonus - 80 else bonus
  }

  /** On a window of four cells the value is one of 100, 10, 5, 0 and -80, and each
      value arises from exactly the composition that names it: since the counts of
      the three cell states add up to four, a bonus never meets the penalty. */
  lemma WindowValues(window: seq<Cell>, piece: Piece)
    requires |window| == WINDOW_LENGTH
    ensures var v := EvaluateWindow(window, piece);
      && v in {100, 10, 5, 0, -80}
      && (v == 100 <==> Count(window, piece) == 4)
      && (v == 10 <==> Count(window, piece) == 3 && Count(window, Empty) == 1)
      && (v == 5 <==> Count(window, piece) == 2 && Count(window, Empty) == 2)
      && (v == -80 <==> Count(window, Opponent(piece)) == 3 && Count(window, Empty) == 1)
  {
    CountPartition(window, piece);
  }

  /** Exchanging the sides in a window and scoring for the other side gives the
      same value, because `opp_piece` is defined symmetrically. */
  lemma WindowSwapSymmetric(window: seq<Cell>, piece: Piece)
    ensures EvaluateWindow(SwapAll(window), Opponent(piece)) == EvaluateWindow(window, piece)
  {
    CountSwapAll(window, piece);
    CountSwapAll(window, Opponent(piece));
    CountSwapAll(window, Empty);
    assert SwapCell(piece) == Opponent(piece);
    assert SwapCell(Opponent(piece)) == piece;
    assert Opponent(Opponent(piece)) == piece;
  }

  /** `board[:, c]` as a sequence of cells, top row index first. */
  function Column(g: Grid, c: Column): (s: seq<Cell>)
    ensures |s| == ROWS && forall r :: 0 <= r < ROWS ==> s[r] == g[r][c]
  {
    seq(ROWS, r requires 0 <= r < ROWS => g[r][c])
  }

  /** The source's horizontal and vertical windows are slices of a row or a column. */
  lemma SlicesAreWindows(g: Grid, r: int, c: int)
    ensures Fits(Horizontal, r, c) ==> g[r][c..c + WINDOW_LENGTH] == Window(g, Horizontal, r, c)
    ensures Fits(Vertical, r, c) ==> Column(g, c)[r..r + WINDOW_LENGTH] == Window(g, Vertical, r, c)
  {
    if Fits(Vertical, r, c) {
      var w := Column(g, c)[r..r + WINDOW_LENGTH];
      assert forall i :: 0 <= i < WINDOW_LENGTH ==> w[i] == g[r + i][c];
    }
  }

  /** How many of `p`'s pieces stand in the centre column (COLUMN_COUNT // 2 = 3). */
  function CenterCount(g: Grid, p: Piece): nat
  {
    Count(Column(g, COLS / 2), p)
  }

  /** evaluate_window of the window starting at `a`; every anchor score_position
      visits fits on the board, and one that did not would be worth nothing. */
  function WindowScore(g: Grid, p: Piece, a: Anchor): int
  {
    if Fits(a.dir, a.row, a.col) then EvaluateWindow(Window(g, a.dir, a.row, a.col), p) else 0
  }

  /** The sum of evaluate_window over the given windows, in order. */
  function SumWindows(g: Grid, p: Piece, s: seq<Anchor>): int
  {
    if s == [] then 0
    else SumWindows(g, p, s[..|s| - 1]) + WindowScore(g, p, s[|s| - 1])
  }

  /** Adding the next window to a prefix of the windows adds its value. */
  lemma SumWindowsStep(g: Grid, p: Piece, s: seq<Anchor>, k: int)
    requires 0 <= k < |s|
    ensures SumWindows(g, p, s[..k + 1]) == SumWindows(g, p, s[..k]) + WindowScore(g, p, s[k])
  {
    assert s[..k + 1][..k] == s[..k];
  }

  /** The sum over two runs of windows one after the other is the sum of the sums. */
  lemma {:induction false} SumWindowsAppend(g: Grid, p: Piece, s: seq<Anchor>, t: seq<Anchor>)
    ensures SumWindows(g, p, s + t) == SumWindows(g, p, s) + SumWindows(g, p, t)
  {
    if t == [] {
      assert s + t == s;
    } else {
      SumWindowsAppend(g, p, s, t[..|t| - 1]);
      assert (s + t)[..|s + t| - 1] == s + t[..|t| - 1];
    }
  }

  /** A scan's running total after n iterations of its outer loop: the sum of
      evaluate_window over the windows of lines 0 .. n - 1. */
  function ScanScore(g: Grid, p: Piece, d: Direction, n: nat): int
    requires n <= LineCount(d)
  {
    if n == 0 then 0 else ScanScore(g, p, d, n - 1) + SumWindows(g, p, Line(d, n - 1))
  }

  /** A scan's running total is evaluate_window summed over the windows it has
      visited, in order; after the last line, over every run of four in its direction. */
  lemma {:induction false} ScanScoreIsSum(g: Grid, p: Piece, d: Direction, n: nat)
    requires n <= LineCount(d)
    ensures ScanScore(g, p, d, n) == SumWindows(g, p, Lines(d, n))
  {
    if n > 0 {
      ScanScoreIsSum(g, p, d, n - 1);
      LinesSumStep(g, p, d, n - 1);
    }
  }

  /** The flat sequence of visited windows grows by one line per outer iteration. */
  lemma LinesSumStep(g: Grid, p: Piece, d: Direction, i: nat)
    requires i < LineCount(d)
    ensures SumWindows(g, p, Lines(d, i + 1)) == SumWindows(g, p, Lines(d, i)) + SumWindows(g, p, Line(d, i))
  {
    SumWindowsAppend(g, p, Lines(d, i), Line(d, i));
  }

  /** The total of a whole scan in direction d. */
  function DirectionScore(g: Grid, p: Piece, d: Direction): int
  {
    ScanScore(g, p, d, LineCount(d))
  }

  /** score_position: six points per own centre piece plus evaluate_window summed
      over every window of four in the four directions. */
  function Score(g: Grid, p: Piece): int
  {
    CENTER_WEIGHT * CenterCount(g, p)
    + DirectionScore(g, p, Horizontal)
    + DirectionScore(g, p, Vertical)
    + DirectionScore(g, p, Ascending)
    + DirectionScore(g, p, Descending)
  }

  /** score_position: the centre bonus, then the four nested scans of the source,
      accumulating into `score`. The board is only read: the scans work on its
      current value, as the source's row and column lists are copies of it. */
  method ScorePosition(board: array2<Cell>, piece: Piece) returns (score: int)
    requires IsBoard(board)
    ensures score == Score(Snapshot(board), piece)
  {
    var g := Snapshot(board);
    score := 0;
    var centerArray := Column(g, COLS / 2);
    var centerCount := Count(centerArray, piece);
    score := score + centerCount * CENTER_WEIGHT;
    var rows := ScoreRows(g, piece);
    score := score + rows;
    var columns := ScoreColumns(g, piece);
    score := score + columns;
    var ascending := ScoreAscending(g, piece);
    score := score + ascending;
    var descending := ScoreDescending(g, piece);
    score := score + descending;
  }

  /** The horizontal scan: each row, then the windows `row_array[c:c+4]`. */
  method ScoreRows(g: Grid, piece: Piece) returns (score: int)
    ensures score == DirectionScore(g, piece, Horizontal)
  {
    score := 0;
    for r := 0 to ROWS
      invariant score == ScanScore(g, piece, Horizontal, r)
    {
      var lineScore := ScoreRow(g, piece, r);
      score := score + lineScore;
    }
  }

  /** The inner loop of the horizontal scan over row `r`: `row_array = list(board[r, :])`,
      then the windows `row_array[c:c+4]` for c in 0..3. */
  method ScoreRow(g: Grid, piece: Piece, r: int) returns (score: int)
    requires 0 <= r < ROWS
    ensures score == SumWindows(g, piece, Line(Horizontal, r))
  {
    var rowArray := g[r];
    score := 0;
    for c := 0 to COLS - 3
      invariant score == SumWindows(g, piece, Line(Horizontal, r)[..c])
    {
      var window := rowArray[c..c + WINDOW_LENGTH];
      SlicesAreWindows(g, r, c);
      SumWindowsStep(g, piece, Line(Horizontal, r), c);
      score := score + EvaluateWindow(window, piece);
    }
    assert Line(Horizontal, r)[..COLS - 3] == Line(Horizontal, r);
  }

  /** The vertical scan: each column, then the windows `col_array[r:r+4]`. */
  method ScoreColumns(g: Grid, piece: Piece) returns (score: int)
    ensures score == DirectionScore(g, piece, Vertical)
  {
    score := 0;
    for c := 0 to COLS
      invariant score == ScanScore(g, piece, Vertical, c)
    {
      var lineScore := ScoreColumn(g, piece, c);
      score := score + lineScore;
    }
  }

  /** The inner loop of the vertical scan over column `c`: `col_array = list(board[:, c])`,
      then the windows `col_array[r:r+4]` for r in 0..2. */
  method ScoreColumn(g: Grid, piece: Piece, c: Column) returns (score: int)
    ensures score == SumWindows(g, piece, Line(Vertical, c))
  {
    var colArray := Column(g, c);
    score := 0;
    for r := 0 to ROWS - 3
      invariant score == SumWindows(g, piece, Line(Vertical, c)[..r])
    {
      var window := colArray[r..r + WINDOW_LENGTH];
      SlicesAreWindows(g, r, c);
      SumWindowsStep(g, piece, Line(Vertical, c), r);
      score := score + EvaluateWindow(window, piece);
    }
    assert Line(Vertical, c)[..ROWS - 3] == Line(Vertical, c);
  }

  /** The ascending scan: windows `[board[r+i][c+i] for i in range(4)]`. */
  method ScoreAscending(g: Grid, piece: Piece) returns (score: int)
    ensures score == DirectionScore(g, piece, Ascending)
  {
    score := 0;
    for r := 0 to ROWS - 3
      invariant score == ScanScore(g, piece, Ascending, r)
    {
      var lineScore := ScoreAscendingLine(g, piece, r);
      score := score + lineScore;
    }
  }

  /** The inner loop of the ascending scan at row `r`: the windows
      `[board[r+i][c+i] for i in range(4)]` for c in 0..3. */
  method ScoreAscendingLine(g: Grid, piece: Piece, r: int) returns (score: int)
    requires 0 <= r < ROWS - 3
    ensures score == SumWindows(g, piece, Line(Ascending, r))
  {
    score := 0;
    for c := 0 to COLS - 3
      invariant score == SumWindows(g, piece, Line(Ascending, r)[..c])
    {
      var window := Window(g, Ascending, r, c);
      SumWindowsStep(g, piece, Line(Ascending, r), c);
      score := score + EvaluateWindow(window, piece);
    }
    assert Line(Ascending, r)[..COLS - 3] == Line(Ascending, r);
  }

  /** The descending scan: windows `[board[r+3-i][c+i] for i in range(4)]`. */
  method ScoreDescending(g: Grid, piece: Piece) returns (score: int)
    ensures score == DirectionScore(g, piece, Descending)
  {
    score := 0;
    for r := 0 to ROWS - 3
      invariant score == ScanScore(g, piece, Descending, r)
    {
      var lineScore := ScoreDescendingLine(g, piece, r);
      score := score + lineScore;
    }
  }

  /** The inner loop of the descending scan at row `r`: the windows
      `[board[r+3-i][c+i] for i in range(4)]` for c in 0..3. */
  method ScoreDescendingLine(g: Grid, piece: Piece, r: int) returns (score: int)
    requires 0 <= r < ROWS - 3
    ensures score == SumWindows(g, piece, Line(Descending, r))
  {
    score := 0;
    for c := 0 to COLS - 3
      invariant score == SumWindows(g, piece, Line(Descending, r)[..c])
    {
      var window := Window(g, Descending, r + 3, c);
      SumWindowsStep(g, piece, Line(Descending, r), c);
      score := score + EvaluateWindow(window, piece);
    }
    assert Line(Descending, r)[..COLS - 3] == Line(Descending, r);
  }

  /** Each window contributes between -80 and 100. */
  lemma {:induction false} SumWindowsBounds(g: Grid, p: Piece, s: seq<Anchor>)
    ensures -80 * |s| <= SumWindows(g, p, s) <= 100 * |s|
  {
    if s != [] {
      var a := s[|s| - 1];
      SumWindowsBounds(g, p, s[..|s| - 1]);
      if Fits(a.dir, a.row, a.col) {
        WindowValues(Window(g, a.dir, a.row, a.col), p);
      }
    }
  }

  /** score_position is at least -80 * 69 and at most 6 * 6 + 100 * 69, so it lies
      strictly between -1000000 and 1000000 and can never be taken for a win or a loss. */
  lemma ScoreBounds(g: Grid, p: Piece)
    ensures -80 * 69 <= Score(g, p) <= CENTER_WEIGHT * ROWS + 100 * 69
    ensures -1000000 < Score(g, p) < 1000000
  {
    AnchorsLength();
    DirectionBounds(g, p, Horizontal);
    DirectionBounds(g, p, Vertical);
    DirectionBounds(g, p, Ascending);
    DirectionBounds(g, p, Descending);
  }

  /** Every window of score_position, direction by direction in the source's order. */
  function AllAnchors(): seq<Anchor>
  {
    Anchors(Horizontal) + Anchors(Vertical) + Anchors(Ascending) + Anchors(Descending)
  }

  /** score_position is the centre bonus plus evaluate_window summed over exactly
      69 windows, which are all the runs of four on the board. */
  lemma ScoreIsWindowSum(g: Grid, p: Piece)
    ensures |AllAnchors()| == 69
    ensures forall a: Anchor :: a in AllAnchors() <==> Fits(a.dir, a.row, a.col)
    ensures Score(g, p) == CENTER_WEIGHT * CenterCount(g, p) + SumWindows(g, p, AllAnchors())
  {
    AnchorsLength();
    forall a: Anchor
      ensures a in AllAnchors() <==> Fits(a.dir, a.row, a.col)
    {
      AnchorsAreAllRuns(a.dir, a.row, a.col);
    }
    var h, v, u, w := Anchors(Horizontal), Anchors(Vertical), Anchors(Ascending), Anchors(Descending);
    ScanScoreIsSum(g, p, Horizontal, LineCount(Horizontal));
    ScanScoreIsSum(g, p, Vertical, LineCount(Vertical));
    ScanScoreIsSum(g, p, Ascending, LineCount(Ascending));
    ScanScoreIsSum(g, p, Descending, LineCount(Descending));
    SumWindowsAppend(g, p, h, v);
    SumWindowsAppend(g, p, h + v, u);
    SumWindowsAppend(g, p, h + v + u, w);
  }

  /** A whole scan is worth between -80 and 100 per window it visits. */
  lemma DirectionBounds(g: Grid, p: Piece, d: Direction)
    ensures -80 * |Anchors(d)| <= DirectionScore(g, p, d) <= 100 * |Anchors(d)|
  {
    ScanScoreIsSum(g, p, d, LineCount(d));
    SumWindowsBounds(g, p, Anchors(d));
  }

  lemma {:induction false} SumWindowsSwapped(g: Grid, p: Piece, s: seq<Anchor>)
    ensures SumWindows(Swapped(g), Opponent(p), s) == SumWindows(g, p, s)
  {
    if s != [] {
      var a := s[|s| - 1];
      SumWindowsSwapped(g, p, s[..|s| - 1]);
      if Fits(a.dir, a.row, a.col) {
        WindowSwapped(g, a.dir, a.row, a.col);
        WindowSwapSymmetric(Window(g, a.dir, a.row, a.col), p);
      }
    }
  }

  /** Swapping every PLAYER_PIECE and AI_PIECE cell and scoring for the other side
      gives the same score_position. */
  lemma ScoreSwapSymmetric(g: Grid, p: Piece)
    ensures Score(Swapped(g), Opponent(p)) == Score(g, p)
  {
    assert Column(Swapped(g), COLS / 2) == SwapAll(Column(g, COLS / 2));
    CountSwapAll(Column(g, COLS / 2), p);
    assert SwapCell(p) == Opponent(p);
    DirectionSwapped(g, p, Horizontal);
    DirectionSwapped(g, p, Vertical);
    DirectionSwapped(g, p, Ascending);
    DirectionSwapped(g, p, Descending);
  }

  /** Each scan is unchanged by exchanging the sides and the piece scored for. */
  lemma DirectionSwapped(g: Grid, p: Piece, d: Direction)
    ensures DirectionScore(Swapped(g), Opponent(p), d) == DirectionScore(g, p, d)
  {
    ScanScoreIsSum(g, p, d, LineCount(d));
    ScanScoreIsSum(Swapped(g), Opponent(p), d, LineCount(d));
    SumWindowsSwapped(g, p, Anchors(d));
  }

  lemma {:induction false} SumWindowsZero(g: Grid, p: Piece, s: seq<Anchor>)
    requires forall k :: 0 <= k < |s| ==> WindowScore(g, p, s[k]) == 0
    ensures SumWindows(g, p, s) == 0
  {
    if s != [] {
      SumWindowsZero(g, p, s[..|s| - 1]);
    }
  }

  /** A window of a board holding one piece holds that piece at most once and no
      opposing piece, so it is worth nothing. */
  lemma SinglePieceWindow(row: Row, col: Column, p: Piece, d: Direction, r: int, c: int)
    requires Fits(d, r, c)
    ensures EvaluateWindow(Window(SetCell(EmptyGrid(), row, col, p), d, r, c), p) == 0
  {
    var w := Window(SetCell(EmptyGrid(), row, col, p), d, r, c);
    forall i, j | 0 <= i < |w| && 0 <= j < |w| && w[i] == p && w[j] == p
      ensures i == j
    {
      assert CellOf(d, r, c, i) == (row, col) == CellOf(d, r, c, j);
    }
    CountAtMostOne(w, p);
    CountNone(w, Opponent(p));
  }

  /** On a board holding a single piece, the windows of every direction sum to zero. */
  lemma SinglePieceWindowsZero(row: Row, col: Column, p: Piece, d: Direction)
    ensures DirectionScore(SetCell(EmptyGrid(), row, col, p), p, d) == 0
  {
    var g := SetCell(EmptyGrid(), row, col, p);
    var s := Anchors(d);
    forall k | 0 <= k < |s|
      ensures WindowScore(g, p, s[k]) == 0
    {
      SinglePieceWindow(row, col, p, d, s[k].row, s[k].col);
    }
    SumWindowsZero(g, p, s);
    ScanScoreIsSum(g, p, d, LineCount(d));
  }

  /** On a board holding a single piece, the centre column holds it once when the
      piece is in the centre column and never otherwise. */
  lemma SinglePieceCenter(row: Row, col: Column, p: Piece)
    ensures CenterCount(SetCell(EmptyGrid(), row, col, p), p) == if col == COLS / 2 then 1 else 0
  {
    var center := Column(SetCell(EmptyGrid(), row, col, p), COLS / 2);
    if col == COLS / 2 {
      assert center[row] == p;
      CountAtMostOne(center, p);
    } else {
      CountNone(center, p);
    }
  }

  /** On a board holding a single piece of `p`, no window earns anything (a window
      needs two own or three opposing pieces), so the score is the centre bonus alone:
      6 when the piece is in the centre column, else 0. */
  lemma SinglePieceScore(row: Row, col: Column, p: Piece)
    ensures Score(SetCell(EmptyGrid(), row, col, p), p) == if col == COLS / 2 then CENTER_WEIGHT else 0
  {
    SinglePieceCenter(row, col, p);
    SinglePieceWindowsZero(row, col, p, Horizontal);
    SinglePieceWindowsZero(row, col, p, Vertical);
    SinglePieceWindowsZero(row, col, p, Ascending);
    SinglePieceWindowsZero(row, col, p, Descending);
  }
}
