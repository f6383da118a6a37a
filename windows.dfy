/** Runs of four cells ("windows") along the four directions, shared by the
    win detector and the position evaluator. */
module Windows {
  import opened Board

  const WINDOW_LENGTH: int := 4

  /** Horizontal: along a row; Vertical: down the row index; Ascending: row and
      column both increase; Descending: row decreases as the column increases. */
  datatype Direction = Horizontal | Vertical | Ascending | Descending

  /** The i-th cell (row, column) of the run that starts at (r, c) in direction d. */
  function CellOf(d: Direction, r: int, c: int, i: int): (int, int)
  {
    match d
    case Horizontal => (r, c + i)
    case Vertical => (r + i, c)
    case Ascending => (r + i, c + i)
    case Descending => (r - i, c + i)
  }

  predicate InBounds(p: (int, int))
  {
    0 <= p.0 < ROWS && 0 <= p.1 < COLS
  }

  /** The run of four cells starting at (r, c) in direction d lies on the board. */
  predicate Fits(d: Direction, r: int, c: int)
  {
    InBounds(CellOf(d, r, c, 0)) && InBounds(CellOf(d, r, c, WINDOW_LENGTH - 1))
  }

  /** The four cells of the run starting at (r, c) in direction d. */
  function Window(g: Grid, d: Direction, r: int, c: int): (w: seq<Cell>)
    requires Fits(d, r, c)
    ensures |w| == WINDOW_LENGTH
    ensures forall i :: 0 <= i < WINDOW_LENGTH ==> InBounds(CellOf(d, r, c, i)) && w[i] == g[CellOf(d, r, c, i).0][CellOf(d, r, c, i).1]
  {
    seq(WINDOW_LENGTH, i requires 0 <= i < WINDOW_LENGTH => g[CellOf(d, r, c, i).0][CellOf(d, r, c, i).1])
  }

  /** The window of the side-swapped board is the side-swapped window. */
  lemma WindowSwapped(g: Grid, d: Direction, r: int, c: int)
    requires Fits(d, r, c)
    ensures Window(Swapped(g), d, r, c) == SwapAll(Window(g, d, r, c))
  {
  }

  /** The window read straight from the mutable board
      (`[board[r][c+i] for i in range(4)]` and its siblings). */
  function ReadWindow(board: array2<Cell>, d: Direction, r: int, c: int): (w: seq<Cell>)
    reads board
    requires IsBoard(board) && Fits(d, r, c)
    ensures w == Window(Snapshot(board), d, r, c)
  {
    seq(WINDOW_LENGTH, i reads board requires 0 <= i < WINDOW_LENGTH => board[CellOf(d, r, c, i).0, CellOf(d, r, c, i).1])
  }

  /** The start of one window of score_position. */
  datatype Anchor = Anchor(dir: Direction, row: int, col: int)

  /** How often a scan's outer loop runs: over the rows for the horizontal scan,
      over the columns for the vertical one, over rows 0..2 for both diagonals. */
  function LineCount(d: Direction): nat
  {
    match d
    case Horizontal => ROWS
    case Vertical => COLS
    case Ascending => ROWS - 3
    case Descending => ROWS - 3
  }

  /** How often a scan's inner loop runs: three windows down a column, four along a row. */
  function LineLength(d: Direction): nat
  {
    if d == Vertical then ROWS - 3 else COLS - 3
  }

  /** Which iteration of its scan's outer loop visits the window starting at `a`. */
  function LineOf(a: Anchor): int
  {
    match a.dir
    case Horizontal => a.row
    case Vertical => a.col
    case Ascending => a.row
    case Descending => a.row - 3
  }

  /** The window iteration i of a scan's outer loop visits at step k of its inner
      loop; the descending scan at row i reads the window starting at row i + 3. */
  function LineAnchor(d: Direction, i: int, k: int): Anchor
  {
    match d
    case Horizontal => Anchor(Horizontal, i, k)
    case Vertical => Anchor(Vertical, k, i)
    case Ascending => Anchor(Ascending, i, k)
    case Descending => Anchor(Descending, i + 3, k)
  }

  /** The windows iteration i of a scan's outer loop visits, in its inner loop's order. */
  function Line(d: Direction, i: int): (s: seq<Anchor>)
    requires 0 <= i < LineCount(d)
    ensures |s| == LineLength(d)
  {
    seq(LineLength(d), k => LineAnchor(d, i, k))
  }

  /** Line i visits only runs of direction d that fit on the board, and it is their line. */
  lemma LineFits(d: Direction, i: int)
    requires 0 <= i < LineCount(d)
    ensures forall k :: 0 <= k < |Line(d, i)| ==> Line(d, i)[k].dir == d && Fits(d, Line(d, i)[k].row, Line(d, i)[k].col) && LineOf(Line(d, i)[k]) == i
  {
  }

  /** The windows of the first n iterations of a scan's outer loop, in order. */
  function Lines(d: Direction, n: nat): seq<Anchor>
    requires n <= LineCount(d)
  {
    if n == 0 then [] else Lines(d, n - 1) + Line(d, n - 1)
  }

  /** The first n iterations visit only runs of direction d that fit on the board,
      each from one of their lines. */
  lemma {:induction false} LinesFit(d: Direction, n: nat)
    requires n <= LineCount(d)
    ensures forall k :: 0 <= k < |Lines(d, n)| ==> Lines(d, n)[k].dir == d && Fits(d, Lines(d, n)[k].row, Lines(d, n)[k].col) && 0 <= LineOf(Lines(d, n)[k]) < n
  {
    if n > 0 {
      LinesFit(d, n - 1);
      LineFits(d, n - 1);
      var prefix, line := Lines(d, n - 1), Line(d, n - 1);
      assert forall k :: 0 <= k < |prefix + line| ==> (prefix + line)[k] == if k < |prefix| then prefix[k] else line[k - |prefix|];
    }
  }

  /** The windows score_position visits in one direction, in its loop order. */
  function Anchors(d: Direction): (s: seq<Anchor>)
    ensures forall k :: 0 <= k < |s| ==> s[k].dir == d && Fits(d, s[k].row, s[k].col)
  {
    LinesFit(d, LineCount(d));
    Lines(d, LineCount(d))
  }

  lemma {:induction false} LinesLength(d: Direction, n: nat)
    requires n <= LineCount(d)
    ensures |Lines(d, n)| == n * LineLength(d)
  {
    if n > 0 {
      LinesLength(d, n - 1);
    }
  }

  /** 24 horizontal, 21 vertical and 12 windows per diagonal. */
  lemma AnchorsLength()
    ensures |Anchors(Horizontal)| == 24 && |Anchors(Vertical)| == 21
    ensures |Anchors(Ascending)| == 12 && |Anchors(Descending)| == 12
  {
    LinesLength(Horizontal, ROWS);
    LinesLength(Vertical, COLS);
    LinesLength(Ascending, ROWS - 3);
    LinesLength(Descending, ROWS - 3);
  }

  /** Every window of an earlier line is visited by the first n iterations. */
  lemma {:induction false} LinesContain(d: Direction, n: nat, i: int, j: int)
    requires n <= LineCount(d) && 0 <= i < n && 0 <= j < LineLength(d)
    ensures Line(d, i)[j] in Lines(d, n)
  {
    if i < n - 1 {
      LinesContain(d, n - 1, i, j);
    }
  }

  /** No window is visited twice in the first n iterations. */
  lemma {:induction false} LinesDistinct(d: Direction, n: nat)
    requires n <= LineCount(d)
    ensures forall i, j :: 0 <= i < j < |Lines(d, n)| ==> Lines(d, n)[i] != Lines(d, n)[j]
  {
    if n > 0 {
      LinesDistinct(d, n - 1);
      LinesFit(d, n - 1);
      LineFits(d, n - 1);
      var prefix, line := Lines(d, n - 1), Line(d, n - 1);
      forall i, j | 0 <= i < j < |prefix + line|
        ensures (prefix + line)[i] != (prefix + line)[j]
      {
        if j < |prefix| {
          assert (prefix + line)[i] == prefix[i] && (prefix + line)[j] == prefix[j];
        } else if i < |prefix| {
          assert LineOf((prefix + line)[i]) < n - 1 == LineOf((prefix + line)[j]);
        } else {
          assert (prefix + line)[i] == line[i - |prefix|] && (prefix + line)[j] == line[j - |prefix|];
        }
      }
    }
  }

  /** The windows of score_position are exactly the runs of four that fit on the
      board, each visited once. */
  lemma AnchorsAreAllRuns(d: Direction, r: int, c: int)
    ensures Anchor(d, r, c) in Anchors(d) <==> Fits(d, r, c)
    ensures forall i, j :: 0 <= i < j < |Anchors(d)| ==> Anchors(d)[i] != Anchors(d)[j]
  {
    LinesDistinct(d, LineCount(d));
    if Fits(d, r, c) {
      match d
      case Horizontal => LinesContain(d, LineCount(d), r, c);
      case Vertical => LinesContain(d, LineCount(d), c, r);
      case Ascending => LinesContain(d, LineCount(d), r, c);
      case Descending => LinesContain(d, LineCount(d), r - 3, c);
    }
  }
}
