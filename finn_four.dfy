/** The engine of finn_four/connect_four.py: row 0 is the bottom of the board,
    pieces rest on row 0. The board is the mutable matrix the game plays on; every operation
    here is proved against the grid-level definitions of Rules and Search. */
module FinnFour {
  import opened Wrappers
  import opened Board
  import opened Detector
  import opened Evaluator
  import Rules
  import opened Search

  /** The orientation of this engine. */
  const ORIGIN: Rules.Orientation := Rules.BottomOrigin

  /** is_valid_location: the top cell `board[ROW_COUNT-1][col]` is still empty. */
  function IsValidLocation(board: array2<Cell>, col: Column): (valid: bool)
    reads board
    requires IsBoard(board)
    ensures valid <==> Rules.IsValidLocation(ORIGIN, Snapshot(board), col)
  {
    board[ROWS - 1, col] == Empty
  }

  /** get_next_open_row: scans `range(ROW_COUNT)`, from the bottom row up, and
      returns the first empty row, or None when the column is full. */
  method GetNextOpenRow(board: array2<Cell>, col: Column) returns (row: Option<Row>)
    requires IsBoard(board)
    ensures row == Rules.NextOpenRow(ORIGIN, Snapshot(board), col)
    ensures row.None? <==> forall r :: 0 <= r < ROWS ==> board[r, col] != Empty
    ensures row.Some? ==> board[row.value, col] == Empty && forall r :: 0 <= r < row.value ==> board[r, col] != Empty
  {
    ghost var g := Snapshot(board);
    Rules.NextOpenRowSpec(ORIGIN, g, col);
    for r := 0 to ROWS
      invariant Rules.ScanFrom(ORIGIN, g, col, r) == Rules.NextOpenRow(ORIGIN, g, col)
    {
      if board[r, col] == Empty {
        return Some(r);
      }
    }
    return None;
  }

  /** is_terminal_node: the player has won, or the AI has won, or no column is
      valid; the three tests run in that order and stop at the first that holds. */
  method IsTerminalNode(board: array2<Cell>) returns (terminal: bool)
    requires IsBoard(board)
    ensures terminal == Rules.IsTerminal(ORIGIN, Snapshot(board))
  {
    terminal := WinningMove(board, PlayerPiece);
    if !terminal {
      terminal := WinningMove(board, AIPiece);
    }
    if !terminal {
      terminal := |Rules.ValidLocations(ORIGIN, Snapshot(board))| == 0;
    }
  }

  /** minimax: the search on the mutable board. Each child is built on a copy of the
      board, so the caller's board is never written (the method modifies nothing),
      and the result is the decision of the alpha-beta specification. */
  method Minimax(board: array2<Cell>, depth: nat, alpha: int, beta: int, maximizingPlayer: bool) returns (col: Option<Column>, value: int)
    requires IsBoard(board)
    decreases depth, 2
    ensures Decision(col, value) == AlphaBeta(ORIGIN, Snapshot(board), depth, alpha, beta, maximizingPlayer)
  {
    var validLocations := Rules.ValidLocations(ORIGIN, Snapshot(board));
    var terminal := IsTerminalNode(board);
    if depth == 0 || terminal {
      if terminal {
        var aiWins := WinningMove(board, AIPiece);
        if aiWins {
          return None, WIN;
        }
        var playerWins := WinningMove(board, PlayerPiece);
        if playerWins {
          return None, -WIN;
        }
        return None, 0;
      } else {
        var score := ScorePosition(board, AIPiece);
        return None, score;
      }
    }
    if maximizingPlayer {
      col, value := MaximizeOver(board, depth, validLocations, alpha, beta);
    } else {
      col, value := MinimizeOver(board, depth, validLocations, alpha, beta);
    }
  }

  /** The maximizing branch of minimax: `value = -math.inf`, the default column, and
      the loop over `valid_locations` raising `alpha` until `alpha >= beta`. */
  method MaximizeOver(board: array2<Cell>, depth: nat, validLocations: seq<Column>, alpha: int, beta: int) returns (col: Option<Column>, value: int)
    requires IsBoard(board) && depth >= 1 && |validLocations| > 0
    requires validLocations == Rules.ValidLocations(ORIGIN, Snapshot(board))
    decreases depth, 1
    ensures Decision(col, value) == MaxLoop(ORIGIN, Snapshot(board), depth, validLocations, alpha, beta, -INF, validLocations[0])
  {
    ghost var g := Snapshot(board);
    value := -INF;
    // random.choice(valid_locations): the first valid column stands in for the draw
    var bestCol := validLocations[0];
    var a := alpha;
    var i := 0;
    while i < |validLocations|
      invariant 0 <= i <= |validLocations|
      invariant MaxLoop(ORIGIN, g, depth, validLocations, alpha, beta, -INF, validLocations[0])
             == MaxLoop(ORIGIN, g, depth, validLocations[i..], a, beta, value, bestCol)
    {
      ghost var (a0, value0, best0) := (a, value, bestCol);
      var c := validLocations[i];
      var newScore := SearchChild(board, depth, c, AIPiece, a, beta);
      if newScore > value {
        value := newScore;
        bestCol := c;
      }
      a := Max(a, value);
      MaxLoopStep(ORIGIN, g, depth, validLocations[i..], a0, beta, value0, best0, newScore);
      assert validLocations[i..][1..] == validLocations[i + 1..];
      if a >= beta {
        // break, then return best_col, value
        return Some(bestCol), value;
      }
      i := i + 1;
    }
    col := Some(bestCol);
  }

  /** The minimizing branch of minimax: `value = math.inf`, the default column, and
      the loop over `valid_locations` lowering `beta` until `alpha >= beta`. */
  method MinimizeOver(board: array2<Cell>, depth: nat, validLocations: seq<Column>, alpha: int, beta: int) returns (col: Option<Column>, value: int)
    requires IsBoard(board) && depth >= 1 && |validLocations| > 0
    requires validLocations == Rules.ValidLocations(ORIGIN, Snapshot(board))
    decreases depth, 1
    ensures Decision(col, value) == MinLoop(ORIGIN, Snapshot(board), depth, validLocations, alpha, beta, INF, validLocations[0])
  {
    ghost var g := Snapshot(board);
    value := INF;
    // random.choice(valid_locations): the first valid column stands in for the draw
    var bestCol := validLocations[0];
    var b := beta;
    var i := 0;
    while i < |validLocations|
      invariant 0 <= i <= |validLocations|
      invariant MinLoop(ORIGIN, g, depth, validLocations, alpha, beta, INF, validLocations[0])
             == MinLoop(ORIGIN, g, depth, validLocations[i..], alpha, b, value, bestCol)
    {
      ghost var (b0, value0, best0) := (b, value, bestCol);
      var c := validLocations[i];
      var newScore := SearchChild(board, depth, c, PlayerPiece, alpha, b);
      if newScore < value {
        value := newScore;
        bestCol := c;
      }
      b := Min(b, value);
      MinLoopStep(ORIGIN, g, depth, validLocations[i..], alpha, b0, value0, best0, newScore);
      assert validLocations[i..][1..] == validLocations[i + 1..];
      if alpha >= b {
        // break, then return best_col, value
        return Some(bestCol), value;
      }
      i := i + 1;
    }
    col := Some(bestCol);
  }

  /** The child search of one loop iteration: build the child, then take the score
      of a search one ply shallower on it, with the current window and the other side
      to move (the player has just moved exactly when the AI maximizes next). */
  method SearchChild(board: array2<Cell>, depth: nat, col: Column, piece: Piece, alpha: int, beta: int) returns (score: int)
    requires IsBoard(board) && depth >= 1 && Rules.IsValidLocation(ORIGIN, Snapshot(board), col)
    decreases depth, 0
    ensures score == AlphaBeta(ORIGIN, Rules.Drop(ORIGIN, Snapshot(board), col, piece), depth - 1, alpha, beta, piece == PlayerPiece).score
  {
    var child := MakeChild(board, col, piece);
    var _, s := Minimax(child, depth - 1, alpha, beta, piece == PlayerPiece);
    score := s;
  }

  /** How minimax builds one child: find the column's open row, copy the board, and
      drop `piece` into the copy at that row. The copy is fresh and holds the board
      after the move. */
  method MakeChild(board: array2<Cell>, col: Column, piece: Piece) returns (child: array2<Cell>)
    requires IsBoard(board) && Rules.IsValidLocation(ORIGIN, Snapshot(board), col)
    ensures fresh(child) && IsBoard(child)
    ensures Snapshot(child) == Rules.Drop(ORIGIN, Snapshot(board), col, piece)
  {
    Rules.ValidHasOpenRow(ORIGIN, Snapshot(board), col);
    var row := GetNextOpenRow(board, col);
    child := CopyBoard(board);
    DropPiece(child, row.value, col, piece);
  }
}
