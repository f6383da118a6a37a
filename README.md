# Connect Four decision engine

This project models the decision engine of a Connect Four game against an AI.
The game is played on a 6 x 7 board. The AI picks its column by depth-limited minimax
with alpha-beta pruning, and scores positions with a window heuristic.
The engine exists in two copies, which differ only in row orientation:

- `connect_four.py`: row 0 is the top of the board, and pieces come to rest on row 5.
- `finn_four/connect_four.py`: row 0 is the bottom, and pieces come to rest on row 0.

The shared logic is stated once, over grid values. Where the two copies differ, the
rules take the orientation as a parameter (`Rules.Orientation`). Each copy then gets
its own module working on the mutable board: `ConnectFour` (top origin) and `FinnFour`
(bottom origin). Each of those proves its methods against the shared definitions.

Modules:

- `Board`:
  - the cell enum `Cell` (EMPTY, PLAYER_PIECE, AI_PIECE);
  - the board as a mutable `array2<Cell>`, and its value `Grid`;
  - `create_board`, `drop_piece` and `board.copy()`.
- `Windows`: runs of four cells in the four directions, and the windows that
  `score_position` visits, in its order.
- `Detector`: `winning_move`, as four scanning methods with early return. Each one
  is proved equal to "some run of four in that direction is all `piece`".
- `Evaluator`:
  - `evaluate_window` as a function;
  - `score_position` as a method with the source's nested accumulation loops, proved
    equal to the specification function `Score`.
- `Rules`:
  - `is_valid_location`, `get_next_open_row`, `get_valid_locations` and
    `is_terminal_node`, over grid values, for either orientation;
  - the gravity invariant, and the facts about it.
- `WinPreference`: a board on which minimax, searching three plies, skips a win that
  is available at once, and the root choice that takes such a win first.
- `Search`:
  - `AlphaBeta`, `MaxLoop`, `MinLoop`: the pruned search exactly as the source
    computes it, including the break on `alpha >= beta`;
  - `Minimax`, `MaxPlain`, `MinPlain`: a plain, unpruned minimax used as the reference;
  - the lemmas relating the two.
- `ConnectFour` and `FinnFour`:
  - the board-level `is_valid_location`, `get_next_open_row`, `is_terminal_node` and
    `minimax` of each copy;
  - `minimax` loops over the valid columns, builds each child on a copy, updates
    `value`, `best_col` and `alpha`/`beta`, and stops at the cut-off.
  - `Minimax` has no `modifies` clause, so the caller's board is never written.

## Model

The shared modules model both copies. The table cites `connect_four.py`. The
corresponding spans of `finn_four/connect_four.py` are:

- `create_board` 33-34 and `drop_piece` 36-37;
- `is_valid_location` 39-40 and `get_next_open_row` 42-45. The `Rules` lemmas cover both, with the orientation `BottomOrigin`;
- `winning_move` 50-74;
- `evaluate_window` 88-101 and `score_position` 103-136;
- `get_valid_locations` 138-139;
- the leaf and terminal cases of `minimax` 147-156, and its loops 158-187.

| member | source | states |
|---|---|---|
| Board.Opponent | connect_four.py:81 | `opp_piece` is always the other side's piece |
| Board.CreateBoard | connect_four.py:34-35 | a fresh 6 x 7 board whose every cell is empty |
| Board.DropPiece | connect_four.py:37-38 | cell (row, col) becomes `piece`; every other cell keeps its old value |
| Board.CopyBoard | connect_four.py:149 | the copy is a fresh board, independent of the original, holding the same cells |
| Board.SetCell | connect_four.py:38 | the grid after the write: the cell holds `x`, and the rest of the grid is unchanged |
| Board.CountPartition | connect_four.py:83-91 | in any sequence, the counts of `piece`, opponent and EMPTY add up to its length |
| Windows.Window | connect_four.py:51 | a window is the four cells of the run, read in order from its start |
| Windows.AnchorsLength | connect_four.py:100-120 | score_position visits 24 horizontal, 21 vertical and 12 windows per diagonal |
| Windows.AnchorsAreAllRuns | connect_four.py:100-120 | a window is visited iff it is a run of four that fits on the board, and no window is visited twice |
| Detector.WinningMove | connect_four.py:48-65 | true iff some horizontal, vertical, ascending or descending run of four on-board cells is all `piece` |
| Detector.HorizontalWin | connect_four.py:49-52 | the first scan returns true iff some horizontal run is all `piece` |
| Detector.VerticalWin | connect_four.py:53-56 | the second scan returns true iff some vertical run is all `piece` |
| Detector.AscendingWin | connect_four.py:57-60 | the third scan returns true iff some run with the row and column both increasing is all `piece` |
| Detector.DescendingWin | connect_four.py:61-64 | the fourth scan returns true iff some run with the row falling as the column rises is all `piece` |
| Detector.HasWinByDirection | connect_four.py:48-65 | a win exists iff it exists in one of the four directions |
| Detector.LongerRunWins | connect_four.py:48-65 | any run of n >= 4 owned cells in a line makes winning_move true |
| Detector.HasWinSwapped | connect_four.py:48-65 | exchanging the two sides on the board exchanges their wins |
| Evaluator.EvaluateWindow | connect_four.py:79-92 | the value of one window for `piece`; its contract is carried by `WindowValues` and `WindowSwapSymmetric` |
| Evaluator.WindowValues | connect_four.py:79-92 | the value of a window is one of 100, 10, 5, 0 and -80; each arises exactly from its own composition, so a bonus never meets the -80 penalty |
| Evaluator.WindowSwapSymmetric | connect_four.py:79-92 | exchanging the sides in a window and scoring for the opponent gives the same value |
| Evaluator.Column | connect_four.py:107 | `board[:, c]` holds the column's cells, listed by row index |
| Evaluator.SlicesAreWindows | connect_four.py:101-110 | the slices `row_array[c:c+4]` and `col_array[r:r+4]` are the horizontal and vertical windows |
| Evaluator.ScorePosition | connect_four.py:94-122 | the accumulated score equals the specification `Score` of the board |
| Evaluator.Score | connect_four.py:94-122 | the specification of score_position; `ScorePosition` computes it, `ScoreIsWindowSum` states it as a sum over all 69 runs, `ScoreBounds` bounds it |
| Evaluator.CenterCount | connect_four.py:96-98 | the number of `piece` cells in column 3, weighed by 6 in `ScoreIsWindowSum`; `SinglePieceCenter` counts one piece |
| Evaluator.ScoreRows | connect_four.py:100-104 | the horizontal loops add up evaluate_window over all horizontal windows |
| Evaluator.ScoreRow | connect_four.py:101-104 | one row adds up its four windows |
| Evaluator.ScoreColumns | connect_four.py:106-110 | the vertical loops add up evaluate_window over all vertical windows |
| Evaluator.ScoreColumn | connect_four.py:107-110 | one column adds up its three windows |
| Evaluator.ScoreAscending | connect_four.py:112-115 | the first diagonal loops add up all ascending windows |
| Evaluator.ScoreAscendingLine | connect_four.py:113-115 | one iteration of the outer loop adds up its four ascending windows |
| Evaluator.ScoreDescending | connect_four.py:117-120 | the second diagonal loops add up all descending windows; `board[r+3-i][c+i]` starts at row r + 3 |
| Evaluator.ScoreDescendingLine | connect_four.py:118-120 | one iteration of the outer loop adds up its four descending windows |
| Evaluator.ScanScoreIsSum | connect_four.py:100-120 | a scan's running total is evaluate_window summed over the windows visited so far |
| Evaluator.ScoreIsWindowSum | connect_four.py:94-122 | score_position is 6 x the centre count plus evaluate_window summed over exactly 69 windows, which are all the runs of four on the board |
| Evaluator.SumWindowsBounds | connect_four.py:79-92 | each window adds between -80 and 100 |
| Evaluator.ScoreBounds | connect_four.py:94-122 | the score lies between -80 x 69 and 36 + 100 x 69, so strictly between -1000000 and 1000000 |
| Evaluator.DirectionBounds | connect_four.py:100-120 | a whole scan adds between -80 and 100 per window it visits |
| Evaluator.SumWindowsSwapped | connect_four.py:81 | exchanging the sides and scoring for the opponent leaves any window sum unchanged |
| Evaluator.ScoreSwapSymmetric | connect_four.py:94-122 | exchanging all PLAYER_PIECE and AI_PIECE cells and scoring for the other piece gives the same score_position |
| Evaluator.DirectionSwapped | connect_four.py:100-120 | the same for each directional scan |
| Evaluator.SinglePieceScore | finn_four/connect_four.py:106-108 | a board with one piece scores 6 for it when the piece is in the centre column, else 0 |
| Evaluator.SinglePieceCenter | finn_four/connect_four.py:106-108 | the centre count of a one-piece board is 1 exactly when the piece is in the centre column |
| Evaluator.SinglePieceWindowsZero | finn_four/connect_four.py:110-134 | no window of a one-piece board is worth anything |
| Rules.ScanFromSpec | connect_four.py:44-46 | the scan from step k finds nothing iff every cell it would meet is taken; otherwise it stops at the first empty cell |
| Rules.IsValidLocation | connect_four.py:40-41 | whether the entry cell of the column is empty; `ValidIffNotFull` and `ValidHasOpenRow` state what that means |
| Rules.NextOpenRow | connect_four.py:43-46 | the open row of a column; `NextOpenRowSpec` and `OpenRowOnTop` characterise it |
| Rules.Drop | connect_four.py:148-150 | the child board of a move; `DropKeepsGravity` states its new cells and `Search.DropWins` its effect on wins |
| Rules.IsTerminal | connect_four.py:127-128 | either side has won or no column is valid; `Search.TerminalPriority` states the value of such a board |
| Rules.NextOpenRowSpec | connect_four.py:43-46 | None iff the column is full; otherwise the row is empty and every row below it is taken |
| Rules.ValidHasOpenRow | connect_four.py:40-46 | a valid column always has an open row |
| Rules.ValidLocations | connect_four.py:124-125 | a column is listed iff it is valid |
| Rules.ValidLocationsAscending | connect_four.py:124-125 | the columns are listed in strictly ascending order |
| Rules.ValidFrom | connect_four.py:125 | the comprehension from column c on lists exactly the valid columns >= c |
| Rules.ValidIffNotFull | connect_four.py:40-41 | under gravity, a column is valid iff it has an empty cell |
| Rules.OpenRowOnTop | connect_four.py:43-46 | under gravity, the open row sits right on top of the column's block: everything below is taken, everything above is empty |
| Rules.DropKeepsGravity | connect_four.py:37-46 | dropping into a valid column keeps gravity and changes exactly the open cell of that column |
| Search.LeafScore | connect_four.py:133-142 | a leaf is worth between -1000000 and 1000000, and a non-terminal leaf strictly between them |
| Search.AlphaBeta | connect_four.py:130-173 | the pruned search as the source computes it; carried by `AlphaBetaShape`, `AlphaBetaFailSoft`, `RootAgreement` and `RootLeftmostBest` |
| Search.MaxLoop | connect_four.py:144-158 | the maximizing loop with its break; carried by `MaxLoopShape` and `MaxLoopFailSoft` |
| Search.MinLoop | connect_four.py:159-173 | the minimizing loop with its break; carried by `MinLoopShape` and `MinLoopFailSoft` |
| Search.AlphaBetaShape | connect_four.py:130-173 | the pruned search returns no column exactly at a leaf (depth 0 or terminal), otherwise a valid column, and a value between -1000000 and 1000000 |
| Search.AlphaBetaBounds | connect_four.py:130-173 | every search value lies between -1000000 and 1000000 |
| Search.MaxLoopShape | connect_four.py:144-158 | the maximizing loop returns its start column or a listed one and never lowers the value; once it has visited a column from the -inf start, the value lies between -1000000 and 1000000, so the sentinel never escapes |
| Search.MinLoopShape | connect_four.py:159-173 | the same for the minimizing loop, which never raises the value |
| Search.MinimaxShape | connect_four.py:130-173 | the plain reference returns no column exactly at a leaf, otherwise a valid column, and a value between -1000000 and 1000000 |
| Search.MinimaxBounds | connect_four.py:130-173 | every value of the plain reference lies between -1000000 and 1000000 |
| Search.MaxPlainShape | connect_four.py:144-158 | the unpruned maximizing loop returns its start column or a listed one, and from the -inf start a value between -1000000 and 1000000 |
| Search.MinPlainShape | connect_four.py:159-173 | the same for the unpruned minimizing loop |
| Search.TerminalPriority | connect_four.py:134-140 | on a terminal board: no column, and 1000000 for an AI win, else -1000000 for a player win, else 0 |
| Search.DepthZeroIgnoresSide | connect_four.py:133-142 | at depth 0 on a non-terminal board: score_position for the AI, whichever side is to move |
| Search.DefaultOverwritten | connect_four.py:144-173 | the decision does not depend on the default column `random.choice` draws |
| Search.MaxDefaultOverwritten | connect_four.py:145-154 | the maximizing loop forgets its start column after the first child |
| Search.MinDefaultOverwritten | connect_four.py:160-169 | the minimizing loop forgets its start column after the first child |
| Search.AlphaBetaFailSoft | connect_four.py:130-173 | the pruned value is exact inside (alpha, beta) and fail-soft outside it; inside the window the column agrees with plain minimax |
| Search.MaxStep | connect_four.py:152-157 | one maximizing step keeps the fail-soft invariant, or cuts off with a value between beta and the true value |
| Search.MinStep | connect_four.py:167-172 | one minimizing step keeps the fail-soft invariant, or cuts off with a value between the true value and alpha |
| Search.MaxLoopFailSoft | connect_four.py:144-158 | the pruned maximizing loop is fail-soft against the unpruned one |
| Search.MinLoopFailSoft | connect_four.py:159-173 | the pruned minimizing loop is fail-soft against the unpruned one |
| Search.RootAgreement | finn_four/connect_four.py:158-187 | with alpha = -inf and beta = +inf, the pruned search returns the same column and score as plain minimax |
| Search.MaxPlainBest | connect_four.py:147-154 | the plain maximizing loop keeps the first-found best child: none is better, and every earlier column is strictly worse |
| Search.MinPlainBest | connect_four.py:162-169 | the same for the minimizing loop, which never raises the value |
| Search.LeftmostBest | connect_four.py:144-173 | with depth >= 1 on a non-terminal board: a valid column whose child reaches the best value, and every valid column to its left is strictly worse |
| Search.RootLeftmostBest | connect_four.py:144-173 | the root search of the game makes the same leftmost best choice |
| Search.TakesImmediateWin | connect_four.py:144-158 | when the AI can complete four in one move, the root search, at any depth, values the position as a win and plays a valid column whose child is worth a win |
| Search.HasWinCarries | connect_four.py:48-65 | a four in a row survives any change of the board that keeps every cell of `p` |
| Search.DropWins | connect_four.py:148-150 | a drop keeps every existing four in a row, and a drop by the other side completes none for `p` |
| Search.ReplyNeverWins | connect_four.py:159-173 | with one ply left and the player to move on a non-terminal board, the value is below a win: no reply completes four for the AI |
| Search.LeafWins | connect_four.py:133-142 | a leaf is worth 1000000 iff the AI has four in a row on it |
| Search.ReplySearchWins | connect_four.py:130-173 | searching at most one ply with the player to move, the value is a win iff the AI already has four in a row |
| Search.ShallowChildWins | connect_four.py:148-151 | at depth 1 or 2, a root child is worth a win iff its column completes four at once |
| Search.ShallowSearchTakesLowestWin | connect_four.py:144-158 | at depth 1 or 2, when some column completes four at once, the root search plays the lowest such column and values the position as a win |
| Search.SinglePieceNoWin | connect_four.py:48-65 | a board with one piece has no four in a row for either side |
| Search.EmptyBoardNoWin | connect_four.py:48-65 | the empty board has no four in a row |
| Search.OpeningChild | finn_four/connect_four.py:106-108 | one move into the empty board is not terminal and scores 6 exactly in the centre column |
| Search.OpeningMove | finn_four/connect_four.py:158-172 | on the empty board at depth 1, maximizing, the search returns (3, 6) |
| WinPreference.ReplyLoses | connect_four.py:159-173 | on the witness board after column 0, every reply of the player leaves the AI a win at once |
| WinPreference.ZeroForcesWin | connect_four.py:148-151 | on the witness board at depth 3, the child of column 0 is worth a win |
| WinPreference.WitnessHasOneWin | connect_four.py:48-65 | the witness board is not terminal, column 6 is the only column that completes four at once, and the player completes four nowhere |
| WinPreference.DeepSearchDefersWin | connect_four.py:144-158 | at depth 3 on the witness board, the root search plays column 0, which does not complete four, although column 6 does |
| WinPreference.FirstWinFromSpec | connect_four.py:144-158 | the scan finds nothing iff no column from `c` on wins at once, and otherwise the lowest such column |
| WinPreference.PreferImmediateWinSpec | connect_four.py:144-158 | the corrected root choice plays the lowest column that completes four whenever one exists, with the search's value; otherwise it is the search's decision |
| WinPreference.PreferImmediateWinShallow | connect_four.py:144-158 | at depth 1 or 2 the corrected choice equals the search's own decision |
| WinPreference.PreferImmediateWinOnWitness | connect_four.py:144-158 | on the witness board at depth 3 the corrected choice plays column 6 |
| ConnectFour.IsValidLocation | connect_four.py:40-41 | reading `board[0][col]` agrees with validity for the top origin |
| ConnectFour.GetNextOpenRow | connect_four.py:43-46 | the scan from row 5 up returns the deepest empty row, or None iff the column is full |
| ConnectFour.IsTerminalNode | connect_four.py:127-128 | true iff either side has won or no column is valid |
| ConnectFour.Minimax | connect_four.py:130-173 | the search over the mutable board returns exactly the decision of the pruned specification, and writes nothing |
| ConnectFour.MaximizeOver | connect_four.py:144-158 | the maximizing loop, with its break, computes the specification's maximizing loop |
| ConnectFour.MinimizeOver | connect_four.py:159-173 | the minimizing loop, with its break, computes the specification's minimizing loop |
| ConnectFour.SearchChild | connect_four.py:148-151 | the child's score is the pruned value of the board after the move, with the other side to move |
| ConnectFour.MakeChild | connect_four.py:148-150 | the copy is fresh and holds the board after dropping `piece` into `col` |
| ConnectFour.GetAiDepth | connect_four.py:175-179 | "easy" gives 2, "hard" gives 6, and any other level gives None |
| FinnFour.IsValidLocation | finn_four/connect_four.py:39-40 | reading `board[ROW_COUNT-1][col]` agrees with validity for the bottom origin |
| FinnFour.GetNextOpenRow | finn_four/connect_four.py:42-45 | the scan from row 0 up returns the lowest empty row, or None iff the column is full |
| FinnFour.IsTerminalNode | finn_four/connect_four.py:141-142 | true iff either side has won or no column is valid |
| FinnFour.Minimax | finn_four/connect_four.py:144-187 | the search over the mutable board returns exactly the decision of the pruned specification, and writes nothing |
| FinnFour.MaximizeOver | finn_four/connect_four.py:158-172 | the maximizing loop, with its break, computes the specification's maximizing loop |
| FinnFour.MinimizeOver | finn_four/connect_four.py:173-187 | the minimizing loop, with its break, computes the specification's minimizing loop |
| FinnFour.SearchChild | finn_four/connect_four.py:162-165 | the child's score is the pruned value of the board after the move, with the other side to move |
| FinnFour.MakeChild | finn_four/connect_four.py:162-164 | the copy is fresh and holds the board after dropping `piece` into `col` |

## Left out

- Rendering, input and the game loops are not modelled. This covers pygame, `draw_board`,
  `print_board`, the colour and difficulty prompts, and the random choice of who moves first.
  All of it is presentation and I/O.
- `connf_ai/gui.py` is not part of this model. It is input, rendering and an event loop
  over a `backend` module that is not available.
- Floating point is not modelled:
  - the `math.inf` sentinels become the integer `INF = 1000001`, which lies beyond
    every score a position can receive;
  - the numpy float board becomes the three-valued `Cell` enum.
- `random.choice(valid_locations)` becomes the first valid column.
  `Search.DefaultOverwritten` proves that the decision does not depend on this choice.
- `winning_move` is split into four scanning methods, one per direction, called in the
  source's order. `minimax`'s two loops are the methods `MaximizeOver` and `MinimizeOver`.
  The loop body is `SearchChild`, which builds the child in `MakeChild`. The `break`
  is a `return` of the same values.
- `score_position` reads the board's current value, and its scans run on that value. The
  source's row and column lists are copies as well, so nothing observable differs.
- Search.AlphaBetaFailSoft: at an interior node whose value lies outside (alpha, beta),
  the pruned search may pick a different column than plain minimax. Only there does it
  differ; agreement in column and score is proved at the root.
- Rules.Drop and the engines' MakeChild require a valid column. The source only drops into
  columns taken from `get_valid_locations`. `drop_piece` itself (`Board.DropPiece`) accepts
  any cell, as the source does.
- `Piece` excludes EMPTY: the source never scores or drops for EMPTY.
- The unbounded integers are faithful: all scores stay within [-1000001, 1000001].

## Findings

At the root, `minimax` keeps the first column of greatest value. From depth 3 on, a win
two moves away is worth as much as a win at once, so an earlier column that only forces
a win is kept over a later column that wins now. At the easy level's depth 2 this cannot
happen (`Search.ShallowSearchTakesLowestWin`). The hard level searches 6 plies.
The witness is a top-origin board with the AI to move:

- row 5: `A P P A A A _`;
- row 4: `A P _ P _ P _`;
- rows 0-3 empty.

Column 6 completes row 5. Column 0 threatens both row 5 and column 0, so it wins two
moves later. The engine modules keep the behaviour as written. `PreferImmediateWin` is
the root choice that takes the immediate win. It agrees with the search at depths 1 and 2,
and differs on the witness.

| source | as written | input that shows it | evidently intended | confidence | as-written member | corrected member |
|---|---|---|---|---|---|---|
| connect_four.py:144-158 | from depth 3 on, the root may play a column that only forces a win, although another column completes four at once | the witness board above at depth 3: column 0 is returned, and only column 6 wins at once | whenever a move completes four, the AI plays it | low, not executed: the game is still won two moves later | WinPreference.DeepSearchDefersWin | WinPreference.PreferImmediateWinSpec |
