/** minimax: the depth-limited search with alpha-beta pruning that picks the AI's
    column, as a specification function over grid values, together with the plain
    minimax it must agree with at the root. */
module Search {
  import opened Wrappers
  import opened Board
  import opened Windows
  import opened Detector
  import opened Evaluator
  import opened Rules

  /** The value of a position the AI has won; its negation is a lost position. */
  const WIN: int := 1000000

  /** Stands for `math.inf`: beyond every value a position can receive. */
  const INF: int := 1000001

  /** What minimax returns: the chosen column (None at a leaf) and the value. */
  datatype Decision = Decision(col: Option<Column>, score: int)

  function Max(a: int, b: int): int
  {
    if a >= b then a else b
  }

  function Min(a: int, b: int): int
  {
    if a <= b then a else b
  }

  /** The piece the side to move drops: the AI maximizes, the player minimizes. */
  function Mover(maximizing: bool): Piece
  {
    if maximizing then AIPiece else PlayerPiece
  }

  /** The value of a leaf (depth 0 or a terminal board): 1000000 when the AI has
      four in a row, else -1000000 when the player has, else 0 for a full board;
      a non-terminal board gets score_position for the AI. A heuristic value never
      reaches the value of a win or a loss. */
  function LeafScore(o: Orientation, g: Grid): (s: int)
    ensures -WIN <= s <= WIN
    ensures !IsTerminal(o, g) ==> -WIN < s < WIN
  {
    if IsTerminal(o, g) then
      if HasWin(g, AIPiece) then WIN
      else if HasWin(g, PlayerPiece) then -WIN
      else 0
    else
      ScoreBounds(g, AIPiece);
      Score(g, AIPiece)
  }

  /** minimax(board, depth, alpha, beta, maximizingPlayer). The default column is
      the first valid one: the source draws it at random, and it is always replaced
      (DefaultOverwritten). */
  function AlphaBeta(o: Orientation, g: Grid, depth: nat, alpha: int, beta: int, maximizing: bool): Decision
    decreases depth, 1
  {
    var validLocations := ValidLocations(o, g);
    if depth == 0 || IsTerminal(o, g) then Decision(None, LeafScore(o, g))
    else if maximizing then MaxLoop(o, g, depth, validLocations, alpha, beta, -INF, validLocations[0])
    else MinLoop(o, g, depth, validLocations, alpha, beta, INF, validLocations[0])
  }

  /** The maximizing loop over the columns still to visit: a child's score replaces
      `value` only when strictly greater, `alpha` rises to `value`, and the loop
      stops once `alpha >= beta`. */
  function MaxLoop(o: Orientation, g: Grid, depth: nat, cols: seq<Column>, alpha: int, beta: int, value: int, best: Column): Decision
    requires depth >= 1
    requires forall i :: 0 <= i < |cols| ==> IsValidLocation(o, g, cols[i])
    decreases depth, 0, |cols|
  {
    if cols == [] then Decision(Some(best), value)
    else
      var col := cols[0];
      var newScore := AlphaBeta(o, Drop(o, g, col, AIPiece), depth - 1, alpha, beta, false).score;
      var value' := if newScore > value then newScore else value;
      var best' := if newScore > value then col else best;
      var alpha' := Max(alpha, value');
      if alpha' >= beta then Decision(Some(best'), value')
      else MaxLoop(o, g, depth, cols[1..], alpha', beta, value', best')
  }

  /** The minimizing loop: strictly smaller scores replace `value`, `beta` falls to
      `value`, and the loop stops once `alpha >= beta`. */
  function MinLoop(o: Orientation, g: Grid, depth: nat, cols: seq<Column>, alpha: int, beta: int, value: int, best: Column): Decision
    requires depth >= 1
    requires forall i :: 0 <= i < |cols| ==> IsValidLocation(o, g, cols[i])
    decreases depth, 0, |cols|
  {
    if cols == [] then Decision(Some(best), value)
    else
      var col := cols[0];
      var newScore := AlphaBeta(o, Drop(o, g, col, PlayerPiece), depth - 1, alpha, beta, true).score;
      var value' := if newScore < value then newScore else value;
      var best' := if newScore < value then col else best;
      var beta' := Min(beta, value');
      if alpha >= beta' then Decision(Some(best'), value')
      else MinLoop(o, g, depth, cols[1..], alpha, beta', value', best')
  }

  /** The result names a column exactly when the node is searched, that column is
      valid, and the value is never a sentinel: it lies between the values of a
      loss and a win. */
  lemma {:induction false} AlphaBetaShape(o: Orientation, g: Grid, depth: nat, alpha: int, beta: int, maximizing: bool)
    decreases depth, 1
    ensures var d := AlphaBeta(o, g, depth, alpha, beta, maximizing);
      && (d.col.None? <==> depth == 0 || IsTerminal(o, g))
      && (d.col.Some? ==> IsValidLocation(o, g, d.col.value))
      && -WIN <= d.score <= WIN
  {
    if depth != 0 && !IsTerminal(o, g) {
      var valid := ValidLocations(o, g);
      if maximizing {
        MaxLoopShape(o, g, depth, valid, alpha, beta, -INF, valid[0]);
      } else {
        MinLoopShape(o, g, depth, valid, alpha, beta, INF, valid[0]);
      }
    }
  }

  /** The value of a searched position lies between a loss and a win. */
  lemma AlphaBetaBounds(o: Orientation, g: Grid, depth: nat, alpha: int, beta: int, maximizing: bool)
    decreases depth, 2
    ensures -WIN <= AlphaBeta(o, g, depth, alpha, beta, maximizing).score <= WIN
  {
    AlphaBetaShape(o, g, depth, alpha, beta, maximizing);
  }

  /** The maximizing loop returns the starting column or a visited one, and the
      starting value or a child's score, never below the starting value; once a
      column has been visited from a sentinel start the value is a child's. */
  lemma {:induction false} MaxLoopShape(o: Orientation, g: Grid, depth: nat, cols: seq<Column>, alpha: int, beta: int, value: int, best: Column)
    requires depth >= 1
    requires forall i :: 0 <= i < |cols| ==> IsValidLocation(o, g, cols[i])
    decreases depth, 0, |cols|
    ensures var d := MaxLoop(o, g, depth, cols, alpha, beta, value, best);
      && d.col.Some? && (d.col.value == best || d.col.value in cols)
      && value <= d.score
      && (d.score == value || -WIN <= d.score <= WIN)
      && (|cols| > 0 && value < -WIN ==> -WIN <= d.score <= WIN)
  {
    if cols != [] {
      var col := cols[0];
      AlphaBetaBounds(o, Drop(o, g, col, AIPiece), depth - 1, alpha, beta, false);
      var newScore := AlphaBeta(o, Drop(o, g, col, AIPiece), depth - 1, alpha, beta, false).score;
      var value' := if newScore > value then newScore else value;
      var best' := if newScore > value then col else best;
      if Max(alpha, value') < beta {
        assert MaxLoop(o, g, depth, cols, alpha, beta, value, best) == MaxLoop(o, g, depth, cols[1..], Max(alpha, value'), beta, value', best');
        MaxLoopShape(o, g, depth, cols[1..], Max(alpha, value'), beta, value', best');
      } else {
        assert MaxLoop(o, g, depth, cols, alpha, beta, value, best) == Decision(Some(best'), value');
      }
    }
  }

  /** The same for the minimizing loop, never above the starting value. */
  lemma {:induction false} MinLoopShape(o: Orientation, g: Grid, depth: nat, cols: seq<Column>, alpha: int, beta: int, value: int, best: Column)
    requires depth >= 1
    requires forall i :: 0 <= i < |cols| ==> IsValidLocation(o, g, cols[i])
    decreases depth, 0, |cols|
    ensures var d := MinLoop(o, g, depth, cols, alpha, beta, value, best);
      && d.col.Some? && (d.col.value == best || d.col.value in cols)
      && d.score <= value
      && (d.score == value || -WIN <= d.score <= WIN)
      && (|cols| > 0 && value > WIN ==> -WIN <= d.score <= WIN)
  {
    if cols != [] {
      var col := cols[0];
      AlphaBetaBounds(o, Drop(o, g, col, PlayerPiece), depth - 1, alpha, beta, true);
      var newScore := AlphaBeta(o, Drop(o, g, col, PlayerPiece), depth - 1, alpha, beta, true).score;
      var value' := if newScore < value then newScore else value;
      var best' := if newScore < value then col else best;
      if alpha < Min(beta, value') {
        assert MinLoop(o, g, depth, cols, alpha, beta, value, best) == MinLoop(o, g, depth, cols[1..], alpha, Min(beta, value'), value', best');
        MinLoopShape(o, g, depth, cols[1..], alpha, Min(beta, value'), value', best');
      } else {
        assert MinLoop(o, g, depth, cols, alpha, beta, value, best) == Decision(Some(best'), value');
      }
    }
  }

  /** One iteration of the maximizing loop, given the child's score `r`: the state
      update of the loop body, then either the cutoff or the rest of the loop. */
  lemma MaxLoopStep(o: Orientation, g: Grid, depth: nat, cols: seq<Column>, alpha: int, beta: int, value: int, best: Column, r: int)
    requires depth >= 1 && |cols| > 0
    requires forall i :: 0 <= i < |cols| ==> IsValidLocation(o, g, cols[i])
    requires r == AlphaBeta(o, Drop(o, g, cols[0], AIPiece), depth - 1, alpha, beta, false).score
    ensures var value' := if r > value then r else value;
      var best' := if r > value then cols[0] else best;
      MaxLoop(o, g, depth, cols, alpha, beta, value, best)
        == if Max(alpha, value') >= beta then Decision(Some(best'), value')
           else MaxLoop(o, g, depth, cols[1..], Max(alpha, value'), beta, value', best')
  {
  }

  /** One iteration of the minimizing loop, given the child's score `r`. */
  lemma MinLoopStep(o: Orientation, g: Grid, depth: nat, cols: seq<Column>, alpha: int, beta: int, value: int, best: Column, r: int)
    requires depth >= 1 && |cols| > 0
    requires forall i :: 0 <= i < |cols| ==> IsValidLocation(o, g, cols[i])
    requires r == AlphaBeta(o, Drop(o, g, cols[0], PlayerPiece), depth - 1, alpha, beta, true).score
    ensures var value' := if r < value then r else value;
      var best' := if r < value then cols[0] else best;
      MinLoop(o, g, depth, cols, alpha, beta, value, best)
        == if alpha >= Min(beta, value') then Decision(Some(best'), value')
           else MinLoop(o, g, depth, cols[1..], alpha, Min(beta, value'), value', best')
  {
  }

  /** Plain minimax without pruning, choosing columns by the same strict
      comparisons: the reference the pruned search is measured against. */
  function Minimax(o: Orientation, g: Grid, depth: nat, maximizing: bool): Decision
    decreases depth, 1
  {
    var validLocations := ValidLocations(o, g);
    if depth == 0 || IsTerminal(o, g) then Decision(None, LeafScore(o, g))
    else if maximizing then MaxPlain(o, g, depth, validLocations, -INF, validLocations[0])
    else MinPlain(o, g, depth, validLocations, INF, validLocations[0])
  }

  function MaxPlain(o: Orientation, g: Grid, depth: nat, cols: seq<Column>, value: int, best: Column): Decision
    requires depth >= 1
    requires forall i :: 0 <= i < |cols| ==> IsValidLocation(o, g, cols[i])
    decreases depth, 0, |cols|
  {
    if cols == [] then Decision(Some(best), value)
    else
      var col := cols[0];
      var newScore := Minimax(o, Drop(o, g, col, AIPiece), depth - 1, false).score;
      if newScore > value then MaxPlain(o, g, depth, cols[1..], newScore, col)
      else MaxPlain(o, g, depth, cols[1..], value, best)
  }

  function MinPlain(o: Orientation, g: Grid, depth: nat, cols: seq<Column>, value: int, best: Column): Decision
    requires depth >= 1
    requires forall i :: 0 <= i < |cols| ==> IsValidLocation(o, g, cols[i])
    decreases depth, 0, |cols|
  {
    if cols == [] then Decision(Some(best), value)
    else
      var col := cols[0];
      var newScore := Minimax(o, Drop(o, g, col, PlayerPiece), depth - 1, true).score;
      if newScore < value then MinPlain(o, g, depth, cols[1..], newScore, col)
      else MinPlain(o, g, depth, cols[1..], value, best)
  }

  /** Plain minimax has the same shape: a valid column exactly at searched nodes,
      and a value between a loss and a win. */
  lemma {:induction false} MinimaxShape(o: Orientation, g: Grid, depth: nat, maximizing: bool)
    decreases depth, 1
    ensures var d := Minimax(o, g, depth, maximizing);
      && (d.col.None? <==> depth == 0 || IsTerminal(o, g))
      && (d.col.Some? ==> IsValidLocation(o, g, d.col.value))
      && -WIN <= d.score <= WIN
  {
    if depth != 0 && !IsTerminal(o, g) {
      var valid := ValidLocations(o, g);
      if maximizing {
        MaxPlainShape(o, g, depth, valid, -INF, valid[0]);
      } else {
        MinPlainShape(o, g, depth, valid, INF, valid[0]);
      }
    }
  }

  /** The plain minimax value lies between a loss and a win. */
  lemma MinimaxBounds(o: Orientation, g: Grid, depth: nat, maximizing: bool)
    decreases depth, 2
    ensures -WIN <= Minimax(o, g, depth, maximizing).score <= WIN
  {
    MinimaxShape(o, g, depth, maximizing);
  }

  lemma {:induction false} MaxPlainShape(o: Orientation, g: Grid, depth: nat, cols: seq<Column>, value: int, best: Column)
    requires depth >= 1
    requires forall i :: 0 <= i < |cols| ==> IsValidLocation(o, g, cols[i])
    decreases depth, 0, |cols|
    ensures var d := MaxPlain(o, g, depth, cols, value, best);
      && d.col.Some? && (d.col.value == best || d.col.value in cols)
      && value <= d.score
      && (d.score == value || -WIN <= d.score <= WIN)
      && (|cols| > 0 && value < -WIN ==> -WIN <= d.score <= WIN)
  {
    if cols != [] {
      var col := cols[0];
      MinimaxBounds(o, Drop(o, g, col, AIPiece), depth - 1, false);
      var newScore := Minimax(o, Drop(o, g, col, AIPiece), depth - 1, false).score;
      if newScore > value {
        assert MaxPlain(o, g, depth, cols, value, best) == MaxPlain(o, g, depth, cols[1..], newScore, col);
        MaxPlainShape(o, g, depth, cols[1..], newScore, col);
      } else {
        assert MaxPlain(o, g, depth, cols, value, best) == MaxPlain(o, g, depth, cols[1..], value, best);
        MaxPlainShape(o, g, depth, cols[1..], value, best);
      }
    }
  }

  lemma {:induction false} MinPlainShape(o: Orientation, g: Grid, depth: nat, cols: seq<Column>, value: int, best: Column)
    requires depth >= 1
    requires forall i :: 0 <= i < |cols| ==> IsValidLocation(o, g, cols[i])
    decreases depth, 0, |cols|
    ensures var d := MinPlain(o, g, depth, cols, value, best);
      && d.col.Some? && (d.col.value == best || d.col.value in cols)
      && d.score <= value
      && (d.score == value || -WIN <= d.score <= WIN)
      && (|cols| > 0 && value > WIN ==> -WIN <= d.score <= WIN)
  {
    if cols != [] {
      var col := cols[0];
      MinimaxBounds(o, Drop(o, g, col, PlayerPiece), depth - 1, true);
      var newScore := Minimax(o, Drop(o, g, col, PlayerPiece), depth - 1, true).score;
      if newScore < value {
        assert MinPlain(o, g, depth, cols, value, best) == MinPlain(o, g, depth, cols[1..], newScore, col);
        MinPlainShape(o, g, depth, cols[1..], newScore, col);
      } else {
        assert MinPlain(o, g, depth, cols, value, best) == MinPlain(o, g, depth, cols[1..], value, best);
        MinPlainShape(o, g, depth, cols[1..], value, best);
      }
    }
  }

  /** On a terminal board the search returns no column and scores by priority:
      an AI win first, then a player win, then the draw. */
  lemma TerminalPriority(o: Orientation, g: Grid, depth: nat, alpha: int, beta: int, maximizing: bool)
    requires IsTerminal(o, g)
    ensures AlphaBeta(o, g, depth, alpha, beta, maximizing)
         == Decision(None, if HasWin(g, AIPiece) then WIN else if HasWin(g, PlayerPiece) then -WIN else 0)
  {
  }

  /** At depth 0 on a non-terminal board the search returns score_position for the
      AI, whichever side is to move. */
  lemma DepthZeroIgnoresSide(o: Orientation, g: Grid, alpha: int, beta: int)
    requires !IsTerminal(o, g)
    ensures AlphaBeta(o, g, 0, alpha, beta, true) == AlphaBeta(o, g, 0, alpha, beta, false)
    ensures AlphaBeta(o, g, 0, alpha, beta, true) == Decision(None, Score(g, AIPiece))
  {
  }

  /** The `random.choice` default never survives: the first child's score beats the
      starting sentinel, so the decision is the same whatever default is drawn. */
  lemma DefaultOverwritten(o: Orientation, g: Grid, depth: nat, alpha: int, beta: int, b1: Column, b2: Column)
    requires depth >= 1 && !IsTerminal(o, g)
    ensures MaxLoop(o, g, depth, ValidLocations(o, g), alpha, beta, -INF, b1)
         == MaxLoop(o, g, depth, ValidLocations(o, g), alpha, beta, -INF, b2)
    ensures MinLoop(o, g, depth, ValidLocations(o, g), alpha, beta, INF, b1)
         == MinLoop(o, g, depth, ValidLocations(o, g), alpha, beta, INF, b2)
  {
    MaxDefaultOverwritten(o, g, depth, ValidLocations(o, g), alpha, beta, b1, b2);
    MinDefaultOverwritten(o, g, depth, ValidLocations(o, g), alpha, beta, b1, b2);
  }

  /** The maximizing loop forgets its starting column once it has visited a column. */
  lemma MaxDefaultOverwritten(o: Orientation, g: Grid, depth: nat, cols: seq<Column>, alpha: int, beta: int, b1: Column, b2: Column)
    requires depth >= 1 && |cols| > 0
    requires forall i :: 0 <= i < |cols| ==> IsValidLocation(o, g, cols[i])
    ensures MaxLoop(o, g, depth, cols, alpha, beta, -INF, b1) == MaxLoop(o, g, depth, cols, alpha, beta, -INF, b2)
  {
    var col := cols[0];
    var child := Drop(o, g, col, AIPiece);
    AlphaBetaBounds(o, child, depth - 1, alpha, beta, false);
    var r := AlphaBeta(o, child, depth - 1, alpha, beta, false).score;
    var next := if Max(alpha, r) >= beta then Decision(Some(col), r) else MaxLoop(o, g, depth, cols[1..], Max(alpha, r), beta, r, col);
    assert MaxLoop(o, g, depth, cols, alpha, beta, -INF, b1) == next;
    assert MaxLoop(o, g, depth, cols, alpha, beta, -INF, b2) == next;
  }

  /** The minimizing loop forgets its starting column once it has visited a column. */
  lemma MinDefaultOverwritten(o: Orientation, g: Grid, depth: nat, cols: seq<Column>, alpha: int, beta: int, b1: Column, b2: Column)
    requires depth >= 1 && |cols| > 0
    requires forall i :: 0 <= i < |cols| ==> IsValidLocation(o, g, cols[i])
    ensures MinLoop(o, g, depth, cols, alpha, beta, INF, b1) == MinLoop(o, g, depth, cols, alpha, beta, INF, b2)
  {
    var col := cols[0];
    var child := Drop(o, g, col, PlayerPiece);
    AlphaBetaBounds(o, child, depth - 1, alpha, beta, true);
    var r := AlphaBeta(o, child, depth - 1, alpha, beta, true).score;
    var next := if alpha >= Min(beta, r) then Decision(Some(col), r) else MinLoop(o, g, depth, cols[1..], alpha, Min(beta, r), r, col);
    assert MinLoop(o, g, depth, cols, alpha, beta, INF, b1) == next;
    assert MinLoop(o, g, depth, cols, alpha, beta, INF, b2) == next;
  }

  /** Fail-soft alpha-beta: a result `r` for a node whose true minimax value is `v`,
      searched with the window (alpha, beta), is exact inside the window and lies
      between the bound and the true value outside it. */
  predicate FailSoft(r: int, v: int, alpha: int, beta: int)
  {
    && (v <= alpha ==> v <= r <= alpha)
    && (alpha < v < beta ==> r == v)
    && (beta <= v ==> beta <= r <= v)
  }

  /** The pruned search is fail-soft with respect to plain minimax, and chooses the
      same column whenever the true value lies inside the window. */
  lemma {:induction false} AlphaBetaFailSoft(o: Orientation, g: Grid, depth: nat, alpha: int, beta: int, maximizing: bool)
    requires -INF <= alpha < beta <= INF
    decreases depth, 1
    ensures FailSoft(AlphaBeta(o, g, depth, alpha, beta, maximizing).score, Minimax(o, g, depth, maximizing).score, alpha, beta)
    ensures alpha < Minimax(o, g, depth, maximizing).score < beta
        ==> AlphaBeta(o, g, depth, alpha, beta, maximizing).col == Minimax(o, g, depth, maximizing).col
  {
    if depth != 0 && !IsTerminal(o, g) {
      var valid := ValidLocations(o, g);
      if maximizing {
        MaxLoopFailSoft(o, g, depth, valid, alpha, beta, alpha, -INF, valid[0], -INF, valid[0]);
      } else {
        MinLoopFailSoft(o, g, depth, valid, alpha, beta, beta, INF, valid[0], INF, valid[0]);
      }
    }
  }

  /** One step of the maximizing loops, on the numbers alone: the running alpha
      `a`, the pruned value `value`, the plain value `pv`, and the child's pruned
      score `r`, fail-soft against its true value `v` in the window (a, beta).
      Either the pruned loop cuts off with a value between beta and the child's
      true value, or the loop invariant holds again for the updated values. */
  lemma MaxStep(alpha0: int, beta: int, a: int, value: int, pv: int, r: int, v: int)
    requires alpha0 < beta && a == Max(alpha0, value) && a < beta
    requires pv > alpha0 ==> value == pv
    requires pv <= alpha0 ==> pv <= value <= alpha0
    requires FailSoft(r, v, a, beta)
    ensures var value' := if r > value then r else value;
      var pv' := if v > pv then v else pv;
      && (Max(a, value') >= beta ==> value' == r && beta <= r <= v)
      && (Max(a, value') < beta ==>
            && Max(a, value') == Max(alpha0, value')
            && (pv' > alpha0 ==> value' == pv' && (r > value <==> v > pv))
            && (pv' <= alpha0 ==> pv' <= value' <= alpha0))
  {
  }

  /** One step of the minimizing loops, with `b` the running beta. */
  lemma MinStep(alpha: int, beta0: int, b: int, value: int, pv: int, r: int, v: int)
    requires alpha < beta0 && b == Min(beta0, value) && alpha < b
    requires pv < beta0 ==> value == pv
    requires pv >= beta0 ==> beta0 <= value <= pv
    requires FailSoft(r, v, alpha, b)
    ensures var value' := if r < value then r else value;
      var pv' := if v < pv then v else pv;
      && (alpha >= Min(b, value') ==> value' == r && v <= r <= alpha)
      && (alpha < Min(b, value') ==>
            && Min(b, value') == Min(beta0, value')
            && (pv' < beta0 ==> value' == pv' && (r < value <==> v < pv))
            && (pv' >= beta0 ==> beta0 <= value' <= pv'))
  {
  }

  /** The loop invariant of the maximizing loop against the plain loop, started
      from the same columns: `a` is the running alpha, `value`/`best` the pruned
      loop's state and `pv`/`pbest` the plain loop's. */
  lemma {:induction false} MaxLoopFailSoft(o: Orientation, g: Grid, depth: nat, cols: seq<Column>, alpha0: int, beta: int,
                                            a: int, value: int, best: Column, pv: int, pbest: Column)
    requires depth >= 1
    requires forall i :: 0 <= i < |cols| ==> IsValidLocation(o, g, cols[i])
    requires -INF <= alpha0 < beta <= INF
    requires a == Max(alpha0, value) && a < beta
    requires pv > alpha0 ==> value == pv && best == pbest
    requires pv <= alpha0 ==> pv <= value <= alpha0
    decreases depth, 0, |cols|
    ensures FailSoft(MaxLoop(o, g, depth, cols, a, beta, value, best).score, MaxPlain(o, g, depth, cols, pv, pbest).score, alpha0, beta)
    ensures alpha0 < MaxPlain(o, g, depth, cols, pv, pbest).score < beta
        ==> MaxLoop(o, g, depth, cols, a, beta, value, best).col == MaxPlain(o, g, depth, cols, pv, pbest).col
  {
    if cols != [] {
      var col := cols[0];
      var child := Drop(o, g, col, AIPiece);
      AlphaBetaFailSoft(o, child, depth - 1, a, beta, false);
      var r := AlphaBeta(o, child, depth - 1, a, beta, false).score;
      var v := Minimax(o, child, depth - 1, false).score;
      MaxStep(alpha0, beta, a, value, pv, r, v);
      var value' := if r > value then r else value;
      var best' := if r > value then col else best;
      var pv' := if v > pv then v else pv;
      var pbest' := if v > pv then col else pbest;
      assert MaxPlain(o, g, depth, cols, pv, pbest) == MaxPlain(o, g, depth, cols[1..], pv', pbest');
      if Max(a, value') < beta {
        assert MaxLoop(o, g, depth, cols, a, beta, value, best) == MaxLoop(o, g, depth, cols[1..], Max(a, value'), beta, value', best');
        MaxLoopFailSoft(o, g, depth, cols[1..], alpha0, beta, Max(a, value'), value', best', pv', pbest');
      } else {
        assert MaxLoop(o, g, depth, cols, a, beta, value, best) == Decision(Some(best'), value');
        MaxPlainShape(o, g, depth, cols[1..], pv', pbest');
      }
    }
  }

  /** The same invariant for the minimizing loop, with `b` the running beta. */
  lemma {:induction false} MinLoopFailSoft(o: Orientation, g: Grid, depth: nat, cols: seq<Column>, alpha: int, beta0: int,
                                            b: int, value: int, best: Column, pv: int, pbest: Column)
    requires depth >= 1
    requires forall i :: 0 <= i < |cols| ==> IsValidLocation(o, g, cols[i])
    requires -INF <= alpha < beta0 <= INF
    requires b == Min(beta0, value) && alpha < b
    requires pv < beta0 ==> value == pv && best == pbest
    requires pv >= beta0 ==> beta0 <= value <= pv
    decreases depth, 0, |cols|
    ensures FailSoft(MinLoop(o, g, depth, cols, alpha, b, value, best).score, MinPlain(o, g, depth, cols, pv, pbest).score, alpha, beta0)
    ensures alpha < MinPlain(o, g, depth, cols, pv, pbest).score < beta0
        ==> MinLoop(o, g, depth, cols, alpha, b, value, best).col == MinPlain(o, g, depth, cols, pv, pbest).col
  {
    if cols != [] {
      var col := cols[0];
      var child := Drop(o, g, col, PlayerPiece);
      AlphaBetaFailSoft(o, child, depth - 1, alpha, b, true);
      var r := AlphaBeta(o, child, depth - 1, alpha, b, true).score;
      var v := Minimax(o, child, depth - 1, true).score;
      MinStep(alpha, beta0, b, value, pv, r, v);
      var value' := if r < value then r else value;
      var best' := if r < value then col else best;
      var pv' := if v < pv then v else pv;
      var pbest' := if v < pv then col else pbest;
      assert MinPlain(o, g, depth, cols, pv, pbest) == MinPlain(o, g, depth, cols[1..], pv', pbest');
      if alpha < Min(b, value') {
        assert MinLoop(o, g, depth, cols, alpha, b, value, best) == MinLoop(o, g, depth, cols[1..], alpha, Min(b, value'), value', best');
        MinLoopFailSoft(o, g, depth, cols[1..], alpha, beta0, Min(b, value'), value', best', pv', pbest');
      } else {
        assert MinLoop(o, g, depth, cols, alpha, b, value, best) == Decision(Some(best'), value');
        MinPlainShape(o, g, depth, cols[1..], pv', pbest');
      }
    }
  }

  /** Called at the root with alpha = -inf and beta = +inf, the pruned search
      returns exactly the column and the score of plain minimax. */
  lemma RootAgreement(o: Orientation, g: Grid, depth: nat, maximizing: bool)
    ensures AlphaBeta(o, g, depth, -INF, INF, maximizing) == Minimax(o, g, depth, maximizing)
  {
    AlphaBetaFailSoft(o, g, depth, -INF, INF, maximizing);
    MinimaxShape(o, g, depth, maximizing);
  }

  /** The plain minimax value of the child reached by dropping in column `c`. */
  function ChildScore(o: Orientation, g: Grid, depth: nat, maximizing: bool, c: Column): int
    requires depth >= 1 && IsValidLocation(o, g, c)
  {
    Minimax(o, Drop(o, g, c, Mover(maximizing)), depth - 1, !maximizing).score
  }

  /** `x` is strictly better than `y` for the side to move. */
  predicate Improves(maximizing: bool, x: int, y: int)
  {
    if maximizing then x > y else x < y
  }

  /** What the plain maximizing loop computes over strictly ascending columns:
      no child beats the result; and either no child improved on the starting
      value, which is kept with its column, or the result is the value of a child
      at a listed column, every listed column to its left being strictly worse. */
  lemma {:induction false} MaxPlainBest(o: Orientation, g: Grid, depth: nat, cols: seq<Column>, value: int, best: Column)
    requires depth >= 1
    requires forall i :: 0 <= i < |cols| ==> IsValidLocation(o, g, cols[i])
    requires forall i, j :: 0 <= i < j < |cols| ==> cols[i] < cols[j]
    decreases |cols|
    ensures var d := MaxPlain(o, g, depth, cols, value, best);
      && (forall i :: 0 <= i < |cols| ==> ChildScore(o, g, depth, true, cols[i]) <= d.score)
      && d.col.Some?
      && ((d.score == value && d.col == Some(best))
          || (d.score > value && d.col.value in cols && ChildScore(o, g, depth, true, d.col.value) == d.score
              && forall i :: 0 <= i < |cols| && cols[i] < d.col.value ==> ChildScore(o, g, depth, true, cols[i]) < d.score))
  {
    if cols != [] {
      var s := ChildScore(o, g, depth, true, cols[0]);
      var tail := cols[1..];
      assert forall i :: 0 < i < |cols| ==> cols[i] == tail[i - 1];
      if s > value {
        assert MaxPlain(o, g, depth, cols, value, best) == MaxPlain(o, g, depth, tail, s, cols[0]);
        MaxPlainBest(o, g, depth, tail, s, cols[0]);
      } else {
        assert MaxPlain(o, g, depth, cols, value, best) == MaxPlain(o, g, depth, tail, value, best);
        MaxPlainBest(o, g, depth, tail, value, best);
      }
    }
  }

  /** The same for the plain minimizing loop. */
  lemma {:induction false} MinPlainBest(o: Orientation, g: Grid, depth: nat, cols: seq<Column>, value: int, best: Column)
    requires depth >= 1
    requires forall i :: 0 <= i < |cols| ==> IsValidLocation(o, g, cols[i])
    requires forall i, j :: 0 <= i < j < |cols| ==> cols[i] < cols[j]
    decreases |cols|
    ensures var d := MinPlain(o, g, depth, cols, value, best);
      && (forall i :: 0 <= i < |cols| ==> ChildScore(o, g, depth, false, cols[i]) >= d.score)
      && d.col.Some?
      && ((d.score == value && d.col == Some(best))
          || (d.score < value && d.col.value in cols && ChildScore(o, g, depth, false, d.col.value) == d.score
              && forall i :: 0 <= i < |cols| && cols[i] < d.col.value ==> ChildScore(o, g, depth, false, cols[i]) > d.score))
  {
    if cols != [] {
      var s := ChildScore(o, g, depth, false, cols[0]);
      var tail := cols[1..];
      assert forall i :: 0 < i < |cols| ==> cols[i] == tail[i - 1];
      if s < value {
        assert MinPlain(o, g, depth, cols, value, best) == MinPlain(o, g, depth, tail, s, cols[0]);
        MinPlainBest(o, g, depth, tail, s, cols[0]);
      } else {
        assert MinPlain(o, g, depth, cols, value, best) == MinPlain(o, g, depth, tail, value, best);
        MinPlainBest(o, g, depth, tail, value, best);
      }
    }
  }

  /** With depth >= 1 on a non-terminal board, minimax picks a valid column whose
      child reaches the best value over all valid columns, and it is the lowest-index
      such column: every valid column to its left is strictly worse. */
  lemma LeftmostBest(o: Orientation, g: Grid, depth: nat, maximizing: bool)
    requires depth >= 1 && !IsTerminal(o, g)
    ensures var d := Minimax(o, g, depth, maximizing);
      && d.col.Some? && IsValidLocation(o, g, d.col.value)
      && ChildScore(o, g, depth, maximizing, d.col.value) == d.score
      && (forall c: Column :: IsValidLocation(o, g, c) ==> !Improves(maximizing, ChildScore(o, g, depth, maximizing, c), d.score))
      && (forall c: Column :: IsValidLocation(o, g, c) && c < d.col.value ==> Improves(maximizing, d.score, ChildScore(o, g, depth, maximizing, c)))
  {
    var valid := ValidLocations(o, g);
    var d := Minimax(o, g, depth, maximizing);
    ValidLocationsAscending(o, g);
    if maximizing {
      MaxPlainBest(o, g, depth, valid, -INF, valid[0]);
      MaxPlainShape(o, g, depth, valid, -INF, valid[0]);
    } else {
      MinPlainBest(o, g, depth, valid, INF, valid[0]);
      MinPlainShape(o, g, depth, valid, INF, valid[0]);
    }
    assert d.col.Some? && ChildScore(o, g, depth, maximizing, d.col.value) == d.score;
    forall c: Column | IsValidLocation(o, g, c)
      ensures !Improves(maximizing, ChildScore(o, g, depth, maximizing, c), d.score)
      ensures c < d.col.value ==> Improves(maximizing, d.score, ChildScore(o, g, depth, maximizing, c))
    {
      assert c in valid;
      var k :| 0 <= k < |valid| && valid[k] == c;
    }
  }

  /** The root search of the game (alpha = -inf, beta = +inf) makes the same
      leftmost best choice. */
  lemma RootLeftmostBest(o: Orientation, g: Grid, depth: nat, maximizing: bool)
    requires depth >= 1 && !IsTerminal(o, g)
    ensures var d := AlphaBeta(o, g, depth, -INF, INF, maximizing);
      && d.col.Some? && d.col.value in ValidLocations(o, g)
      && ChildScore(o, g, depth, maximizing, d.col.value) == d.score
      && (forall c: Column :: IsValidLocation(o, g, c) ==> !Improves(maximizing, ChildScore(o, g, depth, maximizing, c), d.score))
      && (forall c: Column :: IsValidLocation(o, g, c) && c < d.col.value ==> Improves(maximizing, d.score, ChildScore(o, g, depth, maximizing, c)))
  {
    RootAgreement(o, g, depth, maximizing);
    LeftmostBest(o, g, depth, maximizing);
  }

  /** When the AI can complete four in a row in one move, the root search values
      the position as a win, and the column it picks leads to a child worth a win
      within the search horizon. */
  lemma TakesImmediateWin(o: Orientation, g: Grid, depth: nat, c: Column)
    requires depth >= 1 && !IsTerminal(o, g) && IsValidLocation(o, g, c)
    requires HasWin(Drop(o, g, c, AIPiece), AIPiece)
    ensures var d := AlphaBeta(o, g, depth, -INF, INF, true);
      d.score == WIN && d.col.Some? && IsValidLocation(o, g, d.col.value)
      && ChildScore(o, g, depth, true, d.col.value) == WIN
  {
    RootLeftmostBest(o, g, depth, true);
    AlphaBetaBounds(o, g, depth, -INF, INF, true);
    assert ChildScore(o, g, depth, true, c) == WIN;
  }

  /** Dropping the AI's piece into column `c` completes four in a row at once. */
  predicate WinsAt(o: Orientation, g: Grid, c: Column)
  {
    IsValidLocation(o, g, c) && HasWin(Drop(o, g, c, AIPiece), AIPiece)
  }

  /** A run of four owned by `p` carries over to any grid in which every cell of `p`
      is still `p`. */
  lemma HasWinCarries(g: Grid, h: Grid, p: Piece)
    requires forall x, y :: 0 <= x < ROWS && 0 <= y < COLS && g[x][y] == p ==> h[x][y] == p
    ensures HasWin(g, p) ==> HasWin(h, p)
  {
    if HasWin(g, p) {
      var d, r, k :| 0 <= r < ROWS && 0 <= k < COLS && Fits(d, r, k) && LineAt(g, p, d, r, k);
      forall i | 0 <= i < WINDOW_LENGTH
        ensures Window(h, d, r, k)[i] == p
      {
        assert Window(g, d, r, k)[i] == p;
      }
      assert LineAt(h, p, d, r, k);
    }
  }

  /** A drop fills an empty cell, so it never destroys a run of four, and it never
      completes one for the side that did not move. */
  lemma DropWins(o: Orientation, g: Grid, c: Column, q: Piece, p: Piece)
    requires IsValidLocation(o, g, c)
    ensures HasWin(g, p) ==> HasWin(Drop(o, g, c, q), p)
    ensures q != p && HasWin(Drop(o, g, c, q), p) ==> HasWin(g, p)
  {
    var h := Drop(o, g, c, q);
    NextOpenRowSpec(o, g, c);
    HasWinCarries(g, h, p);
    if q != p {
      HasWinCarries(h, g, p);
    }
  }

  /** Searched one ply for the player, a board the AI has not won is worth less than a
      win: no reply of the player completes a run of the AI. */
  lemma ReplyNeverWins(o: Orientation, h: Grid)
    requires !IsTerminal(o, h)
    ensures Minimax(o, h, 1, false).score < WIN
  {
    LeftmostBest(o, h, 1, false);
    var d := Minimax(o, h, 1, false);
    var reply := Drop(o, h, d.col.value, PlayerPiece);
    DropWins(o, h, d.col.value, PlayerPiece, AIPiece);
    assert Minimax(o, reply, 0, true) == Decision(None, LeafScore(o, reply));
  }

  /** A leaf is worth a win exactly when the AI has four in a row on it. */
  lemma LeafWins(o: Orientation, h: Grid, depth: nat, maximizing: bool)
    requires depth == 0 || IsTerminal(o, h)
    ensures Minimax(o, h, depth, maximizing).score == WIN <==> HasWin(h, AIPiece)
  {
    assert Minimax(o, h, depth, maximizing) == Decision(None, LeafScore(o, h));
  }

  /** A board reached by the AI's move, searched to depth 0 or 1 for the player, is
      worth a win exactly when the AI has four in a row on it. */
  lemma ReplySearchWins(o: Orientation, h: Grid, depth: nat)
    requires depth <= 1
    ensures Minimax(o, h, depth, false).score == WIN <==> HasWin(h, AIPiece)
  {
    if depth == 0 || IsTerminal(o, h) {
      LeafWins(o, h, depth, false);
    } else {
      ReplyNeverWins(o, h);
      assert Minimax(o, h, depth, false).score < WIN;
    }
  }

  /** Searching one or two plies, a child is worth a win exactly when the move that
      reaches it wins at once. */
  lemma ShallowChildWins(o: Orientation, g: Grid, depth: nat, c: Column)
    requires 1 <= depth <= 2 && IsValidLocation(o, g, c)
    ensures ChildScore(o, g, depth, true, c) == WIN <==> WinsAt(o, g, c)
  {
    ReplySearchWins(o, Drop(o, g, c, AIPiece), depth - 1);
  }

  /** Searching one or two plies, when some column wins at once the root search picks
      the lowest-index column that does, with the value of a win. */
  lemma ShallowSearchTakesLowestWin(o: Orientation, g: Grid, depth: nat, c: Column)
    requires 1 <= depth <= 2 && !IsTerminal(o, g) && WinsAt(o, g, c)
    ensures var d := AlphaBeta(o, g, depth, -INF, INF, true);
      && d.score == WIN && d.col.Some? && WinsAt(o, g, d.col.value)
      && forall x: Column :: x < d.col.value ==> !WinsAt(o, g, x)
  {
    RootLeftmostBest(o, g, depth, true);
    AlphaBetaBounds(o, g, depth, -INF, INF, true);
    var d := AlphaBeta(o, g, depth, -INF, INF, true);
    ShallowChildWins(o, g, depth, c);
    ShallowChildWins(o, g, depth, d.col.value);
    forall x: Column | x < d.col.value
      ensures !WinsAt(o, g, x)
    {
      if IsValidLocation(o, g, x) {
        ShallowChildWins(o, g, depth, x);
      }
    }
  }

  /** A board holding one piece has no four in a row for either side: the first
      two cells of every run are distinct, and at most one of them is occupied. */
  lemma SinglePieceNoWin(row: Row, col: Column, p: Piece, q: Piece)
    ensures !HasWin(SetCell(EmptyGrid(), row, col, p), q)
  {
    var g := SetCell(EmptyGrid(), row, col, p);
    forall d: Direction, r, c | Fits(d, r, c)
      ensures !LineAt(g, q, d, r, c)
    {
      assert CellOf(d, r, c, 0) != CellOf(d, r, c, 1);
      assert Window(g, d, r, c)[0] == Empty || Window(g, d, r, c)[1] == Empty;
    }
  }

  /** The empty board has no four in a row. */
  lemma EmptyBoardNoWin(q: Piece)
    ensures !HasWin(EmptyGrid(), q)
  {
    forall d: Direction, r, c | Fits(d, r, c)
      ensures !LineAt(EmptyGrid(), q, d, r, c)
    {
      assert Window(EmptyGrid(), d, r, c)[0] == Empty;
    }
  }

  /** One move into the empty board: no win, and not terminal. */
  lemma OpeningChild(o: Orientation, c: Column)
    requires IsValidLocation(o, EmptyGrid(), c)
    ensures !IsTerminal(o, Drop(o, EmptyGrid(), c, AIPiece))
    ensures Score(Drop(o, EmptyGrid(), c, AIPiece), AIPiece) == if c == COLS / 2 then CENTER_WEIGHT else 0
  {
    var h := Drop(o, EmptyGrid(), c, AIPiece);
    var row := NextOpenRow(o, EmptyGrid(), c).value;
    SinglePieceNoWin(row, c, AIPiece, AIPiece);
    SinglePieceNoWin(row, c, AIPiece, PlayerPiece);
    var other: Column := if c == 0 then 1 else 0;
    assert IsValidLocation(o, h, other);
    assert other in ValidLocations(o, h);
    SinglePieceScore(row, c, AIPiece);
  }

  /** On the empty board, searching one ply for the AI returns column 3 with value 6:
      only the centre column earns the centre bonus, and a single piece completes no
      window worth anything. */
  lemma OpeningMove(o: Orientation)
    ensures AlphaBeta(o, EmptyGrid(), 1, -INF, INF, true) == Decision(Some(COLS / 2), CENTER_WEIGHT)
  {
    var g := EmptyGrid();
    assert IsValidLocation(o, g, COLS / 2);
    assert COLS / 2 in ValidLocations(o, g);
    EmptyBoardNoWin(AIPiece);
    EmptyBoardNoWin(PlayerPiece);
    assert !IsTerminal(o, g);
    RootLeftmostBest(o, g, 1, true);
    var d := AlphaBeta(o, g, 1, -INF, INF, true);
    OpeningChild(o, COLS / 2);
    OpeningChild(o, d.col.value);
  }
}
