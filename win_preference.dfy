/** Whether minimax takes a win that is available at once. Searching one or two plies
    it does (Search.ShallowSearchTakesLowestWin); searching three, the strict `>`
    keeps an earlier column whose win comes one move later. This module exhibits
    such a board for connect_four.py (top origin) and states the root choice that
    prefers the immediate win. */
module WinPreference {
  import opened Wrappers
  import opened Board
  import opened Windows
  import opened Detector
  import opened Rules
  import opened Search

  /** The AI to move. Row 5: A P P A A A _; row 4: A P _ P _ P _; rows 0-3 empty.
      Column 6 completes row 5; column 0 builds three in column 0 beside that threat. */
  function Witness(): Grid
  {
    var e := [Empty, Empty, Empty, Empty, Empty, Empty, Empty];
    [e, e, e, e,
     [AIPiece, PlayerPiece, Empty, PlayerPiece, Empty, PlayerPiece, Empty],
     [AIPiece, PlayerPiece, PlayerPiece, AIPiece, AIPiece, AIPiece, Empty]]
  }

  /** The witness after the AI drops into column 0. */
  function AfterZero(): Grid
  {
    var e := [Empty, Empty, Empty, Empty, Empty, Empty, Empty];
    [e, e, e,
     [AIPiece, Empty, Empty, Empty, Empty, Empty, Empty],
     [AIPiece, PlayerPiece, Empty, PlayerPiece, Empty, PlayerPiece, Empty],
     [AIPiece, PlayerPiece, PlayerPiece, AIPiece, AIPiece, AIPiece, Empty]]
  }

  /** The open row of each column of the witness. */
  function WitnessRow(c: Column): Row
  {
    if c == 2 || c == 4 then 4 else if c == 6 then 5 else 3
  }

  /** The open row of each column after the AI's move into column 0. */
  function ReplyRow(c: Column): Row
  {
    if c == 0 then 2 else if c == 2 || c == 4 then 4 else if c == 6 then 5 else 3
  }

  lemma WitnessRows(c: Column)
    ensures IsValidLocation(TopOrigin, Witness(), c)
    ensures NextOpenRow(TopOrigin, Witness(), c) == Some(WitnessRow(c))
  {
    NextOpenRowSpec(TopOrigin, Witness(), c);
  }

  lemma ReplyRows(c: Column)
    ensures IsValidLocation(TopOrigin, AfterZero(), c)
    ensures NextOpenRow(TopOrigin, AfterZero(), c) == Some(ReplyRow(c))
  {
    NextOpenRowSpec(TopOrigin, AfterZero(), c);
  }

  /** Dropping into column 0 gives AfterZero. */
  lemma AfterZeroIsDrop()
    ensures Drop(TopOrigin, Witness(), 0, AIPiece) == AfterZero()
  {
    WitnessRows(0);
    GridsEqual(Drop(TopOrigin, Witness(), 0, AIPiece), AfterZero());
  }

  /** Column 0 completes no run of the AI. */
  lemma AfterZeroNoWin()
    ensures !HasWin(AfterZero(), AIPiece)
  {
    var g := AfterZero();
    forall d: Direction, r, c | 0 <= r < ROWS && 0 <= c < COLS && Fits(d, r, c)
      ensures !LineAt(g, AIPiece, d, r, c)
    {
      var w := Window(g, d, r, c);
      assert w[0] != AIPiece || w[1] != AIPiece || w[2] != AIPiece || w[3] != AIPiece;
    }
  }

  /** Only column 6 wins at once: no other drop of the AI completes a run. */
  lemma OnlySixWins(c: Column)
    requires c != 6
    ensures !HasWin(SetCell(Witness(), WitnessRow(c), c, AIPiece), AIPiece)
  {
    HasWinByDirection(SetCell(Witness(), WitnessRow(c), c, AIPiece), AIPiece);
    OnlySixWinsIn(c, Horizontal);
    OnlySixWinsIn(c, Vertical);
    OnlySixWinsIn(c, Ascending);
    OnlySixWinsIn(c, Descending);
  }

  lemma OnlySixWinsIn(c: Column, d: Direction)
    requires c != 6
    ensures !WinIn(SetCell(Witness(), WitnessRow(c), c, AIPiece), AIPiece, d)
  {
    var g := SetCell(Witness(), WitnessRow(c), c, AIPiece);
    forall r, k | 0 <= r < ROWS && 0 <= k < COLS && Fits(d, r, k)
      ensures !LineAt(g, AIPiece, d, r, k)
    {
      var w := Window(g, d, r, k);
      assert w[0] != AIPiece || w[1] != AIPiece || w[2] != AIPiece || w[3] != AIPiece;
    }
  }

  /** The player has no immediate win on the witness. */
  lemma NoPlayerWinAtOnce(c: Column)
    ensures !HasWin(SetCell(Witness(), WitnessRow(c), c, PlayerPiece), PlayerPiece)
  {
    var g := SetCell(Witness(), WitnessRow(c), c, PlayerPiece);
    forall d: Direction, r, k | 0 <= r < ROWS && 0 <= k < COLS && Fits(d, r, k)
      ensures !LineAt(g, PlayerPiece, d, r, k)
    {
      var w := Window(g, d, r, k);
      assert w[0] != PlayerPiece || w[1] != PlayerPiece || w[2] != PlayerPiece || w[3] != PlayerPiece;
    }
  }

  /** No reply of the player to column 0 wins for the player. */
  lemma ReplyNoWin(c: Column)
    ensures !HasWin(SetCell(AfterZero(), ReplyRow(c), c, PlayerPiece), PlayerPiece)
  {
    HasWinByDirection(SetCell(AfterZero(), ReplyRow(c), c, PlayerPiece), PlayerPiece);
    ReplyNoWinIn(c, Horizontal);
    ReplyNoWinIn(c, Vertical);
    ReplyNoWinIn(c, Ascending);
    ReplyNoWinIn(c, Descending);
  }

  lemma ReplyNoWinIn(c: Column, d: Direction)
    ensures !WinIn(SetCell(AfterZero(), ReplyRow(c), c, PlayerPiece), PlayerPiece, d)
  {
    var g := SetCell(AfterZero(), ReplyRow(c), c, PlayerPiece);
    forall r, k | 0 <= r < ROWS && 0 <= k < COLS && Fits(d, r, k)
      ensures !LineAt(g, PlayerPiece, d, r, k)
    {
      var w := Window(g, d, r, k);
      assert w[0] != PlayerPiece || w[1] != PlayerPiece || w[2] != PlayerPiece || w[3] != PlayerPiece;
    }
  }

  /** Whatever the player replies to column 0, the AI then wins at once: in column 6
      on row 5, or, when the player has blocked there, in column 0. */
  lemma ReplyLoses(c: Column)
    ensures IsValidLocation(TopOrigin, AfterZero(), c)
    ensures Minimax(TopOrigin, Drop(TopOrigin, AfterZero(), c, PlayerPiece), 1, true).score == WIN
  {
    ReplyRows(c);
    var h := Drop(TopOrigin, AfterZero(), c, PlayerPiece);
    ReplyNoWin(c);
    AfterZeroNoWin();
    DropWins(TopOrigin, AfterZero(), c, PlayerPiece, AIPiece);
    assert IsValidLocation(TopOrigin, h, 1);
    assert 1 in ValidLocations(TopOrigin, h);
    var w: Column := if c == 6 then 0 else 6;
    NextOpenRowSpec(TopOrigin, h, w);
    var row := if c == 6 then 2 else 5;
    assert NextOpenRow(TopOrigin, h, w) == Some(row);
    var win := Drop(TopOrigin, h, w, AIPiece);
    if c == 6 {
      assert LineAt(win, AIPiece, Vertical, 2, 0);
    } else {
      assert LineAt(win, AIPiece, Horizontal, 5, 3);
    }
    TakesImmediateWin(TopOrigin, h, 1, w);
    RootAgreement(TopOrigin, h, 1, true);
  }

  /** Column 0 forces a win two moves later, so searching three plies it is worth a win. */
  lemma ZeroForcesWin()
    ensures ChildScore(TopOrigin, Witness(), 3, true, 0) == WIN
  {
    WitnessRows(0);
    AfterZeroIsDrop();
    var h := AfterZero();
    AfterZeroNoWin();
    ReplyRows(1);
    ReplyNoWin(1);
    DropWins(TopOrigin, h, 1, PlayerPiece, PlayerPiece);
    assert IsValidLocation(TopOrigin, h, 1);
    assert 1 in ValidLocations(TopOrigin, h);
    LeftmostBest(TopOrigin, h, 2, false);
    ReplyLoses(Minimax(TopOrigin, h, 2, false).col.value);
  }

  /** The witness is a board with exactly one immediately winning column and no
      immediate win for the player. */
  lemma WitnessHasOneWin()
    ensures !IsTerminal(TopOrigin, Witness())
    ensures WinsAt(TopOrigin, Witness(), 6)
    ensures forall c: Column :: c != 6 ==> !WinsAt(TopOrigin, Witness(), c)
    ensures forall c: Column :: IsValidLocation(TopOrigin, Witness(), c) ==> !HasWin(Drop(TopOrigin, Witness(), c, PlayerPiece), PlayerPiece)
  {
    var g := Witness();
    WitnessRows(6);
    assert LineAt(Drop(TopOrigin, g, 6, AIPiece), AIPiece, Horizontal, 5, 3);
    forall c: Column
      ensures c != 6 ==> !WinsAt(TopOrigin, g, c)
      ensures IsValidLocation(TopOrigin, g, c) ==> !HasWin(Drop(TopOrigin, g, c, PlayerPiece), PlayerPiece)
    {
      WitnessRows(c);
      if c != 6 {
        OnlySixWins(c);
      }
      NoPlayerWinAtOnce(c);
    }
    NoPlayerWinAtOnce(0);
    DropWins(TopOrigin, g, 0, PlayerPiece, PlayerPiece);
    DropWins(TopOrigin, g, 0, PlayerPiece, AIPiece);
    AfterZeroIsDrop();
    AfterZeroNoWin();
    DropWins(TopOrigin, g, 0, AIPiece, AIPiece);
    assert 6 in ValidLocations(TopOrigin, g);
  }

  /** Searching three plies on the witness, minimax picks column 0, which does not win
      at once, although column 6 does: both are worth a win, and column 0 comes first. */
  lemma DeepSearchDefersWin()
    ensures AlphaBeta(TopOrigin, Witness(), 3, -INF, INF, true) == Decision(Some(0), WIN)
    ensures WinsAt(TopOrigin, Witness(), 6) && !WinsAt(TopOrigin, Witness(), 0)
  {
    var g := Witness();
    WitnessHasOneWin();
    ZeroForcesWin();
    RootLeftmostBest(TopOrigin, g, 3, true);
    AlphaBetaBounds(TopOrigin, g, 3, -INF, INF, true);
    WitnessRows(0);
  }

  /** The lowest column from `c` on that wins at once, if any. */
  function FirstWinFrom(o: Orientation, g: Grid, c: int): (w: Option<Column>)
    requires 0 <= c <= COLS
    decreases COLS - c
  {
    if c == COLS then None
    else if WinsAt(o, g, c) then Some(c)
    else FirstWinFrom(o, g, c + 1)
  }

  /** FirstWinFrom finds nothing iff no column from `c` on wins at once, and otherwise
      the lowest such column. */
  lemma {:induction false} FirstWinFromSpec(o: Orientation, g: Grid, c: int)
    requires 0 <= c <= COLS
    decreases COLS - c
    ensures FirstWinFrom(o, g, c).None? <==> forall x: Column :: c <= x ==> !WinsAt(o, g, x)
    ensures FirstWinFrom(o, g, c).Some? ==> var w := FirstWinFrom(o, g, c).value;
      c <= w && WinsAt(o, g, w) && forall x: Column :: c <= x < w ==> !WinsAt(o, g, x)
  {
    if c < COLS && !WinsAt(o, g, c) {
      FirstWinFromSpec(o, g, c + 1);
    }
  }

  /** The root choice that takes an immediate win first: the lowest column that wins
      at once, else the search's decision. */
  function PreferImmediateWin(o: Orientation, g: Grid, depth: nat): Decision
  {
    match FirstWinFrom(o, g, 0)
    case Some(c) => Decision(Some(c), WIN)
    case None => AlphaBeta(o, g, depth, -INF, INF, true)
  }

  /** When a column wins at once, the corrected choice is the lowest such column, with
      the value the search gives the board; otherwise it is the search's decision. */
  lemma PreferImmediateWinSpec(o: Orientation, g: Grid, depth: nat)
    requires depth >= 1 && !IsTerminal(o, g)
    ensures var d := PreferImmediateWin(o, g, depth);
      && ((exists c: Column :: WinsAt(o, g, c)) ==>
            && d.col.Some? && WinsAt(o, g, d.col.value)
            && (forall x: Column :: x < d.col.value ==> !WinsAt(o, g, x))
            && d.score == AlphaBeta(o, g, depth, -INF, INF, true).score)
      && ((forall c: Column :: !WinsAt(o, g, c)) ==> d == AlphaBeta(o, g, depth, -INF, INF, true))
  {
    FirstWinFromSpec(o, g, 0);
    if exists c: Column :: WinsAt(o, g, c) {
      var c: Column :| WinsAt(o, g, c);
      TakesImmediateWin(o, g, depth, c);
    }
  }

  /** Searching one or two plies, as the easy level does, the corrected choice is the
      search's own decision. */
  lemma PreferImmediateWinShallow(o: Orientation, g: Grid, depth: nat)
    requires 1 <= depth <= 2 && !IsTerminal(o, g)
    ensures PreferImmediateWin(o, g, depth) == AlphaBeta(o, g, depth, -INF, INF, true)
  {
    FirstWinFromSpec(o, g, 0);
    if FirstWinFrom(o, g, 0).Some? {
      var c := FirstWinFrom(o, g, 0).value;
      ShallowSearchTakesLowestWin(o, g, depth, c);
      var d := AlphaBeta(o, g, depth, -INF, INF, true);
      assert !(d.col.value < c) && !(c < d.col.value);
    }
  }

  /** On the witness, the corrected choice plays column 6 and wins at once. */
  lemma PreferImmediateWinOnWitness()
    ensures PreferImmediateWin(TopOrigin, Witness(), 3) == Decision(Some(6), WIN)
  {
    WitnessHasOneWin();
    FirstWinFromSpec(TopOrigin, Witness(), 0);
  }
}
