/** The rules of play that differ between the two engines only in which end of the
    row index the pieces rest on: is_valid_location, get_next_open_row, the drop
    the search makes, get_valid_locations and is_terminal_node, stated once with
    the orientation as a parameter. */
module Rules {
  import opened Wrappers
  import opened Board
  import opened Detector

  /** TopOrigin: row 0 is the top of the board and pieces rest on row 5
      (connect_four.py). BottomOrigin: row 0 is the bottom and pieces rest on
      row 0 (finn_four/connect_four.py). */
  datatype Orientation = TopOrigin | BottomOrigin

  /** The row a column fills last: the one is_valid_location inspects. */
  function TopRow(o: Orientation): Row
  {
    if o == TopOrigin then 0 else ROWS - 1
  }

  /** Row `r` lies strictly nearer the resting end of a column than row `s`. */
  predicate Below(o: Orientation, r: int, s: int)
  {
    if o == TopOrigin then r > s else r < s
  }

  /** The row get_next_open_row inspects at its k-th step: it starts at the
      resting end and moves away from it. */
  function StepRow(o: Orientation, k: int): int
  {
    if o == TopOrigin then ROWS - 1 - k else k
  }

  /** is_valid_location: the column's last-filled cell is still empty. */
  predicate IsValidLocation(o: Orientation, g: Grid, c: Column)
  {
    g[TopRow(o)][c] == Empty
  }

  /** get_next_open_row from its k-th step on: the first empty cell met, if any. */
  function ScanFrom(o: Orientation, g: Grid, c: Column, k: nat): Option<Row>
    requires k <= ROWS
    decreases ROWS - k
  {
    if k == ROWS then None
    else if g[StepRow(o, k)][c] == Empty then Some(StepRow(o, k))
    else ScanFrom(o, g, c, k + 1)
  }

  /** The scan from step k finds nothing iff every cell it would meet is taken, and
      otherwise stops at the first empty cell it meets. */
  lemma {:induction false} ScanFromSpec(o: Orientation, g: Grid, c: Column, k: nat)
    requires k <= ROWS
    decreases ROWS - k
    ensures ScanFrom(o, g, c, k).None? <==> forall j :: k <= j < ROWS ==> g[StepRow(o, j)][c] != Empty
    ensures ScanFrom(o, g, c, k).Some? ==> exists j :: k <= j < ROWS && ScanFrom(o, g, c, k).value == StepRow(o, j)
    ensures ScanFrom(o, g, c, k).Some? ==> g[ScanFrom(o, g, c, k).value][c] == Empty
    ensures ScanFrom(o, g, c, k).Some? ==> forall j :: k <= j < ROWS && Below(o, StepRow(o, j), ScanFrom(o, g, c, k).value) ==> g[StepRow(o, j)][c] != Empty
  {
    if k < ROWS && g[StepRow(o, k)][c] != Empty {
      ScanFromSpec(o, g, c, k + 1);
    }
  }

  /** get_next_open_row: the empty cell of column `c` nearest the resting end,
      or None (Python's implicit return) when every cell of the column is taken. */
  function NextOpenRow(o: Orientation, g: Grid, c: Column): Option<Row>
  {
    ScanFrom(o, g, c, 0)
  }

  /** get_next_open_row finds nothing exactly when the column is full; otherwise the
      row it returns is empty and every row nearer the resting end is taken. */
  lemma NextOpenRowSpec(o: Orientation, g: Grid, c: Column)
    ensures NextOpenRow(o, g, c).None? <==> forall row :: 0 <= row < ROWS ==> g[row][c] != Empty
    ensures NextOpenRow(o, g, c).Some? ==> g[NextOpenRow(o, g, c).value][c] == Empty
    ensures NextOpenRow(o, g, c).Some? ==> forall row :: 0 <= row < ROWS && Below(o, row, NextOpenRow(o, g, c).value) ==> g[row][c] != Empty
  {
    ScanFromSpec(o, g, c, 0);
    assert forall row :: 0 <= row < ROWS ==> row == StepRow(o, StepRow(o, row));
  }

  /** A valid column always has an open row: its last-filled cell is one. */
  lemma ValidHasOpenRow(o: Orientation, g: Grid, c: Column)
    requires IsValidLocation(o, g, c)
    ensures NextOpenRow(o, g, c).Some?
  {
    NextOpenRowSpec(o, g, c);
    assert g[TopRow(o)][c] == Empty;
  }

  /** The move the search makes in a valid column: `piece` written at the open row. */
  function Drop(o: Orientation, g: Grid, c: Column, piece: Piece): (h: Grid)
    requires IsValidLocation(o, g, c)
  {
    ValidHasOpenRow(o, g, c);
    SetCell(g, NextOpenRow(o, g, c).value, c, piece)
  }

  /** The columns from `c` on that are valid, in ascending order. */
  function ValidFrom(o: Orientation, g: Grid, c: int): (cols: seq<Column>)
    requires 0 <= c <= COLS
    decreases COLS - c
    ensures forall x: Column {:trigger x in cols} :: x in cols <==> c <= x && IsValidLocation(o, g, x)
    ensures forall i :: 0 <= i < |cols| ==> IsValidLocation(o, g, cols[i])
  {
    if c == COLS then []
    else
      var rest := ValidFrom(o, g, c + 1);
      if IsValidLocation(o, g, c) then
        assert forall j :: 0 <= j < |rest| ==> rest[j] in rest;
        [c] + rest
      else rest
  }

  /** The columns from `c` on are listed in strictly ascending order. */
  lemma {:induction false} ValidFromAscending(o: Orientation, g: Grid, c: int)
    requires 0 <= c <= COLS
    decreases COLS - c
    ensures forall i, j :: 0 <= i < j < |ValidFrom(o, g, c)| ==> ValidFrom(o, g, c)[i] < ValidFrom(o, g, c)[j]
  {
    if c < COLS {
      ValidFromAscending(o, g, c + 1);
      var rest := ValidFrom(o, g, c + 1);
      assert forall j :: 0 <= j < |rest| ==> rest[j] in rest;
    }
  }

  /** get_valid_locations: the valid columns, collected in increasing column order.
      A column is listed iff it is valid. */
  function ValidLocations(o: Orientation, g: Grid): (cols: seq<Column>)
    ensures forall x: Column {:trigger x in cols} :: x in cols <==> IsValidLocation(o, g, x)
    ensures forall i :: 0 <= i < |cols| ==> IsValidLocation(o, g, cols[i])
  {
    ValidFrom(o, g, 0)
  }

  /** get_valid_locations lists the columns in strictly ascending order. */
  lemma ValidLocationsAscending(o: Orientation, g: Grid)
    ensures forall i, j :: 0 <= i < j < |ValidLocations(o, g)| ==> ValidLocations(o, g)[i] < ValidLocations(o, g)[j]
  {
    ValidFromAscending(o, g, 0);
  }

  /** is_terminal_node: either side has four in a row, or no column is valid. */
  predicate IsTerminal(o: Orientation, g: Grid)
  {
    HasWin(g, PlayerPiece) || HasWin(g, AIPiece) || |ValidLocations(o, g)| == 0
  }

  /** The gravity invariant: in every column the occupied cells form one block
      against the resting end, so below an occupied cell nothing is empty. */
  predicate Gravity(o: Orientation, g: Grid)
  {
    forall r, s, c :: 0 <= r < ROWS && 0 <= s < ROWS && 0 <= c < COLS && Below(o, r, s) && g[s][c] != Empty ==> g[r][c] != Empty
  }

  /** Under gravity a column is valid iff it still has an empty cell. */
  lemma ValidIffNotFull(o: Orientation, g: Grid, c: Column)
    requires Gravity(o, g)
    ensures IsValidLocation(o, g, c) <==> exists r :: 0 <= r < ROWS && g[r][c] == Empty
  {
    if exists r :: 0 <= r < ROWS && g[r][c] == Empty {
      var r :| 0 <= r < ROWS && g[r][c] == Empty;
      if r != TopRow(o) {
        assert Below(o, r, TopRow(o));
      }
    }
  }

  /** Under gravity the open row sits right on top of the block: every cell nearer
      the resting end is occupied, every cell beyond it is empty. */
  lemma OpenRowOnTop(o: Orientation, g: Grid, c: Column)
    requires Gravity(o, g)
    requires NextOpenRow(o, g, c).Some?
    ensures var r := NextOpenRow(o, g, c).value;
      (forall s :: 0 <= s < ROWS && Below(o, s, r) ==> g[s][c] != Empty)
      && (forall s :: 0 <= s < ROWS && Below(o, r, s) ==> g[s][c] == Empty)
  {
    NextOpenRowSpec(o, g, c);
  }

  /** Dropping a piece into a valid column keeps the gravity invariant, and changes
      exactly the open cell of that column. */
  lemma DropKeepsGravity(o: Orientation, g: Grid, c: Column, piece: Piece)
    requires Gravity(o, g) && IsValidLocation(o, g, c)
    ensures Gravity(o, Drop(o, g, c, piece))
    ensures var r := NextOpenRow(o, g, c).value;
      Drop(o, g, c, piece)[r][c] == piece
      && forall s, d :: 0 <= s < ROWS && 0 <= d < COLS && (s != r || d != c) ==> Drop(o, g, c, piece)[s][d] == g[s][d]
  {
    var h := Drop(o, g, c, piece);
    var r := NextOpenRow(o, g, c).value;
    NextOpenRowSpec(o, g, c);
    forall x, y, d | 0 <= x < ROWS && 0 <= y < ROWS && 0 <= d < COLS && Below(o, x, y) && h[y][d] != Empty
      ensures h[x][d] != Empty
    {
      if d == c && y == r {
        assert g[x][c] != Empty;
      } else if d != c || x != r {
        assert g[y][d] != Empty;
      }
    }
  }
}
