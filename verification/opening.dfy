/** The opening position (game_state.py, generate_initial_game_state) and the
    facts about it: sixteen pieces a side, as the counts it carries say, and
    an even material balance. */
module Opening {
  import opened Teams
  import opened Board
  import opened Positions

  function BackRank(t: Player): seq<Cell> {
    [Piece(t, Rook), Piece(t, Horse), Piece(t, Elephant), Piece(t, Advisor), Piece(t, General),
     Piece(t, Advisor), Piece(t, Elephant), Piece(t, Horse), Piece(t, Rook)]
  }

  function CannonRow(t: Player): seq<Cell> {
    [Empty, Piece(t, Cannon), Empty, Empty, Empty, Empty, Empty, Piece(t, Cannon), Empty]
  }

  function PawnRow(t: Player): seq<Cell> {
    [Piece(t, Pawn), Empty, Piece(t, Pawn), Empty, Piece(t, Pawn), Empty, Piece(t, Pawn), Empty, Piece(t, Pawn)]
  }

  const EMPTY_ROW: seq<Cell> := [Empty, Empty, Empty, Empty, Empty, Empty, Empty, Empty, Empty]

  /** The opening board: BLACK on rows 0..3, RED on rows 6..9. */
  const INITIAL_BOARD: Grid :=
    BackRank(Black) + EMPTY_ROW + CannonRow(Black) + PawnRow(Black) + EMPTY_ROW +
    EMPTY_ROW + PawnRow(Red) + CannonRow(Red) + EMPTY_ROW + BackRank(Red)

  /** generate_initial_game_state: RED to move, the opening board seen once,
      sixteen pieces a side, and the value pack it is given. */
  function InitialPosition(valuePack: int): (s: Position)
    ensures CountsAgree(s) && Material(s.board) == 0
    ensures s.current == Red && s.valuePack == valuePack
    ensures s.history.Keys == {s.board} && Count(s.history, s.board) == 1
  {
    InitialCounts();
    Position(INITIAL_BOARD, Red, map[INITIAL_BOARD := 1], valuePack, 16, 16)
  }

  // ------------------------------------------------------ Sums row by row

  /** The weights of the cells of row r, from column c on. */
  function RowSum(row: seq<Cell>, w: (Cell, Pos) -> int, r: int, c: nat): int
    requires c <= |row|
    decreases |row| - c
  {
    if c == |row| then 0 else w(row[c], Pos(r, c)) + RowSum(row, w, r, c + 1)
  }

  /** The row sums of the first r rows. */
  function RowsUpTo(g: Grid, w: (Cell, Pos) -> int, r: nat): int
    requires r <= 10
  {
    if r == 0 then 0 else RowsUpTo(g, w, r - 1) + RowSum(g[9 * (r - 1) .. 9 * (r - 1) + 9], w, r - 1, 0)
  }

  /** The tail of row r, from column c on, completes the square-by-square sum
      of the board up to the end of that row. */
  lemma {:induction false} SumUpToRowPart(g: Grid, w: (Cell, Pos) -> int, r: nat, c: nat)
    requires r < 10 && c <= 9
    ensures SumUpTo(g, w, 9 * r + 9) == SumUpTo(g, w, 9 * r + c) + RowSum(g[9 * r .. 9 * r + 9], w, r, c)
    decreases 9 - c
  {
    if c < 9 {
      SumUpToRowPart(g, w, r, c + 1);
      SquareOfIndex(Pos(r, c));
      assert g[9 * r .. 9 * r + 9][c] == At(g, Pos(r, c));
    }
  }

  /** Summing square by square equals summing row by row. */
  lemma {:induction false} SumByRows(g: Grid, w: (Cell, Pos) -> int, r: nat)
    requires r <= 10
    ensures SumUpTo(g, w, 9 * r) == RowsUpTo(g, w, r)
  {
    if r > 0 {
      SumByRows(g, w, r - 1);
      SumUpToRowPart(g, w, r - 1, 0);
    }
  }

  lemma TenRows(g: Grid, w: (Cell, Pos) -> int)
    ensures SumUpTo(g, w, 90) ==
      RowSum(g[0..9], w, 0, 0) + RowSum(g[9..18], w, 1, 0) + RowSum(g[18..27], w, 2, 0) +
      RowSum(g[27..36], w, 3, 0) + RowSum(g[36..45], w, 4, 0) + RowSum(g[45..54], w, 5, 0) +
      RowSum(g[54..63], w, 6, 0) + RowSum(g[63..72], w, 7, 0) + RowSum(g[72..81], w, 8, 0) +
      RowSum(g[81..90], w, 9, 0)
  {
    SumByRows(g, w, 10);
    assert RowsUpTo(g, w, 1) == RowSum(g[0..9], w, 0, 0);
    assert RowsUpTo(g, w, 2) == RowsUpTo(g, w, 1) + RowSum(g[9..18], w, 1, 0);
    assert RowsUpTo(g, w, 3) == RowsUpTo(g, w, 2) + RowSum(g[18..27], w, 2, 0);
    assert RowsUpTo(g, w, 4) == RowsUpTo(g, w, 3) + RowSum(g[27..36], w, 3, 0);
    assert RowsUpTo(g, w, 5) == RowsUpTo(g, w, 4) + RowSum(g[36..45], w, 4, 0);
    assert RowsUpTo(g, w, 6) == RowsUpTo(g, w, 5) + RowSum(g[45..54], w, 5, 0);
    assert RowsUpTo(g, w, 7) == RowsUpTo(g, w, 6) + RowSum(g[54..63], w, 6, 0);
    assert RowsUpTo(g, w, 8) == RowsUpTo(g, w, 7) + RowSum(g[63..72], w, 7, 0);
    assert RowsUpTo(g, w, 9) == RowsUpTo(g, w, 8) + RowSum(g[72..81], w, 8, 0);
  }

  // ------------------------------------------------------ The opening rows

  /** The opening layout, row by row. */
  predicate OpeningRows(g: Grid) {
    g[0..9] == BackRank(Black) && g[9..18] == EMPTY_ROW &&
    g[18..27] == CannonRow(Black) && g[27..36] == PawnRow(Black) &&
    g[36..45] == EMPTY_ROW && g[45..54] == EMPTY_ROW &&
    g[54..63] == PawnRow(Red) && g[63..72] == CannonRow(Red) &&
    g[72..81] == EMPTY_ROW && g[81..90] == BackRank(Red)
  }

  lemma InitialRows()
    ensures OpeningRows(INITIAL_BOARD)
  {
  }

  lemma BackRankCount(t: Player, u: Player, r: int)
    ensures RowSum(BackRank(t), IsOf(u), r, 0) == if t == u then 9 else 0
  {
  }

  lemma CannonRowCount(t: Player, u: Player, r: int)
    ensures RowSum(CannonRow(t), IsOf(u), r, 0) == if t == u then 2 else 0
  {
  }

  lemma PawnRowCount(t: Player, u: Player, r: int)
    ensures RowSum(PawnRow(t), IsOf(u), r, 0) == if t == u then 5 else 0
  {
  }

  lemma EmptyRowSum(w: (Cell, Pos) -> int, r: int)
    requires forall p :: w(Empty, p) == 0
    ensures RowSum(EMPTY_ROW, w, r, 0) == 0
  {
  }

  /** A back rank is worth 90 + 40 + 25 + 20 + 0 + 20 + 25 + 40 + 90 to its side. */
  lemma BackRankWorth(t: Player, r: int)
    ensures RowSum(BackRank(t), CellWorth, r, 0) == 350 * Value(t)
  {
  }

  lemma CannonRowWorth(t: Player, r: int)
    ensures RowSum(CannonRow(t), CellWorth, r, 0) == 90 * Value(t)
  {
  }

  /** Pawns on their own side of the river are worth 10 each. */
  lemma PawnRowWorth(t: Player, r: int)
    requires 0 <= r < 10 && !CrossedRiver(Pos(r, 0), t)
    ensures RowSum(PawnRow(t), CellWorth, r, 0) == 50 * Value(t)
  {
    assert forall c :: !CrossedRiver(Pos(r, c), t);
  }

  lemma BlackHalfCounts(g: Grid, t: Player)
    requires OpeningRows(g)
    ensures RowSum(g[0..9], IsOf(t), 0, 0) == (if t == Black then 9 else 0)
    ensures RowSum(g[9..18], IsOf(t), 1, 0) == 0
    ensures RowSum(g[18..27], IsOf(t), 2, 0) == (if t == Black then 2 else 0)
    ensures RowSum(g[27..36], IsOf(t), 3, 0) == (if t == Black then 5 else 0)
    ensures RowSum(g[36..45], IsOf(t), 4, 0) == 0
  {
    BackRankCount(Black, t, 0);
    EmptyRowSum(IsOf(t), 1);
    CannonRowCount(Black, t, 2);
    PawnRowCount(Black, t, 3);
    EmptyRowSum(IsOf(t), 4);
  }

  lemma RedHalfCounts(g: Grid, t: Player)
    requires OpeningRows(g)
    ensures RowSum(g[45..54], IsOf(t), 5, 0) == 0
    ensures RowSum(g[54..63], IsOf(t), 6, 0) == (if t == Red then 5 else 0)
    ensures RowSum(g[63..72], IsOf(t), 7, 0) == (if t == Red then 2 else 0)
    ensures RowSum(g[72..81], IsOf(t), 8, 0) == 0
    ensures RowSum(g[81..90], IsOf(t), 9, 0) == (if t == Red then 9 else 0)
  {
    EmptyRowSum(IsOf(t), 5);
    PawnRowCount(Red, t, 6);
    CannonRowCount(Red, t, 7);
    EmptyRowSum(IsOf(t), 8);
    BackRankCount(Red, t, 9);
  }

  lemma BlackHalfWorth(g: Grid)
    requires OpeningRows(g)
    ensures RowSum(g[0..9], CellWorth, 0, 0) == -350
    ensures RowSum(g[9..18], CellWorth, 1, 0) == 0
    ensures RowSum(g[18..27], CellWorth, 2, 0) == -90
    ensures RowSum(g[27..36], CellWorth, 3, 0) == -50
    ensures RowSum(g[36..45], CellWorth, 4, 0) == 0
  {
    BackRankWorth(Black, 0);
    EmptyRowSum(CellWorth, 1);
    CannonRowWorth(Black, 2);
    PawnRowWorth(Black, 3);
    EmptyRowSum(CellWorth, 4);
  }

  lemma RedHalfWorth(g: Grid)
    requires OpeningRows(g)
    ensures RowSum(g[45..54], CellWorth, 5, 0) == 0
    ensures RowSum(g[54..63], CellWorth, 6, 0) == 50
    ensures RowSum(g[63..72], CellWorth, 7, 0) == 90
    ensures RowSum(g[72..81], CellWorth, 8, 0) == 0
    ensures RowSum(g[81..90], CellWorth, 9, 0) == 350
  {
    EmptyRowSum(CellWorth, 5);
    PawnRowWorth(Red, 6);
    CannonRowWorth(Red, 7);
    EmptyRowSum(CellWorth, 8);
    BackRankWorth(Red, 9);
  }

  /** The opening layout has sixteen pieces of each side. */
  lemma OpeningCount(g: Grid, t: Player)
    requires OpeningRows(g)
    ensures PieceCount(g, t) == 16
  {
    TenRows(g, IsOf(t));
    BlackHalfCounts(g, t);
    RedHalfCounts(g, t);
  }

  /** The opening layout has even material. */
  lemma OpeningMaterial(g: Grid)
    requires OpeningRows(g)
    ensures Material(g) == 0
  {
    TenRows(g, CellWorth);
    BlackHalfWorth(g);
    RedHalfWorth(g);
  }

  lemma InitialCounts()
    ensures PieceCount(INITIAL_BOARD, Red) == 16 && PieceCount(INITIAL_BOARD, Black) == 16
    ensures Material(INITIAL_BOARD) == 0
  {
    InitialRows();
    OpeningCount(INITIAL_BOARD, Red);
    OpeningCount(INITIAL_BOARD, Black);
    OpeningMaterial(INITIAL_BOARD);
  }
}
