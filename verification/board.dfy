/** The 10 x 9 board, its squares and the queries every piece uses
    (piece.py, class Piece). Row 0 is BLACK's back rank and row 9 is RED's. */
module Board {
  import opened Teams
  import opened Outcomes

  /** The seven kinds of piece, by their notation letters A, C, E, G, H, P, R. */
  datatype Kind = Advisor | Cannon | Elephant | General | Horse | Pawn | Rook

  /** A board cell: the notation "NN" (empty) or a side letter and a kind letter. */
  datatype Cell = Empty | Piece(team: Player, kind: Kind)

  /** A (row, column) pair; it may lie off the board. */
  datatype Pos = Pos(row: int, col: int)

  const ROWS: int := 10   // BOARD_SIZE_X
  const COLS: int := 9    // BOARD_SIZE_Y

  /** The grid, row-major: square (r, c) is cell r * 9 + c. */
  type Grid = g: seq<Cell> | |g| == 90 witness seq(90, _ => Empty)

  /** is_position_on_board */
  predicate OnBoard(p: Pos) {
    0 <= p.row < ROWS && 0 <= p.col < COLS
  }

  /** is_position_in_palace: columns 3..5 and rows 0..2 (BLACK) or 7..9 (RED). */
  predicate InPalace(p: Pos)
    ensures InPalace(p) ==> OnBoard(p)
  {
    ((0 <= p.row <= 2) || (7 <= p.row <= 9)) && 3 <= p.col <= 5
  }

  /** The palace rows of one side: BLACK 0..2, RED 7..9. */
  predicate InOwnPalace(p: Pos, t: Player)
    ensures InOwnPalace(p, t) ==> InPalace(p)
  {
    3 <= p.col <= 5 &&
    if t == Red then 7 <= p.row <= 9 else 0 <= p.row <= 2
  }

  function At(g: Grid, p: Pos): Cell
    requires OnBoard(p)
  {
    g[p.row * 9 + p.col]
  }

  /** Writes one cell and leaves every other square as it was. */
  function Put(g: Grid, p: Pos, c: Cell): (r: Grid)
    requires OnBoard(p)
    ensures At(r, p) == c
    ensures forall q :: OnBoard(q) && q != p ==> At(r, q) == At(g, q)
  {
    g[p.row * 9 + p.col := c]
  }

  /** The side a cell belongs to; Team.NONE for "NN". */
  function TeamOf(c: Cell): Team {
    if c.Empty? then NoTeam else c.team
  }

  /** _get_piece_team_on_position: None stands for the ValueError raised for
      a square off the board. */
  function LookupTeam(g: Grid, p: Pos): (r: Option<Team>)
    ensures r.Some? <==> OnBoard(p)
    ensures r == Some(NoTeam) <==> OnBoard(p) && At(g, p) == Empty
  {
    if !OnBoard(p) then None else Some(TeamOf(At(g, p)))
  }

  /** is_position_free */
  predicate IsFree(g: Grid, p: Pos)
    requires OnBoard(p)
  {
    TeamOf(At(g, p)) == NoTeam
  }

  /** is_position_teammate */
  predicate IsTeammate(g: Grid, p: Pos, t: Player)
    requires OnBoard(p)
  {
    TeamOf(At(g, p)) == t
  }

  /** is_position_opponent: the square's side has the opposite sign. */
  predicate IsOpponent(g: Grid, p: Pos, t: Player)
    requires OnBoard(p)
    ensures IsOpponent(g, p, t) <==> At(g, p).Piece? && At(g, p).team == Opponent(t)
  {
    Value(TeamOf(At(g, p))) == -Value(t)
  }

  /** is_crossed_river: |row + 9 * (sign - 1) / 2| < 5. */
  predicate CrossedRiver(p: Pos, t: Player)
    ensures OnBoard(p) ==>
      (CrossedRiver(p, t) <==> (t == Red && p.row <= 4) || (t == Black && p.row >= 5))
  {
    var shifted := p.row + 9 * (Value(t) - 1) / 2;
    -5 < shifted < 5
  }

  /** The four orthogonal directions, named by the coordinate they change. */
  datatype Dir = RowPlus | RowMinus | ColPlus | ColMinus

  /** The square k steps from p in direction d. */
  function Ray(p: Pos, d: Dir, k: int): Pos {
    match d
    case RowPlus => Pos(p.row + k, p.col)
    case RowMinus => Pos(p.row - k, p.col)
    case ColPlus => Pos(p.row, p.col + k)
    case ColMinus => Pos(p.row, p.col - k)
  }

  /** The number of occupied board squares strictly between p and Ray(p, d, k). */
  function PiecesBetween(g: Grid, p: Pos, d: Dir, k: int): (n: nat)
    decreases k
  {
    if k <= 1 then 0
    else
      PiecesBetween(g, p, d, k - 1) + Occupancy(g, Ray(p, d, k - 1))
  }

  /** 1 for an occupied board square, 0 otherwise. */
  function Occupancy(g: Grid, q: Pos): nat {
    if OnBoard(q) && !IsFree(g, q) then 1 else 0
  }

  /** The opposite direction. */
  function Reverse(d: Dir): (r: Dir)
    ensures forall p, k :: Ray(Ray(p, d, k), r, k) == p
  {
    match d
    case RowPlus => RowMinus
    case RowMinus => RowPlus
    case ColPlus => ColMinus
    case ColMinus => ColPlus
  }

  /** Counting from the far end: the first square plus the pieces between it
      and the k-th square after it. */
  lemma {:induction false} PiecesBetweenFront(g: Grid, p: Pos, d: Dir, k: int)
    requires k >= 1
    ensures PiecesBetween(g, p, d, k + 1) == Occupancy(g, Ray(p, d, 1)) + PiecesBetween(g, Ray(p, d, 1), d, k)
  {
    if k > 1 {
      PiecesBetweenFront(g, p, d, k - 1);
      assert Ray(Ray(p, d, 1), d, k - 1) == Ray(p, d, k);
    }
  }

  /** The pieces between two squares of a line are the same seen from either end. */
  lemma {:induction false} PiecesBetweenSymmetric(g: Grid, p: Pos, d: Dir, k: int)
    ensures PiecesBetween(g, Ray(p, d, k), Reverse(d), k) == PiecesBetween(g, p, d, k)
  {
    if k > 1 {
      var q := Ray(p, d, k);
      PiecesBetweenFront(g, q, Reverse(d), k - 1);
      assert Ray(q, Reverse(d), 1) == Ray(p, d, k - 1);
      PiecesBetweenSymmetric(g, p, d, k - 1);
    }
  }

  /** A square on a ray from a board square is on the board whenever a farther
      square of that ray is. */
  lemma RayConvex(p: Pos, d: Dir, j: int, k: int)
    requires OnBoard(p) && 0 <= j <= k && OnBoard(Ray(p, d, k))
    ensures OnBoard(Ray(p, d, j))
  {
  }

  /** No piece lies between p and the k-th square along d when every square
      strictly between them is free. */
  lemma {:induction false} PiecesBetweenClear(g: Grid, p: Pos, d: Dir, k: int)
    requires forall j :: 1 <= j < k && OnBoard(Ray(p, d, j)) ==> IsFree(g, Ray(p, d, j))
    ensures PiecesBetween(g, p, d, k) == 0
    decreases k
  {
    if k > 1 {
      PiecesBetweenClear(g, p, d, k - 1);
    }
  }

  /** Two-letter notation of a cell, as the source stores it on the board. */
  function Notation(c: Cell): string {
    match c
    case Empty => "NN"
    case Piece(t, k) => [if t == Red then 'R' else 'B', KindLetter(k)]
  }

  function KindLetter(k: Kind): char {
    match k
    case Advisor => 'A'
    case Cannon => 'C'
    case Elephant => 'E'
    case General => 'G'
    case Horse => 'H'
    case Pawn => 'P'
    case Rook => 'R'
  }

  function LetterKind(ch: char): Option<Kind> {
    match ch
    case 'A' => Some(Advisor)
    case 'C' => Some(Cannon)
    case 'E' => Some(Elephant)
    case 'G' => Some(General)
    case 'H' => Some(Horse)
    case 'P' => Some(Pawn)
    case 'R' => Some(Rook)
    case _ => None
  }

  /** Reads a two-letter notation back: "NN" is the empty cell, a side letter
      R or B followed by a kind letter is a piece, anything else is rejected. */
  function ParseNotation(s: string): (r: Option<Cell>)
    ensures r.Some? ==> Notation(r.value) == s
  {
    if |s| != 2 then None
    else if s == "NN" then Some(Empty)
    else if s[0] != 'R' && s[0] != 'B' then None
    else match LetterKind(s[1])
      case None => None
      case Some(k) => Some(Piece(if s[0] == 'R' then Red else Black, k))
  }

  /** Writing a cell and reading it back gives the same cell. */
  lemma NotationRoundTrip(c: Cell)
    ensures ParseNotation(Notation(c)) == Some(c)
  {
    match c
    case Empty =>
    case Piece(t, k) =>
      var s := Notation(c);
      assert s != "NN" by { assert s[1] != 'N'; }
  }
}
