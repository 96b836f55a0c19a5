/** The pseudo-legal move rules of the seven pieces (piece.py,
    get_admissible_moves of each Piece subclass), as functions of the board,
    the piece's square and its side, together with what each rule admits. */
module Moves {
  import opened Teams
  import opened Board

  // Offset tables, in the order the source iterates them.
  const ADVISOR_DR: seq<int> := [1, 1, -1, -1]
  const ADVISOR_DC: seq<int> := [1, -1, -1, 1]
  const ROOK_DIRS: seq<Dir> := [RowPlus, RowMinus, ColPlus, ColMinus]
  const ELEPHANT_DR: seq<int> := [2, 2, -2, -2]
  const ELEPHANT_DC: seq<int> := [2, -2, 2, -2]
  const EYE_DR: seq<int> := [1, 1, -1, -1]
  const EYE_DC: seq<int> := [1, -1, 1, -1]
  const GENERAL_DR: seq<int> := [1, -1, 0, 0]
  const GENERAL_DC: seq<int> := [0, 0, 1, -1]
  const HORSE_DR: seq<int> := [2, 2, 1, -1, -2, -2, -1, 1]
  const HORSE_DC: seq<int> := [1, -1, -2, -2, -1, 1, 2, 2]
  const LEG_DR: seq<int> := [1, 0, -1, 0]
  const LEG_DC: seq<int> := [0, -1, 0, 1]

  /** A destination every rule may emit: on the board and not a teammate. */
  predicate Reachable(g: Grid, q: Pos, t: Player) {
    OnBoard(q) && !IsTeammate(g, q, t)
  }

  // ---------------------------------------------------------------- Advisor

  function AdvisorTarget(p: Pos, cnt: nat): Pos
    requires cnt < 4
  {
    Pos(p.row + ADVISOR_DR[cnt], p.col + ADVISOR_DC[cnt])
  }

  predicate AdvisorOpen(g: Grid, p: Pos, t: Player, cnt: nat)
    requires cnt < 4
  {
    var q := AdvisorTarget(p, cnt);
    OnBoard(q) && !IsTeammate(g, q, t) && InPalace(q)
  }

  /** Advisor.get_admissible_moves over its first n offsets. */
  function AdvisorUpTo(g: Grid, p: Pos, t: Player, n: nat): (r: seq<Pos>)
    requires n <= 4
    ensures forall q :: q in r ==> Reachable(g, q, t) && InPalace(q)
  {
    if n == 0 then []
    else
      var k := n - 1;
      AdvisorUpTo(g, p, t, k) + (if AdvisorOpen(g, p, t, k) then [AdvisorTarget(p, k)] else [])
  }

  lemma {:induction false} AdvisorUpToMembers(g: Grid, p: Pos, t: Player, n: nat, q: Pos)
    requires n <= 4
    ensures q in AdvisorUpTo(g, p, t, n) <==> exists i :: 0 <= i < n && q == AdvisorTarget(p, i) && AdvisorOpen(g, p, t, i)
  {
    if n > 0 {
      AdvisorUpToMembers(g, p, t, n - 1, q);
    }
  }

  function AdvisorMoves(g: Grid, p: Pos, t: Player): seq<Pos> {
    AdvisorUpTo(g, p, t, 4)
  }

  lemma AdvisorOffsets(p: Pos)
    ensures AdvisorTarget(p, 0) == Pos(p.row + 1, p.col + 1)
    ensures AdvisorTarget(p, 1) == Pos(p.row + 1, p.col - 1)
    ensures AdvisorTarget(p, 2) == Pos(p.row - 1, p.col - 1)
    ensures AdvisorTarget(p, 3) == Pos(p.row - 1, p.col + 1)
  {
  }

  /** An advisor moves one diagonal step, stays in a palace and does not land
      on a teammate; every such square is emitted. */
  lemma AdvisorMovesSpec(g: Grid, p: Pos, t: Player, q: Pos)
    ensures q in AdvisorMoves(g, p, t) <==>
      (q.row - p.row == 1 || q.row - p.row == -1) &&
      (q.col - p.col == 1 || q.col - p.col == -1) &&
      InPalace(q) && !IsTeammate(g, q, t)
  {
    AdvisorOffsets(p);
    AdvisorUpToMembers(g, p, t, 4, q);
    if q in AdvisorMoves(g, p, t) {
      var i :| 0 <= i < 4 && q == AdvisorTarget(p, i) && AdvisorOpen(g, p, t, i);
    } else if (q.row - p.row == 1 || q.row - p.row == -1) && (q.col - p.col == 1 || q.col - p.col == -1) {
      var i := if q.row - p.row == 1 then (if q.col - p.col == 1 then 0 else 1)
               else (if q.col - p.col == -1 then 2 else 3);
      assert q == AdvisorTarget(p, i);
    }
  }

  // ---------------------------------------------------------------- General

  function GeneralTarget(p: Pos, cnt: nat): Pos
    requires cnt < 4
  {
    Pos(p.row + GENERAL_DR[cnt], p.col + GENERAL_DC[cnt])
  }

  predicate GeneralOpen(g: Grid, p: Pos, t: Player, cnt: nat)
    requires cnt < 4
  {
    var q := GeneralTarget(p, cnt);
    InPalace(q) && (IsFree(g, q) || IsOpponent(g, q, t))
  }

  /** General.get_admissible_moves over its first n directions: a palace
      square that is free or holds an opponent. */
  function GeneralUpTo(g: Grid, p: Pos, t: Player, n: nat): (r: seq<Pos>)
    requires n <= 4
    ensures forall q :: q in r ==> Reachable(g, q, t) && InPalace(q)
  {
    if n == 0 then []
    else
      var k := n - 1;
      GeneralUpTo(g, p, t, k) + (if GeneralOpen(g, p, t, k) then [GeneralTarget(p, k)] else [])
  }

  lemma {:induction false} GeneralUpToMembers(g: Grid, p: Pos, t: Player, n: nat, q: Pos)
    requires n <= 4
    ensures q in GeneralUpTo(g, p, t, n) <==> exists i :: 0 <= i < n && q == GeneralTarget(p, i) && GeneralOpen(g, p, t, i)
  {
    if n > 0 {
      GeneralUpToMembers(g, p, t, n - 1, q);
    }
  }

  function GeneralMoves(g: Grid, p: Pos, t: Player): seq<Pos> {
    GeneralUpTo(g, p, t, 4)
  }

  lemma GeneralOffsets(p: Pos)
    ensures GeneralTarget(p, 0) == Pos(p.row + 1, p.col)
    ensures GeneralTarget(p, 1) == Pos(p.row - 1, p.col)
    ensures GeneralTarget(p, 2) == Pos(p.row, p.col + 1)
    ensures GeneralTarget(p, 3) == Pos(p.row, p.col - 1)
  {
  }

  /** A general moves one orthogonal step inside a palace onto an empty or
      opponent square; every such square is emitted. */
  lemma GeneralMovesSpec(g: Grid, p: Pos, t: Player, q: Pos)
    ensures q in GeneralMoves(g, p, t) <==>
      ((q.row == p.row && (q.col - p.col == 1 || q.col - p.col == -1)) ||
       (q.col == p.col && (q.row - p.row == 1 || q.row - p.row == -1))) &&
      InPalace(q) && (IsFree(g, q) || IsOpponent(g, q, t))
  {
    GeneralOffsets(p);
    GeneralUpToMembers(g, p, t, 4, q);
    if q in GeneralMoves(g, p, t) {
      var i :| 0 <= i < 4 && q == GeneralTarget(p, i) && GeneralOpen(g, p, t, i);
    } else if q.row == p.row && (q.col - p.col == 1 || q.col - p.col == -1) {
      assert q == GeneralTarget(p, if q.col - p.col == 1 then 2 else 3);
    } else if q.col == p.col && (q.row - p.row == 1 || q.row - p.row == -1) {
      assert q == GeneralTarget(p, if q.row - p.row == 1 then 0 else 1);
    }
  }

  /** A general that starts in its own palace stays in it. */
  lemma GeneralStaysHome(g: Grid, p: Pos, t: Player, q: Pos)
    requires InOwnPalace(p, t) && q in GeneralMoves(g, p, t)
    ensures InOwnPalace(q, t)
  {
    GeneralMovesSpec(g, p, t, q);
  }

  // ---------------------------------------------------------------- Elephant

  /** Elephant._cross_river: the square lies on the other side's half. */
  predicate ElephantCrossesRiver(q: Pos, t: Player) {
    (t == Red && q.row < 5) || (t == Black && q.row > 4)
  }

  function ElephantTarget(p: Pos, cnt: nat): Pos
    requires cnt < 4
  {
    Pos(p.row + ELEPHANT_DR[cnt], p.col + ELEPHANT_DC[cnt])
  }

  function ElephantEye(p: Pos, cnt: nat): Pos
    requires cnt < 4
  {
    Pos(p.row + EYE_DR[cnt], p.col + EYE_DC[cnt])
  }

  /** Offset cnt is emitted: the target is a board square on the elephant's
      own half, its eye is empty and it does not hold a teammate. */
  predicate ElephantOpen(g: Grid, p: Pos, t: Player, cnt: nat)
    requires OnBoard(p) && cnt < 4
  {
    var q := ElephantTarget(p, cnt);
    OnBoard(q) && IsFree(g, ElephantEye(p, cnt)) && !ElephantCrossesRiver(q, t) && !IsTeammate(g, q, t)
  }

  /** Elephant.get_admissible_moves over its first n offsets. */
  function ElephantUpTo(g: Grid, p: Pos, t: Player, n: nat): (r: seq<Pos>)
    requires OnBoard(p) && n <= 4
    ensures forall q :: q in r ==> Reachable(g, q, t) && !ElephantCrossesRiver(q, t)
  {
    if n == 0 then []
    else
      var k := n - 1;
      ElephantUpTo(g, p, t, k) + (if ElephantOpen(g, p, t, k) then [ElephantTarget(p, k)] else [])
  }

  lemma {:induction false} ElephantUpToMembers(g: Grid, p: Pos, t: Player, n: nat, q: Pos)
    requires OnBoard(p) && n <= 4
    ensures q in ElephantUpTo(g, p, t, n) <==> exists i :: 0 <= i < n && q == ElephantTarget(p, i) && ElephantOpen(g, p, t, i)
  {
    if n > 0 {
      ElephantUpToMembers(g, p, t, n - 1, q);
    }
  }

  function ElephantMoves(g: Grid, p: Pos, t: Player): seq<Pos>
    requires OnBoard(p)
  {
    ElephantUpTo(g, p, t, 4)
  }

  /** The square half-way between p and q, for q two steps away on both axes. */
  function Midpoint(p: Pos, q: Pos): Pos {
    Pos(if q.row > p.row then p.row + 1 else p.row - 1,
        if q.col > p.col then p.col + 1 else p.col - 1)
  }

  lemma ElephantOffset(p: Pos, i: nat)
    requires i < 4
    ensures var q := ElephantTarget(p, i);
      (q.row - p.row == 2 || q.row - p.row == -2) && (q.col - p.col == 2 || q.col - p.col == -2) &&
      ElephantEye(p, i) == Midpoint(p, q)
  {
  }

  /** An elephant moves (+-2, +-2) with an empty midpoint, RED staying in rows
      5..9 and BLACK in rows 0..4; every such square is emitted. */
  lemma ElephantMovesSpec(g: Grid, p: Pos, t: Player, q: Pos)
    requires OnBoard(p)
    ensures q in ElephantMoves(g, p, t) <==>
      (q.row - p.row == 2 || q.row - p.row == -2) &&
      (q.col - p.col == 2 || q.col - p.col == -2) &&
      OnBoard(q) && IsFree(g, Midpoint(p, q)) &&
      (if t == Red then q.row >= 5 else q.row <= 4) &&
      !IsTeammate(g, q, t)
  {
    ElephantUpToMembers(g, p, t, 4, q);
    if q in ElephantMoves(g, p, t) {
      var i :| 0 <= i < 4 && q == ElephantTarget(p, i) && ElephantOpen(g, p, t, i);
      ElephantOffset(p, i);
    } else if (q.row - p.row == 2 || q.row - p.row == -2) && (q.col - p.col == 2 || q.col - p.col == -2) {
      var i := if q.row - p.row == 2 then (if q.col - p.col == 2 then 0 else 1)
               else (if q.col - p.col == 2 then 2 else 3);
      assert q == ElephantTarget(p, i);
      ElephantOffset(p, i);
      assert !ElephantOpen(g, p, t, i);
    }
  }

  // ---------------------------------------------------------------- Horse

  function HorseTarget(p: Pos, cnt: nat): Pos
    requires cnt < 8
  {
    Pos(p.row + HORSE_DR[cnt], p.col + HORSE_DC[cnt])
  }

  /** The leg square that gates offsets cnt = 2k and 2k + 1. */
  function HorseLeg(p: Pos, cnt: nat): Pos
    requires cnt < 8
  {
    Pos(p.row + LEG_DR[cnt / 2], p.col + LEG_DC[cnt / 2])
  }

  /** Offset cnt is emitted: its leg is an empty board square and its target
      a board square that is not a teammate. */
  predicate HorseOpen(g: Grid, p: Pos, t: Player, cnt: nat)
    requires cnt < 8
  {
    var leg := HorseLeg(p, cnt);
    var q := HorseTarget(p, cnt);
    OnBoard(leg) && IsFree(g, leg) && OnBoard(q) && !IsTeammate(g, q, t)
  }

  /** Horse.get_admissible_moves over its first n offsets. */
  function HorseUpTo(g: Grid, p: Pos, t: Player, n: nat): (r: seq<Pos>)
    requires n <= 8
    ensures forall q :: q in r ==> Reachable(g, q, t)
  {
    if n == 0 then []
    else
      var k := n - 1;
      HorseUpTo(g, p, t, k) + (if HorseOpen(g, p, t, k) then [HorseTarget(p, k)] else [])
  }

  lemma {:induction false} HorseUpToMembers(g: Grid, p: Pos, t: Player, n: nat, q: Pos)
    requires n <= 8
    ensures q in HorseUpTo(g, p, t, n) <==> exists i :: 0 <= i < n && q == HorseTarget(p, i) && HorseOpen(g, p, t, i)
  {
    if n > 0 {
      var k := n - 1;
      HorseUpToMembers(g, p, t, k, q);
      var tail := if HorseOpen(g, p, t, k) then [HorseTarget(p, k)] else [];
      assert HorseUpTo(g, p, t, n) == HorseUpTo(g, p, t, k) + tail;
      if q in HorseUpTo(g, p, t, n) && q !in HorseUpTo(g, p, t, k) {
        assert q in tail;
        assert 0 <= k < n && q == HorseTarget(p, k) && HorseOpen(g, p, t, k);
      }
      if exists i :: 0 <= i < n && q == HorseTarget(p, i) && HorseOpen(g, p, t, i) {
        var i :| 0 <= i < n && q == HorseTarget(p, i) && HorseOpen(g, p, t, i);
        if i == k {
          assert q in tail;
        }
      }
    }
  }

  function HorseMoves(g: Grid, p: Pos, t: Player): seq<Pos> {
    HorseUpTo(g, p, t, 8)
  }

  /** No target is a leg square, and different legs are different squares. */
  lemma HorseGeometry(p: Pos, i: nat, k: nat)
    requires i < 8 && k < 4
    ensures HorseTarget(p, i) != HorseLeg(p, 2 * k)
    ensures i / 2 != k ==> HorseLeg(p, i) != HorseLeg(p, 2 * k)
  {
  }

  /** Putting any piece on the leg of offsets 2k and 2k + 1 removes exactly
      those two destinations and leaves the other six as they were. */
  lemma HorseLegBlocks(g: Grid, p: Pos, t: Player, k: nat, c: Cell, q: Pos)
    requires k < 4 && OnBoard(HorseLeg(p, 2 * k)) && c != Empty
    ensures q in HorseMoves(Put(g, HorseLeg(p, 2 * k), c), p, t) <==>
      q in HorseMoves(g, p, t) && q != HorseTarget(p, 2 * k) && q != HorseTarget(p, 2 * k + 1)
  {
    if q in HorseMoves(Put(g, HorseLeg(p, 2 * k), c), p, t) {
      HorseLegShuts(g, p, t, k, c, q, 8);
    }
    if q in HorseMoves(g, p, t) && q != HorseTarget(p, 2 * k) && q != HorseTarget(p, 2 * k + 1) {
      HorseLegKeeps(g, p, t, k, c, q, 8);
    }
  }

  /** A destination left after the leg is taken was there before, and is
      not one of the two it gates. */
  lemma HorseLegShuts(g: Grid, p: Pos, t: Player, k: nat, c: Cell, q: Pos, n: nat)
    requires k < 4 && n == 8 && OnBoard(HorseLeg(p, 2 * k)) && c != Empty
    requires q in HorseUpTo(Put(g, HorseLeg(p, 2 * k), c), p, t, n)
    ensures q in HorseUpTo(g, p, t, n) && q != HorseTarget(p, 2 * k) && q != HorseTarget(p, 2 * k + 1)
  {
    var g' := Put(g, HorseLeg(p, 2 * k), c);
    HorseUpToMembers(g, p, t, n, q);
    HorseUpToMembers(g', p, t, n, q);
    var i :| 0 <= i < n && q == HorseTarget(p, i) && HorseOpen(g', p, t, i);
    HorseOpenAfterPut(g, p, t, k, c, i);
    HorseTargetsDistinct(p, i, 2 * k);
    HorseTargetsDistinct(p, i, 2 * k + 1);
  }

  /** Every other destination survives the leg being taken. */
  lemma HorseLegKeeps(g: Grid, p: Pos, t: Player, k: nat, c: Cell, q: Pos, n: nat)
    requires k < 4 && n == 8 && OnBoard(HorseLeg(p, 2 * k)) && c != Empty
    requires q in HorseUpTo(g, p, t, n) && q != HorseTarget(p, 2 * k) && q != HorseTarget(p, 2 * k + 1)
    ensures q in HorseUpTo(Put(g, HorseLeg(p, 2 * k), c), p, t, n)
  {
    var g' := Put(g, HorseLeg(p, 2 * k), c);
    HorseUpToMembers(g, p, t, n, q);
    HorseUpToMembers(g', p, t, n, q);
    var i :| 0 <= i < n && q == HorseTarget(p, i) && HorseOpen(g, p, t, i);
    assert i != 2 * k && i != 2 * k + 1;
    HorseOpenAfterPut(g, p, t, k, c, i);
  }

  /** Offsets 2k and 2k + 1 are the ones that share leg k. */
  lemma HalfOf(i: nat)
    requires i < 8
    ensures i == 2 * (i / 2) || i == 2 * (i / 2) + 1
  {
  }

  /** The leg of offsets 2k and 2k + 1 shuts exactly those two offsets. */
  lemma HorseOpenAfterPut(g: Grid, p: Pos, t: Player, k: nat, c: Cell, i: nat)
    requires k < 4 && i < 8 && OnBoard(HorseLeg(p, 2 * k)) && c != Empty
    ensures HorseOpen(Put(g, HorseLeg(p, 2 * k), c), p, t, i) <==> HorseOpen(g, p, t, i) && i != 2 * k && i != 2 * k + 1
  {
    HalfOf(i);
    HorseGeometry(p, i, k);
  }

  /** The eight targets are distinct. */
  lemma HorseTargetsDistinct(p: Pos, i: nat, j: nat)
    requires i < 8 && j < 8 && i != j
    ensures HorseTarget(p, i) != HorseTarget(p, j)
  {
  }

  // ---------------------------------------------------------------- Rays

  /** The state of one ray's inner loop after some steps: the squares emitted
      so far, the pieces passed (the cannon's piece_behind) and whether the
      loop has left by `break`. */
  datatype Scan = Scan(moves: seq<Pos>, behind: nat, stopped: bool)

  lemma RookDirsComplete(d: Dir)
    ensures exists j :: 0 <= j < 4 && ROOK_DIRS[j] == d
  {
    match d
    case RowPlus => assert ROOK_DIRS[0] == d;
    case RowMinus => assert ROOK_DIRS[1] == d;
    case ColPlus => assert ROOK_DIRS[2] == d;
    case ColMinus => assert ROOK_DIRS[3] == d;
  }

  // ---------------------------------------------------------------- Chariot

  /** One ray of Rook.get_admissible_moves after steps 1..n: empty squares up
      to the first piece, which is emitted only when it is an opponent and
      ends the ray. Off-board squares are skipped, not a reason to stop. */
  function RookScan(g: Grid, p: Pos, t: Player, d: Dir, n: nat): (s: Scan)
    requires n <= 9
    ensures forall q :: q in s.moves ==> Reachable(g, q, t)
  {
    if n == 0 then Scan([], 0, false)
    else
      var s := RookScan(g, p, t, d, n - 1);
      var q := Ray(p, d, n);
      if s.stopped || !OnBoard(q) then s
      else if !IsFree(g, q) then Scan(s.moves + (if IsOpponent(g, q, t) then [q] else []), 0, true)
      else Scan(s.moves + [q], 0, false)
  }

  function RookRay(g: Grid, p: Pos, t: Player, d: Dir): seq<Pos> {
    RookScan(g, p, t, d, 9).moves
  }

  /** Once the ray has stopped, later steps change nothing. */
  lemma {:induction false} RookScanStopped(g: Grid, p: Pos, t: Player, d: Dir, n: nat, m: nat)
    requires n <= m <= 9 && RookScan(g, p, t, d, n).stopped
    ensures RookScan(g, p, t, d, m) == RookScan(g, p, t, d, n)
    decreases m - n
  {
    if n < m {
      RookScanStopped(g, p, t, d, n, m - 1);
    }
  }

  /** Rook.get_admissible_moves over its first n rays. */
  function RookUpTo(g: Grid, p: Pos, t: Player, n: nat): (r: seq<Pos>)
    requires n <= 4
    ensures forall q :: q in r ==> Reachable(g, q, t)
  {
    if n == 0 then [] else RookUpTo(g, p, t, n - 1) + RookRay(g, p, t, ROOK_DIRS[n - 1])
  }

  lemma {:induction false} RookUpToMembers(g: Grid, p: Pos, t: Player, n: nat, q: Pos)
    requires n <= 4
    ensures q in RookUpTo(g, p, t, n) <==> exists j :: 0 <= j < n && q in RookRay(g, p, t, ROOK_DIRS[j])
  {
    if n > 0 {
      RookUpToMembers(g, p, t, n - 1, q);
    }
  }

  function RookMoves(g: Grid, p: Pos, t: Player): seq<Pos> {
    RookUpTo(g, p, t, 4)
  }

  /** q is the k-th square of ray d, on the board, with nothing between it
      and p, and free or an opponent: a chariot destination. */
  predicate RookHit(g: Grid, p: Pos, t: Player, d: Dir, k: int, q: Pos) {
    q == Ray(p, d, k) && OnBoard(q) && PiecesBetween(g, p, d, k) == 0 && (IsFree(g, q) || IsOpponent(g, q, t))
  }

  /** The state after n steps: a running ray has passed no piece, a stopped one
      has; the squares emitted are exactly the hits among steps 1..n. */
  lemma {:induction false} RookScanMembers(g: Grid, p: Pos, t: Player, d: Dir, n: nat, q: Pos)
    requires n <= 9
    ensures var s := RookScan(g, p, t, d, n);
      (if s.stopped then PiecesBetween(g, p, d, n + 1) >= 1 else PiecesBetween(g, p, d, n + 1) == 0) &&
      (q in s.moves <==> exists k :: 1 <= k <= n && RookHit(g, p, t, d, k, q))
  {
    if n > 0 {
      RookScanMembers(g, p, t, d, n - 1, q);
      var s := RookScan(g, p, t, d, n - 1);
      RookScanStep(g, p, t, d, n, q, s);
    }
  }

  lemma RookScanStep(g: Grid, p: Pos, t: Player, d: Dir, n: nat, q: Pos, s: Scan)
    requires 1 <= n <= 9 && s == RookScan(g, p, t, d, n - 1)
    requires if s.stopped then PiecesBetween(g, p, d, n) >= 1 else PiecesBetween(g, p, d, n) == 0
    requires q in s.moves <==> exists k :: 1 <= k <= n - 1 && RookHit(g, p, t, d, k, q)
    ensures var s' := RookScan(g, p, t, d, n);
      (if s'.stopped then PiecesBetween(g, p, d, n + 1) >= 1 else PiecesBetween(g, p, d, n + 1) == 0) &&
      (q in s'.moves <==> exists k :: 1 <= k <= n && RookHit(g, p, t, d, k, q))
  {
    var qn := Ray(p, d, n);
    assert (exists k :: 1 <= k <= n && RookHit(g, p, t, d, k, q)) <==>
           (exists k :: 1 <= k <= n - 1 && RookHit(g, p, t, d, k, q)) || RookHit(g, p, t, d, n, q);
    if s.stopped || !OnBoard(qn) {
      assert !RookHit(g, p, t, d, n, q);
    }
  }

  /** A chariot reaches, along each of the four rays, every square up to the
      first piece, and that piece's square only when it is an opponent. */
  lemma RookMovesSpec(g: Grid, p: Pos, t: Player, q: Pos)
    ensures q in RookMoves(g, p, t) <==> exists d: Dir, k :: 1 <= k <= 9 && RookHit(g, p, t, d, k, q)
  {
    RookUpToMembers(g, p, t, 4, q);
    forall d: Dir {
      RookScanMembers(g, p, t, d, 9, q);
    }
    if d: Dir, k :| 1 <= k <= 9 && RookHit(g, p, t, d, k, q) {
      RookDirsComplete(d);
    }
  }

  // ---------------------------------------------------------------- Cannon

  /** One ray of Cannon.get_admissible_moves after steps 1..n: behind counts
      the pieces passed; empty squares are emitted before the first piece, and
      an opponent is emitted, ending the ray, when it is the second piece. */
  function CannonScan(g: Grid, p: Pos, t: Player, d: Dir, n: nat): (s: Scan)
    requires n <= 9
    ensures forall q :: q in s.moves ==> Reachable(g, q, t)
  {
    if n == 0 then Scan([], 0, false)
    else
      var s := CannonScan(g, p, t, d, n - 1);
      var q := Ray(p, d, n);
      if s.stopped || !OnBoard(q) then s
      else if !IsFree(g, q) then
        (if s.behind + 1 == 2 && IsOpponent(g, q, t) then Scan(s.moves + [q], s.behind + 1, true)
         else Scan(s.moves, s.behind + 1, false))
      else if s.behind == 0 then Scan(s.moves + [q], 0, false)
      else s
  }

  function CannonRay(g: Grid, p: Pos, t: Player, d: Dir): seq<Pos> {
    CannonScan(g, p, t, d, 9).moves
  }

  lemma {:induction false} CannonScanStopped(g: Grid, p: Pos, t: Player, d: Dir, n: nat, m: nat)
    requires n <= m <= 9 && CannonScan(g, p, t, d, n).stopped
    ensures CannonScan(g, p, t, d, m) == CannonScan(g, p, t, d, n)
    decreases m - n
  {
    if n < m {
      CannonScanStopped(g, p, t, d, n, m - 1);
    }
  }

  /** Cannon.get_admissible_moves over its first n rays. */
  function CannonUpTo(g: Grid, p: Pos, t: Player, n: nat): (r: seq<Pos>)
    requires n <= 4
    ensures forall q :: q in r ==> Reachable(g, q, t)
  {
    if n == 0 then [] else CannonUpTo(g, p, t, n - 1) + CannonRay(g, p, t, ROOK_DIRS[n - 1])
  }

  lemma {:induction false} CannonUpToMembers(g: Grid, p: Pos, t: Player, n: nat, q: Pos)
    requires n <= 4
    ensures q in CannonUpTo(g, p, t, n) <==> exists j :: 0 <= j < n && q in CannonRay(g, p, t, ROOK_DIRS[j])
  {
    if n > 0 {
      CannonUpToMembers(g, p, t, n - 1, q);
    }
  }

  function CannonMoves(g: Grid, p: Pos, t: Player): seq<Pos> {
    CannonUpTo(g, p, t, 4)
  }

  /** q is the k-th square of ray d and on the board, and either free with
      nothing between, or an opponent with exactly one piece between. */
  predicate CannonHit(g: Grid, p: Pos, t: Player, d: Dir, k: int, q: Pos) {
    q == Ray(p, d, k) && OnBoard(q) &&
    ((IsFree(g, q) && PiecesBetween(g, p, d, k) == 0) ||
     (IsOpponent(g, q, t) && PiecesBetween(g, p, d, k) == 1))
  }

  /** The state after n steps: behind is the number of pieces passed while the
      ray runs, and at least two have been passed once it stopped; the squares
      emitted are exactly the hits among steps 1..n. */
  lemma {:induction false} CannonScanMembers(g: Grid, p: Pos, t: Player, d: Dir, n: nat, q: Pos)
    requires n <= 9
    ensures var s := CannonScan(g, p, t, d, n);
      (if s.stopped then PiecesBetween(g, p, d, n + 1) >= 2 else s.behind == PiecesBetween(g, p, d, n + 1)) &&
      (q in s.moves <==> exists k :: 1 <= k <= n && CannonHit(g, p, t, d, k, q))
  {
    if n > 0 {
      CannonScanMembers(g, p, t, d, n - 1, q);
      var s := CannonScan(g, p, t, d, n - 1);
      CannonScanStep(g, p, t, d, n, q, s);
    }
  }

  lemma CannonScanStep(g: Grid, p: Pos, t: Player, d: Dir, n: nat, q: Pos, s: Scan)
    requires 1 <= n <= 9 && s == CannonScan(g, p, t, d, n - 1)
    requires if s.stopped then PiecesBetween(g, p, d, n) >= 2 else s.behind == PiecesBetween(g, p, d, n)
    requires q in s.moves <==> exists k :: 1 <= k <= n - 1 && CannonHit(g, p, t, d, k, q)
    ensures var s' := CannonScan(g, p, t, d, n);
      (if s'.stopped then PiecesBetween(g, p, d, n + 1) >= 2 else s'.behind == PiecesBetween(g, p, d, n + 1)) &&
      (q in s'.moves <==> exists k :: 1 <= k <= n && CannonHit(g, p, t, d, k, q))
  {
    var qn := Ray(p, d, n);
    assert (exists k :: 1 <= k <= n && CannonHit(g, p, t, d, k, q)) <==>
           (exists k :: 1 <= k <= n - 1 && CannonHit(g, p, t, d, k, q)) || CannonHit(g, p, t, d, n, q);
    if s.stopped || !OnBoard(qn) {
      assert !CannonHit(g, p, t, d, n, q);
    }
  }

  /** A cannon reaches, along each ray, the empty squares before the first
      piece, and captures an opponent only with exactly one piece between. */
  lemma CannonMovesSpec(g: Grid, p: Pos, t: Player, q: Pos)
    ensures q in CannonMoves(g, p, t) <==> exists d: Dir, k :: 1 <= k <= 9 && CannonHit(g, p, t, d, k, q)
  {
    CannonUpToMembers(g, p, t, 4, q);
    forall d: Dir {
      CannonScanMembers(g, p, t, d, 9, q);
    }
    if d: Dir, k :| 1 <= k <= 9 && CannonHit(g, p, t, d, k, q) {
      RookDirsComplete(d);
    }
  }

  /** Every square of r is an empty board square. */
  predicate AllFree(g: Grid, r: seq<Pos>) {
    forall i :: 0 <= i < |r| ==> OnBoard(r[i]) && IsFree(g, r[i])
  }

  /** On one ray a cannon captures at most once: while the ray runs it has
      emitted only empty squares, and once it stops only its last square is
      occupied. */
  lemma {:induction false} CannonRayOneCapture(g: Grid, p: Pos, t: Player, d: Dir, n: nat)
    requires n <= 9
    ensures var s := CannonScan(g, p, t, d, n);
      if s.stopped then |s.moves| > 0 && AllFree(g, s.moves[..|s.moves| - 1]) else AllFree(g, s.moves)
  {
    if n > 0 {
      CannonRayOneCapture(g, p, t, d, n - 1);
      var s := CannonScan(g, p, t, d, n - 1);
      var qn := Ray(p, d, n);
      if !s.stopped && OnBoard(qn) {
        if !IsFree(g, qn) && s.behind + 1 == 2 && IsOpponent(g, qn, t) {
          assert (s.moves + [qn])[..|s.moves|] == s.moves;
        } else if IsFree(g, qn) && s.behind == 0 {
          var r := s.moves + [qn];
          assert forall i :: 0 <= i < |s.moves| ==> r[i] == s.moves[i];
        }
      }
    }
  }

  // ---------------------------------------------------------------- Pawn

  /** Pawn.get_admissible_moves: one step forward (row - sign), and one step
      sideways each way once the river is crossed. */
  function PawnMoves(g: Grid, p: Pos, t: Player): (r: seq<Pos>)
    ensures forall q :: q in r ==> Reachable(g, q, t)
  {
    var fwd := Pos(p.row - Value(t), p.col);
    var right := Pos(p.row, p.col + 1);
    var left := Pos(p.row, p.col - 1);
    (if OnBoard(fwd) && !IsTeammate(g, fwd, t) then [fwd] else [])
      + (if CrossedRiver(p, t) then
           (if OnBoard(right) && !IsTeammate(g, right, t) then [right] else [])
             + (if OnBoard(left) && !IsTeammate(g, left, t) then [left] else [])
         else [])
  }

  /** A pawn steps toward row 0 (RED) or row 9 (BLACK), and sideways only
      once across the river; every such square is emitted. */
  lemma PawnMovesSpec(g: Grid, p: Pos, t: Player, q: Pos)
    ensures q in PawnMoves(g, p, t) <==>
      Reachable(g, q, t) &&
      (q == Pos(p.row - Value(t), p.col) ||
       (CrossedRiver(p, t) && q.row == p.row && (q.col == p.col + 1 || q.col == p.col - 1)))
  {
  }

  // ---------------------------------------------------------------- Dispatch

  /** Piece.create_instance(...).get_admissible_moves() for a piece of kind k. */
  function Destinations(g: Grid, p: Pos, t: Player, k: Kind): (r: seq<Pos>)
    requires OnBoard(p)
    ensures forall q :: q in r ==> Reachable(g, q, t)
  {
    match k
    case Advisor => AdvisorMoves(g, p, t)
    case Cannon => CannonMoves(g, p, t)
    case Elephant => ElephantMoves(g, p, t)
    case General => GeneralMoves(g, p, t)
    case Horse => HorseMoves(g, p, t)
    case Pawn => PawnMoves(g, p, t)
    case Rook => RookMoves(g, p, t)
  }
}
