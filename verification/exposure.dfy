/** General.is_general_exposed (piece.py): find the mover's general in its
    palace, then look for an opponent chariot, horse, cannon or pawn that
    attacks it, or a general facing it along the file. The source returns
    True when NO attack is found and False as soon as one is. */
module Exposure {
  import opened Teams
  import opened Outcomes
  import opened Board

  // ------------------------------------------------------- Finding the general

  /** The lowest palace row of a side: RED 7, BLACK 0. */
  function PalaceRowLow(t: Player): int {
    if t == Red then 7 else 0
  }

  /** The i-th square of the search: columns 3..5 outer, palace rows inner. */
  function ScanSquare(t: Player, i: nat): Pos
    requires i < 9
  {
    Pos(PalaceRowLow(t) + i % 3, 3 + i / 3)
  }

  predicate HoldsGeneral(g: Grid, q: Pos)
    requires OnBoard(q)
  {
    At(g, q).Piece? && At(g, q).kind == General
  }

  /** The general found after the first n squares of the search: the last
      square holding a 'G' of either side, since each hit overwrites. */
  function FindGeneral(g: Grid, t: Player, n: nat): (r: Option<Pos>)
    requires n <= 9
    ensures r.Some? ==> InOwnPalace(r.value, t) && HoldsGeneral(g, r.value)
    ensures r.None? <==> forall i :: 0 <= i < n ==> !HoldsGeneral(g, ScanSquare(t, i))
  {
    if n == 0 then None
    else if HoldsGeneral(g, ScanSquare(t, n - 1)) then Some(ScanSquare(t, n - 1))
    else FindGeneral(g, t, n - 1)
  }

  /** The general found is the LAST 'G' of the search: when square i holds
      one and no square scanned after it does, square i is found. */
  lemma {:induction false} FindGeneralLast(g: Grid, t: Player, n: nat, i: nat)
    requires i < n <= 9 && HoldsGeneral(g, ScanSquare(t, i))
    requires forall j :: i < j < n ==> !HoldsGeneral(g, ScanSquare(t, j))
    ensures FindGeneral(g, t, n) == Some(ScanSquare(t, i))
  {
    if i < n - 1 {
      FindGeneralLast(g, t, n - 1, i);
    }
  }

  /** Square (x, y) of the nested loops is square (y - 3) * 3 + (x - low) of the search. */
  lemma ScanSquareAt(t: Player, y: int, x: int)
    requires 3 <= y <= 5 && PalaceRowLow(t) <= x < PalaceRowLow(t) + 3
    ensures 0 <= (y - 3) * 3 + (x - PalaceRowLow(t)) < 9
    ensures ScanSquare(t, (y - 3) * 3 + (x - PalaceRowLow(t))) == Pos(x, y)
  {
  }

  /** The search covers the whole palace of the side to move. */
  lemma ScanCoversPalace(t: Player, q: Pos)
    requires InOwnPalace(q, t)
    ensures 0 <= (q.col - 3) * 3 + (q.row - PalaceRowLow(t)) < 9
    ensures ScanSquare(t, (q.col - 3) * 3 + (q.row - PalaceRowLow(t))) == q
  {
  }

  /** A general is found exactly when the mover's palace holds a 'G'. */
  lemma FindGeneralSpec(g: Grid, t: Player)
    ensures FindGeneral(g, t, 9).Some? <==> exists q :: InOwnPalace(q, t) && HoldsGeneral(g, q)
  {
    if q :| InOwnPalace(q, t) && HoldsGeneral(g, q) {
      ScanCoversPalace(t, q);
    }
  }

  // ------------------------------------------------------------- Ray probes

  /** What a ray probe looks for: one opponent piece, or a general of either side. */
  datatype Sought = PieceOf(side: Player, kind: Kind) | AnyGeneral

  predicate Matches(c: Cell, s: Sought) {
    c.Piece? &&
    match s
    case PieceOf(side, kind) => c.team == side && c.kind == kind
    case AnyGeneral => c.kind == General
  }

  datatype Phase = Looking | Missed | Found

  /** A ray probe after steps 1..n: it stops at the board edge, finds the
      sought piece when exactly `screens` pieces stand before it, and gives
      up once it has passed more pieces than that. */
  datatype Probe = Probe(phase: Phase, behind: nat)

  function Seek(g: Grid, p: Pos, d: Dir, screens: nat, s: Sought, n: nat): Probe
    requires n <= 9
  {
    if n == 0 then Probe(Looking, 0)
    else
      var pr := Seek(g, p, d, screens, s, n - 1);
      var q := Ray(p, d, n);
      if pr.phase != Looking then pr
      else if !OnBoard(q) then Probe(Missed, pr.behind)
      else if At(g, q) == Empty then pr
      else if pr.behind == screens && Matches(At(g, q), s) then Probe(Found, pr.behind)
      else if pr.behind + 1 > screens then Probe(Missed, pr.behind + 1)
      else Probe(Looking, pr.behind + 1)
  }

  /** Once a probe has finished, later steps change nothing. */
  lemma {:induction false} SeekSettled(g: Grid, p: Pos, d: Dir, screens: nat, s: Sought, n: nat, m: nat)
    requires n <= m <= 9 && Seek(g, p, d, screens, s, n).phase != Looking
    ensures Seek(g, p, d, screens, s, m) == Seek(g, p, d, screens, s, n)
    decreases m - n
  {
    if n < m {
      SeekSettled(g, p, d, screens, s, n, m - 1);
    }
  }

  /** The k-th square of the ray is on the board, holds the sought piece and
      has exactly `screens` pieces between it and p. */
  predicate SeekHit(g: Grid, p: Pos, d: Dir, screens: nat, s: Sought, k: int) {
    var q := Ray(p, d, k);
    OnBoard(q) && PiecesBetween(g, p, d, k) == screens && Matches(At(g, q), s)
  }

  /** What the probe knows after n steps: it has found the piece exactly
      when some square so far holds it; while looking it has counted the
      pieces passed; once it has missed, the ray has left the board or passed
      too many pieces. */
  predicate SeekInv(g: Grid, p: Pos, d: Dir, screens: nat, s: Sought, n: nat)
    requires n <= 9
  {
    var pr := Seek(g, p, d, screens, s, n);
    (pr.phase == Found <==> exists k :: 1 <= k <= n && SeekHit(g, p, d, screens, s, k)) &&
    (pr.phase == Looking ==> pr.behind == PiecesBetween(g, p, d, n + 1) && pr.behind <= screens) &&
    (pr.phase == Missed ==> !OnBoard(Ray(p, d, n)) || PiecesBetween(g, p, d, n + 1) > screens)
  }

  lemma {:induction false} SeekMembers(g: Grid, p: Pos, d: Dir, screens: nat, s: Sought, n: nat)
    requires OnBoard(p) && n <= 9
    ensures SeekInv(g, p, d, screens, s, n)
  {
    if n > 0 {
      SeekMembers(g, p, d, screens, s, n - 1);
      SeekStep(g, p, d, screens, s, n);
    }
  }

  lemma SeekStep(g: Grid, p: Pos, d: Dir, screens: nat, s: Sought, n: nat)
    requires OnBoard(p) && 1 <= n <= 9 && SeekInv(g, p, d, screens, s, n - 1)
    ensures SeekInv(g, p, d, screens, s, n)
  {
    var pr := Seek(g, p, d, screens, s, n - 1);
    var q := Ray(p, d, n);
    assert (exists k :: 1 <= k <= n && SeekHit(g, p, d, screens, s, k)) <==>
           (exists k :: 1 <= k <= n - 1 && SeekHit(g, p, d, screens, s, k)) || SeekHit(g, p, d, screens, s, n);
    if pr.phase == Missed {
      if OnBoard(q) && !OnBoard(Ray(p, d, n - 1)) { RayConvex(p, d, n - 1, n); }
      assert !SeekHit(g, p, d, screens, s, n);
    } else if pr.phase == Looking && !OnBoard(q) {
      assert !SeekHit(g, p, d, screens, s, n);
    }
  }

  /** The probe finds its piece exactly when some square of the ray holds it
      with `screens` pieces before it. */
  lemma SeekSpec(g: Grid, p: Pos, d: Dir, screens: nat, s: Sought)
    requires OnBoard(p)
    ensures Seek(g, p, d, screens, s, 9).phase == Found <==> exists k :: 1 <= k <= 9 && SeekHit(g, p, d, screens, s, k)
  {
    SeekMembers(g, p, d, screens, s, 9);
  }

  // ---------------------------------------------------------- The five checks

  /** The ray order of the chariot and cannon checks: columns up, columns
      down, rows down, rows up. */
  const EXPOSE_DIRS: seq<Dir> := [ColPlus, ColMinus, RowMinus, RowPlus]
  const HORSE_CHECK_DR: seq<int> := [2, 1, -1, -2, -2, -1, 1, 2]
  const HORSE_CHECK_DC: seq<int> := [-1, -2, -2, -1, 1, 2, 2, 1]
  const HORSE_MID_DR: seq<int> := [1, -1, -1, 1]
  const HORSE_MID_DC: seq<int> := [-1, -1, 1, 1]

  predicate RookSeen(g: Grid, gp: Pos, t: Player) {
    exists j :: 0 <= j < 4 && Seek(g, gp, EXPOSE_DIRS[j], 0, PieceOf(Opponent(t), Rook), 9).phase == Found
  }

  predicate CannonSeen(g: Grid, gp: Pos, t: Player) {
    exists j :: 0 <= j < 4 && Seek(g, gp, EXPOSE_DIRS[j], 1, PieceOf(Opponent(t), Cannon), 9).phase == Found
  }

  function HorseSquare(gp: Pos, i: nat): Pos
    requires i < 8
  {
    Pos(gp.row + HORSE_CHECK_DR[i], gp.col + HORSE_CHECK_DC[i])
  }

  /** The square next to the general that a horse on HorseSquare(gp, i) must
      step over. */
  function HorseMid(gp: Pos, i: nat): Pos
    requires i < 8
  {
    Pos(gp.row + HORSE_MID_DR[i / 2], gp.col + HORSE_MID_DC[i / 2])
  }

  lemma HorseMidBetween(gp: Pos, i: nat)
    requires i < 8 && OnBoard(gp) && OnBoard(HorseSquare(gp, i))
    ensures OnBoard(HorseMid(gp, i))
  {
  }

  predicate HorseAttackAt(g: Grid, gp: Pos, t: Player, i: nat)
    requires i < 8 && OnBoard(gp)
  {
    var c := HorseSquare(gp, i);
    OnBoard(c) && At(g, c) == Piece(Opponent(t), Horse) &&
    (HorseMidBetween(gp, i); At(g, HorseMid(gp, i)) == Empty)
  }

  predicate HorseSeen(g: Grid, gp: Pos, t: Player)
    requires OnBoard(gp)
  {
    exists i :: 0 <= i < 8 && HorseAttackAt(g, gp, t, i)
  }

  /** The three squares an opponent pawn attacks the general from: beside it,
      and one row toward the opponent. */
  predicate PawnSeen(g: Grid, gp: Pos, t: Player)
    requires InOwnPalace(gp, t)
  {
    var pawn := Piece(Opponent(t), Pawn);
    At(g, Pos(gp.row, gp.col + 1)) == pawn ||
    At(g, Pos(gp.row, gp.col - 1)) == pawn ||
    At(g, Pos(gp.row + Value(Opponent(t)), gp.col)) == pawn
  }

  /** The file direction toward the opponent: rows grow by opponent.value. */
  function TowardOpponent(t: Player): (d: Dir)
    ensures forall k :: Ray(Pos(0, 0), d, k) == Pos(k * Value(Opponent(t)), 0)
  {
    if Opponent(t) == Red then RowPlus else RowMinus
  }

  predicate GeneralSeen(g: Grid, gp: Pos, t: Player) {
    Seek(g, gp, TowardOpponent(t), 0, AnyGeneral, 9).phase == Found
  }

  /** Some check of is_general_exposed returns False for the general on gp. */
  predicate Attacked(g: Grid, gp: Pos, t: Player)
    requires InOwnPalace(gp, t)
  {
    RookSeen(g, gp, t) || HorseSeen(g, gp, t) || CannonSeen(g, gp, t) ||
    PawnSeen(g, gp, t) || GeneralSeen(g, gp, t)
  }

  /** is_general_exposed(board, t, opponent(t)): the crash when the palace of
      t holds no general, otherwise True exactly when nothing attacks it. */
  function GeneralExposure(g: Grid, t: Player): Fallible<bool> {
    match FindGeneral(g, t, 9)
    case None => NoGeneral
    case Some(gp) => Done(!Attacked(g, gp, t))
  }
}

module ExposureCheck {
  import opened Teams
  import opened Outcomes
  import opened Board
  import opened Exposure

  /** General.is_general_exposed with opponent = the other side: the palace
      search, then the chariot, horse, cannon, pawn and facing-general checks,
      returning False at the first attack met and True when there is none. */
  method IsGeneralExposed(g: Grid, current: Player) returns (r: Fallible<bool>)
    ensures r == GeneralExposure(g, current)
  {
    var cur := LocateGeneral(g, current);
    if cur.None? {
      return NoGeneral;
    }
    var gp := cur.value;
    var seen := ChariotCheck(g, gp, current);
    if seen { return Done(false); }
    seen := HorseCheck(g, gp, current);
    if seen { return Done(false); }
    seen := CannonCheck(g, gp, current);
    if seen { return Done(false); }
    seen := PawnCheck(g, gp, current);
    if seen { return Done(false); }
    seen := FacingGeneralCheck(g, gp, current);
    if seen { return Done(false); }
    return Done(true);
  }

  /** The nested palace search: columns 3..5, palace rows of the mover. */
  method LocateGeneral(g: Grid, current: Player) returns (cur: Option<Pos>)
    ensures cur == FindGeneral(g, current, 9)
  {
    var lo := PalaceRowLow(current);
    cur := None;
    for y := 3 to 6
      invariant cur == FindGeneral(g, current, (y - 3) * 3)
    {
      for x := lo to lo + 3
        invariant cur == FindGeneral(g, current, (y - 3) * 3 + (x - lo))
      {
        ScanSquareAt(current, y, x);
        var c := At(g, Pos(x, y));
        if c.Piece? && c.kind == General {
          cur := Some(Pos(x, y));
        }
      }
    }
  }

  /** The chariot check: along each ray the first piece met is an opponent 'R'. */
  method ChariotCheck(g: Grid, gp: Pos, current: Player) returns (seen: bool)
    ensures seen == RookSeen(g, gp, current)
  {
    var opponent := Opponent(current);
    for direction := 0 to 4
      invariant forall j :: 0 <= j < direction ==>
        Seek(g, gp, EXPOSE_DIRS[j], 0, PieceOf(opponent, Rook), 9).phase != Found
    {
      var d := EXPOSE_DIRS[direction];
      for steps := 1 to 10
        invariant Seek(g, gp, d, 0, PieceOf(opponent, Rook), steps - 1) == Probe(Looking, 0)
      {
        var pos := Ray(gp, d, steps);
        if !OnBoard(pos) {
          SeekSettled(g, gp, d, 0, PieceOf(opponent, Rook), steps, 9);
          break;
        }
        var c := At(g, pos);
        if c != Empty {
          SeekSettled(g, gp, d, 0, PieceOf(opponent, Rook), steps, 9);
          if c.team == opponent && c.kind == Rook {
            return true;
          }
          break;
        }
      }
    }
    return false;
  }

  /** The horse check: an opponent 'H' a horse's jump away whose leg square
      next to the general is empty. */
  method HorseCheck(g: Grid, gp: Pos, current: Player) returns (seen: bool)
    requires OnBoard(gp)
    ensures seen == HorseSeen(g, gp, current)
  {
    for index := 0 to 8
      invariant forall i :: 0 <= i < index ==> !HorseAttackAt(g, gp, current, i)
    {
      var check := HorseSquare(gp, index);
      if !OnBoard(check) {
        continue;
      }
      if At(g, check) == Piece(Opponent(current), Horse) {
        HorseMidBetween(gp, index);
        if At(g, HorseMid(gp, index)) == Empty {
          assert HorseAttackAt(g, gp, current, index);
          return true;
        }
      }
    }
    return false;
  }

  /** The cannon check: along each ray, an opponent 'C' met with exactly one
      piece passed; the ray is abandoned after the second piece. */
  method CannonCheck(g: Grid, gp: Pos, current: Player) returns (seen: bool)
    ensures seen == CannonSeen(g, gp, current)
  {
    var opponent := Opponent(current);
    for direction := 0 to 4
      invariant forall j :: 0 <= j < direction ==>
        Seek(g, gp, EXPOSE_DIRS[j], 1, PieceOf(opponent, Cannon), 9).phase != Found
    {
      var d := EXPOSE_DIRS[direction];
      var behind := 0;
      for steps := 1 to 10
        invariant Seek(g, gp, d, 1, PieceOf(opponent, Cannon), steps - 1) == Probe(Looking, behind)
      {
        var pos := Ray(gp, d, steps);
        if !OnBoard(pos) {
          SeekSettled(g, gp, d, 1, PieceOf(opponent, Cannon), steps, 9);
          break;
        }
        var c := At(g, pos);
        if behind == 1 && c == Piece(opponent, Cannon) {
          SeekSettled(g, gp, d, 1, PieceOf(opponent, Cannon), steps, 9);
          return true;
        }
        if c != Empty {
          behind := behind + 1;
        }
        if behind > 1 {
          SeekSettled(g, gp, d, 1, PieceOf(opponent, Cannon), steps, 9);
          break;
        }
      }
    }
    return false;
  }

  /** The pawn check: beside the general, then one row toward the opponent. */
  method PawnCheck(g: Grid, gp: Pos, current: Player) returns (seen: bool)
    requires InOwnPalace(gp, current)
    ensures seen == PawnSeen(g, gp, current)
  {
    var pawn := Piece(Opponent(current), Pawn);
    if At(g, Pos(gp.row, gp.col + 1)) == pawn || At(g, Pos(gp.row, gp.col - 1)) == pawn {
      return true;
    }
    return At(g, Pos(gp.row + Value(Opponent(current)), gp.col)) == pawn;
  }

  /** The facing-general check: walking toward the opponent, skipping empty
      squares, the first piece met is a 'G' of either side. */
  method FacingGeneralCheck(g: Grid, gp: Pos, current: Player) returns (seen: bool)
    ensures seen == GeneralSeen(g, gp, current)
  {
    var file := TowardOpponent(current);
    for steps := 1 to 10
      invariant Seek(g, gp, file, 0, AnyGeneral, steps - 1) == Probe(Looking, 0)
    {
      var pos := Ray(gp, file, steps);
      if !OnBoard(pos) {
        SeekSettled(g, gp, file, 0, AnyGeneral, steps, 9);
        break;
      }
      var c := At(g, pos);
      if c == Empty {
        continue;
      }
      SeekSettled(g, gp, file, 0, AnyGeneral, steps, 9);
      if c.kind == General {
        return true;
      }
      break;
    }
    return false;
  }
}
