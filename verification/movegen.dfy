/** The loops of each piece's get_admissible_moves (piece.py), each proved to
    emit exactly the list its rule in module Moves describes, in the same
    order. */
module MoveGen {
  import opened Teams
  import opened Board
  import opened Moves

  method AdvisorAdmissible(g: Grid, p: Pos, t: Player) returns (moves: seq<Pos>)
    ensures moves == AdvisorMoves(g, p, t)
  {
    moves := [];
    for cnt := 0 to 4
      invariant moves == AdvisorUpTo(g, p, t, cnt)
    {
      var pos := AdvisorTarget(p, cnt);
      if OnBoard(pos) && !IsTeammate(g, pos, t) && InPalace(pos) {
        moves := moves + [pos];
      }
    }
  }

  /** The inner loop of Cannon.get_admissible_moves: steps 1..9 along d. */
  method CannonRayScan(g: Grid, p: Pos, t: Player, d: Dir) returns (ray: seq<Pos>)
    ensures ray == CannonRay(g, p, t, d)
  {
    ray := [];
    var behind := 0;
    for steps := 1 to 10
      invariant CannonScan(g, p, t, d, steps - 1) == Scan(ray, behind, false)
    {
      var pos := Ray(p, d, steps);
      if OnBoard(pos) {
        if !IsFree(g, pos) {
          behind := behind + 1;
          if behind == 2 && IsOpponent(g, pos, t) {
            ray := ray + [pos];
            CannonScanStopped(g, p, t, d, steps, 9);
            break;
          }
        } else if behind == 0 {
          ray := ray + [pos];
        }
      }
    }
  }

  method CannonAdmissible(g: Grid, p: Pos, t: Player) returns (moves: seq<Pos>)
    ensures moves == CannonMoves(g, p, t)
  {
    moves := [];
    for direction := 0 to 4
      invariant moves == CannonUpTo(g, p, t, direction)
    {
      var ray := CannonRayScan(g, p, t, ROOK_DIRS[direction]);
      moves := moves + ray;
    }
  }

  /** The inner loop of Rook.get_admissible_moves: steps 1..9 along d. */
  method RookRayScan(g: Grid, p: Pos, t: Player, d: Dir) returns (ray: seq<Pos>)
    ensures ray == RookRay(g, p, t, d)
  {
    ray := [];
    for steps := 1 to 10
      invariant RookScan(g, p, t, d, steps - 1) == Scan(ray, 0, false)
    {
      var pos := Ray(p, d, steps);
      if OnBoard(pos) {
        if !IsFree(g, pos) {
          if IsOpponent(g, pos, t) {
            ray := ray + [pos];
          }
          RookScanStopped(g, p, t, d, steps, 9);
          break;
        }
        ray := ray + [pos];
      }
    }
  }

  method RookAdmissible(g: Grid, p: Pos, t: Player) returns (moves: seq<Pos>)
    ensures moves == RookMoves(g, p, t)
  {
    moves := [];
    for direction := 0 to 4
      invariant moves == RookUpTo(g, p, t, direction)
    {
      var ray := RookRayScan(g, p, t, ROOK_DIRS[direction]);
      moves := moves + ray;
    }
  }

  method ElephantAdmissible(g: Grid, p: Pos, t: Player) returns (moves: seq<Pos>)
    requires OnBoard(p)
    ensures moves == ElephantMoves(g, p, t)
  {
    moves := [];
    for direction := 0 to 4
      invariant moves == ElephantUpTo(g, p, t, direction)
    {
      var newPos := ElephantTarget(p, direction);
      var blockPos := ElephantEye(p, direction);
      if OnBoard(newPos) && IsFree(g, blockPos) && !ElephantCrossesRiver(newPos, t) && !IsTeammate(g, newPos, t) {
        moves := moves + [newPos];
      }
    }
  }

  method GeneralAdmissible(g: Grid, p: Pos, t: Player) returns (moves: seq<Pos>)
    ensures moves == GeneralMoves(g, p, t)
  {
    moves := [];
    for direction := 0 to 4
      invariant moves == GeneralUpTo(g, p, t, direction)
    {
      var pos := GeneralTarget(p, direction);
      if InPalace(pos) {
        if IsFree(g, pos) {
          moves := moves + [pos];
        } else if IsOpponent(g, pos, t) {
          moves := moves + [pos];
        }
      }
    }
  }

  method HorseAdmissible(g: Grid, p: Pos, t: Player) returns (moves: seq<Pos>)
    ensures moves == HorseMoves(g, p, t)
  {
    moves := [];
    for cnt := 0 to 8
      invariant moves == HorseUpTo(g, p, t, cnt)
    {
      var leg := HorseLeg(p, cnt);
      if OnBoard(leg) && IsFree(g, leg) {
        var pos := HorseTarget(p, cnt);
        if OnBoard(pos) && !IsTeammate(g, pos, t) {
          moves := moves + [pos];
        }
      }
    }
  }

  /** Piece.create_instance(position, notation, board, ...).get_admissible_moves()
      for the piece standing on p. */
  method AdmissibleMoves(g: Grid, p: Pos) returns (moves: seq<Pos>)
    requires OnBoard(p) && At(g, p).Piece?
    ensures moves == Destinations(g, p, At(g, p).team, At(g, p).kind)
  {
    var t := At(g, p).team;
    match At(g, p).kind
    case Advisor => moves := AdvisorAdmissible(g, p, t);
    case Cannon => moves := CannonAdmissible(g, p, t);
    case Elephant => moves := ElephantAdmissible(g, p, t);
    case General => moves := GeneralAdmissible(g, p, t);
    case Horse => moves := HorseAdmissible(g, p, t);
    case Pawn => moves := PawnMoves(g, p, t);
    case Rook => moves := RookAdmissible(g, p, t);
  }
}
