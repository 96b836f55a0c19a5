/** is_general_exposed against the move rules: its probes find an attack
    exactly when an opponent chariot, horse, cannon or pawn could move onto
    the general's square by get_admissible_moves, or the generals face each
    other along the file. */
module Attacks {
  import opened Teams
  import opened Outcomes
  import opened Board
  import opened Moves
  import opened Exposure

  lemma ExposeDirsComplete(d: Dir)
    ensures exists j :: 0 <= j < 4 && EXPOSE_DIRS[j] == d
  {
    match d
    case ColPlus => assert EXPOSE_DIRS[0] == d;
    case ColMinus => assert EXPOSE_DIRS[1] == d;
    case RowMinus => assert EXPOSE_DIRS[2] == d;
    case RowPlus => assert EXPOSE_DIRS[3] == d;
  }

  /** An opponent piece of the given kind on q could move onto gp. */
  predicate MovesOnto(g: Grid, q: Pos, gp: Pos, o: Player, k: Kind) {
    OnBoard(q) && At(g, q) == Piece(o, k) && gp in Destinations(g, q, o, k)
  }

  /** The chariot probes find an opponent 'R' exactly when one could move
      onto the general's square. */
  lemma ChariotProbeSpec(g: Grid, gp: Pos, t: Player)
    requires OnBoard(gp) && At(g, gp).Piece? && At(g, gp).team == t
    ensures RookSeen(g, gp, t) <==> exists q :: MovesOnto(g, q, gp, Opponent(t), Rook)
  {
    var o := Opponent(t);
    var s := PieceOf(o, Rook);
    if RookSeen(g, gp, t) {
      var j :| 0 <= j < 4 && Seek(g, gp, EXPOSE_DIRS[j], 0, s, 9).phase == Found;
      var d := EXPOSE_DIRS[j];
      SeekSpec(g, gp, d, 0, s);
      var k :| 1 <= k <= 9 && SeekHit(g, gp, d, 0, s, k);
      var q := Ray(gp, d, k);
      PiecesBetweenSymmetric(g, gp, d, k);
      assert RookHit(g, q, o, Reverse(d), k, gp);
      RookMovesSpec(g, q, o, gp);
      assert MovesOnto(g, q, gp, o, Rook);
    }
    if q :| MovesOnto(g, q, gp, o, Rook) {
      RookMovesSpec(g, q, o, gp);
      var d: Dir, k :| 1 <= k <= 9 && RookHit(g, q, o, d, k, gp);
      PiecesBetweenSymmetric(g, q, d, k);
      assert SeekHit(g, gp, Reverse(d), 0, s, k);
      SeekSpec(g, gp, Reverse(d), 0, s);
      ExposeDirsComplete(Reverse(d));
    }
  }

  /** The cannon probes find an opponent 'C' exactly when one could capture
      onto the general's square over a single screen. */
  lemma CannonProbeSpec(g: Grid, gp: Pos, t: Player)
    requires OnBoard(gp) && At(g, gp).Piece? && At(g, gp).team == t
    ensures CannonSeen(g, gp, t) <==> exists q :: MovesOnto(g, q, gp, Opponent(t), Cannon)
  {
    var o := Opponent(t);
    var s := PieceOf(o, Cannon);
    if CannonSeen(g, gp, t) {
      var j :| 0 <= j < 4 && Seek(g, gp, EXPOSE_DIRS[j], 1, s, 9).phase == Found;
      var d := EXPOSE_DIRS[j];
      SeekSpec(g, gp, d, 1, s);
      var k :| 1 <= k <= 9 && SeekHit(g, gp, d, 1, s, k);
      var q := Ray(gp, d, k);
      PiecesBetweenSymmetric(g, gp, d, k);
      assert CannonHit(g, q, o, Reverse(d), k, gp);
      CannonMovesSpec(g, q, o, gp);
      assert MovesOnto(g, q, gp, o, Cannon);
    }
    if q :| MovesOnto(g, q, gp, o, Cannon) {
      CannonMovesSpec(g, q, o, gp);
      var d: Dir, k :| 1 <= k <= 9 && CannonHit(g, q, o, d, k, gp);
      PiecesBetweenSymmetric(g, q, d, k);
      assert SeekHit(g, gp, Reverse(d), 1, s, k);
      SeekSpec(g, gp, Reverse(d), 1, s);
      ExposeDirsComplete(Reverse(d));
    }
  }

  /** Probe i of the horse check is the horse's own offset (i + 5) % 8 seen
      from the other end, and its middle square is that offset's leg. */
  lemma HorseProbeGeometry(gp: Pos, i: nat)
    requires i < 8
    ensures var q := HorseSquare(gp, i);
      HorseTarget(q, (i + 5) % 8) == gp && HorseLeg(q, (i + 5) % 8) == HorseMid(gp, i)
  {
  }

  lemma HorseOffsetGeometry(q: Pos, cnt: nat)
    requires cnt < 8
    ensures var gp := HorseTarget(q, cnt);
      (cnt + 3) % 8 < 8 && HorseSquare(gp, (cnt + 3) % 8) == q &&
      HorseMid(gp, (cnt + 3) % 8) == HorseLeg(q, cnt)
  {
  }

  /** The horse probes find an opponent 'H' exactly when one could jump onto
      the general's square. */
  lemma HorseProbeSpec(g: Grid, gp: Pos, t: Player)
    requires OnBoard(gp) && At(g, gp).Piece? && At(g, gp).team == t
    ensures HorseSeen(g, gp, t) <==> exists q :: MovesOnto(g, q, gp, Opponent(t), Horse)
  {
    var o := Opponent(t);
    if HorseSeen(g, gp, t) {
      var i :| 0 <= i < 8 && HorseAttackAt(g, gp, t, i);
      var q := HorseSquare(gp, i);
      HorseProbeGeometry(gp, i);
      HorseMidBetween(gp, i);
      assert HorseOpen(g, q, o, (i + 5) % 8);
      HorseUpToMembers(g, q, o, 8, gp);
      assert MovesOnto(g, q, gp, o, Horse);
    }
    if q :| MovesOnto(g, q, gp, o, Horse) {
      HorseUpToMembers(g, q, o, 8, gp);
      var cnt :| 0 <= cnt < 8 && HorseOpen(g, q, o, cnt) && gp == HorseTarget(q, cnt);
      HorseOffsetGeometry(q, cnt);
      assert HorseAttackAt(g, gp, t, (cnt + 3) % 8);
    }
  }

  /** The pawn probes find an opponent 'P' exactly when one could step onto
      the general's square: from beside it, or from one row toward its own side. */
  lemma PawnProbeSpec(g: Grid, gp: Pos, t: Player)
    requires InOwnPalace(gp, t) && At(g, gp).Piece? && At(g, gp).team == t
    ensures PawnSeen(g, gp, t) <==> exists q :: MovesOnto(g, q, gp, Opponent(t), Pawn)
  {
    if PawnSeen(g, gp, t) {
      PawnProbeSound(g, gp, t);
    }
    if q :| MovesOnto(g, q, gp, Opponent(t), Pawn) {
      PawnProbeComplete(g, gp, t, q);
    }
  }

  lemma PawnProbeSound(g: Grid, gp: Pos, t: Player)
    requires InOwnPalace(gp, t) && At(g, gp).Piece? && At(g, gp).team == t
    requires PawnSeen(g, gp, t)
    ensures exists q :: MovesOnto(g, q, gp, Opponent(t), Pawn)
  {
    var o := Opponent(t);
    var pawn := Piece(o, Pawn);
    var q := if At(g, Pos(gp.row, gp.col - 1)) == pawn then Pos(gp.row, gp.col - 1)
             else if At(g, Pos(gp.row, gp.col + 1)) == pawn then Pos(gp.row, gp.col + 1)
             else Pos(gp.row + Value(o), gp.col);
    PawnMovesSpec(g, q, o, gp);
    assert MovesOnto(g, q, gp, o, Pawn);
  }

  lemma PawnProbeComplete(g: Grid, gp: Pos, t: Player, q: Pos)
    requires InOwnPalace(gp, t) && At(g, gp).Piece? && At(g, gp).team == t
    requires MovesOnto(g, q, gp, Opponent(t), Pawn)
    ensures PawnSeen(g, gp, t)
  {
    PawnMovesSpec(g, q, Opponent(t), gp);
    assert q == Pos(gp.row, gp.col - 1) || q == Pos(gp.row, gp.col + 1) || q == Pos(gp.row + Value(Opponent(t)), gp.col);
  }

  /** The k-th square toward the opponent holds a general with nothing between. */
  predicate FacingAt(g: Grid, gp: Pos, t: Player, k: int) {
    var q := Ray(gp, TowardOpponent(t), k);
    OnBoard(q) && PiecesBetween(g, gp, TowardOpponent(t), k) == 0 && At(g, q).Piece? && At(g, q).kind == General
  }

  /** The two generals face each other on the general's file. */
  predicate Facing(g: Grid, gp: Pos, t: Player) {
    exists k :: 1 <= k <= 9 && FacingAt(g, gp, t, k)
  }

  /** The facing-general probe: walking from the general toward the opponent,
      the first piece met is a general. */
  lemma FacingProbeSpec(g: Grid, gp: Pos, t: Player)
    requires OnBoard(gp)
    ensures GeneralSeen(g, gp, t) <==> Facing(g, gp, t)
  {
    SeekSpec(g, gp, TowardOpponent(t), 0, AnyGeneral);
    forall k ensures SeekHit(g, gp, TowardOpponent(t), 0, AnyGeneral, k) <==> FacingAt(g, gp, t, k) {
    }
  }

  /** An opponent chariot, horse, cannon or pawn could move onto gp. */
  ghost predicate UnderAttack(g: Grid, gp: Pos, o: Player) {
    exists q :: MovesOnto(g, q, gp, o, Rook) || MovesOnto(g, q, gp, o, Horse) ||
                MovesOnto(g, q, gp, o, Cannon) || MovesOnto(g, q, gp, o, Pawn)
  }

  /** is_general_exposed crashes exactly when the mover's palace holds no
      general; otherwise, when the general it finds belongs to the mover, it
      returns True exactly when no opponent chariot, horse, cannon or pawn can
      move onto that square and the generals do not face each other. */
  lemma ExposureSpec(g: Grid, t: Player)
    ensures GeneralExposure(g, t) == NoGeneral <==> !exists q :: InOwnPalace(q, t) && HoldsGeneral(g, q)
    ensures GeneralExposure(g, t).Done? ==>
      var gp := FindGeneral(g, t, 9).value;
      At(g, gp).team == t ==>
        (GeneralExposure(g, t).value <==> !UnderAttack(g, gp, Opponent(t)) && !Facing(g, gp, t))
  {
    FindGeneralSpec(g, t);
    if FindGeneral(g, t, 9).Some? {
      var gp := FindGeneral(g, t, 9).value;
      if At(g, gp).team == t {
        ChariotProbeSpec(g, gp, t);
        CannonProbeSpec(g, gp, t);
        HorseProbeSpec(g, gp, t);
        PawnProbeSpec(g, gp, t);
        FacingProbeSpec(g, gp, t);
      }
    }
  }
}
