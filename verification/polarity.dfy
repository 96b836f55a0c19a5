/** The polarity of the exposure test in generate_game_state_with_move
    (game_state.py): is_general_exposed returns True when the mover's
    general is safe, and the move is refused exactly then. A two-general
    board shows a safe move refused and a move into a facing check kept;
    TryMoveIntended is the move test with the refusal the other way round,
    and keeps only moves that leave the general safe. get_team_win reads
    the test the same way; TeamWinIntended declares a loss only when every
    move leaves the general attacked. */
module Polarity {
  import opened Teams
  import opened Outcomes
  import opened Board
  import opened Moves
  import opened Exposure
  import opened Attacks
  import opened Positions

  /** A board holding the RED general on `red`, the BLACK general on
      `black`, and nothing else. */
  function TwoGenerals(red: Pos, black: Pos): (g: Grid)
    requires OnBoard(red) && OnBoard(black) && red != black
    ensures forall q :: OnBoard(q) ==>
      At(g, q) == (if q == red then Piece(Red, General) else if q == black then Piece(Black, General) else Empty)
  {
    var g: Grid := seq(90, i => if i == red.row * 9 + red.col then Piece(Red, General)
                                 else if i == black.row * 9 + black.col then Piece(Black, General)
                                 else Empty);
    IndexInjective(red);
    IndexInjective(black);
    g
  }

  /** Distinct board squares have distinct cells in the grid. */
  lemma IndexInjective(p: Pos)
    requires OnBoard(p)
    ensures forall q :: OnBoard(q) && q.row * 9 + q.col == p.row * 9 + p.col ==> q == p
  {
    forall q | OnBoard(q) && q.row * 9 + q.col == p.row * 9 + p.col
      ensures q == p
    {
      SquareOfIndex(p);
      SquareOfIndex(q);
    }
  }

  /** Moving the RED general of a two-general board gives the two-general
      board with the RED general on its new square. */
  lemma MovedGeneral(red: Pos, black: Pos, to: Pos)
    requires OnBoard(red) && OnBoard(black) && OnBoard(to) && red != black && to != black
    ensures Moved(TwoGenerals(red, black), red, to) == TwoGenerals(to, black)
  {
    var r, g := Moved(TwoGenerals(red, black), red, to), TwoGenerals(to, black);
    forall i | 0 <= i < 90 ensures r[i] == g[i] {
      assert i == (i / 9) * 9 + i % 9;
      assert At(r, Pos(i / 9, i % 9)) == At(g, Pos(i / 9, i % 9));
    }
  }

  /** On a two-general board with the RED general in its palace and the
      BLACK one outside it, the exposure test for RED finds the RED general,
      and reports it safe exactly when the generals do not face each other:
      no chariot, horse, cannon or pawn is there to attack it. */
  lemma TwoGeneralsExposure(red: Pos, black: Pos)
    requires OnBoard(red) && OnBoard(black) && red != black
    requires InOwnPalace(red, Red) && !InOwnPalace(black, Red)
    ensures FindGeneral(TwoGenerals(red, black), Red, 9) == Some(red)
    ensures !UnderAttack(TwoGenerals(red, black), red, Black)
    ensures GeneralExposure(TwoGenerals(red, black), Red) == Done(!Facing(TwoGenerals(red, black), red, Red))
  {
    var g := TwoGenerals(red, black);
    assert HoldsGeneral(g, red);
    FindGeneralSpec(g, Red);
    ExposureSpec(g, Red);
  }

  /** RED to move, the RED general on (9, 4), the BLACK general on (0, 3),
      no history. */
  function Example(): Position {
    Position(TwoGenerals(Pos(9, 4), Pos(0, 3)), Red, map[], 0, 1, 1)
  }

  /** After the step to (8, 4) the RED general is alone on its file and
      nothing attacks it: the exposure test reports it safe. */
  lemma SafeBoard()
    ensures var safe := Moved(Example().board, Pos(9, 4), Pos(8, 4));
      !UnderAttack(safe, Pos(8, 4), Black) && !Facing(safe, Pos(8, 4), Red) &&
      GeneralExposure(safe, Red) == Done(true)
  {
    MovedGeneral(Pos(9, 4), Pos(0, 3), Pos(8, 4));
    TwoGeneralsExposure(Pos(8, 4), Pos(0, 3));
  }

  /** After the step to (9, 3) the two generals face each other along
      file 3 with nothing between them: the exposure test reports an attack. */
  lemma FacingBoard()
    ensures var facing := Moved(Example().board, Pos(9, 4), Pos(9, 3));
      Facing(facing, Pos(9, 3), Red) && GeneralExposure(facing, Red) == Done(false)
  {
    MovedGeneral(Pos(9, 4), Pos(0, 3), Pos(9, 3));
    var g := TwoGenerals(Pos(9, 3), Pos(0, 3));
    PiecesBetweenClear(g, Pos(9, 3), RowMinus, 9);
    assert FacingAt(g, Pos(9, 3), Red, 9);
    TwoGeneralsExposure(Pos(9, 3), Pos(0, 3));
  }

  /** On a two-general board with RED to move, a one-square orthogonal
      step of the RED general inside the palace onto an empty square is a
      move of the side to move. */
  lemma GeneralStepAdmissible(s: Position, red: Pos, black: Pos, to: Pos)
    requires OnBoard(red) && OnBoard(black) && red != black
    requires s.board == TwoGenerals(red, black) && s.current == Red
    requires InPalace(to) && to != black
    requires (to.row == red.row && (to.col - red.col == 1 || to.col - red.col == -1)) ||
             (to.col == red.col && (to.row - red.row == 1 || to.row - red.row == -1))
    ensures OwnMove(s, red, to)
  {
    GeneralMovesSpec(s.board, red, Red, to);
  }

  /** The general's step to (8, 4) leaves it on a file with no general, so
      nothing attacks it; is_general_exposed reports True and the move is
      refused. */
  lemma SafeStepRefused()
    ensures OwnMove(Example(), Pos(9, 4), Pos(8, 4))
    ensures var safe := Moved(Example().board, Pos(9, 4), Pos(8, 4));
      !UnderAttack(safe, Pos(8, 4), Black) && !Facing(safe, Pos(8, 4), Red)
    ensures TryMove(Example(), Pos(9, 4), Pos(8, 4)) == Done(None)
  {
    GeneralStepAdmissible(Example(), Pos(9, 4), Pos(0, 3), Pos(8, 4));
    SafeBoard();
  }

  /** The general's step to (9, 3) puts it on the BLACK general's file with
      nothing between them; is_general_exposed reports False and the move
      is kept. */
  lemma FacingStepKept()
    ensures OwnMove(Example(), Pos(9, 4), Pos(9, 3))
    ensures Facing(Moved(Example().board, Pos(9, 4), Pos(9, 3)), Pos(9, 3), Red)
    ensures TryMove(Example(), Pos(9, 4), Pos(9, 3)).Done?
    ensures TryMove(Example(), Pos(9, 4), Pos(9, 3)).value.Some?
  {
    GeneralStepAdmissible(Example(), Pos(9, 4), Pos(0, 3), Pos(9, 3));
    FacingBoard();
  }

  /** generate_game_state_with_move with the exposure test read the way its
      comment means it: the move is refused when the general is NOT safe. */
  function TryMoveIntended(s: Position, from: Pos, to: Pos): (r: Fallible<Option<Child>>)
    requires OnBoard(from) && OnBoard(to)
  {
    var moved := Moved(s.board, from, to);
    var seen := Count(s.history, moved);
    if seen + 1 == MAX_PERPETUAL then Done(None)
    else match GeneralExposure(moved, s.current)
      case NoGeneral => NoGeneral
      case Done(safe) =>
        if !safe then Done(None)
        else
          var counts := Captures(s, to);
          Done(Some(Child(Position(moved, Opponent(s.current), s.history[moved := seen + 1],
                                   s.valuePack, counts.0, counts.1), Move(from, to))))
  }

  /** The intended move test keeps a move exactly when the board is not
      repeated a third time and the general the test finds (the mover's)
      is neither attacked nor facing the other general; it crashes exactly
      where the source's does, and a kept move is the same child the
      source would build. */
  lemma TryMoveIntendedSpec(s: Position, from: Pos, to: Pos)
    requires OnBoard(from) && OnBoard(to)
    ensures var moved := Moved(s.board, from, to);
      var repeated := Count(s.history, moved) + 1 == MAX_PERPETUAL;
      (TryMoveIntended(s, from, to) == NoGeneral <==> TryMove(s, from, to) == NoGeneral) &&
      (TryMoveIntended(s, from, to).Done? && TryMoveIntended(s, from, to).value.Some? ==>
        TryMoveIntended(s, from, to).value.value.state.board == moved &&
        TryMoveIntended(s, from, to).value.value.move == Move(from, to)) &&
      (GeneralExposure(moved, s.current).Done? && At(moved, FindGeneral(moved, s.current, 9).value).team == s.current ==>
        (TryMoveIntended(s, from, to).Done? && TryMoveIntended(s, from, to).value.Some? <==>
          !repeated &&
          !UnderAttack(moved, FindGeneral(moved, s.current, 9).value, Opponent(s.current)) &&
          !Facing(moved, FindGeneral(moved, s.current, 9).value, s.current)))
  {
    ExposureSpec(Moved(s.board, from, to), s.current);
  }

  /** On the example the intended test keeps the safe step the source
      refuses. */
  lemma IntendedKeepsSafe()
    ensures TryMoveIntended(Example(), Pos(9, 4), Pos(8, 4)).Done?
    ensures TryMoveIntended(Example(), Pos(9, 4), Pos(8, 4)).value.Some?
  {
    SafeBoard();
  }

  /** On the example the intended test refuses the step into the facing
      check that the source keeps. */
  lemma IntendedRefusesFacing()
    ensures TryMoveIntended(Example(), Pos(9, 4), Pos(9, 3)) == Done(None)
  {
    FacingBoard();
  }

  // ------------------------------------------ get_team_win, intended reading

  /** The scan of get_team_win over the moves ms from p with the exposure
      test read the way the source's comment means it: a move keeps the game
      going when is_general_exposed returns True for it, that is when it
      leaves the general safe. */
  function LiveAlongIntended(s: Position, p: Pos, ms: seq<Pos>): Fallible<bool>
    requires OnBoard(p) && forall q :: q in ms ==> OnBoard(q)
  {
    if ms == [] then Done(false)
    else match LiveAlongIntended(s, p, ms[..|ms| - 1])
      case NoGeneral => NoGeneral
      case Done(found) =>
        if found then Done(true)
        else match GeneralExposure(Moved(s.board, p, ms[|ms| - 1]), s.current)
          case NoGeneral => NoGeneral
          case Done(safe) => Done(safe)
  }

  function LiveUpToIntended(s: Position, n: nat): Fallible<bool>
    requires n <= 90
  {
    if n == 0 then Done(false)
    else match LiveUpToIntended(s, n - 1)
      case NoGeneral => NoGeneral
      case Done(found) =>
        if found then Done(true) else LiveAlongIntended(s, SquareOf(n - 1), OwnDestinations(s, n - 1))
  }

  /** get_team_win with the intended reading: the opponent wins when no
      move of the side to move leaves its general safe. */
  function TeamWinIntended(s: Position): (r: Fallible<Team>)
    ensures r.Done? ==> r.value == NoTeam || r.value == Opponent(s.current)
  {
    match LiveUpToIntended(s, 90)
    case NoGeneral => NoGeneral
    case Done(found) => Done(if found then NoTeam else Opponent(s.current))
  }

  ghost predicate AllAttackedAlong(s: Position, p: Pos, ms: seq<Pos>)
    requires OnBoard(p) && forall q :: q in ms ==> OnBoard(q)
  {
    forall q :: q in ms ==> MoveExposure(s, p, q) == Done(false)
  }

  ghost predicate IntendedAlongFacts(s: Position, p: Pos, ms: seq<Pos>)
    requires OnBoard(p) && forall q :: q in ms ==> OnBoard(q)
  {
    (LiveAlongIntended(s, p, ms) == Done(false) <==> AllAttackedAlong(s, p, ms)) &&
    (LiveAlongIntended(s, p, ms) == Done(true) ==> SomeMoveAlong(s, p, ms, Done(true))) &&
    (LiveAlongIntended(s, p, ms) == NoGeneral ==> SomeMoveAlong(s, p, ms, NoGeneral))
  }

  lemma {:induction false} IntendedAlongMembers(s: Position, p: Pos, ms: seq<Pos>)
    requires OnBoard(p) && forall q :: q in ms ==> OnBoard(q)
    ensures IntendedAlongFacts(s, p, ms)
  {
    if ms != [] {
      IntendedAlongMembers(s, p, ms[..|ms| - 1]);
      IntendedAlongStep(s, p, ms);
    }
  }

  lemma IntendedAlongStep(s: Position, p: Pos, ms: seq<Pos>)
    requires OnBoard(p) && (forall q :: q in ms ==> OnBoard(q)) && ms != []
    requires IntendedAlongFacts(s, p, ms[..|ms| - 1])
    ensures IntendedAlongFacts(s, p, ms)
  {
    var init := ms[..|ms| - 1];
    var last := ms[|ms| - 1];
    assert forall q :: q in ms <==> q in init || q == last;
    var prev := LiveAlongIntended(s, p, init);
    if prev == Done(false) {
      assert AllAttackedAlong(s, p, ms) <==> MoveExposure(s, p, last) == Done(false);
      if MoveExposure(s, p, last) != Done(false) {
        assert SomeMoveAlong(s, p, ms, MoveExposure(s, p, last));
      }
    } else {
      assert SomeMoveAlong(s, p, init, if prev.Done? then Done(true) else NoGeneral);
      assert SomeMoveAlong(s, p, ms, if prev.Done? then Done(true) else NoGeneral);
    }
  }

  /** Every move from the first n squares leaves the general attacked. */
  ghost predicate AllAttackedUpTo(s: Position, n: nat)
    requires n <= 90
  {
    forall i, q :: 0 <= i < n && OwnMove(s, SquareOf(i), q) ==> MoveExposure(s, SquareOf(i), q) == Done(false)
  }

  ghost predicate IntendedUpToFacts(s: Position, n: nat)
    requires n <= 90
  {
    (LiveUpToIntended(s, n) == Done(false) <==> AllAttackedUpTo(s, n)) &&
    (LiveUpToIntended(s, n) == Done(true) ==> SomeMoveUpTo(s, n, Done(true))) &&
    (LiveUpToIntended(s, n) == NoGeneral ==> SomeMoveUpTo(s, n, NoGeneral))
  }

  lemma {:induction false} IntendedUpToMembers(s: Position, n: nat)
    requires n <= 90
    ensures IntendedUpToFacts(s, n)
  {
    if n > 0 {
      IntendedUpToMembers(s, n - 1);
      IntendedAlongMembers(s, SquareOf(n - 1), OwnDestinations(s, n - 1));
      IntendedUpToStep(s, n);
    }
  }

  lemma IntendedUpToStep(s: Position, n: nat)
    requires 0 < n <= 90
    requires IntendedUpToFacts(s, n - 1)
    requires IntendedAlongFacts(s, SquareOf(n - 1), OwnDestinations(s, n - 1))
    ensures IntendedUpToFacts(s, n)
  {
    var prev := LiveUpToIntended(s, n - 1);
    if prev == Done(false) {
      IntendedUpToScanned(s, n);
    } else {
      var e := if prev.Done? then Done(true) else NoGeneral;
      var i, q :| 0 <= i < n - 1 && OwnMove(s, SquareOf(i), q) && MoveExposure(s, SquareOf(i), q) == e;
      assert SomeMoveUpTo(s, n, e);
      assert !AllAttackedUpTo(s, n);
    }
  }

  lemma IntendedUpToScanned(s: Position, n: nat)
    requires 0 < n <= 90
    requires IntendedUpToFacts(s, n - 1) && LiveUpToIntended(s, n - 1) == Done(false)
    requires IntendedAlongFacts(s, SquareOf(n - 1), OwnDestinations(s, n - 1))
    ensures IntendedUpToFacts(s, n)
  {
    var p := SquareOf(n - 1);
    var ms := OwnDestinations(s, n - 1);
    var along := LiveAlongIntended(s, p, ms);
    if along != Done(false) {
      var e := if along.Done? then Done(true) else NoGeneral;
      var q :| q in ms && MoveExposure(s, p, q) == e;
      assert OwnMove(s, SquareOf(n - 1), q);
      assert SomeMoveUpTo(s, n, e);
      assert !AllAttackedUpTo(s, n);
    } else {
      forall i, q | 0 <= i < n && OwnMove(s, SquareOf(i), q)
        ensures MoveExposure(s, SquareOf(i), q) == Done(false)
      {
        if i == n - 1 {
          assert q in OwnDestinations(s, n - 1);
        }
      }
    }
  }

  /** With the intended reading the opponent wins exactly when every move
      of the side to move leaves is_general_exposed False, that is leaves
      its general attacked; the game goes on only when some move leaves it
      safe, and the test crashes only when some move crashes it. */
  lemma TeamWinIntendedSpec(s: Position)
    ensures TeamWinIntended(s) == Done(Opponent(s.current)) <==>
      forall p, q :: OwnMove(s, p, q) ==> MoveExposure(s, p, q) == Done(false)
    ensures TeamWinIntended(s) == Done(NoTeam) ==> exists p, q :: OwnMove(s, p, q) && MoveExposure(s, p, q) == Done(true)
    ensures TeamWinIntended(s) == NoGeneral ==> exists p, q :: OwnMove(s, p, q) && MoveExposure(s, p, q) == NoGeneral
  {
    IntendedUpToMembers(s, 90);
    forall p, q | OwnMove(s, p, q)
      ensures 0 <= p.row * 9 + p.col < 90 && SquareOf(p.row * 9 + p.col) == p
    {
      SquareOfIndex(p);
    }
  }
}
