/** A game state as a value (game_state.py, class GameState): the board, the
    side to move, the board-keyed repetition history, the value pack and the
    two piece counts; and the pure definitions its methods are proved against. */
module Positions {
  import opened Teams
  import opened Outcomes
  import opened Board
  import opened Moves
  import opened Exposure
  import opened Scores

  /** MAX_PERPETUAL: a board reached for the third time is refused. */
  const MAX_PERPETUAL: nat := 3

  /** How often each board has been reached (the source keys it by a hash of
      the board; here by the board itself). */
  type History = map<Grid, nat>

  datatype Position = Position(board: Grid, current: Player, history: History,
                               valuePack: int, redPieces: int, blackPieces: int)

  datatype Move = Move(from: Pos, to: Pos)

  /** One entry of the child list: the new state and the move that made it. */
  datatype Child = Child(state: Position, move: Move)

  function Count(h: History, b: Grid): nat {
    if b in h then h[b] else 0
  }

  /** The board after moving the piece on `from` to `to`: `from` becomes
      empty first, then `to` receives the moved cell. */
  function Moved(g: Grid, from: Pos, to: Pos): (r: Grid)
    requires OnBoard(from) && OnBoard(to)
    ensures At(r, to) == At(g, from)
    ensures from != to ==> At(r, from) == Empty
    ensures forall q :: OnBoard(q) && q != from && q != to ==> At(r, q) == At(g, q)
  {
    Put(Put(g, from, Empty), to, At(g, from))
  }

  /** Writing back the two saved cells undoes a move. */
  lemma MovedUndone(g: Grid, from: Pos, to: Pos)
    requires OnBoard(from) && OnBoard(to)
    ensures Put(Put(Moved(g, from, to), from, At(g, from)), to, At(g, to)) == g
  {
    var r := Put(Put(Moved(g, from, to), from, At(g, from)), to, At(g, to));
    forall i | 0 <= i < 90 ensures r[i] == g[i] {
      assert i == (i / 9) * 9 + i % 9;
      assert At(r, Pos(i / 9, i % 9)) == At(g, Pos(i / 9, i % 9));
    }
  }

  function Captures(s: Position, to: Pos): (r: (int, int))
    requires OnBoard(to)
  {
    if At(s.board, to) == Empty then (s.redPieces, s.blackPieces)
    else if s.current == Red then (s.redPieces, s.blackPieces - 1)
    else (s.redPieces - 1, s.blackPieces)
  }

  /** generate_game_state_with_move: refused (None) when the moved board would
      be seen for the third time or when is_general_exposed returns True for
      the mover; the crash of is_general_exposed passes through; otherwise the
      child with the other side to move, the history bumped for the moved
      board and a captured piece taken off the opponent's count. */
  function TryMove(s: Position, from: Pos, to: Pos): (r: Fallible<Option<Child>>)
    requires OnBoard(from) && OnBoard(to)
  {
    var moved := Moved(s.board, from, to);
    var seen := Count(s.history, moved);
    if seen + 1 == MAX_PERPETUAL then Done(None)
    else match GeneralExposure(moved, s.current)
      case NoGeneral => NoGeneral
      case Done(exposed) =>
        if exposed then Done(None)
        else
          var counts := Captures(s, to);
          Done(Some(Child(Position(moved, Opponent(s.current), s.history[moved := seen + 1],
                                   s.valuePack, counts.0, counts.1), Move(from, to))))
  }

  /** What generate_game_state_with_move promises: refusal exactly on a third
      repetition or an exposed general (as is_general_exposed reports it),
      the crash passed through, and otherwise the child with the moved board,
      the other side to move, the same value pack, the history bumped for
      the moved board and the captured piece taken off the opponent. */
  lemma TryMoveSpec(s: Position, from: Pos, to: Pos)
    requires OnBoard(from) && OnBoard(to)
    ensures var moved := Moved(s.board, from, to);
      var repeated := Count(s.history, moved) + 1 == MAX_PERPETUAL;
      (TryMove(s, from, to) == NoGeneral <==> !repeated && GeneralExposure(moved, s.current) == NoGeneral) &&
      (TryMove(s, from, to) == Done(None) <==> repeated || GeneralExposure(moved, s.current) == Done(true)) &&
      (TryMove(s, from, to).Done? && TryMove(s, from, to).value.Some? ==>
        var c := TryMove(s, from, to).value.value;
        GeneralExposure(moved, s.current) == Done(false) &&
        c.move == Move(from, to) &&
        c.state.board == moved &&
        c.state.current == Opponent(s.current) &&
        c.state.valuePack == s.valuePack &&
        c.state.history == s.history[moved := Count(s.history, moved) + 1] &&
        (c.state.redPieces, c.state.blackPieces) == Captures(s, to))
  {
  }

  /** The repetition history never reaches MAX_PERPETUAL: a history whose
      counts are all below it has a child history whose counts are too. */
  lemma HistoryStaysBelowLimit(s: Position, from: Pos, to: Pos)
    requires OnBoard(from) && OnBoard(to)
    requires forall b :: b in s.history ==> s.history[b] < MAX_PERPETUAL
    requires TryMove(s, from, to).Done? && TryMove(s, from, to).value.Some?
    ensures var h := TryMove(s, from, to).value.value.state.history;
      forall b :: b in h ==> h[b] < MAX_PERPETUAL
  {
  }

  // ------------------------------------------------------------ Move scans

  /** Square n of the row-major scan. */
  function SquareOf(n: nat): (p: Pos)
    requires n < 90
    ensures OnBoard(p)
  {
    Pos(n / 9, n % 9)
  }

  lemma SquareOfIndex(p: Pos)
    requires OnBoard(p)
    ensures 0 <= p.row * 9 + p.col < 90 && SquareOf(p.row * 9 + p.col) == p
  {
  }

  /** A move of the side to move: its piece on p and a destination q from
      get_admissible_moves. */
  predicate OwnMove(s: Position, p: Pos, q: Pos) {
    OnBoard(p) && At(s.board, p).Piece? && At(s.board, p).team == s.current &&
    q in Destinations(s.board, p, s.current, At(s.board, p).kind)
  }

  /** The destinations of the piece on square n if it belongs to the side to
      move, and none otherwise. */
  function OwnDestinations(s: Position, n: nat): (r: seq<Pos>)
    requires n < 90
    ensures forall q :: q in r <==> OwnMove(s, SquareOf(n), q)
  {
    var p := SquareOf(n);
    var c := At(s.board, p);
    if c.Piece? && c.team == s.current then Destinations(s.board, p, s.current, c.kind) else []
  }

  /** Appends the children of the moves in ms, in order; stops at a crash. */
  function ChildrenAlong(s: Position, p: Pos, ms: seq<Pos>): Fallible<seq<Child>>
    requires OnBoard(p) && forall q :: q in ms ==> OnBoard(q)
  {
    if ms == [] then Done([])
    else match ChildrenAlong(s, p, ms[..|ms| - 1])
      case NoGeneral => NoGeneral
      case Done(cs) =>
        match TryMove(s, p, ms[|ms| - 1])
        case NoGeneral => NoGeneral
        case Done(None) => Done(cs)
        case Done(Some(c)) => Done(cs + [c])
  }

  function Then(a: Fallible<seq<Child>>, b: Fallible<seq<Child>>): Fallible<seq<Child>> {
    match a
    case NoGeneral => NoGeneral
    case Done(x) =>
      match b
      case NoGeneral => NoGeneral
      case Done(y) => Done(x + y)
  }

  /** generate_all_game_states over the first n squares of the row-major scan. */
  function SuccessorsUpTo(s: Position, n: nat): Fallible<seq<Child>>
    requires n <= 90
  {
    if n == 0 then Done([])
    else Then(SuccessorsUpTo(s, n - 1), ChildrenAlong(s, SquareOf(n - 1), OwnDestinations(s, n - 1)))
  }

  /** generate_all_game_states: the children of every move of the side to
      move, squares in row-major order and each piece's moves in order. */
  function Successors(s: Position): Fallible<seq<Child>> {
    SuccessorsUpTo(s, 90)
  }

  /** What ChildrenAlong has done: when it completes, no move crashed and c
      is among the children exactly when some accepted move produced it; a
      crash comes from some move. */
  ghost predicate AlongFacts(s: Position, p: Pos, ms: seq<Pos>, c: Child)
    requires OnBoard(p) && forall q :: q in ms ==> OnBoard(q)
  {
    (ChildrenAlong(s, p, ms).Done? ==>
      (forall q :: q in ms ==> TryMove(s, p, q).Done?) &&
      (c in ChildrenAlong(s, p, ms).value <==> exists q :: q in ms && TryMove(s, p, q) == Done(Some(c)))) &&
    (ChildrenAlong(s, p, ms).NoGeneral? ==> exists q :: q in ms && TryMove(s, p, q).NoGeneral?)
  }

  lemma {:induction false} ChildrenAlongMembers(s: Position, p: Pos, ms: seq<Pos>, c: Child)
    requires OnBoard(p) && forall q :: q in ms ==> OnBoard(q)
    ensures AlongFacts(s, p, ms, c)
  {
    if ms != [] {
      var init := ms[..|ms| - 1];
      assert forall q :: q in ms <==> q in init || q == ms[|ms| - 1];
      ChildrenAlongMembers(s, p, init, c);
    }
  }

  /** Every move from the first n squares was tried without a crash. */
  ghost predicate TriedUpTo(s: Position, n: nat)
    requires n <= 90
  {
    forall i, q :: 0 <= i < n && OwnMove(s, SquareOf(i), q) ==> TryMove(s, SquareOf(i), q).Done?
  }

  /** c is the child of an accepted move from the first n squares. */
  ghost predicate ProducedUpTo(s: Position, n: nat, c: Child)
    requires n <= 90
  {
    exists i, q :: 0 <= i < n && OwnMove(s, SquareOf(i), q) && TryMove(s, SquareOf(i), q) == Done(Some(c))
  }

  /** Some move from the first n squares crashes. */
  ghost predicate CrashedUpTo(s: Position, n: nat)
    requires n <= 90
  {
    exists i, q :: 0 <= i < n && OwnMove(s, SquareOf(i), q) && TryMove(s, SquareOf(i), q).NoGeneral?
  }

  /** What the scan of the first n squares has done. */
  ghost predicate UpToFacts(s: Position, n: nat, c: Child)
    requires n <= 90
  {
    (SuccessorsUpTo(s, n).Done? ==>
      TriedUpTo(s, n) && (c in SuccessorsUpTo(s, n).value <==> ProducedUpTo(s, n, c))) &&
    (SuccessorsUpTo(s, n).NoGeneral? ==> CrashedUpTo(s, n))
  }

  lemma {:induction false} SuccessorsUpToMembers(s: Position, n: nat, c: Child)
    requires n <= 90
    ensures UpToFacts(s, n, c)
  {
    if n > 0 {
      SuccessorsUpToMembers(s, n - 1, c);
      ChildrenAlongMembers(s, SquareOf(n - 1), OwnDestinations(s, n - 1), c);
      SuccessorsUpToStep(s, n, c);
    }
  }

  lemma SuccessorsUpToStep(s: Position, n: nat, c: Child)
    requires 0 < n <= 90
    requires UpToFacts(s, n - 1, c)
    requires AlongFacts(s, SquareOf(n - 1), OwnDestinations(s, n - 1), c)
    ensures UpToFacts(s, n, c)
  {
    if SuccessorsUpTo(s, n).NoGeneral? {
      StepCrashed(s, n, c);
    } else {
      StepTried(s, n, c);
      StepProduced(s, n, c);
    }
  }

  lemma StepCrashed(s: Position, n: nat, c: Child)
    requires 0 < n <= 90
    requires UpToFacts(s, n - 1, c)
    requires AlongFacts(s, SquareOf(n - 1), OwnDestinations(s, n - 1), c)
    requires SuccessorsUpTo(s, n).NoGeneral?
    ensures CrashedUpTo(s, n)
  {
    var p := SquareOf(n - 1);
    var ms := OwnDestinations(s, n - 1);
    if SuccessorsUpTo(s, n - 1).NoGeneral? {
      var i, q :| 0 <= i < n - 1 && OwnMove(s, SquareOf(i), q) && TryMove(s, SquareOf(i), q).NoGeneral?;
      assert CrashedUpTo(s, n);
    } else {
      var q :| q in ms && TryMove(s, p, q).NoGeneral?;
      assert OwnMove(s, SquareOf(n - 1), q);
      assert CrashedUpTo(s, n);
    }
  }

  lemma StepTried(s: Position, n: nat, c: Child)
    requires 0 < n <= 90
    requires UpToFacts(s, n - 1, c)
    requires AlongFacts(s, SquareOf(n - 1), OwnDestinations(s, n - 1), c)
    requires SuccessorsUpTo(s, n).Done?
    ensures TriedUpTo(s, n)
  {
    var ms := OwnDestinations(s, n - 1);
    forall i, q | 0 <= i < n && OwnMove(s, SquareOf(i), q) ensures TryMove(s, SquareOf(i), q).Done? {
      if i == n - 1 { assert q in ms; }
    }
  }

  lemma StepProduced(s: Position, n: nat, c: Child)
    requires 0 < n <= 90
    requires UpToFacts(s, n - 1, c)
    requires AlongFacts(s, SquareOf(n - 1), OwnDestinations(s, n - 1), c)
    requires SuccessorsUpTo(s, n).Done?
    ensures c in SuccessorsUpTo(s, n).value <==> ProducedUpTo(s, n, c)
  {
    if c in SuccessorsUpTo(s, n).value {
      StepProducedForward(s, n, c);
    }
    if ProducedUpTo(s, n, c) {
      StepProducedBackward(s, n, c);
    }
  }

  lemma StepProducedForward(s: Position, n: nat, c: Child)
    requires 0 < n <= 90
    requires UpToFacts(s, n - 1, c)
    requires AlongFacts(s, SquareOf(n - 1), OwnDestinations(s, n - 1), c)
    requires SuccessorsUpTo(s, n).Done? && c in SuccessorsUpTo(s, n).value
    ensures ProducedUpTo(s, n, c)
  {
    var p := SquareOf(n - 1);
    var ms := OwnDestinations(s, n - 1);
    if c !in SuccessorsUpTo(s, n - 1).value {
      var q :| q in ms && TryMove(s, p, q) == Done(Some(c));
      assert OwnMove(s, SquareOf(n - 1), q);
    }
  }

  lemma StepProducedBackward(s: Position, n: nat, c: Child)
    requires 0 < n <= 90
    requires UpToFacts(s, n - 1, c)
    requires AlongFacts(s, SquareOf(n - 1), OwnDestinations(s, n - 1), c)
    requires SuccessorsUpTo(s, n).Done? && ProducedUpTo(s, n, c)
    ensures c in SuccessorsUpTo(s, n).value
  {
    var ms := OwnDestinations(s, n - 1);
    var i, q :| 0 <= i < n && OwnMove(s, SquareOf(i), q) && TryMove(s, SquareOf(i), q) == Done(Some(c));
    if i == n - 1 {
      assert q in ms;
    } else {
      assert ProducedUpTo(s, n - 1, c);
    }
  }

  /** When generate_all_game_states completes, every move of the side to move
      was tried without a crash, and the children are exactly the states of
      the accepted moves; when it crashes, some move crashed. */
  lemma SuccessorsSpec(s: Position, c: Child)
    ensures Successors(s).Done? ==>
      (forall p, q :: OwnMove(s, p, q) ==> TryMove(s, p, q).Done?) &&
      (c in Successors(s).value <==> exists p, q :: OwnMove(s, p, q) && TryMove(s, p, q) == Done(Some(c)))
    ensures Successors(s).NoGeneral? ==> exists p, q :: OwnMove(s, p, q) && TryMove(s, p, q).NoGeneral?
  {
    SuccessorsUpToMembers(s, 90, c);
    forall p, q | OwnMove(s, p, q)
      ensures 0 <= p.row * 9 + p.col < 90 && SquareOf(p.row * 9 + p.col) == p
    {
      SquareOfIndex(p);
    }
  }

  /** Every child state comes from a move of the side to move, which it
      records; the other side is to move in it and the value pack is kept. */
  lemma SuccessorState(s: Position, c: Child)
    requires Successors(s).Done? && c in Successors(s).value
    ensures OwnMove(s, c.move.from, c.move.to)
    ensures c.state.board == Moved(s.board, c.move.from, c.move.to)
    ensures c.state.current == Opponent(s.current) && c.state.valuePack == s.valuePack
  {
    SuccessorsSpec(s, c);
    var p, q :| OwnMove(s, p, q) && TryMove(s, p, q) == Done(Some(c));
    TryMoveSpec(s, p, q);
  }

  /** One more square of the scan. */
  lemma SuccessorsUpToNext(s: Position, n: nat, states: seq<Child>, found: Fallible<seq<Child>>)
    requires n < 90 && SuccessorsUpTo(s, n) == Done(states)
    requires found == ChildrenAlong(s, SquareOf(n), OwnDestinations(s, n))
    ensures found.Done? ==> SuccessorsUpTo(s, n + 1) == Done(states + found.value)
    ensures found.NoGeneral? ==> SuccessorsUpTo(s, n + 1).NoGeneral?
  {
  }

  /** Once a prefix of the moves crashes, the whole list does. */
  lemma {:induction false} AlongSettled(s: Position, p: Pos, ms: seq<Pos>, k: nat)
    requires OnBoard(p) && (forall q :: q in ms ==> OnBoard(q)) && k <= |ms|
    requires ChildrenAlong(s, p, ms[..k]).NoGeneral?
    ensures ChildrenAlong(s, p, ms).NoGeneral?
    decreases |ms| - k
  {
    if k < |ms| {
      assert ms[..k + 1][..k] == ms[..k];
      AlongSettled(s, p, ms, k + 1);
    } else {
      assert ms[..k] == ms;
    }
  }

  /** Once the scan of the first n squares crashes, the whole scan does. */
  lemma {:induction false} UpToSettled(s: Position, n: nat)
    requires n <= 90 && SuccessorsUpTo(s, n).NoGeneral?
    ensures Successors(s).NoGeneral?
    decreases 90 - n
  {
    if n < 90 {
      UpToSettled(s, n + 1);
    }
  }

  // ------------------------------------------------------------- get_team_win

  /** Whether one of the moves in ms, tried in order, leaves
      is_general_exposed returning False; stops at the first such move or at
      a crash. */
  function LiveAlong(s: Position, p: Pos, ms: seq<Pos>): Fallible<bool>
    requires OnBoard(p) && forall q :: q in ms ==> OnBoard(q)
  {
    if ms == [] then Done(false)
    else match LiveAlong(s, p, ms[..|ms| - 1])
      case NoGeneral => NoGeneral
      case Done(found) =>
        if found then Done(true)
        else match GeneralExposure(Moved(s.board, p, ms[|ms| - 1]), s.current)
          case NoGeneral => NoGeneral
          case Done(exposed) => Done(!exposed)
  }

  function LiveUpTo(s: Position, n: nat): Fallible<bool>
    requires n <= 90
  {
    if n == 0 then Done(false)
    else match LiveUpTo(s, n - 1)
      case NoGeneral => NoGeneral
      case Done(found) =>
        if found then Done(true) else LiveAlong(s, SquareOf(n - 1), OwnDestinations(s, n - 1))
  }

  /** Once a prefix of the moves has settled the answer, the whole list gives it. */
  lemma {:induction false} LiveAlongSettled(s: Position, p: Pos, ms: seq<Pos>, k: nat)
    requires OnBoard(p) && (forall q :: q in ms ==> OnBoard(q)) && k <= |ms|
    requires LiveAlong(s, p, ms[..k]) != Done(false)
    ensures LiveAlong(s, p, ms) == LiveAlong(s, p, ms[..k])
    decreases |ms| - k
  {
    if k < |ms| {
      assert ms[..k + 1][..k] == ms[..k];
      LiveAlongSettled(s, p, ms, k + 1);
    } else {
      assert ms[..k] == ms;
    }
  }

  lemma {:induction false} LiveUpToSettled(s: Position, n: nat, m: nat)
    requires n <= m <= 90 && LiveUpTo(s, n) != Done(false)
    ensures LiveUpTo(s, m) == LiveUpTo(s, n)
    decreases m - n
  {
    if n < m {
      LiveUpToKeeps(s, n);
      LiveUpToSettled(s, n + 1, m);
    }
  }

  lemma LiveUpToKeeps(s: Position, n: nat)
    requires n < 90 && LiveUpTo(s, n) != Done(false)
    ensures LiveUpTo(s, n + 1) == LiveUpTo(s, n)
  {
  }

  /** One more square of the get_team_win scan. */
  lemma LiveUpToNext(s: Position, n: nat, live: Fallible<bool>)
    requires n < 90 && LiveUpTo(s, n) == Done(false)
    requires live == LiveAlong(s, SquareOf(n), OwnDestinations(s, n))
    ensures LiveUpTo(s, n + 1) == live
    ensures live != Done(false) ==> LiveUpTo(s, 90) == live
  {
    if live != Done(false) {
      LiveUpToSettled(s, n + 1, 90);
    }
  }

  /** get_team_win: Team.NONE as soon as a move of the side to move makes
      is_general_exposed return False, the opponent when none does. The
      repetition limit plays no part. */
  function TeamWin(s: Position): (r: Fallible<Team>)
    ensures r.Done? ==> r.value == NoTeam || r.value == Opponent(s.current)
  {
    match LiveUpTo(s, 90)
    case NoGeneral => NoGeneral
    case Done(found) => Done(if found then NoTeam else Opponent(s.current))
  }

  /** The outcome of the move from p to q for get_team_win. */
  function MoveExposure(s: Position, p: Pos, q: Pos): Fallible<bool>
    requires OnBoard(p) && OnBoard(q)
  {
    GeneralExposure(Moved(s.board, p, q), s.current)
  }

  ghost predicate AllExposedAlong(s: Position, p: Pos, ms: seq<Pos>)
    requires OnBoard(p) && forall q :: q in ms ==> OnBoard(q)
  {
    forall q :: q in ms ==> MoveExposure(s, p, q) == Done(true)
  }

  ghost predicate SomeMoveAlong(s: Position, p: Pos, ms: seq<Pos>, e: Fallible<bool>)
    requires OnBoard(p) && forall q :: q in ms ==> OnBoard(q)
  {
    exists q :: q in ms && MoveExposure(s, p, q) == e
  }

  /** LiveAlong answers false exactly when every move leaves the general
      exposed, true only for a move that does not, and crashes only for a
      move that crashes. */
  ghost predicate LiveAlongFacts(s: Position, p: Pos, ms: seq<Pos>)
    requires OnBoard(p) && forall q :: q in ms ==> OnBoard(q)
  {
    (LiveAlong(s, p, ms) == Done(false) <==> AllExposedAlong(s, p, ms)) &&
    (LiveAlong(s, p, ms) == Done(true) ==> SomeMoveAlong(s, p, ms, Done(false))) &&
    (LiveAlong(s, p, ms) == NoGeneral ==> SomeMoveAlong(s, p, ms, NoGeneral))
  }

  lemma {:induction false} LiveAlongMembers(s: Position, p: Pos, ms: seq<Pos>)
    requires OnBoard(p) && forall q :: q in ms ==> OnBoard(q)
    ensures LiveAlongFacts(s, p, ms)
  {
    if ms != [] {
      LiveAlongMembers(s, p, ms[..|ms| - 1]);
      LiveAlongStep(s, p, ms);
    }
  }

  lemma LiveAlongStep(s: Position, p: Pos, ms: seq<Pos>)
    requires OnBoard(p) && (forall q :: q in ms ==> OnBoard(q)) && ms != []
    requires LiveAlongFacts(s, p, ms[..|ms| - 1])
    ensures LiveAlongFacts(s, p, ms)
  {
    var init := ms[..|ms| - 1];
    var last := ms[|ms| - 1];
    assert forall q :: q in ms <==> q in init || q == last;
    var prev := LiveAlong(s, p, init);
    if prev == Done(false) {
      assert AllExposedAlong(s, p, ms) <==> MoveExposure(s, p, last) == Done(true);
      if MoveExposure(s, p, last) != Done(true) {
        assert SomeMoveAlong(s, p, ms, MoveExposure(s, p, last));
      }
    } else {
      assert SomeMoveAlong(s, p, init, if prev.Done? then Done(false) else NoGeneral);
      assert SomeMoveAlong(s, p, ms, if prev.Done? then Done(false) else NoGeneral);
    }
  }

  /** Every move from the first n squares leaves is_general_exposed True. */
  ghost predicate AllExposedUpTo(s: Position, n: nat)
    requires n <= 90
  {
    forall i, q :: 0 <= i < n && OwnMove(s, SquareOf(i), q) ==> MoveExposure(s, SquareOf(i), q) == Done(true)
  }

  ghost predicate SomeMoveUpTo(s: Position, n: nat, e: Fallible<bool>)
    requires n <= 90
  {
    exists i, q :: 0 <= i < n && OwnMove(s, SquareOf(i), q) && MoveExposure(s, SquareOf(i), q) == e
  }

  ghost predicate LiveUpToFacts(s: Position, n: nat)
    requires n <= 90
  {
    (LiveUpTo(s, n) == Done(false) <==> AllExposedUpTo(s, n)) &&
    (LiveUpTo(s, n) == Done(true) ==> SomeMoveUpTo(s, n, Done(false))) &&
    (LiveUpTo(s, n) == NoGeneral ==> SomeMoveUpTo(s, n, NoGeneral))
  }

  lemma {:induction false} LiveUpToMembers(s: Position, n: nat)
    requires n <= 90
    ensures LiveUpToFacts(s, n)
  {
    if n > 0 {
      LiveUpToMembers(s, n - 1);
      LiveAlongMembers(s, SquareOf(n - 1), OwnDestinations(s, n - 1));
      LiveUpToStep(s, n);
    }
  }

  lemma LiveUpToStep(s: Position, n: nat)
    requires 0 < n <= 90
    requires LiveUpToFacts(s, n - 1)
    requires LiveAlongFacts(s, SquareOf(n - 1), OwnDestinations(s, n - 1))
    ensures LiveUpToFacts(s, n)
  {
    var prev := LiveUpTo(s, n - 1);
    if prev == Done(false) {
      LiveUpToScanned(s, n);
    } else {
      var e := if prev.Done? then Done(false) else NoGeneral;
      var i, q :| 0 <= i < n - 1 && OwnMove(s, SquareOf(i), q) && MoveExposure(s, SquareOf(i), q) == e;
      assert SomeMoveUpTo(s, n, e);
      assert !AllExposedUpTo(s, n);
    }
  }

  /** The step of LiveUpToStep in which square n - 1 is actually scanned. */
  lemma LiveUpToScanned(s: Position, n: nat)
    requires 0 < n <= 90
    requires LiveUpToFacts(s, n - 1) && LiveUpTo(s, n - 1) == Done(false)
    requires LiveAlongFacts(s, SquareOf(n - 1), OwnDestinations(s, n - 1))
    ensures LiveUpToFacts(s, n)
  {
    var p := SquareOf(n - 1);
    var ms := OwnDestinations(s, n - 1);
    var along := LiveAlong(s, p, ms);
    if along != Done(false) {
      var e := if along.Done? then Done(false) else NoGeneral;
      var q :| q in ms && MoveExposure(s, p, q) == e;
      assert OwnMove(s, SquareOf(n - 1), q);
      assert SomeMoveUpTo(s, n, e);
      assert !AllExposedUpTo(s, n);
    } else {
      AllExposedExtend(s, n);
    }
  }

  lemma AllExposedExtend(s: Position, n: nat)
    requires 0 < n <= 90 && AllExposedUpTo(s, n - 1)
    requires AllExposedAlong(s, SquareOf(n - 1), OwnDestinations(s, n - 1))
    ensures AllExposedUpTo(s, n)
  {
    forall i, q | 0 <= i < n && OwnMove(s, SquareOf(i), q)
      ensures MoveExposure(s, SquareOf(i), q) == Done(true)
    {
      if i == n - 1 {
        assert q in OwnDestinations(s, n - 1);
      }
    }
  }

  /** get_team_win declares the opponent the winner exactly when every move
      of the side to move leaves is_general_exposed True; it returns
      Team.NONE only when some move leaves it False, and crashes only when
      some move crashes it. */
  lemma TeamWinSpec(s: Position)
    ensures TeamWin(s) == Done(Opponent(s.current)) <==>
      forall p, q :: OwnMove(s, p, q) ==> MoveExposure(s, p, q) == Done(true)
    ensures TeamWin(s) == Done(NoTeam) ==> exists p, q :: OwnMove(s, p, q) && MoveExposure(s, p, q) == Done(false)
    ensures TeamWin(s) == NoGeneral ==> exists p, q :: OwnMove(s, p, q) && MoveExposure(s, p, q) == NoGeneral
  {
    LiveUpToMembers(s, 90);
    forall p, q | OwnMove(s, p, q)
      ensures 0 <= p.row * 9 + p.col < 90 && SquareOf(p.row * 9 + p.col) == p
    {
      SquareOfIndex(p);
    }
  }

  /** A side that get_team_win declares lost has no child states. */
  lemma LostHasNoChildren(s: Position)
    requires TeamWin(s) == Done(Opponent(s.current))
    ensures Successors(s) == Done([])
  {
    TeamWinSpec(s);
    assert forall p, q :: OwnMove(s, p, q) ==> TryMove(s, p, q) == Done(None);
    SuccessorsSpec(s, Child(s, Move(Pos(0, 0), Pos(0, 0))));
    if Successors(s).value != [] {
      SuccessorsSpec(s, Successors(s).value[0]);
      assert false;
    }
  }

  // ------------------------------------------------------------- Valuation

  /** piece_value under value pack 0; a pawn is worth 20 once across the river. */
  function PieceValue(k: Kind, p: Pos, t: Player): (v: nat)
    ensures k == Pawn ==> (v == 20 <==> CrossedRiver(p, t)) && (v == 10 <==> !CrossedRiver(p, t))
  {
    match k
    case Advisor => 20
    case Cannon => 45
    case Rook => 90
    case Elephant => 25
    case General => 0
    case Horse => 40
    case Pawn => if CrossedRiver(p, t) then 20 else 10
  }

  /** A cell's contribution: its piece value signed by its side. */
  function CellWorth(c: Cell, p: Pos): int {
    match c
    case Empty => 0
    case Piece(t, k) => Value(t) * PieceValue(k, p, t)
  }

  /** A per-square weight summed over the first n squares in row-major order. */
  function SumUpTo(g: Grid, w: (Cell, Pos) -> int, n: nat): int
    requires n <= 90
  {
    if n == 0 then 0 else SumUpTo(g, w, n - 1) + w(At(g, SquareOf(n - 1)), SquareOf(n - 1))
  }

  /** The material balance of _get_game_state_value: the sum of the signed
      piece values over the board. */
  function Material(g: Grid): int {
    SumUpTo(g, CellWorth, 90)
  }

  function IsOf(t: Player): (Cell, Pos) -> int {
    (c: Cell, p: Pos) => if c.Piece? && c.team == t then 1 else 0
  }

  /** The number of pieces of side t on the board. */
  function PieceCount(g: Grid, t: Player): int {
    SumUpTo(g, IsOf(t), 90)
  }

  /** Writing one cell changes a board sum by the new weight of that square
      minus its old weight. */
  lemma {:induction false} SumUpToPut(g: Grid, w: (Cell, Pos) -> int, p: Pos, c: Cell, n: nat)
    requires OnBoard(p) && n <= 90
    ensures SumUpTo(Put(g, p, c), w, n) ==
      SumUpTo(g, w, n) + (if p.row * 9 + p.col < n then w(c, p) - w(At(g, p), p) else 0)
  {
    if n > 0 {
      SumUpToPut(g, w, p, c, n - 1);
      SquareOfIndex(p);
    }
  }

  lemma SumPut(g: Grid, w: (Cell, Pos) -> int, p: Pos, c: Cell)
    requires OnBoard(p)
    ensures SumUpTo(Put(g, p, c), w, 90) == SumUpTo(g, w, 90) + w(c, p) - w(At(g, p), p)
  {
    SumUpToPut(g, w, p, c, 90);
  }

  /** The piece counts a state carries agree with its board. */
  predicate CountsAgree(s: Position) {
    s.redPieces == PieceCount(s.board, Red) && s.blackPieces == PieceCount(s.board, Black)
  }

  /** Capture bookkeeping: a move of the side to move keeps the counts in
      agreement with the board, since the mover keeps all its pieces and the
      opponent loses exactly the one captured. */
  lemma CapturesKeepCounts(s: Position, p: Pos, q: Pos)
    requires OwnMove(s, p, q) && CountsAgree(s)
    requires TryMove(s, p, q).Done? && TryMove(s, p, q).value.Some?
    ensures CountsAgree(TryMove(s, p, q).value.value.state)
  {
    var g := s.board;
    var g1 := Put(g, p, Empty);
    assert q != p;
    assert At(g1, q) == At(g, q);
    forall t: Player
      ensures PieceCount(Moved(g, p, q), t) ==
        PieceCount(g, t) - (if At(g, q).Piece? && At(g, q).team == t then 1 else 0)
    {
      SumPut(g, IsOf(t), p, Empty);
      SumPut(g1, IsOf(t), q, At(g, p));
    }
  }

  /** _get_game_state_value under value pack 0: +inf when get_team_win names
      RED, -inf when it names BLACK, the material balance otherwise. */
  function PositionValue(s: Position): (r: Fallible<Score>)
    requires s.valuePack == 0
    ensures r.Done? && r.value.Fin? ==> r.value.n == Material(s.board)
    ensures r.Done? && !r.value.Fin? ==>
      TeamWin(s) == Done(Opponent(s.current)) && r.value == (if s.current == Red then NegInf else PosInf)
  {
    match TeamWin(s)
    case NoGeneral => NoGeneral
    case Done(w) =>
      if w == Red then Done(PosInf)
      else if w == Black then Done(NegInf)
      else Done(Fin(Material(s.board)))
  }

  /** A state is valued -inf (RED to move) or +inf (BLACK to move) exactly
      when every move of the side to move leaves is_general_exposed True. */
  lemma InfiniteValueSpec(s: Position)
    requires s.valuePack == 0
    ensures PositionValue(s) == Done(if s.current == Red then NegInf else PosInf) <==>
      forall p, q :: OwnMove(s, p, q) ==> MoveExposure(s, p, q) == Done(true)
  {
    TeamWinSpec(s);
  }
}
