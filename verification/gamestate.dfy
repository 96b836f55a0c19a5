/** The game state object of game_state.py: a board the methods write in
    place and put back, the side to move, the repetition history, the value
    pack, the piece counts and the two lazily filled caches. Each method is
    proved to compute what the pure definitions of module Positions say, and
    to leave the board as it found it whenever it returns normally. */
module GameStates {
  import opened Teams
  import opened Outcomes
  import opened Board
  import opened Moves
  import opened Exposure
  import opened Scores
  import opened Positions
  import opened Opening
  import MoveGen
  import ExposureCheck

  class GameState {
    var board: Grid
    const current: Player
    const history: History
    const valuePack: int
    const redPieces: int
    const blackPieces: int
    /** _value: filled by the first successful read of the value. */
    var cachedValue: Option<Score>
    /** _all_child_gamestates: filled by the first successful read of the children. */
    var cachedChildren: Option<seq<Child>>

    /** The state as a value. */
    function Snapshot(): Position
      reads this
    {
      Position(board, current, history, valuePack, redPieces, blackPieces)
    }

    /** A filled cache holds what its getter computes for the current state. */
    ghost predicate Valid()
      reads this
    {
      (cachedValue.Some? ==> valuePack == 0 && PositionValue(Snapshot()) == Done(cachedValue.value)) &&
      (cachedChildren.Some? ==> Successors(Snapshot()) == Done(cachedChildren.value))
    }

    constructor (board: Grid, current: Player, history: History, valuePack: int,
                 redPieces: int, blackPieces: int)
      ensures Snapshot() == Position(board, current, history, valuePack, redPieces, blackPieces)
      ensures cachedValue == None && cachedChildren == None
      ensures Valid()
    {
      this.board := board;
      this.current := current;
      this.history := history;
      this.valuePack := valuePack;
      this.redPieces := redPieces;
      this.blackPieces := blackPieces;
      cachedValue := None;
      cachedChildren := None;
    }

    /** generate_initial_game_state */
    static method Initial(valuePack: int) returns (s: GameState)
      ensures fresh(s) && s.Snapshot() == InitialPosition(valuePack)
      ensures s.cachedValue == None && s.cachedChildren == None && s.Valid()
    {
      s := new GameState(INITIAL_BOARD, Red, map[INITIAL_BOARD := 1], valuePack, 16, 16);
    }

    /** A game state object holding the given state, caches empty. */
    static method Of(p: Position) returns (s: GameState)
      ensures fresh(s) && s.Snapshot() == p
      ensures s.cachedValue == None && s.cachedChildren == None && s.Valid()
    {
      s := new GameState(p.board, p.current, p.history, p.valuePack, p.redPieces, p.blackPieces);
    }

    /** Puts the two saved cells back, undoing the temporary move. */
    method Restore(from: Pos, to: Pos, fromCell: Cell, toCell: Cell, ghost g: Grid)
      requires OnBoard(from) && OnBoard(to)
      requires board == Moved(g, from, to) && fromCell == At(g, from) && toCell == At(g, to)
      modifies this`board
      ensures board == g
    {
      MovedUndone(g, from, to);
      board := Put(board, from, fromCell);
      board := Put(board, to, toCell);
    }

    /** generate_game_state_with_move: moves the piece on the board itself,
        checks the repetition limit and is_general_exposed, copies the moved
        board for the child and puts the board back. A crash of
        is_general_exposed leaves the board moved. */
    method GenerateWithMove(from: Pos, to: Pos) returns (r: Fallible<Option<Child>>)
      requires OnBoard(from) && OnBoard(to)
      modifies this`board
      ensures r == TryMove(old(Snapshot()), from, to)
      ensures r.Done? ==> board == old(board)
      ensures r.NoGeneral? ==> board == Moved(old(board), from, to)
    {
      ghost var g := board;
      var fromCell := At(board, from);
      var toCell := At(board, to);
      board := Put(board, from, Empty);
      board := Put(board, to, fromCell);
      assert board == Moved(g, from, to);
      var opponent := Opponent(current);
      var seen := Count(history, board);
      if seen + 1 == MAX_PERPETUAL {
        Restore(from, to, fromCell, toCell, g);
        return Done(None);
      }
      var exposed := ExposureCheck.IsGeneralExposed(board, current);
      if exposed.NoGeneral? {
        return NoGeneral;
      }
      if exposed.value {
        Restore(from, to, fromCell, toCell, g);
        return Done(None);
      }
      var newBoard := board;
      var newHistory := history[board := seen + 1];
      Restore(from, to, fromCell, toCell, g);
      var red, black := redPieces, blackPieces;
      if At(board, to) != Empty {
        if current == Red {
          black := black - 1;
        } else {
          red := red - 1;
        }
      }
      r := Done(Some(Child(Position(newBoard, opponent, newHistory, valuePack, red, black), Move(from, to))));
    }

    /** The inner loop of generate_all_game_states: the children of the moves
        of the piece on p, in the order of its move list. */
    method ChildrenOfPiece(p: Pos, moves: seq<Pos>) returns (r: Fallible<seq<Child>>)
      requires OnBoard(p) && forall q :: q in moves ==> OnBoard(q)
      modifies this`board
      ensures r == ChildrenAlong(old(Snapshot()), p, moves)
      ensures r.Done? ==> board == old(board)
    {
      ghost var s := Snapshot();
      var children: seq<Child> := [];
      for k := 0 to |moves|
        invariant board == old(board) && Snapshot() == s
        invariant ChildrenAlong(s, p, moves[..k]) == Done(children)
      {
        assert moves[..k + 1][..k] == moves[..k];
        var c := GenerateWithMove(p, moves[k]);
        if c.NoGeneral? {
          AlongSettled(s, p, moves, k + 1);
          return NoGeneral;
        }
        if c.value.Some? {
          children := children + [c.value.value];
        }
      }
      assert moves[..|moves|] == moves;
      r := Done(children);
    }

    /** The body of generate_all_game_states for square n of the scan: the
        children of the piece there if it belongs to the side to move. */
    method SquareChildren(n: nat, ghost s: Position) returns (r: Fallible<seq<Child>>)
      requires n < 90 && Snapshot() == s
      modifies this`board
      ensures r == ChildrenAlong(s, SquareOf(n), OwnDestinations(s, n))
      ensures r.Done? ==> board == old(board)
    {
      var p := Pos(n / 9, n % 9);
      var c := At(board, p);
      var moves: seq<Pos> := [];
      if c.Piece? && c.team == current {
        moves := MoveGen.AdmissibleMoves(board, p);
      }
      r := ChildrenOfPiece(p, moves);
    }

    /** generate_all_game_states: every square in row-major order (n counts
        the squares scanned); for a piece of the side to move, the children
        of its admissible moves. */
    method GenerateAll() returns (r: Fallible<seq<Child>>)
      modifies this`board
      ensures r == Successors(old(Snapshot()))
      ensures r.Done? ==> board == old(board)
    {
      ghost var s := Snapshot();
      var states: seq<Child> := [];
      var n := 0;
      for i := 0 to 10
        invariant board == old(board) && Snapshot() == s
        invariant n == i * 9 && SuccessorsUpTo(s, n) == Done(states)
      {
        for j := 0 to 9
          invariant board == old(board) && Snapshot() == s
          invariant n == i * 9 + j && SuccessorsUpTo(s, n) == Done(states)
        {
          var found := SquareChildren(n, s);
          SuccessorsUpToNext(s, n, states, found);
          if found.NoGeneral? {
            UpToSettled(s, n + 1);
            return NoGeneral;
          }
          states := states + found.value;
          n := n + 1;
        }
      }
      r := Done(states);
    }

    /** The inner loop of get_team_win: whether some move of the piece on p
        leaves is_general_exposed returning False. */
    method AnyLiveMove(p: Pos, moves: seq<Pos>) returns (r: Fallible<bool>)
      requires OnBoard(p) && forall q :: q in moves ==> OnBoard(q)
      modifies this`board
      ensures r == LiveAlong(old(Snapshot()), p, moves)
      ensures r.Done? ==> board == old(board)
    {
      ghost var s := Snapshot();
      for k := 0 to |moves|
        invariant board == old(board) && Snapshot() == s
        invariant LiveAlong(s, p, moves[..k]) == Done(false)
      {
        assert moves[..k + 1][..k] == moves[..k];
        var q := moves[k];
        ghost var g := board;
        var fromCell := At(board, p);
        var toCell := At(board, q);
        board := Put(board, p, Empty);
        board := Put(board, q, fromCell);
        assert board == Moved(g, p, q);
        var exposed := ExposureCheck.IsGeneralExposed(board, current);
        if exposed.NoGeneral? {
          LiveAlongSettled(s, p, moves, k + 1);
          return NoGeneral;
        }
        Restore(p, q, fromCell, toCell, g);
        if !exposed.value {
          LiveAlongSettled(s, p, moves, k + 1);
          return Done(true);
        }
      }
      assert moves[..|moves|] == moves;
      r := Done(false);
    }

    /** The body of get_team_win for square n of the scan. */
    method SquareLive(n: nat, ghost s: Position) returns (r: Fallible<bool>)
      requires n < 90 && Snapshot() == s
      modifies this`board
      ensures r == LiveAlong(s, SquareOf(n), OwnDestinations(s, n))
      ensures r.Done? ==> board == old(board)
    {
      var p := Pos(n / 9, n % 9);
      var c := At(board, p);
      var moves: seq<Pos> := [];
      if c.Piece? && c.team == current {
        moves := MoveGen.AdmissibleMoves(board, p);
      }
      r := AnyLiveMove(p, moves);
    }

    /** get_team_win: Team.NONE as soon as a move of the side to move leaves
        is_general_exposed False, otherwise the opponent (n counts the
        squares scanned). */
    method GetTeamWin() returns (r: Fallible<Team>)
      modifies this`board
      ensures r == TeamWin(old(Snapshot()))
      ensures r.Done? ==> board == old(board)
    {
      ghost var s := Snapshot();
      var n := 0;
      for i := 0 to 10
        invariant board == old(board) && Snapshot() == s
        invariant n == i * 9 && LiveUpTo(s, n) == Done(false)
      {
        for j := 0 to 9
          invariant board == old(board) && Snapshot() == s
          invariant n == i * 9 + j && LiveUpTo(s, n) == Done(false)
        {
          var live := SquareLive(n, s);
          LiveUpToNext(s, n, live);
          if live != Done(false) {
            return if live.Done? then Done(NoTeam) else NoGeneral;
          }
          n := n + 1;
        }
      }
      r := Done(Opponent(current));
    }

    /** The material loop of _get_game_state_value: piece_value times the
        side's sign, summed over the board. */
    method MaterialBalance() returns (total: int)
      ensures total == Material(board)
    {
      total := 0;
      var n := 0;
      for i := 0 to 10
        invariant n == i * 9 && total == SumUpTo(board, CellWorth, n)
      {
        for j := 0 to 9
          invariant n == i * 9 + j && total == SumUpTo(board, CellWorth, n)
        {
          var p := Pos(i, j);
          SquareOfIndex(p);
          var c := At(board, p);
          if c != Empty {
            total := total + Teams.Value(c.team) * PieceValue(c.kind, p, c.team);
          }
          n := n + 1;
        }
      }
    }

    /** _get_game_state_value under value pack 0: get_team_win is asked
        twice, for RED and then for BLACK, before the material is summed. */
    method GameStateValue() returns (r: Fallible<Score>)
      requires valuePack == 0
      modifies this`board
      ensures r == PositionValue(old(Snapshot()))
      ensures r.Done? ==> board == old(board)
    {
      var w := GetTeamWin();
      if w.NoGeneral? {
        return NoGeneral;
      }
      if w.value == Red {
        return Done(PosInf);
      }
      w := GetTeamWin();
      if w.NoGeneral? {
        return NoGeneral;
      }
      if w.value == Black {
        return Done(NegInf);
      }
      var total := MaterialBalance();
      r := Done(Fin(total));
    }

    /** The value property: computed once, then read from the cache. */
    method Value() returns (r: Fallible<Score>)
      requires valuePack == 0 && Valid()
      modifies this`board, this`cachedValue
      ensures r == PositionValue(old(Snapshot()))
      ensures r.Done? ==> board == old(board) && cachedValue == Some(r.value) && Valid()
      ensures old(cachedValue).Some? ==> r == Done(old(cachedValue).value) && cachedValue == old(cachedValue)
    {
      if cachedValue.Some? {
        return Done(cachedValue.value);
      }
      r := GameStateValue();
      if r.Done? {
        cachedValue := Some(r.value);
      }
    }

    /** The all_child_gamestates property: computed once, then read from the cache. */
    method AllChildGamestates() returns (r: Fallible<seq<Child>>)
      requires Valid()
      modifies this`board, this`cachedChildren
      ensures r == Successors(old(Snapshot()))
      ensures r.Done? ==> board == old(board) && cachedChildren == Some(r.value) && Valid()
      ensures old(cachedChildren).Some? ==> r == Done(old(cachedChildren).value) && cachedChildren == old(cachedChildren)
    {
      if cachedChildren.Some? {
        return Done(cachedChildren.value);
      }
      r := GenerateAll();
      if r.Done? {
        cachedChildren := Some(r.value);
      }
    }
  }
}
