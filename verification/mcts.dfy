/** The statistics of NodeMCTS and the values a rollout ends with (node.py),
    as functions of a node's game state and the results it is given. */
module MctsSpec {
  import opened Teams
  import opened Outcomes
  import opened Scores
  import opened Positions

  /** A rollout policy by its name: "RANDOM", "VAR1", "VAR2", or any other
      string, for which rollout_policy falls through and returns None. */
  datatype Policy = Random | Var1 | Var2 | Unnamed

  /** The number of entries VAR1 draws, and the default target depth of a
      rollout (MAX_NODE_COUNT). */
  const VAR1_DRAWS: nat := 5
  const MAX_NODE_COUNT: nat := 5

  /** _number_of_visits, _rating and worst_child of a node. */
  datatype Tally = Tally(visits: nat, rating: real, worst: Option<real>)

  const FRESH_TALLY := Tally(0, 0.0, None)

  /** worst_child after one more result x: x on the first update, then the
      lower of the two when RED is to move and the higher when BLACK is. */
  function Worse(team: Player, worst: Option<real>, x: real): (r: real)
    ensures worst.None? ==> r == x
    ensures worst.Some? ==> r == x || r == worst.value
    ensures worst.Some? && team == Red ==> r <= x && r <= worst.value
    ensures worst.Some? && team == Black ==> r >= x && r >= worst.value
  {
    match worst
    case None => x
    case Some(w) =>
      if team == Red then (if x < w then x else w)
      else (if x > w then x else w)
  }

  /** update_stat(x) on a node with `team` to move. */
  function Update(team: Player, t: Tally, x: real): (r: Tally)
    ensures r.visits == t.visits + 1 && r.rating == t.rating + x && r.worst.Some?
  {
    Tally(t.visits + 1, t.rating + x, Some(Worse(team, t.worst, x)))
  }

  /** The statistics after update_stat with each result of rs in turn. */
  function Replay(team: Player, t: Tally, rs: seq<real>): Tally {
    if rs == [] then t else Update(team, Replay(team, t, rs[..|rs| - 1]), rs[|rs| - 1])
  }

  function Sum(rs: seq<real>): real {
    if rs == [] then 0.0 else Sum(rs[..|rs| - 1]) + rs[|rs| - 1]
  }

  /** update_stat counts the results and adds them up. */
  lemma {:induction false} ReplayCounts(team: Player, t: Tally, rs: seq<real>)
    ensures Replay(team, t, rs).visits == t.visits + |rs|
    ensures Replay(team, t, rs).rating == t.rating + Sum(rs)
  {
    if rs != [] {
      ReplayCounts(team, t, rs[..|rs| - 1]);
    }
  }

  /** On a fresh node worst_child is unset until the first result, and then
      the lowest result when RED is to move and the highest when BLACK is. */
  lemma {:induction false} ReplayWorst(team: Player, rs: seq<real>)
    ensures Replay(team, FRESH_TALLY, rs).worst.None? <==> rs == []
    ensures Replay(team, FRESH_TALLY, rs).worst.Some? ==>
      var w := Replay(team, FRESH_TALLY, rs).worst.value;
      w in rs && forall x :: x in rs ==> (team == Red ==> w <= x) && (team == Black ==> w >= x)
  {
    if rs != [] {
      var init, x := rs[..|rs| - 1], rs[|rs| - 1];
      ReplayWorst(team, init);
      assert rs == init + [x];
      var p := Replay(team, FRESH_TALLY, init);
      var w := Worse(team, p.worst, x);
      assert Replay(team, FRESH_TALLY, rs).worst == Some(w);
      forall y | y in rs
        ensures (team == Red ==> w <= y) && (team == Black ==> w >= y)
      {
        if y != x {
          assert y in init;
        }
      }
    }
  }

  /** q: the rating seen from the side that moved into the node, that is
      negated when RED is to move and as it is when BLACK is. */
  function Q(team: Player, t: Tally): (r: real)
    ensures team == Red ==> r == -t.rating
    ensures team == Black ==> r == t.rating
  {
    -(Value(team) as real) * t.rating
  }

  /** One update_stat moves q by the result, against the side to move: a
      RED win (1) lowers q of a node with RED to move and raises it with
      BLACK to move. */
  lemma QUpdate(team: Player, t: Tally, x: real)
    ensures Q(team, Update(team, t, x)) == Q(team, t) - (Value(team) as real) * x
  {
    if team == Red {
      assert Q(team, Update(team, t, x)) == -(t.rating + x);
    } else {
      assert Q(team, Update(team, t, x)) == t.rating + x;
    }
  }

  /** The value of a static score: 1 and -1 for a won and a lost game,
      a thousandth of a finite score otherwise. */
  function ScoreValue(v: Score): (r: real)
    ensures v.Fin? && -1000 < v.n < 1000 ==> -1.0 < r < 1.0
    ensures v.Fin? && v.n == 0 ==> r == 0.0
  {
    match v
    case PosInf => 1.0
    case NegInf => -1.0
    case Fin(n) => n as real / 1000.0
  }

  /** terminate_value: at the end of the game the value of the winner
      (RED 1, BLACK -1, NONE 0); otherwise the game state value scaled to
      one thousandth, with a won or lost game worth 1 or -1. */
  function TerminalValue(s: Position, isEnd: bool): Fallible<real>
    requires !isEnd ==> s.valuePack == 0
  {
    if isEnd then
      match TeamWin(s)
      case NoGeneral => NoGeneral
      case Done(w) => Done(Value(w) as real)
    else
      match PositionValue(s)
      case NoGeneral => NoGeneral
      case Done(v) => Done(ScoreValue(v))
  }

  /** At the end of the game the value is the loss of the side to move
      exactly when every move of that side leaves is_general_exposed True,
      and 0 otherwise. */
  lemma TerminalEnd(s: Position)
    ensures TerminalValue(s, true).Done? ==>
      TerminalValue(s, true).value == 0.0 || TerminalValue(s, true).value == -(Value(s.current) as real)
    ensures TerminalValue(s, true) == Done(-(Value(s.current) as real)) <==>
      forall p, q :: OwnMove(s, p, q) ==> MoveExposure(s, p, q) == Done(true)
  {
    TerminalIsLoss(s);
    TeamWinSpec(s);
  }

  lemma TerminalIsLoss(s: Position)
    ensures TerminalValue(s, true).Done? ==>
      TerminalValue(s, true).value == 0.0 || TerminalValue(s, true).value == -(Value(s.current) as real)
    ensures TerminalValue(s, true) == Done(-(Value(s.current) as real)) <==> TeamWin(s) == Done(Opponent(s.current))
  {
    if TeamWin(s) == Done(NoTeam) {
      assert TerminalValue(s, true) == Done(0.0);
    }
  }

  /** A static value that says the game is won or lost gives the same value
      as the end-of-game evaluation. */
  lemma TerminalAgrees(s: Position)
    requires s.valuePack == 0 && PositionValue(s).Done? && !PositionValue(s).value.Fin?
    ensures TerminalValue(s, false) == TerminalValue(s, true)
  {
  }

  // ------------------------------------------------------------------ VAR1

  /** The state of VAR1's loop after some draws: the entry kept so far (as
      the number of the draw that chose it) and its value. */
  datatype Pick = Pick(chosen: Option<nat>, value: Score)

  /** VAR1 over the first k drawn values: a draw is kept when its value is
      strictly higher than the value kept so far, starting from -inf. */
  function Var1UpTo(vs: seq<Score>, k: nat): Pick
    requires k <= |vs|
  {
    if k == 0 then Pick(None, NegInf)
    else
      var p := Var1UpTo(vs, k - 1);
      if Lt(p.value, vs[k - 1]) then Pick(Some(k - 1), vs[k - 1]) else p
  }

  /** The draw VAR1 keeps, independently of how its loop runs: the first
      draw of the highest value, unless every draw is worth -inf. */
  ghost predicate Var1Keeps(vs: seq<Score>, r: Option<nat>) {
    match r
    case None => forall i :: 0 <= i < |vs| ==> vs[i] == NegInf
    case Some(j) =>
      j < |vs| && vs[j] != NegInf &&
      (forall i :: 0 <= i < |vs| ==> Le(vs[i], vs[j])) &&
      (forall i :: 0 <= i < j ==> Lt(vs[i], vs[j]))
  }

  lemma {:induction false} Var1UpToKeeps(vs: seq<Score>, k: nat)
    requires k <= |vs|
    ensures Var1Keeps(vs[..k], Var1UpTo(vs, k).chosen)
    ensures Var1UpTo(vs, k).chosen.None? ==> Var1UpTo(vs, k).value == NegInf
    ensures Var1UpTo(vs, k).chosen.Some? ==> Var1UpTo(vs, k).value == vs[Var1UpTo(vs, k).chosen.value]
  {
    if k > 0 {
      Var1UpToKeeps(vs, k - 1);
      var p := Var1UpTo(vs, k - 1);
      var pre := vs[..k - 1];
      assert forall i :: 0 <= i < k - 1 ==> vs[..k][i] == pre[i];
      forall i | 0 <= i < k - 1
        ensures Le(vs[i], p.value)
      {
        assert pre[i] == vs[i];
        if p.chosen.Some? {
          assert Le(pre[i], pre[p.chosen.value]);
        } else {
          assert pre[i] == NegInf;
        }
      }
      if Lt(p.value, vs[k - 1]) {
        forall i | 0 <= i < k - 1
          ensures Lt(vs[i], vs[k - 1])
        {
          LeTrans(vs[i], p.value, vs[k - 1]);
        }
      } else {
        LeTotal(p.value, vs[k - 1]);
      }
    }
  }

  /** VAR1's choice is the one Var1Keeps describes. */
  lemma Var1Spec(vs: seq<Score>)
    ensures Var1Keeps(vs, Var1UpTo(vs, |vs|).chosen)
  {
    Var1UpToKeeps(vs, |vs|);
    assert vs[..|vs|] == vs;
  }

  /** Only one draw fits Var1Keeps. */
  lemma Var1KeepsUnique(vs: seq<Score>, r: Option<nat>, r': Option<nat>)
    requires Var1Keeps(vs, r) && Var1Keeps(vs, r')
    ensures r == r'
  {
    if r.Some? && r'.Some? {
      var j, j' := r.value, r'.value;
      LeTotal(vs[j], vs[j']);
    }
  }
}
