/** What NodeMinimax.minimax (node.py) computes, stated without its cutoffs:
    the plain depth-limited minimax over the child states, and the window
    property that a fail-soft alpha-beta search keeps relative to it. */
module MinimaxSpec {
  import opened Teams
  import opened Outcomes
  import opened Scores
  import opened Positions

  /** The better of two scores for the maximizing (maxTurn) or the
      minimizing side. */
  function Better(maxTurn: bool, a: Score, b: Score): Score {
    if maxTurn then Max(a, b) else Min(a, b)
  }

  /** a is no better than b for the side named by maxTurn. */
  predicate NoBetter(maxTurn: bool, a: Score, b: Score) {
    if maxTurn then Le(a, b) else Le(b, a)
  }

  /** The starting best_value of a branch: -inf when maximizing, +inf when minimizing. */
  function Worst(maxTurn: bool): Score {
    if maxTurn then NegInf else PosInf
  }

  /** The value of a state with no child states: -inf with RED to move,
      +inf otherwise, whichever side the search is maximizing for. */
  function Stalemate(s: Position): Score {
    if s.current == Red then NegInf else PosInf
  }

  /** Minimax without cutoffs: the state's value at depth 0, and otherwise
      the value of the state as an interior node. A crash anywhere is a
      crash. */
  function MinimaxValue(s: Position, depth: nat, maxTurn: bool): Fallible<Score>
    requires s.valuePack == 0
    decreases depth, 0
  {
    if depth == 0 then PositionValue(s) else InteriorValue(s, depth - 1, maxTurn)
  }

  /** The value of a state searched to depth d + 1: the stalemate value when
      it has no children, and otherwise the best child value for the side to
      maximize or minimize. */
  function InteriorValue(s: Position, d: nat, maxTurn: bool): Fallible<Score>
    requires s.valuePack == 0
    decreases d, 3
  {
    match Successors(s)
    case NoGeneral => NoGeneral
    case Done(cs) =>
      if cs == [] then Done(Stalemate(s))
      else
        assert forall c :: c in cs ==> c.state.valuePack == 0 by {
          forall c | c in cs ensures c.state.valuePack == 0 {
            SuccessorState(s, c);
          }
        }
        Fold(maxTurn, ChildValues(cs, d, maxTurn))
  }

  /** The minimax value of one child, for the side that moves next. */
  function ChildMinimax(c: Child, d: nat, maxTurn: bool): Fallible<Score>
    requires c.state.valuePack == 0
    decreases d, 1
  {
    MinimaxValue(c.state, d, !maxTurn)
  }

  /** The minimax values of the children, for the side that moves next. */
  function ChildValues(cs: seq<Child>, d: nat, maxTurn: bool): (vs: seq<Fallible<Score>>)
    requires forall c :: c in cs ==> c.state.valuePack == 0
    decreases d, 2
  {
    seq(|cs|, i requires 0 <= i < |cs| => ChildMinimax(cs[i], d, maxTurn))
  }

  /** The best of a list of values, taken in order from Worst; a crash
      anywhere is a crash. */
  function Fold(maxTurn: bool, vs: seq<Fallible<Score>>): Fallible<Score> {
    if vs == [] then Done(Worst(maxTurn))
    else match Fold(maxTurn, vs[..|vs| - 1])
      case NoGeneral => NoGeneral
      case Done(b) =>
        match vs[|vs| - 1]
        case NoGeneral => NoGeneral
        case Done(v) => Done(Better(maxTurn, b, v))
  }

  /** The fail-soft window property of a search result v against the true
      value t: a result at or below alpha bounds t from above, one at or
      above beta bounds it from below, and one strictly inside is exact. */
  predicate FailSoft(alpha: Score, beta: Score, v: Score, t: Score) {
    (Le(v, alpha) ==> Le(t, v)) &&
    (Le(beta, v) ==> Le(v, t)) &&
    (Lt(alpha, v) && Lt(v, beta) ==> t == v)
  }

  /** With the full window (-inf, +inf) the fail-soft result is the value itself. */
  lemma FullWindowExact(v: Score, t: Score)
    requires FailSoft(NegInf, PosInf, v, t)
    ensures v == t
  {
  }

  // ------------------------------------------------------- Facts about Fold

  /** Fold completes exactly when every value does. */
  lemma {:induction false} FoldDone(maxTurn: bool, vs: seq<Fallible<Score>>)
    ensures Fold(maxTurn, vs).Done? <==> forall v :: v in vs ==> v.Done?
  {
    if vs != [] {
      var init := vs[..|vs| - 1];
      FoldDone(maxTurn, init);
      assert vs == init + [vs[|vs| - 1]];
    }
  }

  /** A completed Fold is no worse than each value. */
  lemma {:induction false} FoldBound(maxTurn: bool, vs: seq<Fallible<Score>>)
    requires Fold(maxTurn, vs).Done?
    ensures forall i :: 0 <= i < |vs| ==>
      vs[i].Done? && NoBetter(maxTurn, vs[i].value, Fold(maxTurn, vs).value)
  {
    if vs != [] {
      var init := vs[..|vs| - 1];
      FoldBound(maxTurn, init);
      var b := Fold(maxTurn, init).value;
      var r := Fold(maxTurn, vs).value;
      forall i | 0 <= i < |vs|
        ensures vs[i].Done? && NoBetter(maxTurn, vs[i].value, r)
      {
        if i < |init| {
          assert init[i] == vs[i];
          if maxTurn { LeTrans(vs[i].value, b, r); }
          else { LeTrans(r, b, vs[i].value); }
        }
      }
    }
  }

  /** A completed Fold is the starting value or one of the values. */
  lemma {:induction false} FoldAttained(maxTurn: bool, vs: seq<Fallible<Score>>)
    requires Fold(maxTurn, vs).Done?
    ensures Fold(maxTurn, vs).value == Worst(maxTurn) || Fold(maxTurn, vs) in vs
  {
    if vs != [] {
      var init := vs[..|vs| - 1];
      FoldAttained(maxTurn, init);
      if Fold(maxTurn, init) in init {
        var i :| 0 <= i < |init| && init[i] == Fold(maxTurn, init);
        assert init[i] == vs[i];
      }
    }
  }

  /** When every value of vs is among ws, the best of vs is no better than
      the best of ws. */
  lemma FoldSub(maxTurn: bool, vs: seq<Fallible<Score>>, ws: seq<Fallible<Score>>)
    requires forall v :: v in vs ==> v in ws
    requires Fold(maxTurn, vs).Done? && Fold(maxTurn, ws).Done?
    ensures NoBetter(maxTurn, Fold(maxTurn, vs).value, Fold(maxTurn, ws).value)
  {
    FoldAttained(maxTurn, vs);
    FoldBound(maxTurn, ws);
  }

  /** Fold depends only on which values occur, not on their order or repetitions. */
  lemma SameValuesSameFold(maxTurn: bool, vs: seq<Fallible<Score>>, ws: seq<Fallible<Score>>)
    requires forall v :: v in vs <==> v in ws
    ensures Fold(maxTurn, vs) == Fold(maxTurn, ws)
  {
    FoldDone(maxTurn, vs);
    FoldDone(maxTurn, ws);
    if Fold(maxTurn, vs).Done? {
      FoldSub(maxTurn, vs, ws);
      FoldSub(maxTurn, ws, vs);
      LeTotal(Fold(maxTurn, vs).value, Fold(maxTurn, ws).value);
    }
  }

  /** The best of the first k values is no better than the best of all. */
  lemma FoldPrefix(maxTurn: bool, vs: seq<Fallible<Score>>, k: nat)
    requires k <= |vs| && Fold(maxTurn, vs).Done?
    ensures Fold(maxTurn, vs[..k]).Done?
    ensures NoBetter(maxTurn, Fold(maxTurn, vs[..k]).value, Fold(maxTurn, vs).value)
  {
    FoldDone(maxTurn, vs);
    FoldDone(maxTurn, vs[..k]);
    FoldSub(maxTurn, vs[..k], vs);
  }

  /** Fold over the first k values, by recursion on k. */
  function FoldUpTo(maxTurn: bool, vs: seq<Fallible<Score>>, k: nat): Fallible<Score>
    requires k <= |vs|
  {
    if k == 0 then Done(Worst(maxTurn)) else Combine(maxTurn, FoldUpTo(maxTurn, vs, k - 1), vs[k - 1])
  }

  /** The best so far b, then one more value; a crash on either side is a crash. */
  function Combine(maxTurn: bool, b: Fallible<Score>, v: Fallible<Score>): Fallible<Score> {
    match b
    case NoGeneral => NoGeneral
    case Done(x) =>
      match v
      case NoGeneral => NoGeneral
      case Done(y) => Done(Better(maxTurn, x, y))
  }

  lemma {:induction false} FoldUpToPrefix(maxTurn: bool, vs: seq<Fallible<Score>>, k: nat)
    requires k <= |vs|
    ensures FoldUpTo(maxTurn, vs, k) == Fold(maxTurn, vs[..k])
  {
    if k > 0 {
      FoldUpToPrefix(maxTurn, vs, k - 1);
      assert vs[..k][..k - 1] == vs[..k - 1];
    }
  }

  /** One more value, with k1 the successor of k0. */
  lemma FoldUpToStep(maxTurn: bool, vs: seq<Fallible<Score>>, k0: nat, k1: nat, m: Score)
    requires k1 == k0 + 1 && k1 <= |vs| && FoldUpTo(maxTurn, vs, k0) == Done(m) && vs[k0].Done?
    ensures FoldUpTo(maxTurn, vs, k1) == Done(Better(maxTurn, m, vs[k0].value))
  {
    FoldUpToUnfold(maxTurn, vs, k0);
    assert FoldUpTo(maxTurn, vs, k1) == Combine(maxTurn, Done(m), vs[k0]);
  }

  lemma FoldUpToUnfold(maxTurn: bool, vs: seq<Fallible<Score>>, k: nat)
    requires k < |vs|
    ensures FoldUpTo(maxTurn, vs, k + 1) == Combine(maxTurn, FoldUpTo(maxTurn, vs, k), vs[k])
  {
  }

  /** One more value in the order visited. */
  lemma FoldNext(maxTurn: bool, vs: seq<Fallible<Score>>, k: nat)
    requires k < |vs| && Fold(maxTurn, vs[..k]).Done? && vs[k].Done?
    ensures Fold(maxTurn, vs[..k + 1]) == Done(Better(maxTurn, Fold(maxTurn, vs[..k]).value, vs[k].value))
  {
    assert vs[..k + 1][..k] == vs[..k];
  }

  /** Children that are the same set have the same set of values. */
  lemma SameChildrenSameValues(xs: seq<Child>, ys: seq<Child>, d: nat, maxTurn: bool)
    requires forall c :: c in xs ==> c.state.valuePack == 0
    requires forall c :: c in xs <==> c in ys
    ensures forall v :: v in ChildValues(xs, d, maxTurn) <==> v in ChildValues(ys, d, maxTurn)
  {
    var vx := ChildValues(xs, d, maxTurn);
    var vy := ChildValues(ys, d, maxTurn);
    forall i | 0 <= i < |xs| ensures vx[i] in vy {
      assert xs[i] in ys;
      var j :| 0 <= j < |ys| && ys[j] == xs[i];
      assert vy[j] == vx[i];
    }
    forall j | 0 <= j < |ys| ensures vy[j] in vx {
      assert ys[j] in xs;
      var i :| 0 <= i < |xs| && xs[i] == ys[j];
      assert vx[i] == vy[j];
    }
  }

  /** A state with child states takes the best of their values. */
  lemma MinimaxUnfold(s: Position, d: nat, maxTurn: bool)
    requires s.valuePack == 0
    requires Successors(s).Done? && Successors(s).value != []
    ensures forall c :: c in Successors(s).value ==> c.state.valuePack == 0
    ensures InteriorValue(s, d, maxTurn) == Fold(maxTurn, ChildValues(Successors(s).value, d, maxTurn))
  {
    forall c | c in Successors(s).value
      ensures c.state.valuePack == 0
    {
      SuccessorState(s, c);
    }
  }

  /** The value of a state with child states is the best of the values of
      any list holding the same child states. */
  lemma MinimaxOverChildren(s: Position, kids: seq<Child>, d: nat, maxTurn: bool)
    requires s.valuePack == 0 && kids != []
    requires Successors(s).Done? && forall c :: c in kids <==> c in Successors(s).value
    ensures forall c :: c in kids ==> c.state.valuePack == 0
    ensures InteriorValue(s, d, maxTurn) == Fold(maxTurn, ChildValues(kids, d, maxTurn))
  {
    var cs := Successors(s).value;
    assert kids[0] in cs;
    MinimaxUnfold(s, d, maxTurn);
    SameChildrenSameFold(kids, cs, d, maxTurn);
  }

  /** Children that are the same set have the same best value. */
  lemma SameChildrenSameFold(xs: seq<Child>, ys: seq<Child>, d: nat, maxTurn: bool)
    requires forall c :: c in xs ==> c.state.valuePack == 0
    requires forall c :: c in xs <==> c in ys
    ensures Fold(maxTurn, ChildValues(xs, d, maxTurn)) == Fold(maxTurn, ChildValues(ys, d, maxTurn))
  {
    var vx := ChildValues(xs, d, maxTurn);
    var vy := ChildValues(ys, d, maxTurn);
    SameChildrenSameValues(xs, ys, d, maxTurn);
    SameValuesSameFold(maxTurn, vx, vy);
  }

  // ------------------------------------------------- The alpha-beta window

  /** One child of a maximizing node: the loop state (best_value, alpha and
      the true best m of the children visited so far) keeps its relation
      after the child's fail-soft result v with true value t; when the
      cutoff fires, the result is at least beta and at most the true best. */
  lemma MaxStep(alpha0: Score, beta: Score, alpha: Score, best: Score, m: Score, v: Score, t: Score)
    requires Lt(alpha, beta) && alpha == Max(alpha0, best)
    requires Le(m, best) && (Lt(alpha0, best) ==> Le(best, m))
    requires FailSoft(alpha, beta, v, t)
    ensures Max(alpha, Max(best, v)) == Max(alpha0, Max(best, v))
    ensures !Le(beta, Max(alpha, Max(best, v))) ==>
      Lt(Max(alpha, Max(best, v)), beta) &&
      Le(Max(m, t), Max(best, v)) && (Lt(alpha0, Max(best, v)) ==> Le(Max(best, v), Max(m, t)))
    ensures Le(beta, Max(alpha, Max(best, v))) ==>
      Le(beta, Max(best, v)) && Le(Max(best, v), Max(m, t))
  {
    LeTotal(v, alpha);
    LeTotal(v, beta);
    LeTotal(best, v);
    LeTotal(alpha0, best);
  }

  /** One child of a minimizing node; the mirror image of MaxStep. */
  lemma MinStep(beta0: Score, alpha: Score, beta: Score, best: Score, m: Score, v: Score, t: Score)
    requires Lt(alpha, beta) && beta == Min(beta0, best)
    requires Le(best, m) && (Lt(best, beta0) ==> Le(m, best))
    requires FailSoft(alpha, beta, v, t)
    ensures Min(beta, Min(best, v)) == Min(beta0, Min(best, v))
    ensures !Le(Min(beta, Min(best, v)), alpha) ==>
      Lt(alpha, Min(beta, Min(best, v))) &&
      Le(Min(best, v), Min(m, t)) && (Lt(Min(best, v), beta0) ==> Le(Min(m, t), Min(best, v)))
    ensures Le(Min(beta, Min(best, v)), alpha) ==>
      Le(Min(best, v), alpha) && Le(Min(m, t), Min(best, v))
  {
    LeTotal(v, alpha);
    LeTotal(v, beta);
    LeTotal(best, v);
    LeTotal(best, beta0);
  }

  /** A maximizing loop that ends, by cutoff or by running out of children,
      has a fail-soft result against the true best over all children. */
  lemma MaxFinish(alpha0: Score, beta: Score, best: Score, m: Score, total: Score, cut: bool)
    requires Lt(alpha0, beta) && Le(m, total)
    requires !cut ==> (Lt(Max(alpha0, best), beta) && m == total &&
                       Le(m, best) && (Lt(alpha0, best) ==> Le(best, m)))
    requires cut ==> Le(beta, best) && Le(best, m)
    ensures FailSoft(alpha0, beta, best, total)
  {
    LeTotal(alpha0, best);
    LeTotal(best, beta);
    if cut {
      LeTrans(best, m, total);
    }
  }

  /** The mirror image of MaxFinish for a minimizing loop. */
  lemma MinFinish(alpha: Score, beta0: Score, best: Score, m: Score, total: Score, cut: bool)
    requires Lt(alpha, beta0) && Le(total, m)
    requires !cut ==> (Lt(alpha, Min(beta0, best)) && m == total &&
                       Le(best, m) && (Lt(best, beta0) ==> Le(m, best)))
    requires cut ==> Le(best, alpha) && Le(m, best)
    ensures FailSoft(alpha, beta0, best, total)
  {
    LeTotal(alpha, best);
    LeTotal(best, beta0);
    if cut {
      LeTrans(total, m, best);
    }
  }

  /** The relation a maximizing loop keeps between the alpha it was called
      with, beta, best_value, the true best m of the children visited so far
      and whether the cutoff fired. */
  predicate MaxLoop(alpha0: Score, beta: Score, best: Score, m: Score, cut: bool) {
    (!cut ==> Lt(Max(alpha0, best), beta) && Le(m, best) && (Lt(alpha0, best) ==> Le(best, m))) &&
    (cut ==> Le(beta, best) && Le(best, m))
  }

  /** The mirror image of MaxLoop for a minimizing loop. */
  predicate MinLoop(alpha: Score, beta0: Score, best: Score, m: Score, cut: bool) {
    (!cut ==> Lt(alpha, Min(beta0, best)) && Le(best, m) && (Lt(best, beta0) ==> Le(m, best))) &&
    (cut ==> Le(best, alpha) && Le(m, best))
  }

  lemma MaxBegin(alpha0: Score, beta: Score, vals: seq<Fallible<Score>>)
    requires Lt(alpha0, beta)
    ensures FoldUpTo(true, vals, 0) == Done(NegInf) && MaxLoop(alpha0, beta, NegInf, NegInf, false)
  {
  }

  lemma MinBegin(alpha: Score, beta0: Score, vals: seq<Fallible<Score>>)
    requires Lt(alpha, beta0)
    ensures FoldUpTo(false, vals, 0) == Done(PosInf) && MinLoop(alpha, beta0, PosInf, PosInf, false)
  {
  }

  /** A fail-soft child value v for child k carries the maximizing loop, with
      m the true best of the first k children, to child k + 1, with the
      cutoff exactly when beta <= alpha. */
  lemma MaxAdvance(alpha0: Score, beta: Score, alpha: Score, best: Score, m: Score,
                   vals: seq<Fallible<Score>>, k: nat, v: Score)
    requires k < |vals| && vals[k].Done?
    requires MaxLoop(alpha0, beta, best, m, false) && alpha == Max(alpha0, best)
    requires FailSoft(alpha, beta, v, vals[k].value)
    ensures Max(alpha, Max(best, v)) == Max(alpha0, Max(best, v))
    ensures MaxLoop(alpha0, beta, Max(best, v), Max(m, vals[k].value), Le(beta, Max(alpha, Max(best, v))))
  {
    MaxStep(alpha0, beta, alpha, best, m, v, vals[k].value);
  }

  /** The mirror image of MaxAdvance for a minimizing loop. */
  lemma MinAdvance(alpha: Score, beta0: Score, beta: Score, best: Score, m: Score,
                   vals: seq<Fallible<Score>>, k: nat, v: Score)
    requires k < |vals| && vals[k].Done?
    requires MinLoop(alpha, beta0, best, m, false) && beta == Min(beta0, best)
    requires FailSoft(alpha, beta, v, vals[k].value)
    ensures Min(beta, Min(best, v)) == Min(beta0, Min(best, v))
    ensures MinLoop(alpha, beta0, Min(best, v), Min(m, vals[k].value), Le(Min(beta, Min(best, v)), alpha))
  {
    MinStep(beta0, alpha, beta, best, m, v, vals[k].value);
  }

  /** A maximizing loop that stops, by the cutoff or after the last child,
      returns a fail-soft value for the whole branch. */
  lemma MaxDone(alpha0: Score, beta: Score, best: Score, m: Score, vals: seq<Fallible<Score>>, k: nat, cut: bool)
    requires Lt(alpha0, beta) && Fold(true, vals).Done?
    requires k <= |vals| && FoldUpTo(true, vals, k) == Done(m)
    requires MaxLoop(alpha0, beta, best, m, cut) && (!cut ==> k == |vals|)
    ensures FailSoft(alpha0, beta, best, Fold(true, vals).value)
  {
    FoldUpToPrefix(true, vals, k);
    FoldPrefix(true, vals, k);
    if !cut {
      assert vals[..k] == vals;
    }
    MaxFinish(alpha0, beta, best, m, Fold(true, vals).value, cut);
  }

  /** The mirror image of MaxDone. */
  lemma MinDone(alpha: Score, beta0: Score, best: Score, m: Score, vals: seq<Fallible<Score>>, k: nat, cut: bool)
    requires Lt(alpha, beta0) && Fold(false, vals).Done?
    requires k <= |vals| && FoldUpTo(false, vals, k) == Done(m)
    requires MinLoop(alpha, beta0, best, m, cut) && (!cut ==> k == |vals|)
    ensures FailSoft(alpha, beta0, best, Fold(false, vals).value)
  {
    FoldUpToPrefix(false, vals, k);
    FoldPrefix(false, vals, k);
    if !cut {
      assert vals[..k] == vals;
    }
    MinFinish(alpha, beta0, best, m, Fold(false, vals).value, cut);
  }

  // ------------------------------------------------- What a scan has seen

  /** best_value after a scan has received the values vs from its children:
      the best of them for the side named by maxTurn, or the worst score
      before the first child. */
  function Best(maxTurn: bool, vs: seq<Score>): (b: Score)
    ensures vs == [] ==> b == Worst(maxTurn)
    ensures vs != [] ==> b in vs
    ensures forall i :: 0 <= i < |vs| ==> NoBetter(maxTurn, vs[i], b)
  {
    if vs == [] then Worst(maxTurn)
    else
      var b0 := Best(maxTurn, vs[..|vs| - 1]);
      assert forall i :: 0 <= i < |vs| - 1 ==> vs[i] == vs[..|vs| - 1][i];
      BetterBound(maxTurn, b0, vs[|vs| - 1]);
      Better(maxTurn, b0, vs[|vs| - 1])
  }

  /** The better of two scores is no worse than either, and transitively so. */
  lemma BetterBound(maxTurn: bool, a: Score, v: Score)
    ensures NoBetter(maxTurn, a, Better(maxTurn, a, v)) && NoBetter(maxTurn, v, Better(maxTurn, a, v))
    ensures forall x :: NoBetter(maxTurn, x, a) ==> NoBetter(maxTurn, x, Better(maxTurn, a, v))
  {
    forall x | NoBetter(maxTurn, x, a)
      ensures NoBetter(maxTurn, x, Better(maxTurn, a, v))
    {
      if maxTurn {
        LeTrans(x, a, Max(a, v));
      } else {
        LeTrans(Min(a, v), a, x);
      }
    }
  }

  /** One more value received: the best so far improved by it. */
  lemma BestAppend(maxTurn: bool, vs: seq<Score>, v: Score)
    ensures Best(maxTurn, vs + [v]) == Better(maxTurn, Best(maxTurn, vs), v)
  {
    assert (vs + [v])[..|vs|] == vs;
  }

  /** The window is closed once the scan's best value b has pushed alpha up
      to beta (maximizing) or beta down to alpha (minimizing): the test
      beta <= alpha that ends the loop. */
  predicate Closed(maxTurn: bool, alpha0: Score, beta0: Score, b: Score) {
    if maxTurn then Le(beta0, Max(alpha0, b)) else Le(Min(beta0, b), alpha0)
  }

  /** No proper non-empty prefix of the values received closed the window:
      the scan went on after each of them. */
  ghost predicate OpenBefore(maxTurn: bool, alpha0: Score, beta0: Score, vs: seq<Score>) {
    forall i :: 0 < i < |vs| ==> !Closed(maxTurn, alpha0, beta0, Best(maxTurn, vs[..i]))
  }

  /** A scan that goes on after the values vs keeps OpenBefore with one more value. */
  lemma OpenAppend(maxTurn: bool, alpha0: Score, beta0: Score, vs: seq<Score>, v: Score)
    requires OpenBefore(maxTurn, alpha0, beta0, vs)
    requires vs != [] ==> !Closed(maxTurn, alpha0, beta0, Best(maxTurn, vs))
    ensures OpenBefore(maxTurn, alpha0, beta0, vs + [v])
  {
    forall i | 0 < i < |vs| + 1
      ensures !Closed(maxTurn, alpha0, beta0, Best(maxTurn, (vs + [v])[..i]))
    {
      if i == |vs| {
        assert (vs + [v])[..i] == vs;
      } else {
        assert (vs + [v])[..i] == vs[..i];
      }
    }
  }

  /** The scan's state after the values got: best_value is their best, the
      cutoff flag says whether it has closed the window, and no earlier
      prefix closed it. */
  ghost predicate ScanOpen(maxTurn: bool, alpha0: Score, beta0: Score, got: seq<Score>, best: Score, cut: bool) {
    best == Best(maxTurn, got) &&
    (got != [] ==> cut == Closed(maxTurn, alpha0, beta0, best)) &&
    OpenBefore(maxTurn, alpha0, beta0, got)
  }

  /** A scan that has not been cut off takes one more value. */
  lemma ScanOpenStep(maxTurn: bool, alpha0: Score, beta0: Score, got: seq<Score>, best: Score, cut: bool, v: Score)
    requires ScanOpen(maxTurn, alpha0, beta0, got, best, cut) && !cut
    ensures ScanOpen(maxTurn, alpha0, beta0, got + [v], Better(maxTurn, best, v),
                     Closed(maxTurn, alpha0, beta0, Better(maxTurn, best, v)))
  {
    BestAppend(maxTurn, got, v);
    OpenAppend(maxTurn, alpha0, beta0, got, v);
  }

  // ------------------------------------------------- The two scan loops

  /** The ghost state of the maximizing scan after k children have returned
      the values got: alpha is alpha0 raised by best_value, the child at w
      returned best_value, the loop's bookkeeping against the reference
      values vals holds when H does, and got is what ScanOpen says. */
  ghost predicate MaxScanState(alpha0: Score, beta: Score, vals: seq<Fallible<Score>>, H: bool, k: nat,
                               alpha: Score, best: Score, m: Score, cut: bool, got: seq<Score>, w: nat) {
    |got| == k && alpha == Max(alpha0, best) &&
    (k == 0 ==> best == NegInf && !cut) &&
    (k > 0 ==> w < k && got[w] == best) &&
    (H ==> k <= |vals| && MaxLoop(alpha0, beta, best, m, cut) && FoldUpTo(true, vals, k) == Done(m)) &&
    ScanOpen(true, alpha0, beta, got, best, cut)
  }

  lemma MaxScanBegin(alpha0: Score, beta: Score, vals: seq<Fallible<Score>>, H: bool)
    requires H ==> Lt(alpha0, beta)
    ensures MaxScanState(alpha0, beta, vals, H, 0, alpha0, NegInf, NegInf, false, [], 0)
  {
    if H {
      MaxBegin(alpha0, beta, vals);
    }
  }

  /** One more child visited by the maximizing scan, which returned v. */
  lemma MaxScanStep(alpha0: Score, beta: Score, vals: seq<Fallible<Score>>, H: bool, k: nat,
                    alpha: Score, best: Score, m: Score, got: seq<Score>, w: nat, v: Score)
    requires MaxScanState(alpha0, beta, vals, H, k, alpha, best, m, false, got, w)
    requires H ==> k < |vals| && (forall x :: x in vals ==> x.Done?) && FailSoft(alpha, beta, v, vals[k].value)
    ensures var best' := Max(best, v);
      MaxScanState(alpha0, beta, vals, H, k + 1, Max(alpha, best'), best',
                   if H then Max(m, vals[k].value) else m, Le(beta, Max(alpha, best')),
                   got + [v], if best' == v then k else w)
  {
    if H {
      assert vals[k] in vals;
      MaxAdvance(alpha0, beta, alpha, best, m, vals, k, v);
      FoldUpToStep(true, vals, k, k + 1, m);
    }
    ScanOpenStep(true, alpha0, beta, got, best, false, v);
  }

  /** The mirror image of MaxScanState for the minimizing scan. */
  ghost predicate MinScanState(alpha: Score, beta0: Score, vals: seq<Fallible<Score>>, H: bool, k: nat,
                               beta: Score, best: Score, m: Score, cut: bool, got: seq<Score>, w: nat) {
    |got| == k && beta == Min(beta0, best) &&
    (k == 0 ==> best == PosInf && !cut) &&
    (k > 0 ==> w < k && got[w] == best) &&
    (H ==> k <= |vals| && MinLoop(alpha, beta0, best, m, cut) && FoldUpTo(false, vals, k) == Done(m)) &&
    ScanOpen(false, alpha, beta0, got, best, cut)
  }

  lemma MinScanBegin(alpha: Score, beta0: Score, vals: seq<Fallible<Score>>, H: bool)
    requires H ==> Lt(alpha, beta0)
    ensures MinScanState(alpha, beta0, vals, H, 0, beta0, PosInf, PosInf, false, [], 0)
  {
    if H {
      MinBegin(alpha, beta0, vals);
    }
  }

  /** One more child visited by the minimizing scan, which returned v. */
  lemma MinScanStep(alpha: Score, beta0: Score, vals: seq<Fallible<Score>>, H: bool, k: nat,
                    beta: Score, best: Score, m: Score, got: seq<Score>, w: nat, v: Score)
    requires MinScanState(alpha, beta0, vals, H, k, beta, best, m, false, got, w)
    requires H ==> k < |vals| && (forall x :: x in vals ==> x.Done?) && FailSoft(alpha, beta, v, vals[k].value)
    ensures var best' := Min(best, v);
      MinScanState(alpha, beta0, vals, H, k + 1, Min(beta, best'), best',
                   if H then Min(m, vals[k].value) else m, Le(Min(beta, best'), alpha),
                   got + [v], if best' == v then k else w)
  {
    if H {
      assert vals[k] in vals;
      MinAdvance(alpha, beta0, beta, best, m, vals, k, v);
      FoldUpToStep(false, vals, k, k + 1, m);
    }
    ScanOpenStep(false, alpha, beta0, got, best, false, v);
  }
}
