/** The game tree of node.py. Each node object of the source is an entry of
    an arena: `links` holds what never changes once a node is made (its game
    state, its parent, the move from the parent, its subclass) and `nodes`
    what its methods update (the game state's cached child list, the child
    list, the generated flag and the subclass statistics). Handles are
    indices; a parent always has a smaller handle than its children. */
module SearchTrees {
  import opened Teams
  import opened Outcomes
  import opened Scores
  import opened Positions
  import opened MinimaxSpec
  import opened Ordering
  import opened MctsSpec
  import GameStates

  /** The subclass of Node; _create_node makes children of its own subclass. */
  datatype NodeClass = MinimaxNode | MctsNode

  /** The parts of a node fixed at creation: its game state, its parent (none
      for a root) and parent_move, and its subclass. */
  datatype Link = Link(state: Position, parent: Option<nat>, parentMove: Option<Move>, nodeClass: NodeClass)

  /** The statistics of NodeMinimax (_is_children_sorted, minimax_value) and of
      NodeMCTS (_number_of_visits, _rating, worst_child, is_children_sorted,
      rollout_index). */
  datatype Stats =
    | MinimaxStats(sorted: bool, minimaxValue: Option<Score>)
    | MctsStats(tally: Tally, sorted: bool, rolloutIndex: int)

  /** The parts of a node its methods update: the all_child_gamestates cache
      of its game state, list_of_children, _is_generated_all_children and the
      statistics. */
  datatype Node = Node(cache: Option<seq<Child>>, children: seq<nat>, generated: bool, stats: Stats)

  function FreshStats(k: NodeClass): Stats {
    match k
    case MinimaxNode => MinimaxStats(false, None)
    case MctsNode => MctsStats(FRESH_TALLY, false, -1)
  }

  /** A node as __init__ leaves it. */
  function FreshNode(k: NodeClass): Node {
    Node(None, [], false, FreshStats(k))
  }

  /** The entry of the parent's child list a non-root node was made from. */
  function ChildOf(l: Link): Child
    requires l.parentMove.Some?
  {
    Child(l.state, l.parentMove.value)
  }

  /** A node's fixed part is consistent: a node has a parent exactly when it
      has a parent move; the parent comes earlier, is of the same subclass,
      and the node's state and move are one of the parent state's child
      states. */
  ghost predicate LinkOk(links: seq<Link>, k: nat)
    requires k < |links|
  {
    var l := links[k];
    (l.parent.Some? <==> l.parentMove.Some?) &&
    (l.parent.Some? ==>
      l.parent.value < k && links[l.parent.value].nodeClass == l.nodeClass &&
      Successors(links[l.parent.value].state).Done? &&
      ChildOf(l) in Successors(links[l.parent.value].state).value)
  }

  /** hs are handles of later nodes whose parent is k. */
  predicate Handles(links: seq<Link>, hs: seq<nat>, k: nat) {
    forall i :: 0 <= i < |hs| ==>
      k < hs[i] < |links| && links[hs[i]].parent == Some(k) && links[hs[i]].parentMove.Some?
  }

  predicate Distinct(hs: seq<nat>) {
    forall i, j :: 0 <= i < j < |hs| ==> hs[i] != hs[j]
  }

  /** The child-list entries the nodes hs were made from. */
  function KidsOf(links: seq<Link>, hs: seq<nat>): (cs: seq<Child>)
    requires forall i :: 0 <= i < |hs| ==> hs[i] < |links| && links[hs[i]].parentMove.Some?
    ensures |cs| == |hs| && forall i :: 0 <= i < |hs| ==> cs[i] == ChildOf(links[hs[i]])
  {
    seq(|hs|, i requires 0 <= i < |hs| => ChildOf(links[hs[i]]))
  }

  /** A node's changing part is consistent with its fixed part: the
      statistics belong to its subclass; a cached child list holds the child
      states of its state; an ungenerated node has no children; the children
      are distinct later nodes whose parent it is and, once generated, are
      the entries of the cached list; a rollout index is -1 or points into
      the cached list. */
  ghost predicate NodeOk(links: seq<Link>, k: nat, n: Node)
    requires k < |links|
  {
    var s := links[k].state;
    (n.stats.MinimaxStats? <==> links[k].nodeClass == MinimaxNode) &&
    (n.cache.Some? ==> Successors(s).Done? && multiset(n.cache.value) == multiset(Successors(s).value)) &&
    (!n.generated ==> n.children == []) &&
    (n.stats.MinimaxStats? && n.stats.sorted ==> n.generated) &&
    Handles(links, n.children, k) && Distinct(n.children) &&
    (n.generated ==> n.cache.Some? && forall c :: c in KidsOf(links, n.children) <==> c in n.cache.value) &&
    (n.stats.MctsStats? ==>
      (n.stats.sorted ==> n.cache.Some?) &&
      (n.stats.rolloutIndex == -1 || (n.cache.Some? && 0 <= n.stats.rolloutIndex < |n.cache.value|)))
  }

  ghost predicate Tree(links: seq<Link>, nodes: seq<Node>) {
    |links| == |nodes| &&
    (forall k {:trigger LinkOk(links, k)} :: 0 <= k < |links| ==> LinkOk(links, k)) &&
    (forall k {:trigger NodeOk(links, k, nodes[k])} :: 0 <= k < |links| ==> NodeOk(links, k, nodes[k]))
  }

  /** Node k lies in the subtree of node a: it is a, or its parent does. */
  ghost predicate Within(links: seq<Link>, k: nat, a: nat)
    decreases k
  {
    k < |links| &&
    (k == a || (links[k].parent.Some? && links[k].parent.value < k && Within(links, links[k].parent.value, a)))
  }

  // ------------------------------------------------------------ Tree facts

  lemma {:induction false} WithinBelow(links: seq<Link>, k: nat, a: nat)
    requires Within(links, k, a)
    ensures a <= k
    decreases k
  {
    if k != a {
      WithinBelow(links, links[k].parent.value, a);
    }
  }

  /** Appending nodes does not change the subtree an existing node lies in. */
  lemma {:induction false} WithinGrow(links: seq<Link>, more: seq<Link>, k: nat, a: nat)
    requires links <= more && k < |links|
    ensures Within(more, k, a) == Within(links, k, a)
    decreases k
  {
    if k != a && links[k].parent.Some? && links[k].parent.value < k {
      WithinGrow(links, more, links[k].parent.value, a);
    }
  }

  /** The subtree of a child of h lies inside the subtree of h. */
  lemma {:induction false} WithinChild(links: seq<Link>, k: nat, c: nat, h: nat)
    requires Within(links, k, c) && c < |links| && links[c].parent == Some(h) && h < c
    ensures Within(links, k, h)
    decreases k
  {
    if k != c {
      WithinChild(links, links[k].parent.value, c, h);
    }
  }

  /** A node outside the subtree of h, among the nodes that existed then, is
      outside the subtree of every child of h made since. */
  lemma OutsideChild(before: seq<Link>, links: seq<Link>, k: nat, h: nat, c: nat)
    requires before <= links && k < |before| && c < |links| && links[c].parent == Some(h) && h < c
    requires !Within(before, k, h)
    ensures !Within(links, k, c)
  {
    WithinGrow(before, links, k, h);
    if Within(links, k, c) {
      WithinChild(links, k, c, h);
    }
  }

  /** What a call on child c of h leaves alone: h, every other child of h,
      and every node that was outside the subtree of h to begin with. */
  lemma AfterChild(L: seq<Link>, N: seq<Node>, L0: seq<Link>, N0: seq<Node>, N1: seq<Node>, h: nat, c: nat)
    requires L <= L0 && |N| == |L| && |N0| == |L0| <= |N1| && h < |L|
    requires h < c < |L0| && L0[c].parent == Some(h)
    requires forall j :: 0 <= j < |N| && !Within(L, j, h) ==> N0[j] == N[j]
    requires forall j :: 0 <= j < |N0| && !Within(L0, j, c) ==> N1[j] == N0[j]
    ensures N1[h] == N0[h]
    ensures forall w :: 0 <= w < |L0| && L0[w].parent == Some(h) && w != c ==> N1[w] == N0[w]
    ensures forall j :: 0 <= j < |N| && !Within(L, j, h) ==> N1[j] == N[j]
  {
    if Within(L0, h, c) {
      WithinBelow(L0, h, c);
    }
    forall j | 0 <= j < |N| && !Within(L, j, h)
      ensures N1[j] == N[j]
    {
      OutsideChild(L, L0, j, h, c);
    }
  }

  /** Two steps that each leave the nodes outside the subtree of h alone
      leave them alone together. */
  lemma FrameCompose(L: seq<Link>, N: seq<Node>, L1: seq<Link>, N1: seq<Node>, N2: seq<Node>, h: nat)
    requires L <= L1 && |N| == |L| && |N1| == |L1| <= |N2|
    requires forall j :: 0 <= j < |N| && !Within(L, j, h) ==> N1[j] == N[j]
    requires forall j :: 0 <= j < |N1| && !Within(L1, j, h) ==> N2[j] == N1[j]
    ensures forall j :: 0 <= j < |N| && !Within(L, j, h) ==> N2[j] == N[j]
  {
    forall j | 0 <= j < |N| && !Within(L, j, h)
      ensures N2[j] == N[j]
    {
      if j < |L| {
        WithinGrow(L, L1, j, h);
      }
    }
  }

  /** The value node x stores, if it is a minimax node that has one. */
  ghost function Stored(nodes: seq<Node>, x: nat): Option<Score> {
    if x < |nodes| && nodes[x].stats.MinimaxStats? then nodes[x].stats.minimaxValue else None
  }

  /** What a scan over the children kids has left in the tree: the first
      |got| children store the values received, in order. */
  ghost predicate Recorded(nodes: seq<Node>, kids: seq<nat>, got: seq<Score>)
    decreases |got|
  {
    |got| <= |kids| &&
    (got != [] ==>
      Recorded(nodes, kids, got[..|got| - 1]) && Stored(nodes, kids[|got| - 1]) == Some(got[|got| - 1]))
  }

  lemma {:induction false} RecordedMeans(nodes: seq<Node>, kids: seq<nat>, got: seq<Score>)
    requires Recorded(nodes, kids, got)
    ensures |got| <= |kids| && forall i :: 0 <= i < |got| ==> Stored(nodes, kids[i]) == Some(got[i])
    decreases |got|
  {
    if got != [] {
      RecordedMeans(nodes, kids, got[..|got| - 1]);
    }
  }

  lemma RecordedAt(nodes: seq<Node>, kids: seq<nat>, got: seq<Score>, i: nat)
    requires Recorded(nodes, kids, got) && i < |got|
    ensures i < |kids| && Stored(nodes, kids[i]) == Some(got[i])
  {
    RecordedMeans(nodes, kids, got);
  }

  /** A record survives any change that leaves the recorded children's values alone. */
  lemma {:induction false} RecordedKept(N0: seq<Node>, N1: seq<Node>, kids: seq<nat>, got: seq<Score>)
    requires Recorded(N0, kids, got)
    requires forall i :: 0 <= i < |got| && i < |kids| ==> Stored(N1, kids[i]) == Stored(N0, kids[i])
    ensures Recorded(N1, kids, got)
    decreases |got|
  {
    if got != [] {
      RecordedKept(N0, N1, kids, got[..|got| - 1]);
    }
  }

  /** The nodes ks are as they were in N. */
  ghost predicate Untouched(nodes: seq<Node>, N: seq<Node>, ks: seq<nat>)
    decreases |ks|
  {
    ks != [] ==> ks[0] < |N| <= |nodes| && nodes[ks[0]] == N[ks[0]] && Untouched(nodes, N, ks[1..])
  }

  lemma {:induction false} UntouchedMeans(nodes: seq<Node>, N: seq<Node>, ks: seq<nat>)
    requires Untouched(nodes, N, ks)
    ensures forall j :: 0 <= j < |ks| ==> ks[j] < |N| <= |nodes| && nodes[ks[j]] == N[ks[j]]
    decreases |ks|
  {
    if ks != [] {
      UntouchedMeans(nodes, N, ks[1..]);
      forall j | 1 <= j < |ks|
        ensures ks[j] == ks[1..][j - 1]
      {
      }
    }
  }

  lemma {:induction false} UntouchedFrom(nodes: seq<Node>, N: seq<Node>, ks: seq<nat>)
    requires forall j :: 0 <= j < |ks| ==> ks[j] < |N| <= |nodes| && nodes[ks[j]] == N[ks[j]]
    ensures Untouched(nodes, N, ks)
    decreases |ks|
  {
    if ks != [] {
      forall j | 0 <= j < |ks| - 1
        ensures ks[1..][j] == ks[j + 1]
      {
      }
      UntouchedFrom(nodes, N, ks[1..]);
    }
  }

  /** The ancestors of h are closed under taking the parent. */
  lemma {:induction false} WithinParent(links: seq<Link>, h: nat, c: nat)
    requires Within(links, h, c) && c < |links| && links[c].parent.Some? && links[c].parent.value < c
    ensures Within(links, h, links[c].parent.value)
    decreases h
  {
    if h != c {
      WithinParent(links, links[h].parent.value, c);
    }
  }

  /** Two ancestors of h are one an ancestor of the other. */
  lemma {:induction false} WithinChain(links: seq<Link>, h: nat, a: nat, b: nat)
    requires Within(links, h, a) && Within(links, h, b)
    ensures Within(links, a, b) || Within(links, b, a)
    decreases h
  {
    if h != a && h != b {
      WithinChain(links, links[h].parent.value, a, b);
    }
  }

  /** An ancestor k of h above c, on the way up from c to its parent p, is
      above c's parent too: no ancestor lies between c and p. */
  lemma AncestorStep(links: seq<Link>, h: nat, c: nat, k: nat)
    requires Within(links, h, c) && Within(links, h, k) && k != c && c < |links|
    requires links[c].parent.Some? && links[c].parent.value < c && links[c].parent.value < k
    ensures c < k
  {
    WithinChain(links, h, k, c);
    if Within(links, k, c) {
      WithinBelow(links, k, c);
    } else {
      WithinBelow(links, links[c].parent.value, k);
    }
  }

  /** An ancestor of a node shares its subclass. */
  lemma {:induction false} AncestorClass(links: seq<Link>, h: nat, k: nat)
    requires (forall j {:trigger LinkOk(links, j)} :: 0 <= j < |links| ==> LinkOk(links, j)) && Within(links, h, k) && k < |links|
    ensures links[k].nodeClass == links[h].nodeClass
    decreases h
  {
    if h != k {
      assert LinkOk(links, h);
      AncestorClass(links, links[h].parent.value, k);
    }
  }

  /** Node k lies n generations below node a. */
  ghost predicate Descends(links: seq<Link>, k: nat, a: nat, n: nat)
    decreases n
  {
    k < |links| &&
    if n == 0 then k == a
    else links[k].parent.Some? && Descends(links, links[k].parent.value, a, n - 1)
  }

  lemma {:induction false} DescendsGrow(links: seq<Link>, more: seq<Link>, k: nat, a: nat, n: nat)
    requires links <= more && Descends(links, k, a, n)
    ensures Descends(more, k, a, n)
    decreases n
  {
    if n > 0 {
      DescendsGrow(links, more, links[k].parent.value, a, n - 1);
    }
  }

  /** Node n after update_stat(x), for a NodeMCTS node with the side of l to move. */
  function Bumped(l: Link, n: Node, x: real): Node {
    match n.stats
    case MctsStats(t, sorted, index) => n.(stats := MctsStats(Update(l.state.current, t, x), sorted, index))
    case MinimaxStats(_, _) => n
  }

  /** The node _create_node makes from the entry c of h's child list. */
  function ChildLink(links: seq<Link>, h: nat, c: Child): Link
    requires h < |links|
  {
    Link(c.state, Some(h), Some(c.move), links[h].nodeClass)
  }

  /** The entry random.choice draws with d from a list of n entries. */
  function Drawn<T>(xs: seq<T>, d: nat): T
    requires xs != []
  {
    xs[d % |xs|]
  }

  /** The VAR1 loop over the drawn entries of cs: each draw's game state
      value is computed and compared with the best so far by `>`. */
  method Var1Select(cs: seq<Child>, draws: seq<nat>) returns (r: Fallible<Option<nat>>)
    requires cs != [] && forall c :: c in cs ==> c.state.valuePack == 0
    ensures r.Done? ==>
      (forall i :: 0 <= i < |draws| ==> PositionValue(Drawn(cs, draws[i]).state).Done?) &&
      Var1Keeps(DrawnScores(cs, draws), r.value)
    ensures r.NoGeneral? ==> exists i :: 0 <= i < |draws| && PositionValue(Drawn(cs, draws[i]).state).NoGeneral?
  {
    var chosen: Option<nat> := None;
    var best := NegInf;
    ghost var vs: seq<Score> := [];
    for i := 0 to |draws|
      invariant |vs| == i
      invariant forall j :: 0 <= j < i ==> PositionValue(Drawn(cs, draws[j]).state) == Done(vs[j])
      invariant Var1UpTo(vs, i) == Pick(chosen, best)
    {
      var cur := Drawn(cs, draws[i]);
      var v := ValueOf(cur.state);
      if v.NoGeneral? {
        return NoGeneral;
      }
      Var1UpToAppend(vs, i, v.value);
      assert forall j :: 0 <= j < i ==> (vs + [v.value])[j] == vs[j];
      vs := vs + [v.value];
      if Lt(best, v.value) {
        chosen, best := Some(i), v.value;
      }
    }
    assert vs == DrawnScores(cs, draws);
    Var1Spec(vs);
    r := Done(chosen);
  }

  lemma Var1UpToAppend(vs: seq<Score>, k: nat, v: Score)
    requires k == |vs|
    ensures Var1UpTo(vs + [v], k) == Var1UpTo(vs, k)
    ensures Var1UpTo(vs + [v], k + 1) == (var p := Var1UpTo(vs, k); if Lt(p.value, v) then Pick(Some(k), v) else p)
  {
    Var1UpToPrefix(vs, [v], k);
  }

  lemma {:induction false} Var1UpToPrefix(vs: seq<Score>, ws: seq<Score>, k: nat)
    requires k <= |vs|
    ensures Var1UpTo(vs + ws, k) == Var1UpTo(vs, k)
  {
    if k > 0 {
      Var1UpToPrefix(vs, ws, k - 1);
      assert (vs + ws)[k - 1] == vs[k - 1];
    }
  }

  /** The game state values of the drawn entries of cs. */
  ghost function DrawnScores(cs: seq<Child>, draws: seq<nat>): (vs: seq<Score>)
    requires cs != [] && forall i :: 0 <= i < |draws| ==>
      Drawn(cs, draws[i]).state.valuePack == 0 && PositionValue(Drawn(cs, draws[i]).state).Done?
    ensures |vs| == |draws|
  {
    seq(|draws|, i requires 0 <= i < |draws| => PositionValue(Drawn(cs, draws[i]).state).value)
  }

  /** VAR1 over the list cs with the draws `draws` keeps entry c, or none
      (every drawn entry worth -inf), as Var1Keeps describes. */
  ghost predicate Var1Chooses(cs: seq<Child>, draws: seq<nat>, c: Option<Child>) {
    cs != [] &&
    (forall i :: 0 <= i < |draws| ==>
      Drawn(cs, draws[i]).state.valuePack == 0 && PositionValue(Drawn(cs, draws[i]).state).Done?) &&
    match c
    case None => Var1Keeps(DrawnScores(cs, draws), None)
    case Some(x) => exists j :: 0 <= j < |draws| && Var1Keeps(DrawnScores(cs, draws), Some(j)) && x == Drawn(cs, draws[j])
  }

  lemma KidsOfGrow(links: seq<Link>, more: seq<Link>, hs: seq<nat>)
    requires links <= more
    requires forall i :: 0 <= i < |hs| ==> hs[i] < |links| && links[hs[i]].parentMove.Some?
    ensures KidsOf(more, hs) == KidsOf(links, hs)
  {
  }

  /** Adding a fresh child of an existing node keeps the tree consistent. */
  lemma TreeAppend(links: seq<Link>, nodes: seq<Node>, l: Link)
    requires Tree(links, nodes)
    requires l.parent.Some? && l.parentMove.Some? && l.parent.value < |links|
    requires links[l.parent.value].nodeClass == l.nodeClass
    requires Successors(links[l.parent.value].state).Done?
    requires ChildOf(l) in Successors(links[l.parent.value].state).value
    ensures Tree(links + [l], nodes + [FreshNode(l.nodeClass)])
  {
    var more := links + [l];
    forall k | 0 <= k < |links|
      ensures LinkOk(more, k) && NodeOk(more, k, nodes[k])
    {
      assert LinkOk(links, k) && NodeOk(links, k, nodes[k]);
      KidsOfGrow(links, more, nodes[k].children);
    }
    assert LinkOk(more, |links|);
  }

  /** Replacing one node's changing part by a consistent one keeps the tree consistent. */
  lemma TreeSet(links: seq<Link>, nodes: seq<Node>, k: nat, n: Node)
    requires Tree(links, nodes) && k < |links| && NodeOk(links, k, n)
    ensures Tree(links, nodes[k := n])
  {
  }

  /** A non-root node shares its parent's subclass and value pack, and the
      other side is to move in it. */
  lemma ParentFacts(links: seq<Link>, nodes: seq<Node>, k: nat)
    requires Tree(links, nodes) && k < |links| && links[k].parent.Some?
    ensures links[k].parent.value < k
    ensures links[links[k].parent.value].nodeClass == links[k].nodeClass
    ensures links[k].state.valuePack == links[links[k].parent.value].state.valuePack
    ensures links[k].state.current == Opponent(links[links[k].parent.value].state.current)
  {
    assert LinkOk(links, k);
    SuccessorState(links[links[k].parent.value].state, ChildOf(links[k]));
  }

  /** The children of a node with value pack 0 have value pack 0. */
  lemma KidsPack(links: seq<Link>, nodes: seq<Node>, h: nat)
    requires Tree(links, nodes) && h < |links| && links[h].state.valuePack == 0
    ensures NodeOk(links, h, nodes[h])
    ensures forall c :: c in KidsOf(links, nodes[h].children) ==> c.state.valuePack == 0
  {
    assert NodeOk(links, h, nodes[h]);
    var kids := nodes[h].children;
    forall i | 0 <= i < |kids|
      ensures links[kids[i]].state.valuePack == 0
    {
      ParentFacts(links, nodes, kids[i]);
    }
  }

  lemma {:induction false} DistinctCount(hs: seq<nat>, x: nat)
    requires Distinct(hs)
    ensures multiset(hs)[x] <= 1
  {
    if hs != [] {
      var init := hs[..|hs| - 1];
      var last := hs[|hs| - 1];
      assert hs == init + [last];
      DistinctCount(init, x);
      assert forall i :: 0 <= i < |init| ==> init[i] != last;
      assert last !in init;
    }
  }

  /** A rearrangement of distinct handles is distinct. */
  lemma PermutedDistinct(hs: seq<nat>, gs: seq<nat>)
    requires Distinct(hs) && multiset(hs) == multiset(gs)
    ensures Distinct(gs)
  {
    forall i, j | 0 <= i < j < |gs|
      ensures gs[i] != gs[j]
    {
      var x := gs[j];
      DistinctCount(hs, x);
      assert gs == gs[..j] + gs[j..];
      assert gs[j..][0] == x;
      assert multiset(gs[..j])[x] == 0;
      assert gs[..j][i] == gs[i];
    }
  }

  /** A generated node has no children exactly when its state has no child states. */
  lemma NoChildren(links: seq<Link>, h: nat, n: Node)
    requires h < |links| && NodeOk(links, h, n) && n.generated
    ensures Successors(links[h].state).Done?
    ensures n.children == [] <==> Successors(links[h].state) == Done([])
  {
    var cs := Successors(links[h].state).value;
    var kids := KidsOf(links, n.children);
    assert |n.cache.value| == |cs| by {
      assert |multiset(n.cache.value)| == |multiset(cs)|;
    }
    if kids != [] {
      assert kids[0] in n.cache.value;
    }
    if n.cache.value != [] {
      assert n.cache.value[0] in kids;
    }
  }

  /** The children of a generated node are, as a set, the child states of its state. */
  lemma ChildrenAreSuccessors(links: seq<Link>, h: nat, n: Node)
    requires h < |links| && NodeOk(links, h, n) && n.generated
    ensures Successors(links[h].state).Done?
    ensures forall c :: c in KidsOf(links, n.children) <==> c in Successors(links[h].state).value
  {
    var cs := Successors(links[h].state).value;
    forall c
      ensures c in KidsOf(links, n.children) <==> c in cs
    {
      assert c in n.cache.value <==> c in multiset(n.cache.value);
      assert c in cs <==> c in multiset(cs);
    }
  }

  /** The children of a generated node are, as a set, the child states of
      its state, so searching them computes MinimaxValue. */
  lemma ChildrenMinimax(links: seq<Link>, h: nat, n: Node, d: nat, maxTurn: bool)
    requires h < |links| && NodeOk(links, h, n) && n.generated && n.children != []
    requires links[h].state.valuePack == 0
    ensures forall c :: c in KidsOf(links, n.children) ==> c.state.valuePack == 0
    ensures InteriorValue(links[h].state, d, maxTurn) == Fold(maxTurn, ChildValues(KidsOf(links, n.children), d, maxTurn))
  {
    ChildrenAreSuccessors(links, h, n);
    MinimaxOverChildren(links[h].state, KidsOf(links, n.children), d, maxTurn);
  }

  /** Recording freshly appended children in their parent keeps the parent consistent. */
  lemma GeneratedOk(links: seq<Link>, nodes: seq<Node>, from: nat, h: nat, hs: seq<nat>)
    requires h < |links| && h < |nodes| && NodeOk(links, h, nodes[h]) && nodes[h].cache.Some?
    requires Appended(links, nodes, from, h, nodes[h].cache.value, hs)
    ensures NodeOk(links, h, nodes[h].(children := hs, generated := true))
  {
    var cs := nodes[h].cache.value;
    assert forall i :: 0 <= i < |cs| ==> KidsOf(links, hs)[i] == cs[i];
    assert KidsOf(links, hs) == cs;
  }

  /** Two handle lists with the same elements name the same entries. */
  lemma SameKids(links: seq<Link>, hs: seq<nat>, gs: seq<nat>)
    requires forall i :: 0 <= i < |hs| ==> hs[i] < |links| && links[hs[i]].parentMove.Some?
    requires forall i :: 0 <= i < |gs| ==> gs[i] < |links| && links[gs[i]].parentMove.Some?
    requires forall x :: x in hs <==> x in gs
    ensures forall c :: c in KidsOf(links, hs) <==> c in KidsOf(links, gs)
  {
    var a := KidsOf(links, hs);
    var b := KidsOf(links, gs);
    forall c | c in a
      ensures c in b
    {
      var i :| 0 <= i < |a| && a[i] == c;
      assert hs[i] in gs;
      var j :| 0 <= j < |gs| && gs[j] == hs[i];
      assert b[j] == c;
    }
    forall c | c in b
      ensures c in a
    {
      var j :| 0 <= j < |b| && b[j] == c;
      assert gs[j] in hs;
      var i :| 0 <= i < |hs| && hs[i] == gs[j];
      assert a[i] == c;
    }
  }

  /** A permutation of a handle list has its elements. */
  lemma PermutedHandles(links: seq<Link>, hs: seq<nat>, gs: seq<nat>, k: nat)
    requires Handles(links, hs, k) && multiset(hs) == multiset(gs)
    ensures Handles(links, gs, k) && (forall x :: x in hs <==> x in gs)
    ensures hs == [] <==> gs == []
  {
    forall x
      ensures x in hs <==> x in gs
    {
      assert x in hs <==> x in multiset(hs);
      assert x in gs <==> x in multiset(gs);
    }
    assert |hs| == |multiset(hs)| && |gs| == |multiset(gs)|;
    forall i | 0 <= i < |gs|
      ensures k < gs[i] < |links| && links[gs[i]].parent == Some(k) && links[gs[i]].parentMove.Some?
    {
      assert gs[i] in hs;
    }
  }

  /** Reordering a node's children, and marking them sorted, keeps it consistent. */
  lemma PermutedOk(links: seq<Link>, h: nat, n: Node, hs: seq<nat>)
    requires h < |links| && NodeOk(links, h, n) && n.generated && multiset(hs) == multiset(n.children)
    ensures NodeOk(links, h, n.(children := hs, stats := n.stats.(sorted := true)))
  {
    PermutedDistinct(n.children, hs);
    PermutedHandles(links, n.children, hs, h);
    SameKids(links, n.children, hs);
  }

  /** Child-list entries whose game state values are in the order of a sort,
      descending or ascending. */
  ghost predicate ValuedInOrder(cs: seq<Child>, descending: bool) {
    (forall i :: 0 <= i < |cs| ==> cs[i].state.valuePack == 0 && PositionValue(cs[i].state).Done?) &&
    forall i, j :: 0 <= i < j < |cs| ==>
      InOrder(descending, PositionValue(cs[i].state).value, PositionValue(cs[j].state).value)
  }

  /** Elements sorted by their values are entries in value order. */
  lemma SortedEntries<T>(xs: seq<T>, cs: seq<Child>, key: map<T, Score>, descending: bool)
    requires |xs| == |cs| && Keyed(xs, key) && Sorted(xs, key, descending)
    requires forall i :: 0 <= i < |xs| ==>
      cs[i].state.valuePack == 0 && PositionValue(cs[i].state) == Done(key[xs[i]])
    ensures ValuedInOrder(cs, descending)
  {
  }

  /** The nodes from handle `from` on are new children of h, one per entry
      of cs and in its order, with handles hs. */
  ghost predicate Appended(links: seq<Link>, nodes: seq<Node>, from: nat, h: nat, cs: seq<Child>, hs: seq<nat>) {
    h < from && from + |cs| == |links| == |nodes| && |hs| == |cs| &&
    forall i :: 0 <= i < |cs| ==>
      hs[i] == from + i &&
      links[from + i] == Link(cs[i].state, Some(h), Some(cs[i].move), links[h].nodeClass) &&
      nodes[from + i] == FreshNode(links[h].nodeClass)
  }

  /** Replacing the parent's node keeps the appended children as they are. */
  lemma AppendedSet(links: seq<Link>, nodes: seq<Node>, from: nat, h: nat, cs: seq<Child>, hs: seq<nat>, n: Node)
    requires Appended(links, nodes, from, h, cs, hs)
    ensures Appended(links, nodes[h := n], from, h, cs, hs)
  {
    forall k | from <= k < |nodes|
      ensures nodes[h := n][k] == nodes[k]
    {
    }
  }

  lemma AppendedStep(links: seq<Link>, nodes: seq<Node>, from: nat, h: nat, cs: seq<Child>, hs: seq<nat>, i: nat)
    requires i < |cs| && Appended(links, nodes, from, h, cs[..i], hs)
    ensures Appended(links + [Link(cs[i].state, Some(h), Some(cs[i].move), links[h].nodeClass)],
                     nodes + [FreshNode(links[h].nodeClass)], from, h, cs[..i + 1], hs + [from + i])
  {
    var l := Link(cs[i].state, Some(h), Some(cs[i].move), links[h].nodeClass);
    var links', nodes', cs', hs' := links + [l], nodes + [FreshNode(links[h].nodeClass)], cs[..i + 1], hs + [from + i];
    assert links'[h] == links[h];
    forall j | 0 <= j < |cs'|
      ensures hs'[j] == from + j
      ensures links'[from + j] == Link(cs'[j].state, Some(h), Some(cs'[j].move), links'[h].nodeClass)
      ensures nodes'[from + j] == FreshNode(links'[h].nodeClass)
    {
      if j < i {
        assert cs'[j] == cs[..i][j];
        assert hs[j] == from + j && links[from + j] == Link(cs[..i][j].state, Some(h), Some(cs[..i][j].move), links[h].nodeClass);
        assert hs'[j] == hs[j] && links'[from + j] == links[from + j] && nodes'[from + j] == nodes[from + j];
      } else {
        assert from + j == |links| == |nodes| && cs'[j] == cs[i];
      }
    }
    assert h < from && from + |cs'| == |links'| == |nodes'| && |hs'| == |cs'|;
    assert Appended(links', nodes', from, h, cs', hs');
  }

  // ------------------------------------------------- Game state operations

  /** The child states of s, on a game state object of its own. */
  method ChildStatesOf(s: Position) returns (r: Fallible<seq<Child>>)
    ensures r == Successors(s)
  {
    var g := GameStates.GameState.Of(s);
    r := g.GenerateAll();
  }

  /** The value of s under value pack 0. */
  method ValueOf(s: Position) returns (r: Fallible<Score>)
    requires s.valuePack == 0
    ensures r == PositionValue(s)
  {
    var g := GameStates.GameState.Of(s);
    r := g.Value();
  }

  /** get_team_win of s. */
  method TeamWinOf(s: Position) returns (r: Fallible<Team>)
    ensures r == TeamWin(s)
  {
    var g := GameStates.GameState.Of(s);
    r := g.GetTeamWin();
  }

  /** The game state value of every element, as list.sort computes its keys,
      or the crash of one of them. */
  method ValueKeys<T(==)>(xs: seq<T>, state: T -> Position) returns (r: Fallible<map<T, Score>>)
    requires forall x :: x in xs ==> state(x).valuePack == 0
    ensures r.Done? ==> Keyed(xs, r.value) && forall x :: x in xs ==> PositionValue(state(x)) == Done(r.value[x])
    ensures r.NoGeneral? ==> exists x :: x in xs && PositionValue(state(x)).NoGeneral?
  {
    var keys: map<T, Score> := map[];
    for i := 0 to |xs|
      invariant forall j :: 0 <= j < i ==> xs[j] in keys && PositionValue(state(xs[j])) == Done(keys[xs[j]])
    {
      var v := ValueOf(state(xs[i]));
      if v.NoGeneral? {
        return NoGeneral;
      }
      keys := keys[xs[i] := v.value];
    }
    return Done(keys);
  }

  class SearchTree {
    var links: seq<Link>
    var nodes: seq<Node>

    ghost predicate Valid()
      reads this
    {
      Tree(links, nodes)
    }

    /** A tree of one root node of the given subclass, with no parent. */
    constructor (root: Position, k: NodeClass)
      ensures links == [Link(root, None, None, k)] && nodes == [FreshNode(k)]
      ensures Valid()
    {
      var ls := [Link(root, None, None, k)];
      var ns := [FreshNode(k)];
      assert LinkOk(ls, 0) && NodeOk(ls, 0, ns[0]);
      links := ls;
      nodes := ns;
    }

    /** all_child_gamestates of the game state of node h: the cached list when
        there is one, otherwise the child states, which are then cached. */
    method CachedChildStates(h: nat) returns (r: Fallible<seq<Child>>)
      requires Valid() && h < |nodes|
      modifies this`nodes
      ensures Valid() && |nodes| == |old(nodes)|
      ensures forall k :: 0 <= k < |nodes| && k != h ==> nodes[k] == old(nodes[k])
      ensures old(nodes[h].cache).Some? ==> r == Done(old(nodes[h].cache).value) && nodes == old(nodes)
      ensures old(nodes[h].cache).None? ==>
        (r == Successors(links[h].state) &&
         nodes[h] == old(nodes[h]).(cache := if r.Done? then Some(r.value) else None))
      ensures r.Done? ==>
        (nodes[h].cache == Some(r.value) && Successors(links[h].state).Done? &&
         multiset(r.value) == multiset(Successors(links[h].state).value))
    {
      assert NodeOk(links, h, nodes[h]);
      if nodes[h].cache.Some? {
        return Done(nodes[h].cache.value);
      }
      r := ChildStatesOf(links[h].state);
      if r.Done? {
        var n := nodes[h].(cache := Some(r.value));
        TreeSet(links, nodes, h, n);
        nodes := nodes[h := n];
      }
    }

    /** _create_node: a new node of h's subclass, made from the child-list
        entry c, with h as parent. */
    method CreateNode(h: nat, c: Child) returns (k: nat)
      requires Valid() && h < |nodes|
      requires Successors(links[h].state).Done? && c in Successors(links[h].state).value
      modifies this
      ensures Valid() && k == |old(links)|
      ensures links == old(links) + [Link(c.state, Some(h), Some(c.move), old(links)[h].nodeClass)]
      ensures nodes == old(nodes) + [FreshNode(old(links)[h].nodeClass)]
    {
      var l := Link(c.state, Some(h), Some(c.move), links[h].nodeClass);
      TreeAppend(links, nodes, l);
      k := |links|;
      links := links + [l];
      nodes := nodes + [FreshNode(l.nodeClass)];
    }

    /** The loop of get_all_children: one new node per entry of cs, in order. */
    method AppendChildren(h: nat, cs: seq<Child>) returns (hs: seq<nat>)
      requires Valid() && h < |nodes|
      requires Successors(links[h].state).Done? && forall c :: c in cs ==> c in Successors(links[h].state).value
      modifies this
      ensures Valid() && old(links) <= links && old(nodes) <= nodes
      ensures Appended(links, nodes, |old(links)|, h, cs, hs)
    {
      var from := |links|;
      ghost var L, N := links, nodes;
      hs := [];
      for i := 0 to |cs|
        invariant Valid() && |links| == |nodes| == from + i
        invariant L <= links && N <= nodes
        invariant Appended(links, nodes, from, h, cs[..i], hs)
      {
        AppendedStep(links, nodes, from, h, cs, hs, i);
        var k := CreateNode(h, cs[i]);
        hs := hs + [k];
      }
      assert cs[..|cs|] == cs;
    }

    /** get_all_children: one new node of h's subclass per entry of
        all_child_gamestates, in its order, with h as parent and the entry's
        move as parent move. */
    method GetAllChildren(h: nat) returns (r: Fallible<seq<nat>>)
      requires Valid() && h < |nodes|
      modifies this
      ensures Valid() && old(links) <= links
      ensures forall k :: 0 <= k < |old(nodes)| && k != h ==> nodes[k] == old(nodes[k])
      ensures nodes[h] == old(nodes[h]).(cache := nodes[h].cache)
      ensures r.NoGeneral? ==> links == old(links) && nodes == old(nodes) && Successors(links[h].state).NoGeneral?
      ensures r.Done? ==>
        (nodes[h].cache.Some? && Appended(links, nodes, |old(links)|, h, nodes[h].cache.value, r.value))
    {
      var cs := CachedChildStates(h);
      if cs.NoGeneral? {
        return NoGeneral;
      }
      ghost var N := nodes;
      forall c | c in cs.value
        ensures c in Successors(links[h].state).value
      {
        assert c in multiset(cs.value);
      }
      var hs := AppendChildren(h, cs.value);
      return Done(hs);
    }

    /** generate_all_children: nothing changes once a node's children are
        generated; otherwise they become the nodes get_all_children makes. */
    method GenerateAllChildren(h: nat) returns (r: Fallible<seq<nat>>)
      requires Valid() && h < |nodes|
      modifies this
      ensures Valid() && old(links) <= links
      ensures forall k :: 0 <= k < |old(nodes)| && k != h ==> nodes[k] == old(nodes[k])
      ensures old(nodes[h].generated) ==> r == Done(old(nodes[h].children)) && links == old(links) && nodes == old(nodes)
      ensures r.Done? ==> nodes[h].generated && nodes[h].children == r.value && nodes[h].stats == old(nodes[h].stats)
      ensures !old(nodes[h].generated) && r.Done? ==>
        (nodes[h].cache.Some? &&
         nodes[h] == old(nodes[h]).(cache := nodes[h].cache, children := r.value, generated := true) &&
         Appended(links, nodes, |old(links)|, h, nodes[h].cache.value, r.value))
      ensures r.NoGeneral? ==> links == old(links) && nodes == old(nodes) && Successors(links[h].state).NoGeneral?
    {
      if nodes[h].generated {
        return Done(nodes[h].children);
      }
      var hs := GetAllChildren(h);
      if hs.NoGeneral? {
        return NoGeneral;
      }
      var n := nodes[h].(children := hs.value, generated := true);
      assert NodeOk(links, h, nodes[h]);
      GeneratedOk(links, nodes, |old(links)|, h, hs.value);
      AppendedSet(links, nodes, |old(links)|, h, nodes[h].cache.value, hs.value, n);
      TreeSet(links, nodes, h, n);
      nodes := nodes[h := n];
      r := hs;
    }

    /** Some child of node h has minimax_value v. */
    ghost predicate SomeChildHolds(h: nat, v: Score)
      reads this
      requires h < |nodes|
    {
      exists i :: 0 <= i < |nodes[h].children| && h < nodes[h].children[i] < |nodes| &&
        nodes[nodes[h].children[i]].stats.MinimaxStats? && nodes[nodes[h].children[i]].stats.minimaxValue == Some(v)
    }

    /** The child-list entries the children of node h were made from. */
    ghost function Kids(h: nat): seq<Child>
      reads this
      requires Valid() && h < |nodes|
    {
      assert NodeOk(links, h, nodes[h]);
      KidsOf(links, nodes[h].children)
    }

    /** Sets minimax_value of node h. */
    method SetMinimaxValue(h: nat, v: Option<Score>)
      requires Valid() && h < |nodes| && links[h].nodeClass == MinimaxNode
      modifies this`nodes
      ensures Valid() && nodes == old(nodes)[h := old(nodes[h]).(stats := MinimaxStats(old(nodes[h].stats.sorted), v))]
    {
      assert NodeOk(links, h, nodes[h]);
      var n := nodes[h].(stats := MinimaxStats(nodes[h].stats.sorted, v));
      TreeSet(links, nodes, h, n);
      nodes := nodes[h := n];
    }

    /** The sort of list_of_children by each child's game state value,
        descending or ascending; a crash while computing the keys leaves the
        list as it was. */
    method SortChildren(h: nat, descending: bool) returns (ok: bool)
      requires Valid() && h < |nodes| && links[h].state.valuePack == 0 && nodes[h].generated
      modifies this`nodes
      ensures Valid() && |nodes| == |old(nodes)|
      ensures forall k :: 0 <= k < |nodes| && k != h ==> nodes[k] == old(nodes[k])
      ensures ok ==>
        (nodes[h] == old(nodes[h]).(children := nodes[h].children, stats := old(nodes[h].stats).(sorted := true)) &&
         multiset(nodes[h].children) == multiset(old(nodes[h].children)) && ValuedInOrder(Kids(h), descending))
      ensures !ok ==> nodes == old(nodes) && exists c :: c in Kids(h) && c.state.valuePack == 0 && PositionValue(c.state).NoGeneral?
    {
      assert NodeOk(links, h, nodes[h]);
      var kids := nodes[h].children;
      forall i | 0 <= i < |kids|
        ensures links[kids[i]].state.valuePack == 0
      {
        ParentFacts(links, nodes, kids[i]);
      }
      var ls := links;
      var state := (k: nat) => if k < |ls| then ls[k].state else ls[h].state;
      var keys := ValueKeys(kids, state);
      if keys.NoGeneral? {
        var x :| x in kids && PositionValue(state(x)).NoGeneral?;
        var i :| 0 <= i < |kids| && kids[i] == x;
        assert Kids(h)[i] in Kids(h);
        return false;
      }
      var sorted := SortByKey(kids, keys.value, descending);
      var n := nodes[h].(children := sorted, stats := nodes[h].stats.(sorted := true));
      PermutedOk(links, h, nodes[h], sorted);
      forall i | 0 <= i < |sorted|
        ensures sorted[i] in kids
      {
        assert sorted[i] in multiset(sorted);
      }
      SortedEntries(sorted, KidsOf(links, sorted), keys.value, descending);
      TreeSet(links, nodes, h, n);
      nodes := nodes[h := n];
      ok := true;
    }

    /** The minimax value, to depth d, of child i of h. */
    ghost function ChildValue(h: nat, i: nat, d: nat, maxTurn: bool): Fallible<Score>
      reads this
      requires Valid() && h < |nodes| && links[h].state.valuePack == 0 && i < |nodes[h].children|
    {
      KidsPack(links, nodes, h);
      ChildValues(Kids(h), d, maxTurn)[i]
    }

    /** The best of the children's minimax values, to depth d, for the side
        named by maxTurn. */
    ghost function ChildTotal(h: nat, d: nat, maxTurn: bool): Fallible<Score>
      reads this
      requires Valid() && h < |nodes| && links[h].state.valuePack == 0
    {
      KidsPack(links, nodes, h);
      Fold(maxTurn, ChildValues(Kids(h), d, maxTurn))
    }

    /** The tree during a scan of h's children that started from links L
        and nodes N: still well formed, h and its child list as they were,
        and every node outside h's subtree untouched. */
    ghost predicate ScanFrame(h: nat, cs: seq<Child>, L: seq<Link>, N: seq<Node>)
      reads this
    {
      Valid() && h < |nodes| && L <= links && |N| == |L| <= |nodes| && h < |N| && nodes[h] == N[h] &&
      Kids(h) == cs && (forall j {:trigger Within(L, j, h)} :: 0 <= j < |N| && !Within(L, j, h) ==> nodes[j] == N[j])
    }

    /** Minimax on child i of h, to depth d, for the side that moves after
        the side named by maxTurn. */
    method Visit(h: nat, i: nat, d: nat, maxTurn: bool, alpha: Score, beta: Score, ghost cs: seq<Child>,
                 ghost L: seq<Link>, ghost N: seq<Node>, ghost got: seq<Score>)
      returns (v: Fallible<Score>)
      requires Valid() && h < |nodes| && links[h].nodeClass == MinimaxNode && links[h].state.valuePack == 0
      requires i < |nodes[h].children| && cs == Kids(h) && forall c {:trigger c in cs} :: c in cs ==> c.state.valuePack == 0
      requires ScanFrame(h, cs, L, N) && |got| == i
      requires Recorded(nodes, nodes[h].children, got) && Untouched(nodes, N, nodes[h].children[i..])
      modifies this
      decreases d + 1, 0
      ensures ScanFrame(h, cs, L, N)
      ensures Untouched(nodes, N, nodes[h].children[i + 1..])
      ensures v.Done? ==> Recorded(nodes, nodes[h].children, got + [v.value])
      ensures v.Done? && Lt(alpha, beta) && ChildValues(cs, d, maxTurn)[i].Done? ==>
        FailSoft(alpha, beta, v.value, ChildValues(cs, d, maxTurn)[i].value)
    {
      assert NodeOk(links, h, nodes[h]);
      var c := nodes[h].children[i];
      ParentFacts(links, nodes, c);
      ghost var L0, N0, n := links, nodes, nodes[h];
      v := Minimax(c, d, !maxTurn, alpha, beta);
      AfterChild(L0, N0, L0, N0, nodes, h, c);
      KidsOfGrow(L0, links, n.children);
      FrameCompose(L, N, L0, N0, nodes, h);
      forall j | 0 <= j < |n.children| && j != i
        ensures nodes[n.children[j]] == N0[n.children[j]]
      {
        assert n.children[j] != c;
      }
      var rest := n.children[i + 1..];
      assert n.children[i..][1..] == rest;
      UntouchedMeans(N0, N, rest);
      forall j | 0 <= j < |rest|
        ensures rest[j] < |N| <= |nodes| && nodes[rest[j]] == N[rest[j]]
      {
        assert rest[j] == n.children[i + 1 + j];
      }
      UntouchedFrom(nodes, N, rest);
      if v.Done? {
        RecordedKept(N0, nodes, n.children, got);
        assert (got + [v.value])[..i] == got;
      }
    }

    /** What a scan that received got from the first k children has left in
        the tree, in the terms of MaxChildren and MinChildren. */
    lemma ScanDone(h: nat, cs: seq<Child>, L: seq<Link>, N: seq<Node>, k: nat, got: seq<Score>, w: nat, r: Fallible<Score>)
      requires Tree(L, N) && ScanFrame(h, cs, L, N) && |got| == k <= |nodes[h].children|
      requires r.Done? ==> Recorded(nodes, nodes[h].children, got) && Untouched(nodes, N, nodes[h].children[k..])
      requires r.Done? ==> w < |got| && got[w] == r.value
      ensures Valid() && L <= links && nodes[h] == N[h] && Kids(h) == cs
      ensures forall j :: 0 <= j < |N| && !Within(L, j, h) ==> nodes[j] == N[j]
      ensures |N| <= |nodes| && forall i :: 0 <= i < |nodes[h].children| ==> nodes[h].children[i] < |N|
      ensures r.Done? ==> SomeChildHolds(h, r.value)
      ensures r.Done? ==> forall i :: 0 <= i < |got| ==>
        nodes[nodes[h].children[i]].stats.MinimaxStats? && nodes[nodes[h].children[i]].stats.minimaxValue == Some(got[i])
      ensures r.Done? ==> forall j :: |got| <= j < |nodes[h].children| ==>
        nodes[nodes[h].children[j]] == N[nodes[h].children[j]]
    {
      var kids := nodes[h].children;
      assert NodeOk(links, h, nodes[h]);
      assert NodeOk(L, h, N[h]);
      if r.Done? {
        RecordedMeans(nodes, kids, got);
        UntouchedMeans(nodes, N, kids[k..]);
        forall j | k <= j < |kids|
          ensures kids[j] == kids[k..][j - k]
        {
        }
        assert Stored(nodes, kids[w]) == Some(got[w]);
      }
    }

    /** The maximizing branch of minimax over the sorted children of h, from
        best_value = -inf, raising alpha and stopping once beta <= alpha.
        d is the depth the children are searched to. */
    method MaxChildren(h: nat, d: nat, alpha0: Score, beta: Score) returns (r: Fallible<Score>, ghost got: seq<Score>)
      requires Valid() && h < |nodes| && links[h].nodeClass == MinimaxNode && links[h].state.valuePack == 0
      requires nodes[h].generated && nodes[h].children != []
      modifies this
      decreases d + 1, 3
      ensures Valid() && old(links) <= links
      ensures nodes[h] == old(nodes[h])
      ensures forall k :: 0 <= k < |old(nodes)| && !Within(old(links), k, h) ==> nodes[k] == old(nodes[k])
      ensures Kids(h) == old(Kids(h))
      ensures r.Done? ==> SomeChildHolds(h, r.value)
      ensures r.Done? && Lt(alpha0, beta) && ChildTotal(h, d, true).Done? ==>
        FailSoft(alpha0, beta, r.value, ChildTotal(h, d, true).value)
      ensures |old(nodes)| <= |nodes| && forall i :: 0 <= i < |nodes[h].children| ==> nodes[h].children[i] < |old(nodes)|
      ensures r.Done? ==>
        1 <= |got| <= |nodes[h].children| && r.value == Best(true, got) && OpenBefore(true, alpha0, beta, got) &&
        (|got| < |nodes[h].children| ==> Closed(true, alpha0, beta, r.value))
      ensures r.Done? ==> forall i :: 0 <= i < |got| ==>
        nodes[nodes[h].children[i]].stats.MinimaxStats? && nodes[nodes[h].children[i]].stats.minimaxValue == Some(got[i])
      ensures r.Done? ==> forall j :: |got| <= j < |nodes[h].children| ==>
        nodes[nodes[h].children[j]] == old(nodes[nodes[h].children[j]])
    {
      KidsPack(links, nodes, h);
      ghost var cs := Kids(h);
      ghost var vals := ChildValues(cs, d, true);
      ghost var H := Lt(alpha0, beta) && Fold(true, vals).Done?;
      if H {
        FoldDone(true, vals);
      }
      assert NodeOk(links, h, nodes[h]);
      ghost var m, w;
      var k, cut;
      r, m, k, cut, got, w := MaxScan(h, d, alpha0, beta, cs, vals, H);
      ScanDone(h, cs, old(links), old(nodes), k, got, w, r);
      if r.Done? && H {
        MaxDone(alpha0, beta, r.value, m, vals, k, cut);
      }
    }

    /** One pass of the loop of MaxScan: minimax on child k of h, then the
        new best value, alpha and cutoff. */
    method MaxStep(h: nat, d: nat, alpha0: Score, beta: Score, ghost cs: seq<Child>, ghost vals: seq<Fallible<Score>>, ghost H: bool,
                   ghost L: seq<Link>, ghost N: seq<Node>, k: nat, alpha: Score, best: Score, ghost m: Score, ghost got: seq<Score>, ghost w: nat)
      returns (v: Fallible<Score>, alpha': Score, best': Score, cut': bool, ghost m': Score, ghost w': nat)
      requires Valid() && h < |nodes| && links[h].nodeClass == MinimaxNode && links[h].state.valuePack == 0
      requires k < |nodes[h].children| && cs == Kids(h) && (forall c {:trigger c in cs} :: c in cs ==> c.state.valuePack == 0)
      requires vals == ChildValues(cs, d, true)
      requires H ==> forall x {:trigger x in vals} :: x in vals ==> x.Done?
      requires ScanFrame(h, cs, L, N) && MaxScanState(alpha0, beta, vals, H, k, alpha, best, m, false, got, w)
      requires Recorded(nodes, nodes[h].children, got) && Untouched(nodes, N, nodes[h].children[k..])
      modifies this
      decreases d + 1, 1
      ensures ScanFrame(h, cs, L, N)
      ensures v.Done? ==> MaxScanState(alpha0, beta, vals, H, k + 1, alpha', best', m', cut', got + [v.value], w')
      ensures v.Done? ==> Recorded(nodes, nodes[h].children, got + [v.value]) && Untouched(nodes, N, nodes[h].children[k + 1..])
    {
      alpha', best', cut', m', w' := alpha, best, false, m, w;
      v := Visit(h, k, d, true, alpha, beta, cs, L, N, got);
      if v.NoGeneral? {
        return;
      }
      if H {
        assert vals[k] in vals && Lt(alpha, beta);
      }
      MaxScanStep(alpha0, beta, vals, H, k, alpha, best, m, got, w, v.value);
      best' := Max(best, v.value);
      alpha' := Max(alpha, best');
      cut' := Le(beta, alpha');
      m' := if H then Max(m, vals[k].value) else m;
      w' := if best' == v.value then k else w;
    }

    /** The loop of MaxChildren. Along with the result it returns the true
        best m of the k children visited and whether the cutoff fired. */
    method MaxScan(h: nat, d: nat, alpha0: Score, beta: Score, ghost cs: seq<Child>, ghost vals: seq<Fallible<Score>>, ghost H: bool)
      returns (r: Fallible<Score>, ghost m: Score, k: nat, cut: bool, ghost got: seq<Score>, ghost w: nat)
      requires Valid() && h < |nodes| && links[h].nodeClass == MinimaxNode && links[h].state.valuePack == 0
      requires nodes[h].children != [] && cs == Kids(h) && (forall c {:trigger c in cs} :: c in cs ==> c.state.valuePack == 0)
      requires vals == ChildValues(cs, d, true)
      requires H ==> Lt(alpha0, beta) && forall v {:trigger v in vals} :: v in vals ==> v.Done?
      modifies this
      decreases d + 1, 2
      ensures ScanFrame(h, cs, old(links), old(nodes))
      ensures |got| == k <= |nodes[h].children|
      ensures r.Done? ==> 1 <= k && (k < |nodes[h].children| ==> cut) && (!cut ==> k == |nodes[h].children|)
      ensures r.Done? ==> MaxScanState(alpha0, beta, vals, H, k, Max(alpha0, r.value), r.value, m, cut, got, w)
      ensures r.Done? ==> Recorded(nodes, nodes[h].children, got) && Untouched(nodes, old(nodes), nodes[h].children[k..])
    {
      ghost var L, N := links, nodes;
      var kids := nodes[h].children;
      MaxScanBegin(alpha0, beta, vals, H);
      assert NodeOk(links, h, nodes[h]);
      var best := NegInf;
      var alpha := alpha0;
      cut := false;
      k := 0;
      m := NegInf;
      got := [];
      assert kids[k..] == kids;
      UntouchedFrom(nodes, N, kids);
      w := 0;
      while k < |kids| && !cut
        invariant 0 <= k <= |kids|
        invariant ScanFrame(h, cs, L, N)
        invariant MaxScanState(alpha0, beta, vals, H, k, alpha, best, m, cut, got, w)
        invariant Recorded(nodes, kids, got) && Untouched(nodes, N, kids[k..])
        decreases |kids| - k
      {
        var v, alpha', best', cut';
        ghost var m', w';
        v, alpha', best', cut', m', w' := MaxStep(h, d, alpha0, beta, cs, vals, H, L, N, k, alpha, best, m, got, w);
        if v.NoGeneral? {
          return NoGeneral, m, k, cut, got, w;
        }
        alpha, best, cut, m, w := alpha', best', cut', m', w';
        got := got + [v.value];
        k := k + 1;
      }
      r := Done(best);
    }

    /** The minimizing branch of minimax over the sorted children of h, from
        best_value = +inf, lowering beta and stopping once beta <= alpha.
        d is the depth the children are searched to. */
    method MinChildren(h: nat, d: nat, alpha: Score, beta0: Score) returns (r: Fallible<Score>, ghost got: seq<Score>)
      requires Valid() && h < |nodes| && links[h].nodeClass == MinimaxNode && links[h].state.valuePack == 0
      requires nodes[h].generated && nodes[h].children != []
      modifies this
      decreases d + 1, 3
      ensures Valid() && old(links) <= links
      ensures nodes[h] == old(nodes[h])
      ensures forall k :: 0 <= k < |old(nodes)| && !Within(old(links), k, h) ==> nodes[k] == old(nodes[k])
      ensures Kids(h) == old(Kids(h))
      ensures r.Done? ==> SomeChildHolds(h, r.value)
      ensures r.Done? && Lt(alpha, beta0) && ChildTotal(h, d, false).Done? ==>
        FailSoft(alpha, beta0, r.value, ChildTotal(h, d, false).value)
      ensures |old(nodes)| <= |nodes| && forall i :: 0 <= i < |nodes[h].children| ==> nodes[h].children[i] < |old(nodes)|
      ensures r.Done? ==>
        1 <= |got| <= |nodes[h].children| && r.value == Best(false, got) && OpenBefore(false, alpha, beta0, got) &&
        (|got| < |nodes[h].children| ==> Closed(false, alpha, beta0, r.value))
      ensures r.Done? ==> forall i :: 0 <= i < |got| ==>
        nodes[nodes[h].children[i]].stats.MinimaxStats? && nodes[nodes[h].children[i]].stats.minimaxValue == Some(got[i])
      ensures r.Done? ==> forall j :: |got| <= j < |nodes[h].children| ==>
        nodes[nodes[h].children[j]] == old(nodes[nodes[h].children[j]])
    {
      KidsPack(links, nodes, h);
      ghost var cs := Kids(h);
      ghost var vals := ChildValues(cs, d, false);
      ghost var H := Lt(alpha, beta0) && Fold(false, vals).Done?;
      if H {
        FoldDone(false, vals);
      }
      assert NodeOk(links, h, nodes[h]);
      ghost var m, w;
      var k, cut;
      r, m, k, cut, got, w := MinScan(h, d, alpha, beta0, cs, vals, H);
      ScanDone(h, cs, old(links), old(nodes), k, got, w, r);
      if r.Done? && H {
        MinDone(alpha, beta0, r.value, m, vals, k, cut);
      }
    }

    /** One pass of the loop of MinScan: minimax on child k of h, then the
        new best value, beta and cutoff. */
    method MinStep(h: nat, d: nat, alpha: Score, beta0: Score, ghost cs: seq<Child>, ghost vals: seq<Fallible<Score>>, ghost H: bool,
                   ghost L: seq<Link>, ghost N: seq<Node>, k: nat, beta: Score, best: Score, ghost m: Score, ghost got: seq<Score>, ghost w: nat)
      returns (v: Fallible<Score>, beta': Score, best': Score, cut': bool, ghost m': Score, ghost w': nat)
      requires Valid() && h < |nodes| && links[h].nodeClass == MinimaxNode && links[h].state.valuePack == 0
      requires k < |nodes[h].children| && cs == Kids(h) && (forall c {:trigger c in cs} :: c in cs ==> c.state.valuePack == 0)
      requires vals == ChildValues(cs, d, false)
      requires H ==> forall x {:trigger x in vals} :: x in vals ==> x.Done?
      requires ScanFrame(h, cs, L, N) && MinScanState(alpha, beta0, vals, H, k, beta, best, m, false, got, w)
      requires Recorded(nodes, nodes[h].children, got) && Untouched(nodes, N, nodes[h].children[k..])
      modifies this
      decreases d + 1, 1
      ensures ScanFrame(h, cs, L, N)
      ensures v.Done? ==> MinScanState(alpha, beta0, vals, H, k + 1, beta', best', m', cut', got + [v.value], w')
      ensures v.Done? ==> Recorded(nodes, nodes[h].children, got + [v.value]) && Untouched(nodes, N, nodes[h].children[k + 1..])
    {
      beta', best', cut', m', w' := beta, best, false, m, w;
      v := Visit(h, k, d, false, alpha, beta, cs, L, N, got);
      if v.NoGeneral? {
        return;
      }
      if H {
        assert vals[k] in vals && Lt(alpha, beta);
      }
      MinScanStep(alpha, beta0, vals, H, k, beta, best, m, got, w, v.value);
      best' := Min(best, v.value);
      beta' := Min(beta, best');
      cut' := Le(beta', alpha);
      m' := if H then Min(m, vals[k].value) else m;
      w' := if best' == v.value then k else w;
    }

    /** The loop of MinChildren. Along with the result it returns the true
        best m of the k children visited and whether the cutoff fired. */
    method MinScan(h: nat, d: nat, alpha: Score, beta0: Score, ghost cs: seq<Child>, ghost vals: seq<Fallible<Score>>, ghost H: bool)
      returns (r: Fallible<Score>, ghost m: Score, k: nat, cut: bool, ghost got: seq<Score>, ghost w: nat)
      requires Valid() && h < |nodes| && links[h].nodeClass == MinimaxNode && links[h].state.valuePack == 0
      requires nodes[h].children != [] && cs == Kids(h) && (forall c {:trigger c in cs} :: c in cs ==> c.state.valuePack == 0)
      requires vals == ChildValues(cs, d, false)
      requires H ==> Lt(alpha, beta0) && forall v {:trigger v in vals} :: v in vals ==> v.Done?
      modifies this
      decreases d + 1, 2
      ensures ScanFrame(h, cs, old(links), old(nodes))
      ensures |got| == k <= |nodes[h].children|
      ensures r.Done? ==> 1 <= k && (k < |nodes[h].children| ==> cut) && (!cut ==> k == |nodes[h].children|)
      ensures r.Done? ==> MinScanState(alpha, beta0, vals, H, k, Min(beta0, r.value), r.value, m, cut, got, w)
      ensures r.Done? ==> Recorded(nodes, nodes[h].children, got) && Untouched(nodes, old(nodes), nodes[h].children[k..])
    {
      ghost var L, N := links, nodes;
      var kids := nodes[h].children;
      MinScanBegin(alpha, beta0, vals, H);
      assert NodeOk(links, h, nodes[h]);
      var best := PosInf;
      var beta := beta0;
      cut := false;
      k := 0;
      m := PosInf;
      got := [];
      assert kids[k..] == kids;
      UntouchedFrom(nodes, N, kids);
      w := 0;
      while k < |kids| && !cut
        invariant 0 <= k <= |kids|
        invariant ScanFrame(h, cs, L, N)
        invariant MinScanState(alpha, beta0, vals, H, k, beta, best, m, cut, got, w)
        invariant Recorded(nodes, kids, got) && Untouched(nodes, N, kids[k..])
        decreases |kids| - k
      {
        var v, beta', best', cut';
        ghost var m', w';
        v, beta', best', cut', m', w' := MinStep(h, d, alpha, beta0, cs, vals, H, L, N, k, beta, best, m, got, w);
        if v.NoGeneral? {
          return NoGeneral, m, k, cut, got, w;
        }
        beta, best, cut, m, w := beta', best', cut', m', w';
        got := got + [v.value];
        k := k + 1;
      }
      r := Done(best);
    }

    /** Depth-limited minimax with alpha-beta cutoffs from node h: the node's
        game state value at depth 0, -inf or +inf (by the side to move) when
        it has no children, and otherwise the best child value for the side
        named by maxTurn, searching the children sorted once by their game
        state values. The result is stored as minimax_value; a crash leaves
        minimax_value unset. */
    method Minimax(h: nat, depth: nat, maxTurn: bool, alpha: Score, beta: Score) returns (r: Fallible<Score>)
      requires Valid() && h < |nodes| && links[h].nodeClass == MinimaxNode && links[h].state.valuePack == 0
      modifies this
      decreases depth, 7
      ensures Valid() && old(links) <= links
      ensures forall k :: 0 <= k < |old(nodes)| && !Within(old(links), k, h) ==> nodes[k] == old(nodes[k])
      ensures nodes[h].stats.MinimaxStats? && (r.Done? <==> nodes[h].stats.minimaxValue.Some?)
      ensures r.Done? ==> nodes[h].stats.minimaxValue == Some(r.value)
      ensures depth == 0 ==> r == PositionValue(links[h].state)
      ensures r.Done? && Lt(alpha, beta) && MinimaxValue(links[h].state, depth, maxTurn).Done? ==>
        FailSoft(alpha, beta, r.value, MinimaxValue(links[h].state, depth, maxTurn).value)
      ensures r.Done? && depth > 0 ==>
        nodes[h].generated && (nodes[h].children == [] <==> Successors(links[h].state) == Done([]))
      ensures r.Done? && depth > 0 && nodes[h].children == [] ==> r.value == Stalemate(links[h].state)
      ensures r.Done? && depth > 0 && nodes[h].children != [] ==> nodes[h].stats.sorted && SomeChildHolds(h, r.value)
      ensures old(nodes[h].generated) ==> multiset(nodes[h].children) == multiset(old(nodes[h].children))
      ensures old(nodes[h].stats.sorted) ==> nodes[h].children == old(nodes[h].children)
      ensures r.Done? && depth > 0 && nodes[h].children != [] && !old(nodes[h].stats.sorted) ==> ValuedInOrder(Kids(h), maxTurn)
    {
      if depth == 0 {
        r := Leaf(h, maxTurn);
      } else {
        assert MinimaxValue(links[h].state, depth, maxTurn) == InteriorValue(links[h].state, depth - 1, maxTurn);
        r := Expand(h, depth - 1, maxTurn, alpha, beta);
      }
    }

    /** Minimax at depth 0: the node's game state value. */
    method Leaf(h: nat, maxTurn: bool) returns (r: Fallible<Score>)
      requires Valid() && h < |nodes| && links[h].nodeClass == MinimaxNode && links[h].state.valuePack == 0
      modifies this`nodes
      ensures Valid() && |nodes| == |old(nodes)|
      ensures forall k :: 0 <= k < |nodes| && k != h ==> nodes[k] == old(nodes[k])
      ensures nodes[h] == old(nodes[h]).(stats := nodes[h].stats)
      ensures nodes[h].stats == MinimaxStats(old(nodes[h].stats.sorted), if r.Done? then Some(r.value) else None)
      ensures r == PositionValue(links[h].state) == MinimaxValue(links[h].state, 0, maxTurn)
    {
      SetMinimaxValue(h, None);
      r := ValueOf(links[h].state);
      if r.Done? {
        SetMinimaxValue(h, Some(r.value));
      }
    }

    /** Minimax from node h at depth d + 1: generate the children, and
        record and return the stalemate value when there are none. */
    method Expand(h: nat, d: nat, maxTurn: bool, alpha: Score, beta: Score) returns (r: Fallible<Score>)
      requires Valid() && h < |nodes| && links[h].nodeClass == MinimaxNode && links[h].state.valuePack == 0
      modifies this
      decreases d + 1, 6
      ensures Valid() && old(links) <= links
      ensures forall k :: 0 <= k < |old(nodes)| && !Within(old(links), k, h) ==> nodes[k] == old(nodes[k])
      ensures nodes[h].stats.MinimaxStats? && (r.Done? <==> nodes[h].stats.minimaxValue.Some?)
      ensures r.Done? ==> nodes[h].stats.minimaxValue == Some(r.value)
      ensures r.Done? && Lt(alpha, beta) && InteriorValue(links[h].state, d, maxTurn).Done? ==>
        FailSoft(alpha, beta, r.value, InteriorValue(links[h].state, d, maxTurn).value)
      ensures r.Done? ==> nodes[h].generated && (nodes[h].children == [] <==> Successors(links[h].state) == Done([]))
      ensures r.Done? && nodes[h].children == [] ==> r.value == Stalemate(links[h].state)
      ensures r.Done? && nodes[h].children != [] ==> nodes[h].stats.sorted && SomeChildHolds(h, r.value)
      ensures old(nodes[h].generated) ==> multiset(nodes[h].children) == multiset(old(nodes[h].children))
      ensures old(nodes[h].stats.sorted) ==> nodes[h].children == old(nodes[h].children)
      ensures r.Done? && nodes[h].children != [] && !old(nodes[h].stats.sorted) ==> ValuedInOrder(Kids(h), maxTurn)
    {
      assert NodeOk(links, h, nodes[h]);
      SetMinimaxValue(h, None);
      ghost var L1, N1 := links, nodes;
      r := Branch(h, d, maxTurn, alpha, beta);
      FrameCompose(old(links), old(nodes), L1, N1, nodes, h);
      if r.Done? {
        SetMinimaxValue(h, Some(r.value));
      }
    }

    /** The value of node h as an interior node at depth d + 1, without
        recording it: generate the children, and return the stalemate value
        when there are none. */
    method Branch(h: nat, d: nat, maxTurn: bool, alpha: Score, beta: Score) returns (r: Fallible<Score>)
      requires Valid() && h < |nodes| && links[h].nodeClass == MinimaxNode && links[h].state.valuePack == 0
      modifies this
      decreases d + 1, 5
      ensures Valid() && old(links) <= links
      ensures forall k :: 0 <= k < |old(nodes)| && !Within(old(links), k, h) ==> nodes[k] == old(nodes[k])
      ensures nodes[h].stats == old(nodes[h].stats).(sorted := nodes[h].stats.sorted)
      ensures r.Done? && Lt(alpha, beta) && InteriorValue(links[h].state, d, maxTurn).Done? ==>
        FailSoft(alpha, beta, r.value, InteriorValue(links[h].state, d, maxTurn).value)
      ensures r.Done? ==> nodes[h].generated && (nodes[h].children == [] <==> Successors(links[h].state) == Done([]))
      ensures r.Done? && nodes[h].children == [] ==> r.value == Stalemate(links[h].state)
      ensures r.Done? && nodes[h].children != [] ==> nodes[h].stats.sorted && SomeChildHolds(h, r.value)
      ensures old(nodes[h].generated) ==> multiset(nodes[h].children) == multiset(old(nodes[h].children))
      ensures old(nodes[h].stats.sorted) ==> nodes[h].children == old(nodes[h].children)
      ensures r.Done? && nodes[h].children != [] && !old(nodes[h].stats.sorted) ==> ValuedInOrder(Kids(h), maxTurn)
    {
      assert NodeOk(links, h, nodes[h]);
      var g := GenerateAllChildren(h);
      if g.NoGeneral? {
        return NoGeneral;
      }
      assert NodeOk(links, h, nodes[h]);
      NoChildren(links, h, nodes[h]);
      if nodes[h].children == [] {
        return Done(if links[h].state.current == Red then NegInf else PosInf);
      }
      ghost var L1, N1 := links, nodes;
      r := Search(h, d, maxTurn, alpha, beta);
      FrameCompose(old(links), old(nodes), L1, N1, nodes, h);
      TotalIsInterior(h, d, maxTurn);
    }

    /** Minimax over the generated children of h: sort them once by game
        state value, then run the maximizing or minimizing loop. */
    method Search(h: nat, d: nat, maxTurn: bool, alpha: Score, beta: Score) returns (r: Fallible<Score>)
      requires Valid() && h < |nodes| && links[h].nodeClass == MinimaxNode && links[h].state.valuePack == 0
      requires nodes[h].generated && nodes[h].children != []
      modifies this
      decreases d + 1, 4
      ensures Valid() && old(links) <= links
      ensures forall k :: 0 <= k < |old(nodes)| && k != h && !Within(old(links), k, h) ==> nodes[k] == old(nodes[k])
      ensures nodes[h] == old(nodes[h]).(children := nodes[h].children, stats := nodes[h].stats)
      ensures nodes[h].stats == old(nodes[h].stats).(sorted := nodes[h].stats.sorted)
      ensures multiset(nodes[h].children) == multiset(old(nodes[h].children))
      ensures old(nodes[h].stats.sorted) ==> nodes[h].children == old(nodes[h].children)
      ensures r.Done? ==> nodes[h].stats.sorted && SomeChildHolds(h, r.value)
      ensures r.Done? && !old(nodes[h].stats.sorted) ==> ValuedInOrder(Kids(h), maxTurn)
      ensures r.Done? && Lt(alpha, beta) && ChildTotal(h, d, maxTurn).Done? ==>
        FailSoft(alpha, beta, r.value, ChildTotal(h, d, maxTurn).value)
    {
      if !nodes[h].stats.sorted {
        var ok := SortChildren(h, maxTurn);
        if !ok {
          return NoGeneral;
        }
      }
      ghost var L1, N1 := links, nodes;
      ghost var got;
      if maxTurn {
        r, got := MaxChildren(h, d, alpha, beta);
      } else {
        r, got := MinChildren(h, d, alpha, beta);
      }
      FrameCompose(old(links), old(nodes), L1, N1, nodes, h);
    }

    /** best_move: a child whose minimax_value equals the node's own (None
        equal to None), chosen by `pick` among all such children in list
        order; None where the source's random.choice raises on an empty list. */
    method BestMove(h: nat, pick: nat) returns (r: Option<nat>)
      requires Valid() && h < |nodes| && links[h].nodeClass == MinimaxNode
      ensures r.Some? <==> exists i :: 0 <= i < |nodes[h].children| && SameValue(h, nodes[h].children[i])
      ensures r.Some? ==> r.value in nodes[h].children && SameValue(h, r.value)
      ensures (nodes[h].stats.MinimaxStats? && nodes[h].stats.minimaxValue.Some? &&
               SomeChildHolds(h, nodes[h].stats.minimaxValue.value)) ==> r.Some?
    {
      assert NodeOk(links, h, nodes[h]);
      var kids := nodes[h].children;
      var best: seq<nat> := [];
      ghost var w := 0;
      for i := 0 to |kids|
        invariant forall c :: c in best ==> c in kids && SameValue(h, c)
        invariant best != [] ==> w < i && SameValue(h, kids[w])
        invariant best == [] ==> forall j :: 0 <= j < i ==> !SameValue(h, kids[j])
      {
        var c := kids[i];
        if nodes[c].stats.MinimaxStats? && nodes[c].stats.minimaxValue == nodes[h].stats.minimaxValue {
          if best == [] {
            w := i;
          }
          best := best + [c];
        }
      }
      if best == [] {
        return None;
      }
      r := Some(Drawn(best, pick));
      assert r.value in best;
    }

    /** Child c of h has the same minimax_value as h. */
    ghost predicate SameValue(h: nat, c: nat)
      reads this
      requires h < |nodes|
    {
      c < |nodes| && nodes[c].stats.MinimaxStats? && nodes[h].stats.MinimaxStats? &&
      nodes[c].stats.minimaxValue == nodes[h].stats.minimaxValue
    }

    // ---------------------------------------------------------- NodeMCTS

    /** update_stat(result) on node h: visits up by one, the result added to
        the rating, worst_child moved toward the result for the side to move. */
    method UpdateStat(h: nat, result: real)
      requires Valid() && h < |nodes| && links[h].nodeClass == MctsNode
      modifies this`nodes
      ensures Valid() && nodes == old(nodes)[h := Bumped(links[h], old(nodes[h]), result)]
      ensures old(nodes[h].stats).MctsStats? && nodes[h].stats.MctsStats? &&
        nodes[h].stats.tally == Update(links[h].state.current, old(nodes[h].stats.tally), result)
    {
      assert NodeOk(links, h, nodes[h]);
      var n := Bumped(links[h], nodes[h], result);
      TreeSet(links, nodes, h, n);
      nodes := nodes[h := n];
    }

    /** backpropagate(result) from node h: update_stat exactly once on h and
        on each of its ancestors up to the root, and on no other node. */
    method Backpropagate(h: nat, result: real)
      requires Valid() && h < |nodes| && links[h].nodeClass == MctsNode
      modifies this`nodes
      ensures Valid() && |nodes| == |old(nodes)|
      ensures forall k :: 0 <= k < |nodes| ==>
        nodes[k] == if Within(links, h, k) then Bumped(links[k], old(nodes[k]), result) else old(nodes[k])
    {
      ghost var N := nodes;
      var c: nat := h;
      forall k | 0 <= k < |nodes| && Within(links, h, k)
        ensures k <= h
      {
        WithinBelow(links, h, k);
      }
      while links[c].parent.Some?
        invariant Valid() && |nodes| == |N| && c < |nodes|
        invariant Within(links, h, c) && links[c].nodeClass == MctsNode
        invariant forall k :: 0 <= k < |nodes| ==>
          nodes[k] == if Within(links, h, k) && c < k then Bumped(links[k], N[k], result) else N[k]
        decreases c
      {
        ParentFacts(links, nodes, c);
        var p := links[c].parent.value;
        UpdateStat(c, result);
        WithinParent(links, h, c);
        forall k | 0 <= k < |nodes| && Within(links, h, k) && p < k && k != c
          ensures c < k
        {
          AncestorStep(links, h, c, k);
        }
        c := p;
      }
      UpdateStat(c, result);
      forall k | 0 <= k < |nodes| && Within(links, h, k)
        ensures c <= k
      {
        WithinChain(links, h, k, c);
        if Within(links, k, c) {
          WithinBelow(links, k, c);
        }
      }
    }

    /** terminate_value of node h. */
    method TerminateValue(h: nat, isEnd: bool) returns (r: Fallible<real>)
      requires h < |links| && (!isEnd ==> links[h].state.valuePack == 0)
      ensures r == TerminalValue(links[h].state, isEnd)
    {
      if isEnd {
        var w := TeamWinOf(links[h].state);
        if w.NoGeneral? {
          return NoGeneral;
        }
        if w.value == Red {
          r := Done(1.0);
        } else if w.value == Black {
          r := Done(-1.0);
        } else {
          r := Done(0.0);
        }
      } else {
        var v := ValueOf(links[h].state);
        if v.NoGeneral? {
          return NoGeneral;
        }
        if v.value == PosInf {
          r := Done(1.0);
        } else if v.value == NegInf {
          r := Done(-1.0);
        } else {
          r := Done(v.value.n as real / 1000.0);
        }
      }
    }

    /** The RANDOM policy (generate_random_game_state): a new node for one
        accepted move of the side to move, the one `draw` picks, or None when
        no move is accepted. */
    method RandomPolicy(h: nat, draw: nat) returns (r: Fallible<Option<nat>>)
      requires Valid() && h < |nodes|
      modifies this
      ensures Valid() && old(links) <= links && old(nodes) <= nodes
      ensures r.NoGeneral? <==> Successors(links[h].state).NoGeneral?
      ensures r == Done(None) <==> Successors(links[h].state) == Done([])
      ensures r.Done? && r.value.None? ==> links == old(links) && nodes == old(nodes)
      ensures r.NoGeneral? ==> links == old(links) && nodes == old(nodes)
      ensures r.Done? && r.value.Some? ==>
        Successors(links[h].state).Done? && Successors(links[h].state).value != [] &&
        r.value.value == |old(links)| && nodes == old(nodes) + [FreshNode(links[h].nodeClass)] &&
        links == old(links) + [ChildLink(old(links), h, Drawn(Successors(links[h].state).value, draw))]
    {
      var cs := ChildStatesOf(links[h].state);
      if cs.NoGeneral? {
        return NoGeneral;
      }
      if cs.value == [] {
        return Done(None);
      }
      var c := Drawn(cs.value, draw);
      var k := CreateNode(h, c);
      r := Done(Some(k));
    }

    /** The VAR1 policy: VAR1_DRAWS entries of all_child_gamestates drawn,
        the first of the highest value kept unless all are worth -inf, and a
        new node made for it; None for an empty list. */
    method Var1Policy(h: nat, draws: seq<nat>) returns (r: Fallible<Option<nat>>)
      requires Valid() && h < |nodes| && links[h].state.valuePack == 0
      modifies this
      ensures Valid() && old(links) <= links && |old(nodes)| <= |nodes|
      ensures forall k :: 0 <= k < |old(nodes)| && k != h ==> nodes[k] == old(nodes[k])
      ensures nodes[h] == old(nodes[h]).(cache := nodes[h].cache)
      ensures old(nodes[h].cache).Some? ==> nodes[h].cache == old(nodes[h].cache)
      ensures r.NoGeneral? ==> links == old(links) && nodes == old(nodes)[h := nodes[h]]
      ensures r.NoGeneral? ==>
        Successors(links[h].state).NoGeneral? ||
        (nodes[h].cache.Some? && nodes[h].cache.value != [] &&
         exists i :: 0 <= i < |draws| && Drawn(nodes[h].cache.value, draws[i]).state.valuePack == 0 &&
           PositionValue(Drawn(nodes[h].cache.value, draws[i]).state).NoGeneral?)
      ensures r.Done? ==> nodes[h].cache.Some? && Successors(links[h].state).Done? && multiset(nodes[h].cache.value) == multiset(Successors(links[h].state).value)
      ensures r.Done? && r.value.None? ==>
        links == old(links) && nodes == old(nodes)[h := nodes[h]] &&
        (nodes[h].cache.value == [] || Var1Chooses(nodes[h].cache.value, draws, None))
      ensures r.Done? && r.value.Some? ==>
        r.value.value == |old(links)| && nodes == old(nodes)[h := nodes[h]] + [FreshNode(links[h].nodeClass)] &&
        exists c :: Var1Chooses(nodes[h].cache.value, draws, Some(c)) && links == old(links) + [ChildLink(old(links), h, c)]
    {
      var cs := CachedChildStates(h);
      if cs.NoGeneral? {
        return NoGeneral;
      }
      if cs.value == [] {
        return Done(None);
      }
      CacheFacts(h, cs.value);
      var j := Var1Select(cs.value, draws);
      if j.NoGeneral? {
        return NoGeneral;
      }
      if j.value.None? {
        return Done(None);
      }
      var c := Drawn(cs.value, draws[j.value.value]);
      assert c in cs.value;
      var k := CreateNode(h, c);
      assert Var1Chooses(cs.value, draws, Some(c));
      r := Done(Some(k));
    }

    /** The entries of a cached list of h are child states of h, with h's
        value pack. */
    lemma CacheFacts(h: nat, cs: seq<Child>)
      requires Valid() && h < |nodes| && nodes[h].cache == Some(cs)
      ensures Successors(links[h].state).Done?
      ensures forall c :: c in cs ==> c in Successors(links[h].state).value && c.state.valuePack == links[h].state.valuePack
    {
      assert NodeOk(links, h, nodes[h]);
      forall c | c in cs
        ensures c in Successors(links[h].state).value && c.state.valuePack == links[h].state.valuePack
      {
        assert c in multiset(cs);
        SuccessorState(links[h].state, c);
      }
    }

    /** The sort VAR2 does the first time on node h: all_child_gamestates
        in descending order of value, and the node marked as sorted; nothing
        changes when a value crashes. */
    method SortCached(h: nat, cs: seq<Child>) returns (ok: bool)
      requires Valid() && h < |nodes| && links[h].nodeClass == MctsNode && links[h].state.valuePack == 0
      requires nodes[h].cache == Some(cs)
      modifies this`nodes
      ensures Valid() && |nodes| == |old(nodes)|
      ensures forall k :: 0 <= k < |nodes| && k != h ==> nodes[k] == old(nodes[k])
      ensures !ok ==> nodes == old(nodes) && exists c :: c in cs && c.state.valuePack == 0 && PositionValue(c.state).NoGeneral?
      ensures ok ==>
        nodes[h].cache.Some? && multiset(nodes[h].cache.value) == multiset(cs) &&
        ValuedInOrder(nodes[h].cache.value, true) &&
        old(nodes[h].stats).MctsStats? &&
        nodes[h] == old(nodes[h]).(cache := nodes[h].cache,
          stats := MctsStats(old(nodes[h].stats).tally, true, old(nodes[h].stats).rolloutIndex))
    {
      assert NodeOk(links, h, nodes[h]);
      CacheFacts(h, cs);
      var keys := ValueKeys(cs, (c: Child) => c.state);
      if keys.NoGeneral? {
        return false;
      }
      var sorted := SortByKey(cs, keys.value, true);
      assert |sorted| == |multiset(sorted)| == |multiset(cs)| == |cs|;
      assert forall c :: c in sorted <==> c in cs by {
        forall c
          ensures c in sorted <==> c in cs
        {
          assert c in sorted <==> c in multiset(sorted);
          assert c in cs <==> c in multiset(cs);
        }
      }
      SortedEntries(sorted, sorted, keys.value, true);
      var st := nodes[h].stats;
      var n := nodes[h].(cache := Some(sorted), stats := MctsStats(st.tally, true, st.rolloutIndex));
      TreeSet(links, nodes, h, n);
      nodes := nodes[h := n];
      ok := true;
    }

    /** rollout_index advanced by one, but kept within all_child_gamestates. */
    method AdvanceIndex(h: nat) returns (i: nat)
      requires Valid() && h < |nodes| && nodes[h].stats.MctsStats?
      requires nodes[h].cache.Some? && nodes[h].cache.value != []
      modifies this`nodes
      ensures Valid() && |nodes| == |old(nodes)|
      ensures forall k :: 0 <= k < |nodes| && k != h ==> nodes[k] == old(nodes[k])
      ensures i < |old(nodes[h].cache.value)|
      ensures i == if old(nodes[h].stats.rolloutIndex) + 1 < |old(nodes[h].cache.value)| - 1
                   then old(nodes[h].stats.rolloutIndex) + 1 else |old(nodes[h].cache.value)| - 1
      ensures nodes[h] == old(nodes[h]).(stats := old(nodes[h].stats).(rolloutIndex := i))
    {
      assert NodeOk(links, h, nodes[h]);
      var j := nodes[h].stats.rolloutIndex + 1;
      if j > |nodes[h].cache.value| - 1 {
        j := |nodes[h].cache.value| - 1;
      }
      i := j;
      var n := nodes[h].(stats := nodes[h].stats.(rolloutIndex := i));
      TreeSet(links, nodes, h, n);
      nodes := nodes[h := n];
    }

    /** The first half of VAR2: all_child_gamestates, sorted by value the
        first time it is used on node h. */
    method SortedChildStates(h: nat) returns (r: Fallible<seq<Child>>)
      requires Valid() && h < |nodes| && links[h].nodeClass == MctsNode && links[h].state.valuePack == 0
      requires nodes[h].stats.MctsStats?
      modifies this`nodes
      ensures Valid() && |nodes| == |old(nodes)| && nodes == old(nodes)[h := nodes[h]]
      ensures nodes[h].stats.MctsStats?
      ensures nodes[h] == old(nodes[h]).(cache := nodes[h].cache,
        stats := MctsStats(old(nodes[h].stats.tally), nodes[h].stats.sorted, old(nodes[h].stats.rolloutIndex)))
      ensures !(r.Done? && r.value != []) ==> nodes[h].stats == old(nodes[h].stats)
      ensures r.Done? ==>
        nodes[h].cache == Some(r.value) && Successors(links[h].state).Done? &&
        multiset(r.value) == multiset(Successors(links[h].state).value)
      ensures r.Done? && old(nodes[h].stats.sorted) ==> nodes[h].cache == old(nodes[h].cache)
      ensures r.Done? && r.value != [] ==>
        nodes[h].stats.sorted && (!old(nodes[h].stats.sorted) ==> ValuedInOrder(r.value, true))
    {
      assert NodeOk(links, h, nodes[h]);
      ghost var N := nodes;
      var got := CachedChildStates(h);
      assert nodes == N[h := nodes[h]];
      if got.NoGeneral? {
        return NoGeneral;
      }
      if got.value == [] {
        return got;
      }
      if nodes[h].stats.sorted {
        assert N[h].cache.Some?;
        return got;
      }
      var ok := SortCached(h, got.value);
      assert nodes == N[h := nodes[h]];
      if !ok {
        return NoGeneral;
      }
      r := Done(nodes[h].cache.value);
    }

    /** The VAR2 policy: all_child_gamestates sorted by value, descending,
        the first time; then rollout_index advanced by one but kept within
        the list, and a new node made for the entry it points at; None for
        an empty list. */
    method Var2Policy(h: nat) returns (r: Fallible<Option<nat>>)
      requires Valid() && h < |nodes| && links[h].nodeClass == MctsNode && links[h].state.valuePack == 0
      requires nodes[h].stats.MctsStats?
      modifies this
      ensures Valid() && old(links) <= links && |old(nodes)| <= |nodes|
      ensures forall k :: 0 <= k < |old(nodes)| && k != h ==> nodes[k] == old(nodes[k])
      ensures nodes[h].stats.MctsStats?
      ensures nodes[h] == old(nodes[h]).(cache := nodes[h].cache,
        stats := MctsStats(old(nodes[h].stats.tally), nodes[h].stats.sorted, nodes[h].stats.rolloutIndex))
      ensures !(r.Done? && r.value.Some?) ==> nodes[h].stats == old(nodes[h].stats)
      ensures r.NoGeneral? ==> links == old(links) && nodes == old(nodes)[h := nodes[h]]
      ensures r.Done? ==>
        nodes[h].cache.Some? && Successors(links[h].state).Done? &&
        multiset(nodes[h].cache.value) == multiset(Successors(links[h].state).value) &&
        (r.value.None? <==> nodes[h].cache.value == []) &&
        (old(nodes[h].stats.sorted) ==> nodes[h].cache == old(nodes[h].cache))
      ensures r.Done? && r.value.None? ==> links == old(links) && nodes == old(nodes)[h := nodes[h]]
      ensures r.Done? && r.value.Some? ==> nodes[h].stats.sorted
      ensures r.Done? && r.value.Some? ==>
        var cs := nodes[h].cache.value;
        var i := nodes[h].stats.rolloutIndex;
        (!old(nodes[h].stats.sorted) ==> ValuedInOrder(cs, true)) &&
        i == (if old(nodes[h].stats.rolloutIndex) + 1 < |cs| - 1 then old(nodes[h].stats.rolloutIndex) + 1 else |cs| - 1) &&
        0 <= i < |cs| && r.value.value == |old(links)| &&
        nodes == old(nodes)[h := nodes[h]] + [FreshNode(MctsNode)] &&
        links == old(links) + [ChildLink(old(links), h, cs[i])]
    {
      var got := SortedChildStates(h);
      if got.NoGeneral? {
        return NoGeneral;
      }
      if got.value == [] {
        return Done(None);
      }
      var cs := got.value;
      ghost var N := nodes;
      var i := AdvanceIndex(h);
      assert nodes == N[h := nodes[h]];
      CacheFacts(h, cs);
      var k := CreateNode(h, cs[i]);
      r := Done(Some(k));
    }

    /** rollout_policy: the node the named policy makes, None when it makes
        none, and always None for a name it does not know. */
    method RolloutPolicy(h: nat, policy: Policy, draws: seq<nat>) returns (r: Fallible<Option<nat>>)
      requires Valid() && h < |nodes| && links[h].nodeClass == MctsNode && links[h].state.valuePack == 0
      requires |draws| == VAR1_DRAWS
      modifies this
      ensures Valid() && old(links) <= links
      ensures policy == Unnamed ==> r == Done(None) && links == old(links) && nodes == old(nodes)
      ensures (r.NoGeneral? || r == Done(None)) ==> links == old(links)
      ensures r.Done? && r.value.Some? ==>
        r.value.value == |old(links)| && |links| == |old(links)| + 1 && links[r.value.value].parent == Some(h)
    {
      match policy
      case Random => r := RandomPolicy(h, draws[0]);
      case Var1 => r := Var1Policy(h, draws);
      case Var2 =>
        assert NodeOk(links, h, nodes[h]);
        r := Var2Policy(h);
      case Unnamed => r := Done(None);
    }

    /** rollout: up to `target` policy steps from node h, each with its own
        draws; the end-of-game value of the node where the policy made no
        node, or the static value of the node reached after `target` steps. */
    method Rollout(h: nat, policy: Policy, target: nat, draws: seq<seq<nat>>)
      returns (r: Fallible<real>, ghost last: nat, ghost steps: nat)
      requires Valid() && h < |nodes| && links[h].nodeClass == MctsNode && links[h].state.valuePack == 0
      requires |draws| >= target && forall i :: 0 <= i < |draws| ==> |draws[i]| == VAR1_DRAWS
      modifies this
      ensures Valid() && old(links) <= links
      ensures steps <= target && Descends(links, last, h, steps) && links[last].state.valuePack == 0
      ensures r.Done? ==> r == TerminalValue(links[last].state, steps < target)
      ensures policy == Unnamed && target > 0 ==> steps == 0
    {
      var count: nat := 0;
      var cur: nat := h;
      ghost var L := links;
      while count < target
        invariant Valid() && L <= links && cur < |links|
        invariant links[cur].nodeClass == MctsNode && links[cur].state.valuePack == 0
        invariant count <= target && Descends(links, cur, h, count)
        invariant policy == Unnamed ==> count == 0
        decreases target - count
      {
        ghost var L0 := links;
        var next := RolloutPolicy(cur, policy, draws[count]);
        if next.NoGeneral? {
          return NoGeneral, cur, count;
        }
        if next.value.None? {
          r := TerminateValue(cur, true);
          return r, cur, count;
        }
        var k := next.value.value;
        DescendsGrow(L0, links, cur, h, count);
        ParentFacts(links, nodes, k);
        cur, count := k, count + 1;
      }
      r := TerminateValue(cur, false);
      last, steps := cur, count;
    }

    /** With children generated, the interior minimax value of h is the best
        of its children's values. */
    lemma TotalIsInterior(h: nat, d: nat, maxTurn: bool)
      requires Valid() && h < |nodes| && links[h].state.valuePack == 0
      requires nodes[h].generated && nodes[h].children != []
      ensures ChildTotal(h, d, maxTurn) == InteriorValue(links[h].state, d, maxTurn)
    {
      assert NodeOk(links, h, nodes[h]);
      ChildrenMinimax(links, h, nodes[h], d, maxTurn);
    }
  }
}
