# Xiangqi engine core: pieces, game states and search nodes

This project models the core of a Xiangqi (Chinese chess) engine: the rules
that give each piece its admissible moves, the test that decides whether a
move leaves the mover's general in check, the game state that generates
every legal child position, tells a won game from a running one and scores
a position by material, and the two kinds of game-tree node built on top of
it: a minimax node with alpha-beta pruning and a Monte-Carlo tree search
node with its statistics, rollout policies, rollout and backpropagation.

How the model is laid out:

- `teams.dfy`, `outcomes.dfy`, `scores.dfy`: the teams RED (value 1) and
  BLACK (value -1), `Option`, `Fallible` and scores extended with `-inf`
  and `+inf`.
- `board.dfy`: the 10 x 9 board as a flat sequence of 90 cells (row-major),
  the board predicates of the `Piece` class, river and palace geometry and
  the two-letter cell notation with its round trip.
- `moves.dfy`: each piece's admissible moves as a function that follows the
  source's loop order, and a lemma that characterises its result
  geometrically (offsets, blocked horse legs and elephant eyes, the rook's
  clear line, the cannon's single screen, the pawn after the river).
  `movegen.dfy` holds the loops themselves as methods proved equal to
  those functions.
- `exposure.dfy`: `is_general_exposed`: the palace scan for the mover's
  general and the five probes (rook, horse, cannon, pawn, facing general),
  as functions and as the source's loops (module `ExposureCheck`).
  `attacks.dfy` proves that each probe finds exactly the enemy pieces
  whose own admissible moves reach the general.
- `positions.dfy`: game states as values, `generate_game_state_with_move`,
  `generate_all_game_states`, `get_team_win` and the pack-0 value, with
  their characterisations. `gamestate.dfy` holds the `GameState` class,
  whose methods move a piece on the board in place, test exposure and move
  it back, and whose `value` and `all_child_gamestates` properties fill a
  cache on first read. `opening.dfy` builds the initial position.
- `ordering.dfy`: the sort by game-state value used by both node kinds.
- `minimax.dfy`: the minimax value as a pure function and the fail-soft
  alpha-beta bound; `searchtree.dfy` holds the node classes as one arena
  (class `SearchTree`): node handles are indices, a parent always has a
  smaller handle than its children, and every method of `Node`,
  `NodeMinimax` and `NodeMCTS` is a method over that arena.
- `mcts.dfy`: the statistics of an MCTS node (`update_stat`, `q`,
  `worst_child`), `terminate_value` and the VAR1 choice as functions.

A position without a general of the side to move in its palace makes
`is_general_exposed` fail in the source (it indexes the missing general's
square). The model carries this as the `NoGeneral` outcome of `Fallible`,
and every operation that reaches the test (successor generation,
`get_team_win`, the value, minimax, the rollout) passes it on.

The exposure test is modelled with the polarity the source gives it:
`is_general_exposed` returns False when one of the probes finds an
attacker or the two generals face each other, and True when the general
is safe. Its callers nevertheless keep a move only when it returns False
(`game_state.py:136-138`), and `get_team_win` declares a loss when every
move returns True (`game_state.py:236-279`). The model keeps both as
written: `Exposure.GeneralExposure` is True exactly when the general is
not attacked (`Attacks.ExposureSpec`), `Positions.TryMoveSpec` states that
a move is kept exactly when the test returns False, and
`Positions.TeamWinSpec` states that the game is lost exactly when every
move gets True. So the model's successors are the moves that leave the
general attacked, and its "lost" positions are those where every move
leaves it safe, as the code does it. `polarity.dfy` (module `Polarity`)
exhibits this on a two-general board and defines the move test
(`Polarity.TryMoveIntended`) and the loss test (`Polarity.TeamWinIntended`,
the same scan as `get_team_win` with the answer that keeps the game going
turned round) with the intended reading next to them; see "## Findings".
Every other module keeps the as-written test, since they model what the
code computes.

## Model

| member | source | states |
|---|---|---|
| Teams.Opponent | game_state.py:97-102 | the opponent of a team is the other team, whose value is the negation |
| Board.InPalace | piece.py:123-140 | a palace square (rows 0-2 or 7-9, columns 3-5) is on the board |
| Board.InOwnPalace | piece.py:123-140 | a square of a team's own palace is a palace square |
| Board.LookupTeam | piece.py:71-80 | the team on a square is defined exactly on the board, and is "none" exactly on an empty square |
| Board.IsOpponent | piece.py:90-92 | a square holds an opponent exactly when it holds a piece of the other team |
| Board.CrossedRiver | piece.py:94-96 | on the board, RED has crossed the river on rows 0-4 and BLACK on rows 5-9 |
| Board.ParseNotation | piece.py:143-164 | a two-letter code that parses to a cell is that cell's notation |
| Board.NotationRoundTrip | piece.py:143-164 | parsing the notation of any cell gives the cell back |
| Moves.AdvisorMovesSpec | piece.py:202-227 | an advisor reaches exactly the diagonal neighbours inside a palace not held by a teammate |
| Moves.GeneralMovesSpec | piece.py:470-493 | a general reaches exactly the orthogonal neighbours inside a palace that are free or hold an opponent |
| Moves.GeneralStaysHome | piece.py:470-493 | a general inside its own palace never leaves it |
| Moves.ElephantMovesSpec | piece.py:355-440 | an elephant reaches exactly the two-step diagonals on the board whose eye is free, on its own side of the river, not held by a teammate |
| Moves.ElephantOffset | piece.py:407-440 | every elephant target is a two-step diagonal whose eye is the midpoint |
| Moves.HorseUpToMembers | piece.py:763-797 | a horse reaches exactly the knight targets whose leg square is free and that are on the board and not held by a teammate |
| Moves.HorseLegBlocks | piece.py:763-797 | placing a piece on a horse's leg removes exactly the two targets behind that leg and nothing else |
| Moves.HorseTargetsDistinct | piece.py:763-797 | the eight knight offsets give eight different squares |
| Moves.RookMovesSpec | piece.py:324-350 | a rook reaches exactly the squares along a line with no piece between that are free or hold an opponent |
| Moves.CannonMovesSpec | piece.py:253-283 | a cannon reaches exactly the free squares along a clear line and the opponents behind exactly one screen |
| Moves.CannonRayOneCapture | piece.py:253-283 | along each direction a cannon's targets are free squares except at most a last capture |
| Moves.PawnMovesSpec | piece.py:696-716 | a pawn reaches the square ahead, and sideways squares once across the river, when on the board and not held by a teammate |
| Moves.Destinations | piece.py:61-66 | every admissible move of any piece lands on the board and not on a teammate |
| MoveGen.AdvisorAdmissible | piece.py:202-227 | the advisor's loop returns the advisor's moves |
| MoveGen.CannonRayScan | piece.py:253-283 | the cannon's walk along one direction returns that ray's targets |
| MoveGen.CannonAdmissible | piece.py:253-283 | the cannon's four walks return the cannon's moves |
| MoveGen.RookRayScan | piece.py:324-350 | the rook's walk along one direction returns that ray's targets |
| MoveGen.RookAdmissible | piece.py:324-350 | the rook's four walks return the rook's moves |
| MoveGen.ElephantAdmissible | piece.py:407-440 | the elephant's loop returns the elephant's moves |
| MoveGen.GeneralAdmissible | piece.py:470-493 | the general's loop returns the general's moves |
| MoveGen.HorseAdmissible | piece.py:763-797 | the horse's loops return the horse's moves |
| MoveGen.AdmissibleMoves | piece.py:61-66 | the moves of the piece on a square are those of its kind and team |
| Exposure.FindGeneral | piece.py:499-512 | the scan of the mover's palace finds a square of that palace holding a general, or there is none among the scanned squares |
| Exposure.FindGeneralLast | piece.py:499-512 | when a scanned square holds a general and no square scanned after it does, that square is the one found: the last 'G' in scan order wins |
| Exposure.FindGeneralSpec | piece.py:499-512 | the scan finds a general exactly when the mover's palace holds one |
| Exposure.SeekSpec | piece.py:521-624 | a probe along a line finds the sought piece exactly when it stands on that line behind the given number of screens |
| Exposure.TowardOpponent | piece.py:609-624 | the facing-generals probe walks toward the opponent's side |
| ExposureCheck.IsGeneralExposed | piece.py:495-626 | the method returns the exposure verdict, failing when the mover has no general in its palace |
| ExposureCheck.LocateGeneral | piece.py:499-512 | the palace scan returns the general found by the search, which is the last 'G' met in scan order since each hit overwrites the previous one |
| ExposureCheck.ChariotCheck | piece.py:521-540 | the rook probe reports an enemy rook on a clear line |
| ExposureCheck.HorseCheck | piece.py:543-561 | the horse probe reports an enemy horse a knight's move away with its leg free |
| ExposureCheck.CannonCheck | piece.py:564-588 | the cannon probe reports an enemy cannon behind exactly one screen |
| ExposureCheck.PawnCheck | piece.py:592-606 | the pawn probe reports an enemy pawn ahead of or beside the general |
| ExposureCheck.FacingGeneralCheck | piece.py:609-624 | the facing probe reports a general on the same column with nothing between |
| Attacks.ChariotProbeSpec | piece.py:521-540 | the rook probe fires exactly when some enemy rook's admissible moves reach the general |
| Attacks.HorseProbeSpec | piece.py:543-561 | the horse probe fires exactly when some enemy horse's admissible moves reach the general |
| Attacks.CannonProbeSpec | piece.py:564-588 | the cannon probe fires exactly when some enemy cannon's admissible moves reach the general |
| Attacks.PawnProbeSpec | piece.py:592-606 | the pawn probe fires exactly when some enemy pawn's admissible moves reach the general |
| Attacks.FacingProbeSpec | piece.py:609-624 | the facing probe fires exactly when a general faces the mover's general on a clear column |
| Attacks.ExposureSpec | piece.py:495-626 | the test fails exactly when the mover's palace has no general; otherwise, when the general found belongs to the side to move, it is True exactly when no enemy rook, horse, cannon or pawn reaches that general and no general faces it |
| Positions.Moved | game_state.py:111-162 | moving puts the moving piece on the target, empties the origin and leaves every other square alone |
| Positions.MovedUndone | game_state.py:111-162 | putting the two saved cells back restores the board before the move |
| Positions.TryMoveSpec | game_state.py:111-162 | a move that would repeat a board for the third time or gets True from the exposure test gives no child; one that gets False gives the child with the moved board, the other side to move, the history count of that board raised by one and the piece counts after any capture |
| Polarity.TwoGeneralsExposure | piece.py:495-626 | on a board holding only the two generals, with RED's in its palace, the exposure test finds RED's general, sees no attacker, and reports it safe exactly when the generals do not face each other |
| Polarity.SafeStepRefused | game_state.py:129-138 | the RED general's step from (9, 4) to (8, 4), with the BLACK general on (0, 3), is admissible and leaves it unattacked, yet the move test refuses it |
| Polarity.FacingStepKept | game_state.py:129-138 | the step from (9, 4) to (9, 3) on the same board puts the general face to face with the BLACK one, yet the move test keeps it |
| Polarity.TryMoveIntendedSpec | game_state.py:129-138 | the move test with the intended reading keeps a move exactly when it does not repeat a board a third time and the mover's general is then neither attacked nor facing the other; it crashes exactly where the source's test does, and a kept move gives the same moved board and move |
| Polarity.IntendedKeepsSafe | game_state.py:136-138 | on the same board the intended test keeps the safe step to (8, 4) |
| Polarity.IntendedRefusesFacing | game_state.py:136-138 | on the same board the intended test refuses the step to (9, 3) into the facing check |
| Polarity.TeamWinIntendedSpec | game_state.py:236-279 | with the intended reading the opponent wins exactly when every move of the side to move leaves its general attacked; the game goes on only when some move leaves it safe, and the scan crashes only when some move crashes the exposure test |
| Positions.HistoryStaysBelowLimit | game_state.py:130-133 | while every board has been seen fewer than three times, every child keeps that so |
| Positions.OwnDestinations | game_state.py:198-234 | the targets tried from a square are exactly the admissible moves of a piece of the side to move there |
| Positions.SuccessorsSpec | game_state.py:198-234 | a child is generated exactly when some admissible move of the side to move produces it, and generation fails exactly when some move's test fails |
| Positions.SuccessorState | game_state.py:198-234 | each child comes from an admissible move, has that move applied and the other side to move, and keeps the value pack |
| Positions.TeamWin | game_state.py:236-279 | the winner is either nobody or the opponent of the side to move |
| Positions.TeamWinSpec | game_state.py:236-279 | the opponent wins exactly when every admissible move gets True from the exposure test; nobody has won only when some move gets False |
| Positions.LostHasNoChildren | game_state.py:198-279 | a lost position has no children |
| Positions.PieceValue | piece.py:632-640 | a pawn is worth 20 exactly when it has crossed the river and 10 otherwise |
| Positions.CapturesKeepCounts | game_state.py:147-153 | when the stored piece counts match the board, the child's counts match the child's board |
| Positions.PositionValue | game_state.py:66-95 | a finite value is the material balance (RED positive, BLACK negative); an infinite value means the side to move has lost, -inf for RED and +inf for BLACK |
| Positions.InfiniteValueSpec | game_state.py:66-95 | the value is infinite exactly when every admissible move of the side to move gets True from the exposure test |
| GameStates.GameState.constructor | game_state.py:20-40 | a new game state holds the given fields and empty caches |
| GameStates.GameState.Initial | game_state.py:289-308 | the new game state object holds the opening position: RED to move, 16 pieces each, material balance 0, the opening board seen once, caches empty |
| GameStates.GameState.Restore | game_state.py:111-162 | moving the piece back restores the board |
| GameStates.GameState.GenerateWithMove | game_state.py:111-162 | the in-place move, test and undo return the child that the move gives and leave the board as it was unless the test fails |
| GameStates.GameState.ChildrenOfPiece | game_state.py:198-234 | trying one piece's moves in order gives the children of those moves |
| GameStates.GameState.SquareChildren | game_state.py:198-234 | the children from one square are those of its admissible moves |
| GameStates.GameState.GenerateAll | game_state.py:198-234 | the scan of all squares returns the game state's children and leaves the board unchanged |
| GameStates.GameState.AnyLiveMove | game_state.py:236-279 | trying one piece's moves finds a move that gets False from the test, if any |
| GameStates.GameState.SquareLive | game_state.py:236-279 | the search from one square is that of its admissible moves |
| GameStates.GameState.GetTeamWin | game_state.py:236-279 | the scan returns the winner of the game state |
| GameStates.GameState.MaterialBalance | game_state.py:66-95 | the sum over the board is the material balance |
| GameStates.GameState.GameStateValue | game_state.py:66-95 | the computed value is the value of the game state |
| GameStates.GameState.Value | game_state.py:43-50 | the value property returns the value of the game state and caches it; once cached it returns the cache |
| GameStates.GameState.AllChildGamestates | game_state.py:54-60 | the property returns the children and caches them; once cached it returns the cache |
| Opening.InitialPosition | game_state.py:289-308 | the opening has RED to move, 16 pieces each, material balance 0, and a history holding the opening board once |
| Opening.InitialCounts | game_state.py:289-308 | the opening board holds 16 RED and 16 BLACK pieces and has material balance 0 |
| Opening.OpeningCount | game_state.py:289-308 | any board laid out as the opening holds 16 pieces of each team |
| Opening.OpeningMaterial | game_state.py:289-308 | any board laid out as the opening has material balance 0 |
| Ordering.SortByKey | node.py:102-106 | sorting by a value key gives a permutation in ascending or descending key order |
| MinimaxSpec.FullWindowExact | node.py:75-137 | with the full window the fail-soft bound is the exact value |
| MinimaxSpec.FoldDone | node.py:98-137 | folding the children's values succeeds exactly when every child's value does |
| MinimaxSpec.FoldBound | node.py:98-137 | no child's value beats the folded best value |
| MinimaxSpec.FoldAttained | node.py:98-137 | the folded best value is some child's value, or the starting -inf/+inf |
| MinimaxSpec.FoldSub | node.py:98-137 | folding fewer children never gives a better value |
| MinimaxSpec.SameValuesSameFold | node.py:98-137 | the folded value depends only on the set of children's values, not on their order |
| MinimaxSpec.MinimaxOverChildren | node.py:89-137 | any list holding the same children as the generated ones gives the same minimax value |
| MinimaxSpec.Best | node.py:98-137 | the best of a list of child values is one of them and no value in the list beats it; the empty list gives -inf for the maximiser and +inf for the minimiser |
| MctsSpec.Worse | node.py:237-247 | worst_child becomes the first result, then the lower of two with RED to move and the higher with BLACK to move |
| MctsSpec.Update | node.py:237-247 | one update adds a visit and the result to the rating and sets worst_child |
| MctsSpec.ReplayCounts | node.py:237-247 | after several updates the visit count grows by their number and the rating by their sum |
| MctsSpec.ReplayWorst | node.py:237-247 | on a fresh node worst_child is unset until the first update, then the lowest result with RED to move and the highest with BLACK to move |
| MctsSpec.Q | node.py:187-190 | q is the negated rating with RED to move and the rating with BLACK to move |
| MctsSpec.QUpdate | node.py:187-190 | one update moves q by the result, against the side to move |
| MctsSpec.ScoreValue | node.py:249-264 | a finite value below 1000 in size scales into the open interval (-1, 1), and 0 stays 0 |
| MctsSpec.TerminalIsLoss | node.py:249-264 | at the end of the game the value is 0 or a loss for the side to move, and a loss exactly when the opponent wins |
| MctsSpec.TerminalEnd | node.py:249-264 | at the end of the game the value is a loss for the side to move exactly when every admissible move gets True from the exposure test |
| MctsSpec.TerminalAgrees | node.py:249-264 | an infinite static value gives the same result as the end-of-game evaluation |
| MctsSpec.Var1Spec | node.py:279-297 | VAR1 keeps the first draw of the highest value, or none when all are -inf |
| MctsSpec.Var1KeepsUnique | node.py:279-297 | only one draw fits that description |
| SearchTrees.Var1Select | node.py:279-297 | VAR1's loop over the drawn entries returns the draw the description fixes, or fails when a drawn entry's value fails |
| SearchTrees.ValueKeys | node.py:300-318 | the computed keys are the entries' values, or fail when one of them fails |
| SearchTrees.SortedEntries | node.py:300-318 | entries sorted by their value keys are in value order |
| SearchTrees.NoChildren | node.py:43-48 | a generated node has no children exactly when its game state has none |
| SearchTrees.ChildrenAreSuccessors | node.py:28-48 | a generated node's children are made from exactly its game state's children |
| SearchTrees.ChildrenMinimax | node.py:89-137 | folding over a generated node's children gives its position's minimax value |
| SearchTrees.PermutedOk | node.py:102-106 | reordering a generated node's children keeps the tree well formed |
| SearchTrees.SearchTree.constructor | node.py:14-24 | a new tree holds the root node with no parent, no children and fresh statistics |
| SearchTrees.SearchTree.CachedChildStates | game_state.py:54-60 | a node's cached child list is computed on first read, then returned unchanged; it holds its game state's children |
| SearchTrees.SearchTree.CreateNode | node.py:139-141 | a new node of the parent's subclass is appended for one child entry, with the parent and the move recorded |
| SearchTrees.SearchTree.AppendChildren | node.py:28-41 | one new node per child entry is appended, in order, under the parent |
| SearchTrees.SearchTree.GetAllChildren | node.py:28-41 | the node's cached child list gets one new node per entry, or generation fails and nothing changes |
| SearchTrees.SearchTree.GenerateAllChildren | node.py:43-48 | the first call stores the new children and marks the node generated; later calls return the stored children unchanged |
| SearchTrees.SearchTree.SortChildren | node.py:102-106 | the children are reordered by value and marked sorted, or a value fails and nothing changes |
| SearchTrees.SearchTree.Leaf | node.py:80-84 | at depth 0 the node's value is its game state's value, stored on the node |
| SearchTrees.SearchTree.Minimax | node.py:75-137 | the result is stored on the node, is the value at depth 0, is -inf/+inf for a position without children, and is a fail-soft alpha-beta bound on the minimax value; nodes outside the subtree are untouched and the children are sorted once |
| SearchTrees.SearchTree.Expand | node.py:86-137 | generating the children and searching them gives a fail-soft bound on the position's value |
| SearchTrees.SearchTree.Branch | node.py:89-137 | a node without children gets -inf with RED to move and +inf with BLACK to move, otherwise the search of its children |
| SearchTrees.SearchTree.Search | node.py:98-137 | the children are sorted once and scanned by the side to move, giving a fail-soft bound on the fold of their values |
| SearchTrees.SearchTree.MaxChildren | node.py:98-116 | the maximising scan visits the children in order and stops right after the first one whose value closes the window (beta <= alpha); the result is the highest of the values the visited children returned, each visited child stores its returned value, the children after the cut keep their old statistics, and the result is a fail-soft bound on the best child value |
| SearchTrees.SearchTree.MinChildren | node.py:119-137 | the minimising scan visits the children in order and stops right after the first one whose value closes the window (beta <= alpha); the result is the lowest of the values the visited children returned, each visited child stores its returned value, the children after the cut keep their old statistics, and the result is a fail-soft bound on the lowest child value |
| SearchTrees.SearchTree.Visit | node.py:109-113 | searching one child stores its value on it and bounds its minimax value |
| SearchTrees.SearchTree.BestMove | node.py:143-154 | a child is returned exactly when some child has the node's stored value, and it is such a child; when the stored value is one a child holds (as a search of depth > 0 on a node with children leaves it) one is always returned, while a childless or leaf-valued node gives none |
| SearchTrees.SearchTree.UpdateStat | node.py:237-247 | the node's statistics take one update with the result, and nothing else changes |
| SearchTrees.SearchTree.Backpropagate | node.py:336-345 | the node and each of its ancestors take one update with the result, and no other node changes |
| SearchTrees.SearchTree.TerminateValue | node.py:249-264 | the value at the end of a rollout is the terminal value of the node's position |
| SearchTrees.SearchTree.RandomPolicy | node.py:271-276 | RANDOM fails exactly when generation fails, gives nothing exactly when there are no children, and otherwise appends a node for the drawn child |
| SearchTrees.SearchTree.Var1Policy | node.py:279-297 | VAR1 fills the node's child list on first use and keeps an existing one; it appends a fresh node for the draw it keeps, with the node recorded as parent, and changes nothing else; it gives nothing and appends nothing when all draws are -inf or there are no children, and fails when generation or a drawn value fails |
| SearchTrees.SearchTree.SortCached | node.py:300-308 | the cached child list is sorted by value, highest first, and marked sorted, or a value fails and nothing changes |
| SearchTrees.SearchTree.SortedChildStates | node.py:300-308 | the cached child list is filled on first use and holds the position's children; it is sorted by value, highest first, and marked sorted the first time, then kept as it is; nothing but that node's cache and sorted flag changes |
| SearchTrees.SearchTree.AdvanceIndex | node.py:310-312 | rollout_index moves on by one and stops at the last entry |
| SearchTrees.SearchTree.Var2Policy | node.py:300-318 | VAR2 sorts the child list by value, highest first, once, then appends a fresh node for the next entry in that order, staying on the last one; rollout_index moves on by one and stops at the last entry; the visit statistics, the node's children and its generated flag are unchanged, and without a child nothing but the cache changes |
| SearchTrees.SearchTree.RolloutPolicy | node.py:266-318 | a policy appends one child of the node or nothing; an unknown policy name changes nothing |
| SearchTrees.SearchTree.Rollout | node.py:320-334 | the rollout descends at most the target number of steps and returns the terminal value of the last node, as end of game when it stopped early |
| SearchTrees.SearchTree.TotalIsInterior | node.py:89-137 | the fold of a node's children's values is its position's minimax value |

## Left out

- The graphical interface, `main.py`, the game-tree driver (`game_tree.py`) with its threads, and the per-piece files (`advisor.py`, `cannon.py` and the rest): the move rules they hold are those of the classes in `piece.py`, which are modelled.
- Value packs 1 and 2 (`piece_value_moded.py`) and the position tables they use: they compute in floating point. Every value operation requires value pack 0.
- The Rook's `_control_pos_count`: it only feeds value pack 2.
- Floating point: the MCTS results and ratings are exact `real`s, and `value / 1000` is an exact quotient; `inf` and `-inf` are the `PosInf` and `NegInf` scores.
- The UCT formula and the MCTS `best_move` (`node.py:207-231`, `node.py:347-363`): they need `log` and `sqrt` on floats.
- The excavation search (`node.py:366` onward).
- Randomness: `random.choice`, `random.randint` and `shuffle` become `pick` and `draw` parameters. RANDOM draws one entry of the full child list by index, where `generate_random_game_state` shuffles the squares and their moves and takes the first legal one; both choose a child of the position, but the distribution is not modelled.
- Python's `hash` of the board: the move history is keyed by the board itself.
- Sort stability: `list.sort` is stable; `Ordering.SortByKey` promises only a permutation in key order.
- Object sharing: in the source a child node and a rollout node can share a `GameState` object, and so its cached child list, with the node it came from. Here each node carries its own cache, and the game state's cached value is recomputed rather than stored in the tree.
- The piece-level `admissible_moves` cache: the moves are recomputed on every call.
- The policy name is a datatype: any name other than RANDOM, VAR1 and VAR2 is `Unnamed`.
- SearchTrees.SearchTree.BestMove: returns `None` when no child has the node's value, where `random.choice` raises on an empty list.
- SearchTrees.SearchTree.RandomPolicy: fails exactly when generating the full child list fails, where `generate_random_game_state` tries moves one at a time in shuffled order and fails only when a move that makes the exposure test fail comes before every accepted move; the two differ only when some move empties the mover's palace of generals while another is accepted, which needs a general outside its own palace (for instance RED to move with the BLACK general on (8, 4), the RED general on (0, 3), a RED rook on (8, 0) and a BLACK rook on (5, 4): the rook capture on (8, 4) fails while the general's step to (1, 3) is accepted), which the rules of play never produce.
- SearchTrees.SearchTree.Rollout: states the last node's depth and terminal value, not which policy choice was made at each step; the per-step choices are stated by `RolloutPolicy` and the three policy methods.
- SearchTrees.SearchTree.RolloutPolicy: states only that one child of the node is appended; what each policy appends is stated by `RandomPolicy`, `Var1Policy` and `Var2Policy`.

## Findings

| source | as written | input that shows it | evidently intended | confidence | as-written member | corrected member |
|---|---|---|---|---|---|---|
| game_state.py:136-138 | the move is refused when `is_general_exposed` returns True, which it does when the general is safe, and kept when it returns False, which it does when the general is attacked | RED to move, RED general on (9, 4), BLACK general on (0, 3), nothing else: the step to (8, 4) is refused and the step to (9, 3), into the facing generals, is kept | refuse the moves that leave the mover's general attacked and keep the others | not executed | Polarity.SafeStepRefused, Polarity.FacingStepKept | Polarity.TryMoveIntended (Polarity.TryMoveIntendedSpec, Polarity.IntendedKeepsSafe, Polarity.IntendedRefusesFacing) |
