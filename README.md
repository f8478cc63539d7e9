# Abalone rule engine and Monte Carlo tree search bookkeeping, in Dafny

This project models the core of `Abalone_V2.py`, an Abalone game with a Monte
Carlo tree search player, and proves properties of that model.

**The `Board` rule engine.**
- A position is a 9×9 grid of white and black marbles, empty cells and cells
  off the hexagon (`W`, `B`, `E`, `X`), plus the side to move, the winner flag
  and the terminal flag.
- The rules are written twice:
  - as functions of the grid (modules `Grid`, `Directions`, `CellSort`,
    `Chains`, `Rules`, `Scoring`);
  - as the class `Boards.Board`, whose methods rebuild and overwrite the
    scratch grid `board` step by step, as the engine does. Each method is
    proved to compute what the functions describe.
- Grid reads follow Python list indexing on a 9×9 list of lists:
  - an index from -9 to 8 is accepted, and a negative index counts from the
    end of the list;
  - any other index raises, which the model turns into `None`.
- The properties are proved in separate modules:
  - the outcome tables of `chain`, `soloMove`, `lineMove`, `arrowMove` and
    `action` (`Chains`, `LineFacts`, `ArrowFacts`);
  - which cells a move writes (`MoveFacts`);
  - what a push does to the marble counts (`PushFacts`);
  - the game-over flag of a successor position (`Children`).

**The engine as written, not textbook Abalone:**
- `chain` accepts bent triples.
- An accepted push applies only the attacker's one-step shift. The `len(lm) == 4`
  test never matches the five-element push result, so the front opposing
  marble is overwritten rather than pushed.
- Broadsides to the east or west never succeed.
- `winner` fires when exactly six marbles are out.

**The `MCTS_V2` search (module `Search`).**
- The class `Search.Mcts` keeps the maps `N` (visits), `Q` (rewards) and
  `children`.
- It is generic in the node type. The game enters only through two functions
  of a node, its successor set and its terminal test.
- The playout's reward is a parameter of `DoRollout`.
- `_uct_select` is "some child", under the precondition the source asserts.
- The class invariant has two parts:
  - every expanded node has been visited at least once;
  - every node's reward lies between 0 and its visit count.
- A rollout keeps the invariant, so the assertion and the divisions of the
  UCT score never fail on a node that `_select` reaches.

## Model

| member | source | states |
|---|---|---|
| Grid.PyIndex | Abalone_V2.py:411-414 | an index is accepted exactly when it lies in -9..8; a negative one counts from the end of the row list |
| Grid.Norm | Abalone_V2.py:411-412 | an accepted index pair denotes a cell of the 9×9 grid, and an on-grid pair denotes itself (so a row-0 marble moving north reads row 8) |
| Grid.Read | Abalone_V2.py:308-311 | `board[r][c]` gives a value exactly when both indices are accepted, and that value is the cell the wrapped pair denotes |
| Grid.Write | Abalone_V2.py:438-442 | an assignment `board[r][c] = v` changes the one cell the pair denotes and no other |
| Grid.TupToList | Abalone_V2.py:148-150 | the scratch grid is a row-by-row copy of the position |
| Directions.ExistingDirection | Abalone_V2.py:193-199 | a name is accepted exactly when it is one of the six table names |
| Directions.Vector | Abalone_V2.py:19-25 | every table direction is a unit step in each coordinate and not zero |
| Directions.NegationClosed | Abalone_V2.py:19-25 | the opposite of every table direction is again in the table |
| Directions.VectorsDistinct | Abalone_V2.py:19-25 | different names give different vectors |
| Directions.Aligned | Abalone_V2.py:201-210 | two vectors are aligned exactly when the second equals the first or its negation |
| CellSort.Insert | Abalone_V2.py:239 | inserting into a sorted list keeps it sorted and adds exactly that element |
| CellSort.SortCells | Abalone_V2.py:239 | `list.sort()` on pairs: lexicographically sorted, and a permutation of the input |
| CellSort.SortedUnique | Abalone_V2.py:239 | two sorted lists holding the same elements are equal |
| CellSort.SortPermutation | Abalone_V2.py:239 | the sorted result depends only on the elements, not their order |
| CellSort.SortSorted | Abalone_V2.py:239 | sorting a sorted list leaves it unchanged |
| Chains.FindVector | Abalone_V2.py:244-246 | the scan of the direction table finds a vector exactly when the difference of the two cells is a table vector, and then it is that difference |
| Chains.StepBetweenSorted | Abalone_V2.py:244-246 | between sorted neighbours the difference is a table vector exactly when it is NW, NE or W |
| Chains.FindVectorTable | Abalone_V2.py:244-246 | the scan over all six names succeeds exactly when the difference is a table vector |
| Chains.ChainFromSorted | Abalone_V2.py:236-248 | on a sorted group, `chain` answers the last pair's vector when every neighbour pair is one table step apart, else `marblesChainError`; one cell answers the vector carried in |
| Chains.Carry | Abalone_V2.py:240-246 | the vector handed to the next call exists exactly when the first pair is one table step apart, and it is that step |
| Chains.ChainFromUnfold | Abalone_V2.py:236-248 | on a sorted group one call of `chain` passes the carried or looked-up vector to the rest, or answers `marblesChainError` |
| Chains.ChainOutcome | Abalone_V2.py:229-248 | more than three cells is `lengthChainError`, one cell is `None`, otherwise the sorted group must be linked and the answer is its last step, which is NW, NE or W |
| Chains.ChainPermutation | Abalone_V2.py:239 | `chain`'s answer does not depend on the order of its input |
| Chains.BentTriple | Abalone_V2.py:244-246 | a bent triple, with a W step and then an NE step, passes `chain` |
| Chains.BentLinked | Abalone_V2.py:244-246 | the triple (1,1), (1,2), (2,2) is sorted and each neighbour pair is one table step apart |
| Rules.ColorFromMeaning | Abalone_V2.py:212-227 | `colored` is True exactly when every cell holds a marble of the colour; `caseWithoutMarbleError` names a cell without a marble, `wrongColorError` a marble of the other colour |
| Rules.SortOnGrid | Abalone_V2.py:239 | sorting a group of grid cells gives grid cells |
| Rules.SoloOutcome | Abalone_V2.py:397-428 | `soloMove` succeeds only for one marble whose target reads `E`, and then moves it one step |
| Rules.ScanFront | Abalone_V2.py:280-294 | the scan ends on a member whose key along the move is the largest of the group |
| PushFacts.ScanKeepsFirst | Abalone_V2.py:280-294 | the scan keeps its start when every later member is strictly behind it |
| PushFacts.ScanTakesLast | Abalone_V2.py:280-294 | the scan ends on the last member when it is strictly ahead of all others |
| Rules.FrontOf | Abalone_V2.py:274-294 | `lastMarble` is a member of the group |
| Rules.Shift | Abalone_V2.py:318-320 | the new positions are the members, each moved by the move vector, in order |
| Rules.BeyondReadable | Abalone_V2.py:322-345 | once the look-ahead succeeded, every cell of the opposing run can be read, so the loop of lines 341-345 never raises |
| Rules.StepOutcome | Abalone_V2.py:307-352 | an accepted step moves every member and reads an indexable cell in front; a plain move had `E` there, a push a marble of the other colour |
| Rules.PushedRun | Abalone_V2.py:337-349 | the opponents a push returns are the opposing run, sorted when it has two or three cells, as the nested `lineMove` leaves it |
| Rules.InlineOutcome | Abalone_V2.py:296-352 | after the edge guards, the same as the step, with the front as `lineMove` picks it |
| Rules.AlongSize | Abalone_V2.py:263-272 | a group `chain` links has two or three marbles |
| Rules.AlongOutcome | Abalone_V2.py:274-354 | on a linked group, success implies the move is aligned with the chain, and the new positions are the sorted group shifted |
| Rules.LineOutcome | Abalone_V2.py:250-354 | `lineMove` succeeds only on a chain aligned with the move; it moves the sorted group one step, onto indexable cells; a push has an opposing marble in front |
| Rules.ArrowTargetOnGrid | Abalone_V2.py:374-375 | a marble that passes the guard of line 374 has its target on the grid |
| Rules.ArrowFromTargets | Abalone_V2.py:373-393 | an accepted loop returns the whole group as old positions and on-grid targets |
| Rules.ArrowOutcome | Abalone_V2.py:356-395 | an accepted broadside is a plain move of the group onto cells of the grid |
| Rules.Targets | Abalone_V2.py:438-442 | each written pair denotes the wrapped cell of the grid |
| Rules.WriteFrom | Abalone_V2.py:438-442 | a writing loop sets exactly the listed cells to the value and leaves every other cell alone |
| Rules.ApplyMove | Abalone_V2.py:430-442 | after `updateBoard` the new cells hold the colour of the first old cell, the other old cells are empty, and nothing else changes |
| MoveFacts.LinkedMonotone | Abalone_V2.py:239-246 | members of a sorted linked group never decrease in row or column |
| MoveFacts.FrontAhead | Abalone_V2.py:274-294 | no member is ahead of `lastMarble` in any coordinate the move changes: not above it where the move increases the coordinate, not below it where the move decreases it |
| MoveFacts.ShiftIndexable | Abalone_V2.py:318-320 | if the front can step, every member can |
| MoveFacts.LineTargetsIndexable | Abalone_V2.py:318-320 | every new position of an accepted line move can be indexed, so `updateBoard` does not raise |
| MoveFacts.DecideWritable | Abalone_V2.py:465-486 | a move `action` accepts has on-grid old cells and indexable new cells |
| MoveFacts.FirstSuccessWritable | Abalone_V2.py:465-486 | the shape `action` applies has the sorted group as old positions and indexable new positions |
| MoveFacts.Applied | Abalone_V2.py:444-488 | a refused move leaves the grid unchanged |
| MoveFacts.AppliedDecided | Abalone_V2.py:468-484 | an accepted move is applied by `updateBoard` on its old and new positions, all of which can be indexed |
| LineFacts.LineTable | Abalone_V2.py:263-272 | `lineMove` answers `chainError` to a group `chain` refuses and `soloMarbleInfo` to one marble |
| LineFacts.LineAligned | Abalone_V2.py:274-354 | on a chain, `nonAlignedError` unless the move is aligned; otherwise the inline step on the sorted group |
| LineFacts.InlineTable | Abalone_V2.py:307-352 | past the edge guards the cell in front decides: raising index, `X`, own colour, `E`, or a push refused with `NonEmptyError` exactly when the look-ahead reads `X` |
| LineFacts.DecideRefuses | Abalone_V2.py:454-463 | `action` returns False when a cell is not the mover's marble, when the name is not a direction, or when `chain` refuses the group |
| LineFacts.DecideTries | Abalone_V2.py:463-467 | past those checks `action` tries the shapes on the sorted group |
| LineFacts.AdmissiblePasses | Abalone_V2.py:455-463 | a group of the mover's colour, a known direction and a linked group of one to three cells pass all three checks of `action` |
| LineFacts.DecideTable | Abalone_V2.py:444-488 | `action` accepts exactly when the checks pass and one shape accepts; an accepted line move takes priority, then a broadside |
| Counting.CountChange | Abalone_V2.py:637-640 | two grids that differ in one cell have counts that differ by that cell alone |
| Scoring.MarblesOut | Abalone_V2.py:625-642 | `opposingMarblesOut(c)` is 14 minus the number of cells of the other colour (`W` for `B`, `B` otherwise) |
| Scoring.WinnerMeaning | Abalone_V2.py:700-713 | `winner` is decided exactly when one side has eight marbles left (six out, not seven); Black's losses are checked first; True means the side to move took the sixth marble |
| Scoring.Reward | Abalone_V2.py:715-726 | on the stored flag: an error on a non-terminal board or a board the side to move has won; 0 after a loss, 1/2 for a draw; always within [0, 1] |
| Scoring.RewardAsWritten | Abalone_V2.py:715-726 | on the bound method that shadows the field, no board has a reward; a terminal board raises the unknown-winner error |
| PushFacts.StraightFront | Abalone_V2.py:274-294 | on a straight chain the front is the first or the last sorted member, by the move's sense |
| PushFacts.KeyStep | Abalone_V2.py:280-294 | one step back along the chain lowers the scan key of the move along it and raises the key of the opposite move |
| PushFacts.AlongStepShift | Abalone_V2.py:318-320 | moved along its step, each member of a straight chain after the first lands on its predecessor, and every target is indexable |
| PushFacts.AgainstStepShift | Abalone_V2.py:318-320 | moved against its step, each member but the last lands on its successor, and every target is indexable |
| PushFacts.TargetsAlongStep | Abalone_V2.py:318-320 | a straight chain moved along its step covers the front target and all members but the last |
| PushFacts.TargetsAgainstStep | Abalone_V2.py:318-320 | moved against its step, it covers all members but the first and the front target |
| PushFacts.TwoCellCounts | Abalone_V2.py:430-442 | a tail emptied and an opposing cell taken: the opponent has one marble fewer, the mover the same |
| PushFacts.TwoCellMove | Abalone_V2.py:430-442 | `updateBoard` with those old and new positions changes exactly those two cells |
| PushFacts.PushAlongStep | Abalone_V2.py:318-320 | a push along the chain's step, applied by `updateBoard`, keeps the mover's count and takes one opposing marble |
| PushFacts.PushAgainstStep | Abalone_V2.py:318-320 | the same for a push against the chain's step |
| PushFacts.LinePushFacts | Abalone_V2.py:322-352 | an accepted push on a straight sorted chain moves along the chain, and an opposing marble stands in front |
| PushFacts.LinePushTarget | Abalone_V2.py:307-318 | the cell in front of a pushing line can be indexed and holds the opponent's colour |
| PushFacts.PushedNeighbour | Abalone_V2.py:307-318 | a neighbour that is neither off the board, `X`, empty nor the front marble's colour is the opponent's |
| PushFacts.PushCount | Abalone_V2.py:322-352 | the push applied to the grid leaves the mover's count unchanged and the opponent's one lower |
| PushFacts.DecidedPush | Abalone_V2.py:463-484 | a push that `action` accepts comes from `lineMove` on the sorted group, by a mover whose marbles these are |
| PushFacts.PushCounts | Abalone_V2.py:483-484 | after `action(..., update=True)` accepts a push by a straight chain, the opponent has exactly one marble fewer and the mover none fewer |
| ArrowFacts.GuardedTargets | Abalone_V2.py:373-390 | the broadside collects no target exactly when no member passes the guard of line 374, and never more targets than members |
| ArrowFacts.ArrowFromTable | Abalone_V2.py:373-395 | the loop succeeds exactly when some marble passes the guard and every guarded marble's target is empty; the targets are those of the guarded marbles |
| ArrowFacts.ArrowFromMoved | Abalone_V2.py:373-392 | an accepted loop moves the group onto the targets collected so far followed by those of the guarded rest |
| ArrowFacts.ArrowRefusal | Abalone_V2.py:376-389 | a guarded member that cannot step is refused with `allyPresenceError`, `outLimitError` or `outOfRange`, the last exactly when an opposing marble stands on its target |
| ArrowFacts.ArrowFromUnguarded | Abalone_V2.py:373-395 | with no guarded member left, the loop answers the targets collected so far, or `notAnArrowMoveError` if there are none |
| ArrowFacts.ArrowFromFirstFail | Abalone_V2.py:373-389 | the first guarded member that cannot step decides the loop's refusal |
| ArrowFacts.ArrowRefusals | Abalone_V2.py:356-395 | on two or more marbles, a broadside with no guarded member is `notAnArrowMoveError`, and otherwise the first failing guarded member gives the reason |
| ArrowFacts.ArrowTopRow | Abalone_V2.py:374 | a NW broadside of marbles all on row 0 is `notAnArrowMoveError` |
| ArrowFacts.ArrowTable | Abalone_V2.py:356-395 | one marble is `singleMarbleInfo`; otherwise the same table for the whole group |
| ArrowFacts.NoGuardEastWest | Abalone_V2.py:374 | no marble passes the guard for `E` or `W` |
| ArrowFacts.ArrowNeverEastWestLoop | Abalone_V2.py:373-395 | for `E` or `W` the loop ends in `notAnArrowMoveError` |
| ArrowFacts.ArrowNeverEastWest | Abalone_V2.py:356-395 | a broadside east or west never succeeds |
| ArrowFacts.SoloTable | Abalone_V2.py:397-428 | the whole table of `soloMove`: empty target moves, `X` is `outLimitError`, own colour or a raising index is `allyPresenceError`, the other colour `opponentMoveError`, other sizes `notAsingleMarbleError` |
| ArrowFacts.BroadsideFromMovesAll | Abalone_V2.py:373-393 | the corrected loop moves every member, each onto an empty cell |
| ArrowFacts.BroadsideMovesAll | Abalone_V2.py:373-393 | an accepted corrected broadside moves the whole group one step onto empty cells |
| ArrowFacts.ArrowDropsMarble | Abalone_V2.py:373-393 | as written White loses a marble by its own accepted move; the corrected broadside refuses it. Its steps are the `Pair…` lemmas of the same module |
| Children.ChildWinner | Abalone_V2.py:670-681 | the child's own verdict is decided exactly when a side has eight marbles left on the new grid; False means the side now to move has lost six |
| Children.StaleWinner | Abalone_V2.py:670-681 | a push taking the opponent's sixth marble ends the game with reward 0 for the side to move, while the flag as written says the game goes on |
| Boards.ScanFrontLoop | Abalone_V2.py:280-294 | the scan loop computes the scan's front |
| Boards.FrontMarble | Abalone_V2.py:274-294 | `lastMarble` is the front of the group in the move's direction |
| Boards.ShiftLoop | Abalone_V2.py:318-320 | the loop builds every member moved one step |
| Boards.ShiftAppend | Abalone_V2.py:318-320 | shifting one more member appends its target |
| Boards.Board.constructor | Abalone_V2.py:144-146 | a position holds the grid, side to move, winner and terminal flag it was built with |
| Boards.Board.Reset | Abalone_V2.py:148-150 | the scratch grid becomes the position's grid |
| Boards.Board.Colored | Abalone_V2.py:212-227 | `colored` returns what the colour check prescribes and leaves the scratch grid equal to the position |
| Boards.Board.SoloMove | Abalone_V2.py:397-428 | `soloMove` returns the solo outcome |
| Boards.Board.OpposingRun | Abalone_V2.py:341-345 | the loop collects the opposing run in front, stopping at an empty cell |
| Boards.Board.Step | Abalone_V2.py:307-352 | the step past the front returns the step outcome |
| Boards.Board.Inline | Abalone_V2.py:296-352 | the edge guards and the step return the inline outcome |
| Boards.Board.LineMove | Abalone_V2.py:250-354 | `lineMove` returns the line outcome |
| Boards.Board.ArrowMove | Abalone_V2.py:356-395 | `arrowMove` returns the broadside outcome |
| Boards.Board.UpdateBoard | Abalone_V2.py:430-442 | `updateBoard` leaves in the scratch grid the move applied to the position |
| Boards.Board.Action | Abalone_V2.py:444-488 | `action` returns the move name exactly when the move is accepted; with `update` the scratch grid holds the applied move, otherwise the position |
| Boards.Board.OpposingMarblesOut | Abalone_V2.py:625-642 | the double loop computes 14 minus the other colour's count |
| Boards.Board.Winner | Abalone_V2.py:700-713 | `winner()` answers the verdict for the position and the side to move |
| Boards.Board.FindChildren | Abalone_V2.py:670-681 | the child holds the grid after the move, the other side to move, and as winner the verdict of the parent's grid with the parent to move; terminal exactly when that verdict is decided |
| Search.BumpNCount | Abalone_V2.py:95-100 | each occurrence of a node on the path adds one visit, and nothing else changes |
| Search.BumpQUntouched | Abalone_V2.py:95-100 | a node off the path keeps its reward |
| Search.BumpQAlternates | Abalone_V2.py:95-100 | on a path without repeats the reward alternates r, 1 - r, ... from the leaf up |
| Search.BumpBounds | Abalone_V2.py:95-100 | with r in [0, 1], 0 ≤ Q ≤ N is kept for every node |
| Search.Mcts.constructor | Abalone_V2.py:32-36 | the maps start empty and the invariant holds |
| Search.Mcts.Choose | Abalone_V2.py:38-50 | terminal raises, unexpanded falls back to a random play, no children raises; otherwise a child of maximal score (−∞ when unvisited, else Q + N) |
| Search.Mcts.UctSelect | Abalone_V2.py:102-113 | under the assertion of line 106 and positive visit counts, the choice is a child of the node |
| Search.Mcts.Select | Abalone_V2.py:60-75 | the path starts at the node, walks down expanded children, and the walk is finished exactly when it ends at an unexpanded or childless node (otherwise the fuel ran out) |
| Search.Mcts.Expand | Abalone_V2.py:77-82 | an expanded node keeps its entry; otherwise its successors are recorded; the counts do not change |
| Search.Mcts.Backpropagate | Abalone_V2.py:95-100 | the visit and reward maps become those of the path walked from leaf to root |
| Search.Mcts.DoRollout | Abalone_V2.py:52-58 | along the walk `_select` took down the old tree, which is finished exactly when it ends at an unexpanded or childless node, N and Q are bumped as by `_backpropagate`; only the leaf may gain an entry in `children`, its successors; the invariant (every expanded node visited, 0 ≤ Q ≤ N) holds, and the root is expanded and visited once more |

## Left out

- `displayBoard`, `play_game`, `new_abalone_board` and the command-line driver: console rendering and a game loop.
- `randomPlay`, `find_random_child` and `_simulate`: they are driven by `random.choice`. `DoRollout` takes the playout's reward as a parameter in [0, 1]. As written, `_simulate` returns an undefined name.
- `legal_plays` and `possibleChainsFromPoint`: the successor set is a function the search receives.
- The UCT score of `_uct_select` (logarithm, square root, floating point) and the exploration coefficient: only "some child" is kept, under the precondition the score needs.
- `list_to_tup` yields a generator, not a tuple. A child's grid is modelled as the updated grid value.
- The nested `soloMove`/`lineMove` calls with `opponent=True` in the push branch: their results are discarded. They rebuild the scratch grid, and the nested `lineMove` sorts a run of two opponents in place through `chain`. The model keeps only that sort (`Rules.PushedRun`), not the calls.
- Search.Mcts.Select: takes a `fuel` bound on the number of descents. The source loop is unbounded and loops forever on a cycle of expanded nodes.
- Search.Mcts: the node type must have equality and no heap references. Node hashing and `defaultdict` insertion on read are not modelled; a missing key reads as zero, which is what the source observes.
- Boards.Board: requires the groups it receives to be cells of the 9×9 grid and the side to move to be `W` or `B`. Every caller passes such values; other values make the source raise or wrap.
- Chains.Chain: `chain` sorts the caller's list in place; the model returns values, and `action` passes the sorted group on explicitly.
- Chains.Chain, Rules.Decide, Boards.Board.Action and Boards.Board.FindChildren: require a non-empty group. No caller passes an empty one, and on an empty group the source raises `IndexError` at `marblesArray[0]` in `chain` after `colored` accepts it; that crash is not modelled.

## Findings

| source | as written | input that shows it | evidently intended | confidence | as-written member | corrected member |
|---|---|---|---|---|---|---|
| Abalone_V2.py:715-726 | `reward` branches on `self.winner`, which is the `winner` method shadowing the namedtuple field, so every terminal board raises "unknown winner type" | any terminal board | branch on the stored True/False/None flag | not executed | Scoring.RewardAsWritten | Scoring.Reward |
| Abalone_V2.py:373-393 | a marble the broadside guard stops is left out of the new positions, yet `updateBoard` empties every old cell | White on (0,1) and (1,1), (0,0) empty, moved NW | refuse the move when a member cannot step | not executed | ArrowFacts.ArrowDropsMarble | ArrowFacts.BroadsideMovesAll |
| Abalone_V2.py:670-681 | `winner()` rebuilds the scratch grid from the parent position and uses the parent's turn, so the child's flag describes the parent | White to move, nine black marbles, a straight push that takes one | the child's verdict on its own grid, with the child to move | not executed | Children.StaleWinner | Children.ChildWinner |

The `Board` class follows the source as written. The corrected members stand
beside it with their properties proved.
