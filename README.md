# Line-painting puzzle: the brush, the drawn connections and the win check

This project models the puzzle logic of `LevelManager_paint`, the level manager
of a single-stroke line-painting game. The player moves a brush over a grid one
cell per swipe. Each swipe toggles the connection between the cell the brush
left and the cell it entered:

- a connection that is not drawn yet is appended to the list of drawn
  connections (`inProgressPattern`);
- one that is already drawn, in either direction, is removed.

After each swipe the list is compared with the level's target pattern
(`completePattern`). A level is complete when the list has as many entries as
the pattern and every target connection is drawn, ignoring direction. Then the
level index moves to the next level (0 after the last one), 15 diamonds are
added, and the game status becomes Complete.

Layout:

- `types.dfy` (`PaintTypes`): cells, connections, swipes, level data, and C# `int` wrap-around.
- `ledger.dfy` (`Ledger`): the list of drawn connections as a value.
  - Undirected matching (`Joins`, `Connected`).
  - The removal loop of `ConnectionAlreadyDone` exactly as written (`RemoveAsWritten`).
  - The add-or-remove toggle (`Toggle`).
  - The invariant that no connection is drawn twice (`NoDuplicateEdges`).
  - The edges as a set, with order and direction forgotten (`EdgeSet`).
- `completion.dfy` (`Completion`): the result of `IsLevelComplete`, and how it relates to set equality.
- `progression.dfy` (`Progression`): the level index and diamond total after a completion.
- `brush_step.dfy` (`BrushStep`): one call of `MoveBrush` as a function `SwipeStep` on a
  `PlayState` value, with the lemmas about it.
- `level_manager.dfy` (`LevelManager`): the class `LevelManagerPaint`.
  - Its fields are the list, the brush cell, and the game manager's level index, diamond total and status.
  - `Start`, `MoveBrush`, `ConnectionAlreadyDone` and `IsLevelComplete` are imperative methods.
  - Each is proved against the value-level functions above.

Three behaviours of the code are modelled as written:

- **The removal loop skips an entry.** `ConnectionAlreadyDone` calls `RemoveAt(i)` and then still
  increments `i`, so the entry that moves into slot `i` is never examined.
  - `RemoveAsWritten` keeps the entry right after each removed match.
  - `RemoveAsWrittenKeepsNeighbour` exhibits this.
  - Under `NoDuplicateEdges`, which every reachable state satisfies, `RemoveAsWrittenUnique` shows the
    loop removes exactly the one match.
- **A completion can be awarded more than once.** `MoveBrush` never reads `gameStatus`.
  - `SwipeIgnoresStatus` shows that the step's outcome does not depend on the status.
  - `CompletionCanBeAwardedTwice` shows a one-level table paying out twice after an edge is retraced
    and redrawn.
  - Whether the input layer stops swipes after a completion is outside the model, so this is not
    claimed as a defect.
- **Duplicate target edges.** The level data may list an edge twice. In that case equal counts no
  longer rule out a stray edge (`RepeatedTargetEdgeAdmitsStray`). Completion is equivalent to
  edge-set equality only when the target pattern has no duplicate edges (`CompleteIffSameEdges`).

Three behaviours one might expect are not what the code does, and the model follows the code:

- A retraced edge is not removed by deleting only its first matching entry. The code sweeps the
  whole list, with the skip described above.
- Completion is not edge-triggered: nothing stops a second award for a board that is completed
  again.
- Level data is not validated: edges need not join adjacent cells, may repeat, and the target
  pattern may be empty.

## Model

| member | source | states |
|---|---|---|
| `PaintTypes.WrapInt32` | Assets/Scripts/LevelManager_paint.cs:111 | the result is the unique 32-bit value congruent to the input modulo 2^32 (unchecked C# `int` arithmetic), and equals the input when that already fits |
| `Ledger.Joins` | Assets/Scripts/LevelManager_paint.cs:129-130 | definition without a contract: the loop's test that an entry equals (start,end) or (end,start) |
| `Ledger.Connected` | Assets/Scripts/LevelManager_paint.cs:127-141 | definition without a contract: the value `ConnectionAlreadyDone` returns, some entry passes the test of lines 129-130 |
| `Ledger.Sweep` | Assets/Scripts/LevelManager_paint.cs:124-142 | definition without a contract: the list `ConnectionAlreadyDone` leaves, `RemoveAsWritten` with `removeItem` and the list unchanged without it |
| `Ledger.Toggle` | Assets/Scripts/LevelManager_paint.cs:82-84 | definition without a contract: remove the edge if the sweep found it, otherwise append (current,new); its properties are in `ToggleFlipsEdge` and the lemmas after it |
| `Completion.LevelComplete` | Assets/Scripts/LevelManager_paint.cs:161-178 | definition without a contract: counts equal and every target edge `Connected` in the list; its properties are in `CompleteIffCovered` and `CompleteIffSameEdges` |
| `BrushStep.Wins` | Assets/Scripts/LevelManager_paint.cs:98-101 | definition without a contract: the guard of line 98 and the call of line 101 on the list after the toggle; `SwipeProgress` shows the guard changes nothing |
| `Ledger.RemoveAsWritten` | Assets/Scripts/LevelManager_paint.cs:127-138 | the removal loop as written never lengthens the list; it shortens it exactly when some entry matches in either direction; with no match the list is returned unchanged |
| `Ledger.RemoveAsWrittenOnlyMatches` | Assets/Scripts/LevelManager_paint.cs:127-138 | the loop only drops entries: no entry occurs more often afterwards, and every entry that does not match keeps its number of occurrences |
| `Ledger.RemoveAsWrittenKeepsNeighbour` | Assets/Scripts/LevelManager_paint.cs:127-138 | of two adjacent matching entries (a,b),(b,a), the second survives, because `RemoveAt(i)` is followed by `i++` |
| `Ledger.OnlyMatch` | Assets/Scripts/LevelManager_paint.cs:129-130 | in a list without repeated edges, an entry matching (a,b) in either direction is the only one |
| `Ledger.RemoveAsWrittenUnique` | Assets/Scripts/LevelManager_paint.cs:127-138 | without repeated edges, the loop removes exactly the matching entry at its index and keeps the others in order |
| `Ledger.RemoveAsWrittenDropsOne` | Assets/Scripts/LevelManager_paint.cs:127-138 | without repeated edges, removing a present edge shortens the list by exactly one, leaves no entry for that edge, and keeps the list free of repeats |
| `Ledger.NoDuplicateEdgesAppend` | Assets/Scripts/LevelManager_paint.cs:82-84 | appending an edge only when no entry matches it keeps the list free of repeated edges |
| `Ledger.ToggleFlipsEdge` | Assets/Scripts/LevelManager_paint.cs:82-84 | a toggle flips whether the edge is present; an absent edge is appended at the end as (current,new); a present one is removed with nothing appended and the length drops by one; no repeats are introduced |
| `Ledger.ToggleThereAndBack` | Assets/Scripts/LevelManager_paint.cs:82-84 | drawing an absent edge and retracing it in the other direction gives back the exact prior list |
| `Ledger.ToggleBackSameEdges` | Assets/Scripts/LevelManager_paint.cs:82-84 | retracing a drawn edge and drawing it again gives back the same length and the same set of edges, and the redrawn edge (b,a) is now the last entry |
| `Ledger.ConnectedIffInEdgeSet` | Assets/Scripts/LevelManager_paint.cs:129-130 | an edge is matched by some entry, in either direction, exactly when its endpoint pair is in the list's edge set |
| `Completion.CompleteIffCovered` | Assets/Scripts/LevelManager_paint.cs:161-178 | the level is complete exactly when the counts are equal and every target edge is among the drawn edges, ignoring direction |
| `Completion.CompleteIffSameEdges` | Assets/Scripts/LevelManager_paint.cs:161-178 | when neither list repeats an edge, completion is equivalent to equality of the drawn and target edge sets, ignoring order and direction |
| `Completion.MismatchedCountNeverCompletes` | Assets/Scripts/LevelManager_paint.cs:164-167 | a count mismatch is never complete, even when every target edge is drawn |
| `Completion.RepeatedTargetEdgeAdmitsStray` | Assets/Scripts/LevelManager_paint.cs:161-178 | a target pattern listing an edge in both directions is met by a list holding that edge and a stray one, although the edge sets differ |
| `Progression.NextLevel` | Assets/Scripts/LevelManager_paint.cs:105-109 | the next level index is (old+1) modulo the level count: the next index, or 0 after the last level; it is always a valid index |
| `Progression.Award` | Assets/Scripts/LevelManager_paint.cs:111 | the diamond total grows by exactly 15 unless that overflows a C# `int`, in which case it wraps by 2^32 |
| `BrushStep.SwipeStep` | Assets/Scripts/LevelManager_paint.cs:73-122 | one swipe, given the resolved cell, keeps the level index within the table and the diamond total within 32 bits |
| `BrushStep.BlockedSwipeChangesNothing` | Assets/Scripts/LevelManager_paint.cs:75-77 | the sentinel (-1,-1) leaves the list, the brush, the level, the diamonds and the status unchanged |
| `BrushStep.SwipeTogglesAndMoves` | Assets/Scripts/LevelManager_paint.cs:82-120 | any other swipe leaves the brush on the resolved cell; it appends (brush,new) for an absent edge and removes a present one, shortening the list by one; the invariant is kept |
| `BrushStep.SwipeKeepsConsistent` | Assets/Scripts/LevelManager_paint.cs:73-122 | every swipe keeps the level index valid, the diamond total 32-bit and the list free of repeated edges |
| `BrushStep.SwipeProgress` | Assets/Scripts/LevelManager_paint.cs:98-111 | on a completion against the level current before the swipe, the index becomes (old+1) mod count, 15 diamonds are added and the status becomes Complete; otherwise all three are unchanged; the guard on line 98 makes no difference |
| `BrushStep.SwipeThereAndBack` | Assets/Scripts/LevelManager_paint.cs:82-120 | swiping onto a cell over an undrawn edge and straight back restores the exact list and the brush cell |
| `BrushStep.SwipeBackOverDrawnEdge` | Assets/Scripts/LevelManager_paint.cs:82-120 | swiping over a drawn edge and straight back restores the length and the edge set, but not the order, and returns the brush |
| `BrushStep.SwipeIgnoresStatus` | Assets/Scripts/LevelManager_paint.cs:73-122 | the outcome of a swipe apart from the status itself does not depend on the status |
| `BrushStep.CompletionCanBeAwardedTwice` | Assets/Scripts/LevelManager_paint.cs:98-115 | with one level, drawing its edge, retracing it and drawing it again pays 15 diamonds twice (total 30): there is no exactly-once guard |
| `BrushStep.ThreeByThreeScenario` | Assets/Scripts/LevelManager_paint.cs:73-122 | on a 3 by 3 board with target (0,0)-(1,0)-(1,1), right then down completes level 0 (index 1, 15 diamonds); right then left leaves an empty list, the brush at (0,0) and no award |
| `LevelManager.LevelManagerPaint.Start` | Assets/Scripts/LevelManager_paint.cs:27-52 | the list starts empty, the status is Playing, the level index and diamond total are the persisted values, and the brush stands on the level's start cell; the object invariant holds |
| `LevelManager.LevelManagerPaint.ConnectionAlreadyDone` | Assets/Scripts/LevelManager_paint.cs:124-142 | returns true exactly when some entry matches (start,end) or (end,start); with `removeItem` the list becomes `RemoveAsWritten` of the old list, and without it the list is unchanged |
| `LevelManager.LevelManagerPaint.IsLevelComplete` | Assets/Scripts/LevelManager_paint.cs:161-178 | returns `LevelComplete` of the list and the current level's pattern and leaves the list unchanged |
| `LevelManager.LevelManagerPaint.MoveBrush` | Assets/Scripts/LevelManager_paint.cs:73-122 | the new state is `SwipeStep` of the old state and the cell the grid resolves the swipe to, and the object invariant is kept |

## Left out

- Rendering is not modelled, because it is scene geometry and has no bearing on the puzzle state. This covers:
  - creating and destroying cells and line objects (`CreateGrid`, `CreateCells`, `CompleteBoard`, `LinePaintScript`);
  - `RemoveConnectLinePaint` and the centre-paint markers (lines 85-86, 144-159);
  - world positions (`GetCellWorldPosition*`, `finalPos`), colours and camera zoom.
- The persisted store is not modelled, because it is a foreign key-value store.
  - The values read at start-up are the constructor's `savedLevel` and `savedDiamonds`, which are 0 when nothing is stored.
  - The writes on lines 110 and 112 are not modelled.
- Sound effects and the UI notifications (`PlayFx`, `LevelCompleted`, text labels) are not modelled, because they are output only.
- `Grid.GetCellXZBySwipe` is not part of this model.
  - It is the class constant `getCellXZBySwipe`, an arbitrary function from a cell and a swipe to a cell, where `Blocked` (-1,-1) means the swipe is refused.
  - No bounds rule is modelled. The exceptions an off-board cell would cause are covered below.
- `SwipeControl_paint`, `LevelDataScriptable`, `GameManager_paint` and `BrushController` are not part of this model.
  - The game manager's static counters are fields of the class.
  - `GameStatus` has only the two values this file writes.
  - The four swipe directions are opaque labels.
- `UIManager_paint.cs` (menu toggles, scene loading, the sound switch) and `SoundManager_paint.cs` (audio dispatch) are not modelled, because they are UI and audio I/O.
- `Update` and the swipe-input polling are not modelled: the model takes one swipe at a time as a method call.
- The exceptions the code can throw are not modelled. The model assumes inputs under which the
  cited lines cannot throw. The three lines below give each assumption.
- Start: requires a stored level index that selects a level of a non-empty table. The code reads
  the index unchecked (line 30), and line 40 would throw for any other value.
- MoveBrush: does not model a grid that returns an off-board cell other than the sentinel (-1,-1).
  For such a cell, lines 85 and 155 index `cells` out of range. The code then throws after the list
  has changed and before the brush moves. `SwipeTogglesAndMoves` does not cover that outcome either.
- MoveBrush: does not model an empty colour array. Line 86 takes `% colors.Length`, which throws on
  an empty array.
