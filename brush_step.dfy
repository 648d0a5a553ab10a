/** One call of `MoveBrush` as a function on the puzzle state, given the cell
    the grid resolved the swipe to, and the properties of that step. */
module BrushStep {
  import opened PaintTypes
  import opened Ledger
  import opened Completion
  import opened Progression

  /** The state `MoveBrush` reads and writes: the drawn connections, the brush
      cell, and the game manager's level index, diamond total and status. */
  datatype PlayState = PlayState(ledger: seq<ConnectedLine>, brush: Coord, currentLevel: int,
                                 totalDiamonds: int, gameStatus: GameStatus)

  /** The level index selects a level of the table, the diamond total is a
      32-bit value, and the ledger never holds an edge twice. */
  predicate Consistent(levels: seq<LevelData>, st: PlayState)
  {
    0 <= st.currentLevel < |levels| && IsInt32(st.totalDiamonds) && NoDuplicateEdges(st.ledger)
  }

  /** The win test of lines 98 and 101, on the ledger after the toggle. */
  predicate Wins(levels: seq<LevelData>, st: PlayState, ledger: seq<ConnectedLine>)
    requires 0 <= st.currentLevel < |levels|
  {
    var pattern := levels[st.currentLevel].completePattern;
    |pattern| <= |ledger| && LevelComplete(ledger, pattern)
  }

  /** `MoveBrush` (lines 73-122) once the grid has resolved the swipe to `target`:
      nothing happens for the blocked sentinel; otherwise the edge from the brush
      to `target` is toggled, a completed level advances the progression, and the
      brush moves onto `target`. `gameStatus` is written but never read. */
  function SwipeStep(levels: seq<LevelData>, st: PlayState, target: Coord): (r: PlayState)
    requires 0 <= st.currentLevel < |levels| && IsInt32(st.totalDiamonds)
    ensures 0 <= r.currentLevel < |levels| && IsInt32(r.totalDiamonds)
  {
    if target == Blocked then st
    else
      var ledger := Toggle(st.ledger, st.brush, target);
      if Wins(levels, st, ledger) then
        PlayState(ledger, target, NextLevel(st.currentLevel, |levels|), Award(st.totalDiamonds), Complete)
      else
        st.(ledger := ledger, brush := target)
  }

  /** A blocked swipe leaves the ledger, the brush, the level, the diamonds and the status as they were. */
  lemma BlockedSwipeChangesNothing(levels: seq<LevelData>, st: PlayState)
    requires 0 <= st.currentLevel < |levels| && IsInt32(st.totalDiamonds)
    ensures SwipeStep(levels, st, Blocked) == st
  {
  }

  /** Any other swipe moves the brush onto the resolved cell and toggles the edge
      it crossed: under the invariant an absent edge is appended at the end, a
      present one is removed (one entry fewer, no entry for it left), and the
      invariant still holds afterwards. */
  lemma SwipeTogglesAndMoves(levels: seq<LevelData>, st: PlayState, target: Coord)
    requires Consistent(levels, st)
    requires target != Blocked
    ensures SwipeStep(levels, st, target).brush == target
    ensures Consistent(levels, SwipeStep(levels, st, target))
    ensures !Connected(st.ledger, st.brush, target) ==>
              SwipeStep(levels, st, target).ledger == st.ledger + [ConnectedLine(st.brush, target)]
    ensures Connected(st.ledger, st.brush, target) ==>
              |SwipeStep(levels, st, target).ledger| == |st.ledger| - 1 &&
              !Connected(SwipeStep(levels, st, target).ledger, st.brush, target)
  {
    ToggleFlipsEdge(st.ledger, st.brush, target);
  }

  /** Every step, blocked or not, keeps the invariant. */
  lemma SwipeKeepsConsistent(levels: seq<LevelData>, st: PlayState, target: Coord)
    requires Consistent(levels, st)
    ensures Consistent(levels, SwipeStep(levels, st, target))
  {
    if target != Blocked {
      SwipeTogglesAndMoves(levels, st, target);
    }
  }

  /** The progression changes only on a completion, judged against the level that
      was current before the swipe: then the index moves to the next level (0 after
      the last), 15 diamonds are added, and the status becomes Complete. The guard
      of line 98 makes no difference: the plain completion test decides. */
  lemma SwipeProgress(levels: seq<LevelData>, st: PlayState, target: Coord)
    requires 0 <= st.currentLevel < |levels| && IsInt32(st.totalDiamonds)
    requires target != Blocked
    ensures var r := SwipeStep(levels, st, target);
            if LevelComplete(r.ledger, levels[st.currentLevel].completePattern) then
              r.currentLevel == (st.currentLevel + 1) % |levels| &&
              r.totalDiamonds == Award(st.totalDiamonds) &&
              r.gameStatus == Complete
            else
              r.currentLevel == st.currentLevel &&
              r.totalDiamonds == st.totalDiamonds &&
              r.gameStatus == st.gameStatus
  {
  }

  /** Swiping onto a cell over an undrawn edge and straight back restores the
      ledger exactly and returns the brush to where it was. */
  lemma SwipeThereAndBack(levels: seq<LevelData>, st: PlayState, target: Coord)
    requires 0 <= st.currentLevel < |levels| && IsInt32(st.totalDiamonds)
    requires target != Blocked && st.brush != Blocked
    requires !Connected(st.ledger, st.brush, target)
    ensures var back := SwipeStep(levels, SwipeStep(levels, st, target), st.brush);
            back.ledger == st.ledger && back.brush == st.brush
  {
    ToggleThereAndBack(st.ledger, st.brush, target);
  }

  /** Swiping over a drawn edge and straight back redraws it: the ledger ends with
      the same edges and the same length, though the edge has moved to the end. */
  lemma SwipeBackOverDrawnEdge(levels: seq<LevelData>, st: PlayState, target: Coord)
    requires Consistent(levels, st)
    requires target != Blocked && st.brush != Blocked
    requires Connected(st.ledger, st.brush, target)
    ensures var back := SwipeStep(levels, SwipeStep(levels, st, target), st.brush);
            |back.ledger| == |st.ledger| && EdgeSet(back.ledger) == EdgeSet(st.ledger) &&
            back.brush == st.brush
  {
    ToggleBackSameEdges(st.ledger, st.brush, target);
  }

  /** The step never consults the status: two states that differ only in their
      status lead to states that differ at most in their status. */
  lemma SwipeIgnoresStatus(levels: seq<LevelData>, st: PlayState, status: GameStatus, target: Coord)
    requires 0 <= st.currentLevel < |levels| && IsInt32(st.totalDiamonds)
    ensures SwipeStep(levels, st.(gameStatus := status), target).(gameStatus := Playing) ==
            SwipeStep(levels, st, target).(gameStatus := Playing)
  {
  }

  /** With a one-level table, drawing the pattern, retracing its last edge and
      drawing it again awards the level twice: nothing in the step stops a
      second award for the same board. */
  lemma CompletionCanBeAwardedTwice()
    ensures var e := ConnectedLine(Coord(0, 0), Coord(1, 0));
            var levels := [LevelData(3, 3, Coord(0, 0), [e])];
            var s0 := PlayState([], Coord(0, 0), 0, 0, Playing);
            var s1 := SwipeStep(levels, s0, Coord(1, 0));
            var s2 := SwipeStep(levels, s1, Coord(0, 0));
            var s3 := SwipeStep(levels, s2, Coord(1, 0));
            s1.gameStatus == Complete && s1.totalDiamonds == 15 &&
            s2.ledger == [] && s3.ledger == [e] && s3.totalDiamonds == 30
  {
    var e := ConnectedLine(Coord(0, 0), Coord(1, 0));
    var levels := [LevelData(3, 3, Coord(0, 0), [e])];
    var s0 := PlayState([], Coord(0, 0), 0, 0, Playing);
    ToggleThereAndBack([], Coord(0, 0), Coord(1, 0));
    assert Joins([e][0], Coord(0, 0), Coord(1, 0));
    var s1 := SwipeStep(levels, s0, Coord(1, 0));
    assert s1.ledger == [e] && LevelComplete([e], [e]);
    var s2 := SwipeStep(levels, s1, Coord(0, 0));
    assert s2.ledger == [] && s2.totalDiamonds == 15;
  }

  /** The worked example on a 3 by 3 board: right, then down draws the two target
      edges and completes the first level; right, then left leaves the board empty
      with the brush back at its start and no award. */
  lemma ThreeByThreeScenario()
    ensures var p := [ConnectedLine(Coord(0, 0), Coord(1, 0)), ConnectedLine(Coord(1, 0), Coord(1, 1))];
            var levels := [LevelData(3, 3, Coord(0, 0), p), LevelData(3, 3, Coord(0, 0), p)];
            var s0 := PlayState([], Coord(0, 0), 0, 0, Playing);
            var right := SwipeStep(levels, s0, Coord(1, 0));
            var down := SwipeStep(levels, right, Coord(1, 1));
            var left := SwipeStep(levels, right, Coord(0, 0));
            right.ledger == [p[0]] && right.brush == Coord(1, 0) && right.gameStatus == Playing &&
            down.ledger == p && down.brush == Coord(1, 1) && down.gameStatus == Complete &&
            down.currentLevel == 1 && down.totalDiamonds == 15 &&
            left.ledger == [] && left.brush == Coord(0, 0) && left.gameStatus == Playing &&
            left.totalDiamonds == 0
  {
    var p := [ConnectedLine(Coord(0, 0), Coord(1, 0)), ConnectedLine(Coord(1, 0), Coord(1, 1))];
    var levels := [LevelData(3, 3, Coord(0, 0), p), LevelData(3, 3, Coord(0, 0), p)];
    var s0 := PlayState([], Coord(0, 0), 0, 0, Playing);
    ToggleThereAndBack([], Coord(0, 0), Coord(1, 0));
    var right := SwipeStep(levels, s0, Coord(1, 0));
    assert right.ledger == [p[0]];
    assert !Connected([p[0]], Coord(1, 0), Coord(1, 1));
    var down := SwipeStep(levels, right, Coord(1, 1));
    assert down.ledger == p;
    assert Joins(p[0], Coord(0, 0), Coord(1, 0)) && Joins(p[1], Coord(1, 0), Coord(1, 1));
    assert LevelComplete(p, p);
  }
}
