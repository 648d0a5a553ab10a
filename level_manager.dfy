/** The level manager of the line-painting game: the object that owns the list
    of drawn connections and the brush, and that updates the game manager's
    level index, diamond total and status when a level is completed. */
module LevelManager {
  import opened PaintTypes
  import opened Ledger
  import opened Completion
  import opened Progression
  import opened BrushStep

  class LevelManagerPaint {
    /** The level table (`leveldataArray`), fixed for the session. */
    const leveldataArray: seq<LevelData>
    /** `Grid.GetCellXZBySwipe`: the cell a swipe from a cell leads to, or `Blocked`. */
    const getCellXZBySwipe: (Coord, Swipe) -> Coord

    /** The connections drawn so far, in drawing order. */
    var inProgressPattern: seq<ConnectedLine>
    /** `currentBrush.currentCoords`. */
    var brushCoords: Coord
    /** `GameManager_paint.currentLevel`. */
    var currentLevel: int
    /** `GameManager_paint.totalDiamonds`. */
    var totalDiamonds: int
    /** `GameManager_paint.gameStatus`. */
    var gameStatus: GameStatus

    /** The object invariant: the level index selects a level, the diamond
        total is a 32-bit value, and no edge is drawn twice. */
    ghost predicate Valid()
      reads this
    {
      Consistent(leveldataArray, State())
    }

    /** The puzzle state as a value, the state `SwipeStep` is stated on. */
    ghost function State(): PlayState
      reads this
    {
      PlayState(inProgressPattern, brushCoords, currentLevel, totalDiamonds, gameStatus)
    }

    /** `Start` (lines 19, 30-31, 35, 46): the level index and the diamond total
        come from the persisted store (`savedLevel` and `savedDiamonds` are what
        it returns, 0 when nothing was saved); the ledger is empty, the status is
        Playing, and the brush stands on the current level's start cell. */
    constructor Start(levels: seq<LevelData>, grid: (Coord, Swipe) -> Coord,
                      savedLevel: int, savedDiamonds: int)
      requires 0 <= savedLevel < |levels|
      requires IsInt32(savedDiamonds)
      ensures Valid()
      ensures leveldataArray == levels && getCellXZBySwipe == grid
      ensures inProgressPattern == []
      ensures currentLevel == savedLevel && totalDiamonds == savedDiamonds
      ensures gameStatus == Playing
      ensures brushCoords == levels[savedLevel].brushStartCoords
    {
      leveldataArray := levels;
      getCellXZBySwipe := grid;
      inProgressPattern := [];
      currentLevel := savedLevel;
      totalDiamonds := savedDiamonds;
      gameStatus := Playing;
      brushCoords := levels[savedLevel].brushStartCoords;
    }

    /** `ConnectionAlreadyDone` (lines 124-142): reports whether some drawn
        connection joins the two cells in either direction; with `removeItem`
        it also runs the removal loop as written, which leaves the ledger
        `RemoveAsWritten` describes; without it the ledger is untouched. */
    method ConnectionAlreadyDone(startCoord: Coord, endCoord: Coord, removeItem: bool)
      returns (connected: bool)
      modifies this`inProgressPattern
      ensures connected == Connected(old(inProgressPattern), startCoord, endCoord)
      ensures inProgressPattern ==
                Sweep(old(inProgressPattern), startCoord, endCoord, removeItem)
    {
      ghost var orig := inProgressPattern;
      // `seen` is the part of `orig` the loop has passed, `rest` the part still
      // ahead; `kept` is what is left of `seen` in the list.
      ghost var seen, kept, rest := [], [], inProgressPattern;
      connected := false;
      var i := 0;
      while i < |inProgressPattern|
        invariant 0 <= i <= |inProgressPattern| + 1
        invariant orig == seen + rest
        invariant i <= |inProgressPattern| ==> inProgressPattern == kept + rest && |kept| == i
        invariant i == |inProgressPattern| + 1 ==> inProgressPattern == kept && rest == []
        invariant kept + Sweep(rest, startCoord, endCoord, removeItem) == Sweep(orig, startCoord, endCoord, removeItem)
        invariant connected == Connected(seen, startCoord, endCoord)
        decreases |inProgressPattern| + 1 - i
      {
        SweepCons(rest, startCoord, endCoord, removeItem);
        assert inProgressPattern[i] == rest[0];
        if Joins(inProgressPattern[i], startCoord, endCoord) {
          if removeItem {
            assert inProgressPattern[..i] == kept && inProgressPattern[i + 1..] == rest[1..];
            inProgressPattern := inProgressPattern[..i] + inProgressPattern[i + 1..];
            RemoveTurn(seen, kept, rest, startCoord, endCoord);
            if |rest| == 1 {
              seen, rest := seen + rest, [];
            } else {
              seen, kept, rest := seen + rest[..2], kept + [rest[1]], rest[2..];
            }
          } else {
            Advance(seen, kept, rest, startCoord, endCoord, removeItem);
            seen, kept, rest := seen + [rest[0]], kept + [rest[0]], rest[1..];
          }
          connected := true;
        } else {
          Advance(seen, kept, rest, startCoord, endCoord, removeItem);
          seen, kept, rest := seen + [rest[0]], kept + [rest[0]], rest[1..];
        }
        i := i + 1;
      }
      assert rest == [] && seen == orig;
      assert Sweep(rest, startCoord, endCoord, removeItem) == [];
      assert inProgressPattern == kept;
    }

    /** `IsLevelComplete` (lines 161-178): the current level's pattern has as many
        entries as the ledger and each of its edges is drawn, in either direction.
        It leaves the ledger as it was. */
    method IsLevelComplete() returns (complete: bool)
      requires 0 <= currentLevel < |leveldataArray|
      modifies this`inProgressPattern
      ensures inProgressPattern == old(inProgressPattern)
      ensures complete == LevelComplete(inProgressPattern, leveldataArray[currentLevel].completePattern)
    {
      var pattern := leveldataArray[currentLevel].completePattern;
      if |pattern| != |inProgressPattern| {
        return false;
      }
      var i := 0;
      while i < |pattern|
        invariant 0 <= i <= |pattern|
        invariant inProgressPattern == old(inProgressPattern)
        invariant forall k :: 0 <= k < i ==> Connected(inProgressPattern, pattern[k].startCoord, pattern[k].endCoord)
      {
        var done := ConnectionAlreadyDone(pattern[i].startCoord, pattern[i].endCoord, false);
        if !done {
          return false;
        }
        i := i + 1;
      }
      return true;
    }

    /** `MoveBrush` (lines 73-122): one swipe, as `SwipeStep` describes it for
        the cell the grid resolves the swipe to. */
    method MoveBrush(swipe: Swipe)
      requires Valid()
      modifies this
      ensures Valid()
      ensures State() == SwipeStep(leveldataArray, old(State()), getCellXZBySwipe(old(brushCoords), swipe))
    {
      ghost var before := State();
      var newCoords := getCellXZBySwipe(brushCoords, swipe);
      SwipeKeepsConsistent(leveldataArray, before, newCoords);
      if newCoords != Blocked {
        var done := ConnectionAlreadyDone(brushCoords, newCoords, true);
        if !done {
          inProgressPattern := inProgressPattern + [ConnectedLine(brushCoords, newCoords)];
        }
        assert inProgressPattern == Toggle(before.ledger, before.brush, newCoords);
        if |leveldataArray[currentLevel].completePattern| <= |inProgressPattern| {
          var complete := IsLevelComplete();
          if complete {
            gameStatus := Complete;
            currentLevel := currentLevel + 1;
            if currentLevel > |leveldataArray| - 1 {
              currentLevel := 0;
            }
            totalDiamonds := WrapInt32(totalDiamonds + DiamondsPerLevel);
          }
        }
        brushCoords := newCoords;
      }
    }
  }
}
