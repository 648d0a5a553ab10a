/** What a completed level does to the progression counters (the level index
    and the diamond total kept as statics of the game manager). */
module Progression {
  import opened PaintTypes

  /** The level index after a completion (lines 105-109): the next index,
      or 0 once the last level of the table has been completed. */
  function NextLevel(currentLevel: int, levelCount: int): (r: int)
    requires 0 <= currentLevel < levelCount
    ensures 0 <= r < levelCount
    ensures r == (currentLevel + 1) % levelCount
  {
    var next := currentLevel + 1;
    if next > levelCount - 1 then 0 else next
  }

  /** The diamond total after a completion (line 111): 15 more, with the
      wrap-around of an unchecked 32-bit `int` addition. */
  function Award(totalDiamonds: int): (r: int)
    requires IsInt32(totalDiamonds)
    ensures IsInt32(r)
    ensures totalDiamonds + DiamondsPerLevel <= MaxInt32 ==> r == totalDiamonds + DiamondsPerLevel
    ensures totalDiamonds + DiamondsPerLevel > MaxInt32 ==> r == totalDiamonds + DiamondsPerLevel - 0x1_0000_0000
  {
    WrapInt32(totalDiamonds + DiamondsPerLevel)
  }
}
