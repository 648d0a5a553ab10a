/** Values shared by the puzzle logic of the line-painting game. */
module PaintTypes {

  /** A grid cell, `Vector2Int` in the game: `x` is the column, `y` the row. */
  datatype Coord = Coord(x: int, y: int)

  /** The coordinate the grid returns when a swipe would leave the board. */
  const Blocked: Coord := Coord(-1, -1)

  /** One drawn (or target) connection, kept in the direction it was drawn. */
  datatype ConnectedLine = ConnectedLine(startCoord: Coord, endCoord: Coord)

  /** The four swipe gestures the input layer reports. */
  datatype Swipe = Up | Down | Left | Right

  /** The values of the game status counter that the puzzle logic writes. */
  datatype GameStatus = Playing | Complete

  /** One entry of the level table: board size, where the brush starts and the pattern to draw. */
  datatype LevelData = LevelData(width: int, height: int, brushStartCoords: Coord,
                                 completePattern: seq<ConnectedLine>)

  /** Diamonds awarded for each completed level. */
  const DiamondsPerLevel: int := 15

  const MinInt32: int := -0x8000_0000
  const MaxInt32: int := 0x7fff_ffff

  /** The values a C# `int` can hold. */
  predicate IsInt32(n: int)
  {
    MinInt32 <= n <= MaxInt32
  }

  /** Two's-complement wrap-around of unchecked C# `int` arithmetic: the unique
      32-bit value congruent to `n` modulo 2^32. */
  function WrapInt32(n: int): (r: int)
    ensures IsInt32(r)
    ensures (r - n) % 0x1_0000_0000 == 0
    ensures IsInt32(n) ==> r == n
  {
    (n - MinInt32) % 0x1_0000_0000 + MinInt32
  }
}
