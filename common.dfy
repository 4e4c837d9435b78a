/** The game record of common.py, whose fields the game and drawing code update in place. */
module Common {
  import opened Grid

  class Game {
    var cells: seq<seq<Cell>>
    var maxX: int
    var maxY: int
    var minesCount: int
    var nonMineCellsOpened: int
    var clicks: int
    /** (x1, x2, y1, y2) of the smiley button, inclusive. */
    var smileRect: (int, int, int, int)
    var gameOver: bool
    var hitMine: bool

    /** `Game(cells, maxX, maxY, minesCount)` with the remaining fields at their defaults. */
    constructor (cells: seq<seq<Cell>>, maxX: int, maxY: int, minesCount: int)
      ensures this.cells == cells && this.maxX == maxX && this.maxY == maxY
      ensures this.minesCount == minesCount
      ensures nonMineCellsOpened == 0 && clicks == 0 && smileRect == (0, 0, 0, 0)
      ensures !gameOver && !hitMine
    {
      this.cells := cells;
      this.maxX := maxX;
      this.maxY := maxY;
      this.minesCount := minesCount;
      nonMineCellsOpened := 0;
      clicks := 0;
      smileRect := (0, 0, 0, 0);
      gameOver := false;
      hitMine := false;
    }

    /** A square board of `maxX` by `maxY` cells, each knowing its own position. */
    ghost predicate Valid()
      reads this
    {
      maxX == maxY && Square(cells, maxX)
    }
  }
}
