/**
 * The presentation decisions of draw.py: which image each cell shows, what the three-slot
 * counters show and where the counters, the smiley and the cells go on a screen of a given
 * size. Every `displayImage(path, width, height, x, y)` call is a `Placement` that the
 * drawing methods return; the screen size is a parameter.
 */
module Draw {
  import opened Wrappers
  import opened Grid
  import opened Common
  import opened Controls

  /** One `displayImage` call: the asset's file name, its size and its top-left corner. */
  datatype Placement = Placement(image: string, width: int, height: int, x: int, y: int)

  function DigitChar(d: int): char
    requires 0 <= d <= 9
  {
    ('0' as int + d) as char
  }

  predicate IsDigit(c: char)
  {
    '0' <= c <= '9'
  }

  // ---------------------------------------------------------------------------
  // getImageNameFromNumber, getCellImage

  function ImageNameFromNumber(number: int): string
  {
    if 1 <= number <= 8 then "cell_" + [DigitChar(number)] + ".png" else "cell_open.png"
  }

  function CellImage(cell: Cell): string
  {
    if !cell.isOpen then
      if cell.isFlagged then "cell_flag.png" else "cell_hidden.png"
    else if cell.isMine then "cell_mine.png"
    else ImageNameFromNumber(cell.number)
  }

  /**
   * Each image stands for exactly one state of a cell: a closed cell shows its flag or
   * nothing, an open mine the mine, an open cell with 1 to 8 mines around its count and
   * any other open cell the empty square.
   */
  lemma CellImageCases(cell: Cell)
    ensures CellImage(cell) == "cell_flag.png" <==> !cell.isOpen && cell.isFlagged
    ensures CellImage(cell) == "cell_hidden.png" <==> !cell.isOpen && !cell.isFlagged
    ensures CellImage(cell) == "cell_mine.png" <==> cell.isOpen && cell.isMine
    ensures CellImage(cell) == "cell_open.png" <==> cell.isOpen && !cell.isMine && !(1 <= cell.number <= 8)
    ensures forall d :: 1 <= d <= 8 ==>
      (CellImage(cell) == "cell_" + [DigitChar(d)] + ".png" <==> cell.isOpen && !cell.isMine && cell.number == d)
  {
    var name := CellImage(cell);
    if cell.isOpen && !cell.isMine && 1 <= cell.number <= 8 {
      assert |name| == 10 && name[5] == DigitChar(cell.number);
      forall d | 1 <= d <= 8 && name == "cell_" + [DigitChar(d)] + ".png"
        ensures cell.number == d
      {
        assert name[5] == DigitChar(d);
      }
    } else {
      assert |name| != 10;
    }
  }

  // ---------------------------------------------------------------------------
  // drawDotDisplay

  /** `max(-99, min(number, 999))`: what fits in three slots. */
  function Clamp(number: int): int
  {
    if number > 999 then 999 else if number < -99 then -99 else number
  }

  /** The decimal digits of `n`, most significant first, without leading zeros. */
  function Digits(n: nat): (s: string)
    ensures 1 <= |s| && forall k :: 0 <= k < |s| ==> IsDigit(s[k])
    ensures n != 0 ==> s[0] != '0'
  {
    if n < 10 then [DigitChar(n)] else Digits(n / 10) + [DigitChar(n % 10)]
  }

  /** Python's `str` on an integer. */
  function Str(n: int): (s: string)
    ensures 1 <= |s| && forall k :: 0 <= k < |s| ==> IsDigit(s[k]) || (k == 0 && s[k] == '-')
  {
    if n < 0 then "-" + Digits(-n) else Digits(n)
  }

  /** The value of a string of decimal digits. */
  function DigitValue(s: string): int
  {
    if s == [] then 0 else DigitValue(s[..|s| - 1]) * 10 + (s[|s| - 1] as int - '0' as int)
  }

  /**
   * What a reader takes the three slots to say: leading zeros are padding, a blank is a
   * minus sign and the rest are digits.
   */
  function ReadDisplay(d: string): int
  {
    if d == [] then 0
    else if d[0] == '0' then ReadDisplay(d[1..])
    else if d[0] == '-' then -DigitValue(d[1..])
    else DigitValue(d)
  }

  /** The character slot i of three shows when `s` is right-aligned in them and padded with zeros. */
  function SlotOf(s: string, i: int): char
    requires 0 <= i < 3
  {
    if i >= 3 - |s| then s[i - (3 - |s|)] else '0'
  }

  /** The character slot i of the counter shows: `str` of the clamped number, right-aligned. */
  function Slot(number: int, i: int): (c: char)
    requires 0 <= i < 3
    ensures IsDigit(c) || c == '-'
  {
    SlotOf(Str(Clamp(number)), i)
  }

  /** The three characters the counter shows. */
  function Shown(number: int): seq<char>
  {
    [Slot(number, 0), Slot(number, 1), Slot(number, 2)]
  }

  const DotDisplayImages: seq<string> := [
    "number_0.png", "number_1.png", "number_2.png", "number_3.png", "number_4.png",
    "number_5.png", "number_6.png", "number_7.png", "number_8.png", "number_9.png"]

  /** The image of one slot: the blank for a minus sign, the digit's image otherwise. */
  function GlyphImage(c: char): string
    requires IsDigit(c) || c == '-'
  {
    if c == '-' then "number_blank.png" else DotDisplayImages[c as int - '0' as int]
  }

  function DigitHeight(screenWidth: int): int
  {
    screenWidth / 10
  }

  function DigitWidth(screenWidth: int): int
  {
    DigitHeight(screenWidth) / 2
  }

  /** Where the counter's first slot goes: 50 from the left edge, or flush 50 from the right. */
  function DisplayStart(position: string, screenWidth: int): int
  {
    if position == "right" then screenWidth - 50 - DigitWidth(screenWidth) * 3 else 50
  }

  /** The `displayImage` call for slot i of the counter. */
  function SlotPlacement(number: int, position: string, screenWidth: int, i: int): Placement
    requires 0 <= i < 3
  {
    Placement(GlyphImage(Slot(number, i)), DigitWidth(screenWidth), DigitHeight(screenWidth),
              DisplayStart(position, screenWidth) + i * DigitWidth(screenWidth), 120)
  }

  /**
   * One pass of the loop in `drawDotDisplay`: the image for slot i when the text `s` is
   * right-aligned in the three slots.
   */
  method SlotImage(s: string, i: int) returns (image: string)
    requires 0 <= i < 3 && |s| <= 3
    requires forall k :: 0 <= k < |s| ==> IsDigit(s[k]) || s[k] == '-'
    ensures image == GlyphImage(SlotOf(s, i))
  {
    var offset := 3 - |s|;
    if i >= offset {
      var c := s[i - offset];
      if c == '-' {
        image := "number_blank.png";
      } else {
        image := DotDisplayImages[c as int - '0' as int];
      }
    } else {
      image := DotDisplayImages[0];
    }
  }

  lemma NextSlot(start: int, width: int, i: int)
    ensures start + i * width + width == start + (i + 1) * width
  {
  }

  /**
   * `drawDotDisplay(number, position)` on a screen `screenWidth` wide: three slots side by
   * side at height 120, showing the clamped number right-aligned and padded with zeros.
   */
  method DrawDotDisplay(number: int, position: string, screenWidth: int) returns (draws: seq<Placement>)
    ensures |draws| == 3
    ensures forall i :: 0 <= i < 3 ==> draws[i] == SlotPlacement(number, position, screenWidth, i)
  {
    var yPadding := 120;
    var xPadding := 50;
    var digitHeight := screenWidth / 10;
    var digitWidth := digitHeight / 2;
    var clamped := if number < 999 then number else 999;
    clamped := if -99 > clamped then -99 else clamped;
    assert clamped == Clamp(number);
    var s := Str(clamped);
    StrReadsBack(clamped);
    var xStart := xPadding;
    if position == "right" {
      xStart := screenWidth - xPadding - digitWidth * 3;
    }
    ghost var start := xStart;
    draws := [];
    for i := 0 to 3
      invariant |draws| == i
      invariant xStart == start + i * digitWidth
      invariant forall k :: 0 <= k < i ==> draws[k] == SlotPlacement(number, position, screenWidth, k)
    {
      var image := SlotImage(s, i);
      assert Placement(image, digitWidth, digitHeight, xStart, yPadding) == SlotPlacement(number, position, screenWidth, i);
      draws := draws + [Placement(image, digitWidth, digitHeight, xStart, yPadding)];
      NextSlot(start, digitWidth, i);
      xStart := xStart + digitWidth;
    }
  }

  lemma {:induction false} DigitsRoundTrip(n: nat)
    ensures DigitValue(Digits(n)) == n
  {
    if n >= 10 {
      var s := Digits(n);
      DigitsRoundTrip(n / 10);
      assert s[..|s| - 1] == Digits(n / 10);
    }
  }

  function Pow10(k: nat): nat
  {
    if k == 0 then 1 else 10 * Pow10(k - 1)
  }

  lemma {:induction false} DigitsFit(n: nat, k: nat)
    requires 1 <= k && n < Pow10(k)
    ensures |Digits(n)| <= k
  {
    if n >= 10 {
      DigitsFit(n / 10, k - 1);
    }
  }

  function Zeros(k: nat): string
  {
    if k == 0 then [] else Zeros(k - 1) + ['0']
  }

  lemma {:induction false} PaddingReadsAsNothing(k: nat, t: string)
    ensures ReadDisplay(Zeros(k) + t) == ReadDisplay(t)
  {
    if k > 0 {
      var d := Zeros(k) + t;
      ZerosAreZeros(k);
      ZerosAreZeros(k - 1);
      assert d[0] == '0' && d[1..] == Zeros(k - 1) + t;
      PaddingReadsAsNothing(k - 1, t);
    } else {
      assert Zeros(k) + t == t;
    }
  }

  lemma {:induction false} ZerosAreZeros(k: nat)
    ensures |Zeros(k)| == k && forall i :: 0 <= i < k ==> Zeros(k)[i] == '0'
  {
    if k > 0 {
      ZerosAreZeros(k - 1);
    }
  }

  /** `str` of a number in -99 .. 999 has at most three characters and reads back as the number. */
  lemma StrReadsBack(m: int)
    requires -99 <= m <= 999
    ensures |Str(m)| <= 3 && ReadDisplay(Str(m)) == m
  {
    var s := Str(m);
    if m < 0 {
      DigitsFit(-m, 2);
      DigitsRoundTrip(-m);
      assert s[0] == '-' && s[1..] == Digits(-m);
    } else {
      DigitsFit(m, 3);
      DigitsRoundTrip(m);
      if m == 0 {
        assert s == "0" && s[1..] == [];
      }
    }
  }

  lemma ShownIsPadded(number: int)
    requires |Str(Clamp(number))| <= 3
    ensures var s := Str(Clamp(number)); Shown(number) == Zeros(3 - |s|) + s
  {
    var s := Str(Clamp(number));
    ZerosAreZeros(3 - |s|);
    var padded := Zeros(3 - |s|) + s;
    assert |padded| == 3;
    assert Shown(number)[0] == padded[0];
    assert Shown(number)[1] == padded[1];
    assert Shown(number)[2] == padded[2];
  }

  /**
   * The counter always fills its three slots and reads back as the number clamped to
   * -99 .. 999, so a number in that range is shown exactly.
   */
  lemma DisplayReadsBack(number: int)
    ensures |Shown(number)| == 3 && ReadDisplay(Shown(number)) == Clamp(number)
    ensures -99 <= number <= 999 ==> Clamp(number) == number
    ensures number > 999 ==> Clamp(number) == 999
    ensures number < -99 ==> Clamp(number) == -99
  {
    var s := Str(Clamp(number));
    StrReadsBack(Clamp(number));
    ShownIsPadded(number);
    PaddingReadsAsNothing(3 - |s|, s);
  }

  /** Distinct characters get distinct images, so the images determine what is read. */
  lemma GlyphImagesDistinct(a: char, b: char)
    requires IsDigit(a) || a == '-'
    requires IsDigit(b) || b == '-'
    ensures GlyphImage(a) == GlyphImage(b) ==> a == b
  {
    if a != b && IsDigit(a) && IsDigit(b) {
      assert GlyphImage(a)[7] == a;
      assert GlyphImage(b)[7] == b;
    } else if a != b {
      assert |GlyphImage(a)| != |GlyphImage(b)|;
    }
  }

  // ---------------------------------------------------------------------------
  // drawSmile

  function SmileSize(screenWidth: int): int
  {
    screenWidth / 10
  }

  /** `floor(screenWidth / 2 - smileSize / 2)`, the same as flooring half their difference. */
  function SmileX(screenWidth: int): int
  {
    (screenWidth - SmileSize(screenWidth)) / 2
  }

  function SmileRect(screenWidth: int): (int, int, int, int)
  {
    (SmileX(screenWidth), SmileX(screenWidth) + SmileSize(screenWidth), 120, 120 + SmileSize(screenWidth))
  }

  /** The face: dead only after a mine was hit, winning once the game is otherwise over. */
  function SmileImage(gameOver: bool, hitMine: bool): string
  {
    if gameOver then (if hitMine then "smiley_dead.png" else "smiley_win.png") else "smiley_play.png"
  }

  /** `drawSmile(game)` on a screen `screenWidth` wide: records the button's rectangle and draws the face. */
  method DrawSmile(game: Game, screenWidth: int) returns (draw: Placement)
    modifies game`smileRect
    ensures game.smileRect == SmileRect(screenWidth)
    ensures draw == Placement(SmileImage(game.gameOver, game.hitMine), SmileSize(screenWidth),
                              SmileSize(screenWidth), SmileX(screenWidth), 120)
  {
    var yPadding := 120;
    var smileSize := screenWidth / 10;
    var xPos := (screenWidth - smileSize) / 2;
    var smilePath := "smiley_play.png";
    if game.gameOver {
      if game.hitMine {
        smilePath := "smiley_dead.png";
      } else {
        smilePath := "smiley_win.png";
      }
    }
    game.smileRect := (xPos, xPos + smileSize, yPadding, yPadding + smileSize);
    draw := Placement(smilePath, smileSize, smileSize, xPos, yPadding);
  }

  /**
   * The smiley is centred to within a pixel and the button it records is the square it is
   * drawn on, so touching the middle of the face hits it; on a screen 200 or more wide the
   * flag counter, the smiley and the timer sit left to right without overlapping.
   */
  lemma ScreenLayout(screenWidth: int)
    requires 0 <= screenWidth
    ensures var x := SmileX(screenWidth); var s := SmileSize(screenWidth);
      && -1 <= screenWidth - (2 * x + s) <= 1
      && InRect(SmileRect(screenWidth), x + s / 2, 120 + s / 2)
    ensures 200 <= screenWidth ==>
      && DisplayStart("left", screenWidth) + 3 * DigitWidth(screenWidth) < SmileX(screenWidth)
      && SmileX(screenWidth) + SmileSize(screenWidth) < DisplayStart("right", screenWidth)
      && DisplayStart("right", screenWidth) + 3 * DigitWidth(screenWidth) <= screenWidth
  {
  }

  // ---------------------------------------------------------------------------
  // drawCell

  function CellSize(screenWidth: int, n: int): int
    requires 1 <= n
  {
    screenWidth / n - 100 / n
  }

  /** The cell with the screen square `drawCell` gives it on an n by n board. */
  function Placed(cell: Cell, screenWidth: int, screenHeight: int, n: int): Cell
    requires 1 <= n
  {
    var size := CellSize(screenWidth, n);
    cell.(screenX := cell.x * size + 50,
          screenY := cell.y * size + (screenHeight - size * n) / 2 + 60,
          size := size)
  }

  /**
   * `drawCell(game, cell)` on a screen `screenWidth` by `screenHeight`: records the cell's
   * square on screen and draws its image there.
   */
  method DrawCell(game: Game, p: Pos, screenWidth: int, screenHeight: int) returns (draw: Placement)
    requires game.Valid() && InBounds(game.maxX, p)
    modifies game`cells
    ensures game.Valid()
    ensures game.cells == Update(old(game.cells), p, Placed(At(old(game.cells), p), screenWidth, screenHeight, game.maxX))
    ensures var c := At(game.cells, p);
      draw == Placement(CellImage(At(old(game.cells), p)), c.size, c.size, c.screenX, c.screenY)
  {
    var cell := At(game.cells, p);
    var imageName := CellImage(cell);
    var xPadding := 50;
    var yPadding := 60;
    var cellSize := screenWidth / game.maxX - xPadding * 2 / game.maxX;
    var boardYSize := cellSize * game.maxY;
    var yDiff := screenHeight - boardYSize;
    var x := cell.x * cellSize + xPadding;
    var y := cell.y * cellSize + yDiff / 2 + yPadding;
    cell := cell.(screenX := x, screenY := y, size := cellSize);
    UpdateAt(game.cells, p, cell);
    game.cells := Update(game.cells, p, cell);
    draw := Placement(imageName, cellSize, cellSize, x, y);
  }

  // ---------------------------------------------------------------------------
  // drawBoard

  /** Every cell of the board with the square `drawCell` gives it. */
  function LaidOut(cells: seq<seq<Cell>>, screenWidth: int, screenHeight: int, n: int): (r: seq<seq<Cell>>)
    requires Square(cells, n)
    ensures Square(r, n)
  {
    seq(n, j requires 0 <= j < n => seq(n, i requires 0 <= i < n => Placed(cells[j][i], screenWidth, screenHeight, n)))
  }

  /**
   * `drawBoard(game)`: draws every cell, row by row, and then the smiley. Only the cells'
   * screen squares and the smiley's rectangle change.
   */
  method DrawBoard(game: Game, screenWidth: int, screenHeight: int)
    requires game.Valid()
    modifies game`cells, game`smileRect
    ensures game.Valid()
    ensures game.cells == LaidOut(old(game.cells), screenWidth, screenHeight, game.maxX)
    ensures game.smileRect == SmileRect(screenWidth)
  {
    ghost var cells0 := game.cells;
    var n := game.maxX;
    var y := 0;
    while y < n
      invariant 0 <= y <= n && game.Valid() && game.maxX == n
      invariant forall j, i :: 0 <= j < n && 0 <= i < n ==>
        game.cells[j][i] == if j < y then Placed(cells0[j][i], screenWidth, screenHeight, n) else cells0[j][i]
    {
      var x := 0;
      while x < n
        invariant 0 <= x <= n && game.Valid() && game.maxX == n
        invariant forall j, i :: 0 <= j < n && 0 <= i < n ==>
          game.cells[j][i] ==
            if j < y || (j == y && i < x) then Placed(cells0[j][i], screenWidth, screenHeight, n) else cells0[j][i]
      {
        UpdateAt(game.cells, Pos(x, y), Placed(At(game.cells, Pos(x, y)), screenWidth, screenHeight, n));
        var _ := DrawCell(game, Pos(x, y), screenWidth, screenHeight);
        x := x + 1;
      }
      y := y + 1;
    }
    var _ := DrawSmile(game, screenWidth);
    ghost var laid := LaidOut(cells0, screenWidth, screenHeight, n);
    assert forall j | 0 <= j < n :: game.cells[j] == laid[j];
  }

  lemma {:induction false} MulStep(a: int, b: int, size: int)
    requires a < b && 0 <= size
    ensures a * size + size <= b * size
    decreases b - a
  {
    if a + 1 < b {
      MulStep(a, b - 1, size);
      assert (b - 1) * size + size == b * size;
    } else {
      assert (a + 1) * size == a * size + size;
    }
  }

  /**
   * On a laid-out board, touching a point strictly inside a cell's square reports that
   * cell: neighbouring squares share at most their edges.
   */
  lemma TouchInsideCell(cells0: seq<seq<Cell>>, n: int, screenWidth: int, screenHeight: int, p: Pos, tx: int, ty: int)
    requires Square(cells0, n) && InBounds(n, p)
    requires var c := At(LaidOut(cells0, screenWidth, screenHeight, n), p);
      c.screenX < tx < c.screenX + c.size && c.screenY < ty < c.screenY + c.size
    ensures Touched(LaidOut(cells0, screenWidth, screenHeight, n), tx, ty) == Some(p)
  {
    var cells := LaidOut(cells0, screenWidth, screenHeight, n);
    var size := CellSize(screenWidth, n);
    var c := At(cells, p);
    assert c.screenX == p.x * size + 50;
    forall q | OnBoard(cells, q) && Covers(At(cells, q), tx, ty)
      ensures q == p
    {
      var d := At(cells, q);
      assert d.screenX == q.x * size + 50 && d.size == size && d.screenY - c.screenY == q.y * size - p.y * size;
      if q.x < p.x {
        MulStep(q.x, p.x, size);
      } else if p.x < q.x {
        MulStep(p.x, q.x, size);
      } else if q.y < p.y {
        MulStep(q.y, p.y, size);
      } else if p.y < q.y {
        MulStep(p.y, q.y, size);
      }
    }
    TouchedIsFirst(cells, tx, ty);
  }
}
