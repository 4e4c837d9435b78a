/**
 * The game logic of minesweeper.py on a square board: laying the mines, counting them
 * into the cells, moving a mine away from the first click, opening cells (flood-filling
 * from a zero), and finding the touched cell. Random draws and the clock are parameters;
 * the calls to `drawCell` made while opening cells are left out (they only redraw).
 */
module Minesweeper {
  import opened Wrappers
  import opened Grid
  import opened Numbers
  import opened Common

  /** The exceptions the game code can raise. */
  datatype Error = IndexError | ValueError

  /** The cell that `placeMines` marks for the drawn number r: `cells[r % n][r // n]`. */
  function MinePos(r: int, n: int): Pos
    requires n > 0
  {
    Pos(r / n, r % n)
  }

  lemma MinePosInBounds(r: int, n: int)
    requires n > 0 && 0 <= r < n * n
    ensures InBounds(n, MinePos(r, n))
  {
  }

  /** Distinct draws mark distinct cells. */
  lemma MinePosInjective(a: int, b: int, n: int)
    requires n > 0 && MinePos(a, n) == MinePos(b, n)
    ensures a == b
  {
    assert a == (a / n) * n + a % n;
    assert b == (b / n) * n + b % n;
  }

  /** A number not drawn before names an in-bounds cell not marked before. */
  lemma NewMine(placed: seq<Pos>, drawn: seq<int>, v: int, n: int)
    requires n > 0 && 0 <= v < n * n && v !in drawn
    requires |placed| == |drawn| && forall i :: 0 <= i < |placed| ==> placed[i] == MinePos(drawn[i], n)
    ensures InBounds(n, MinePos(v, n)) && MinePos(v, n) !in placed
  {
    MinePosInBounds(v, n);
    forall i | 0 <= i < |placed| ensures placed[i] != MinePos(v, n) {
      if placed[i] == MinePos(v, n) {
        MinePosInjective(drawn[i], v, n);
      }
    }
  }

  /** `cell.isMine = mine` for the cell at `p`. */
  method SetMineFlag(game: Game, p: Pos, mine: bool)
    requires game.Valid() && InBounds(game.maxX, p)
    modifies game`cells
    ensures game.Valid()
    ensures OnlyMinesDiffer(old(game.cells), game.cells, game.maxX)
    ensures Mines(game.cells, game.maxX) ==
      if mine then old(Mines(game.cells, game.maxX)) + {p} else old(Mines(game.cells, game.maxX)) - {p}
    ensures game.cells == Update(old(game.cells), p, At(old(game.cells), p).(isMine := mine))
  {
    SetMine(game.cells, game.maxX, p, mine);
    game.cells := Update(game.cells, p, At(game.cells, p).(isMine := mine));
  }

  /**
   * `randoms` holds what `randrange(0, maxNumber)` returns in each of the first `count`
   * draws of a drawer of `total` numbers, for as long as the drawer is not exhausted.
   */
  ghost predicate RandomDraws(randoms: seq<int>, count: int, total: int)
  {
    && (if count < total then count else total) <= |randoms|
    && forall k :: 0 <= k < count && k < total ==> 0 <= randoms[k] < total - k
  }

  /**
   * One round of `placeMines`' loop: draw a number and mark the cell it names. The draw
   * that finds the drawer exhausted raises ValueError and marks nothing.
   */
  method PlaceNext(game: Game, drawer: NumberDrawer, ghost placed: seq<Pos>, random: int)
    returns (r: Result<Pos, Error>)
    requires game.Valid() && game.maxX > 0
    requires drawer.Valid() && drawer.size == game.maxX * game.maxX && drawer.maxNumber >= 0
    requires drawer.maxNumber > 0 ==> 0 <= random < drawer.maxNumber
    requires |placed| == |drawer.drawn|
    requires forall i :: 0 <= i < |placed| ==> placed[i] == MinePos(drawer.drawn[i], game.maxX)
    modifies game`cells, drawer, drawer.numbers
    ensures game.Valid() && OnlyMinesDiffer(old(game.cells), game.cells, game.maxX)
    ensures drawer.Valid() && drawer.numbers == old(drawer.numbers)
    ensures old(drawer.maxNumber) == 0 ==> r == Err(ValueError) && game.cells == old(game.cells)
    ensures old(drawer.maxNumber) > 0 ==>
      && r.Ok?
      && drawer.maxNumber == old(drawer.maxNumber) - 1
      && |drawer.drawn| == |placed| + 1
      && (forall i :: 0 <= i <= |placed| ==> (placed + [r.value])[i] == MinePos(drawer.drawn[i], game.maxX))
      && (drawer.numbers[..], drawer.drawn) ==
           DrawStep(old(drawer.numbers[..]), old(drawer.drawn), old(drawer.maxNumber), random)
      && InBounds(game.maxX, r.value) && r.value !in placed
      && Mines(game.cells, game.maxX) == old(Mines(game.cells, game.maxX)) + {r.value}
  {
    var d := drawer.GetNumber(random);
    match d
    case NoNumber =>
      assert false;
    case RangeError =>
      return Err(ValueError);
    case Number(v) =>
      var cell := MinePos(v, game.maxX);
      NewMine(placed, old(drawer.drawn), v, game.maxX);
      SetMineFlag(game, cell, true);
      r := Ok(cell);
  }

  /** Draw k + 1 of `Draws` is one `DrawStep` after the first k. */
  lemma DrawsNext(total: nat, randoms: seq<int>, k: nat, count: int)
    requires k < total && k < count && RandomDraws(randoms, count, total)
    ensures k + 1 <= |randoms|
    ensures var prev := Draws(total, randoms, k);
      Draws(total, randoms, k + 1) == DrawStep(prev.0, prev.1, total - k, randoms[k])
  {
  }

  /** The board `cells` is `cells0` with the distinct in-bounds mines of `placed` added. */
  ghost predicate Laid(cells0: seq<seq<Cell>>, cells: seq<seq<Cell>>, n: int, mines0: set<Pos>, placed: seq<Pos>)
  {
    && Square(cells0, n) && Square(cells, n)
    && OnlyMinesDiffer(cells0, cells, n)
    && (forall i :: 0 <= i < |placed| ==> InBounds(n, placed[i]))
    && Distinct(placed)
    && Mines(cells, n) == mines0 + Elements(placed)
  }

  /** Marking one more new in-bounds mine keeps `Laid`. */
  lemma LaidNext(cells0: seq<seq<Cell>>, before: seq<seq<Cell>>, cells: seq<seq<Cell>>, n: int,
                 mines0: set<Pos>, placed: seq<Pos>, p: Pos)
    requires Laid(cells0, before, n, mines0, placed)
    requires Square(cells, n) && OnlyMinesDiffer(before, cells, n)
    requires InBounds(n, p) && p !in placed && Mines(cells, n) == Mines(before, n) + {p}
    ensures Laid(cells0, cells, n, mines0, placed + [p])
  {
    assert Elements(placed + [p]) == Elements(placed) + {p};
  }

  /**
   * The drawer's array and drawn list are those of the first `|placed|` draws of `randoms`
   * from `n * n` numbers, and `placed` lists the cells the drawn numbers name.
   */
  ghost predicate Drawn(numbers: seq<int>, drawn: seq<int>, maxNumber: int, n: int, placed: seq<Pos>,
                        randoms: seq<int>)
  {
    var k := |placed|;
    && n > 0 && |numbers| == n * n && maxNumber == n * n - k && |drawn| == k
    && (forall i :: 0 <= i < k ==> placed[i] == MinePos(drawn[i], n))
    && k <= |randoms| && k <= n * n
    && (forall i :: 0 <= i < k ==> 0 <= randoms[i] < n * n - i)
    && (numbers, drawn) == Draws(n * n, randoms, k)
  }

  /** Drawing `randoms[|placed|]` and naming its cell keeps `Drawn`. */
  lemma DrawnNext(numbers: seq<int>, drawn: seq<int>, maxNumber: int, n: int, placed: seq<Pos>,
                  randoms: seq<int>, count: int, numbers': seq<int>, drawn': seq<int>, p: Pos)
    requires Drawn(numbers, drawn, maxNumber, n, placed, randoms)
    requires |placed| < n * n && |placed| < count && RandomDraws(randoms, count, n * n)
    requires (numbers', drawn') == DrawStep(numbers, drawn, maxNumber, randoms[|placed|])
    requires p == MinePos(drawn'[|placed|], n)
    ensures Drawn(numbers', drawn', maxNumber - 1, n, placed + [p], randoms)
  {
    DrawsNext(n * n, randoms, |placed|, count);
    var placed' := placed + [p];
    assert forall i :: 0 <= i < |placed| ==> drawn'[i] == drawn[i];
    assert forall i :: 0 <= i < |placed'| ==> placed'[i] == MinePos(drawn'[i], n);
  }

  /**
   * The state of `placeMines` after the mines of `placed` are laid: the drawer has handed
   * out exactly the numbers that name them, as the first `|placed|` draws of `randoms`
   * dictate, and the board differs from `cells0` only in those mines.
   */
  ghost predicate Placing(game: Game, drawer: NumberDrawer, cells0: seq<seq<Cell>>, mines0: set<Pos>,
                          placed: seq<Pos>, randoms: seq<int>)
    reads game, drawer, drawer.numbers
  {
    && game.Valid() && drawer.Valid() && drawer.size == game.maxX * game.maxX
    && Laid(cells0, game.cells, game.maxX, mines0, placed)
    && Drawn(drawer.numbers[..], drawer.drawn, drawer.maxNumber, game.maxX, placed, randoms)
  }

  /** One round of `placeMines`' loop, keeping `Placing`; it fails only once every cell is mined. */
  method PlaceRound(game: Game, drawer: NumberDrawer, ghost cells0: seq<seq<Cell>>, ghost mines0: set<Pos>,
                    ghost placed: seq<Pos>, k: nat, randoms: seq<int>, mineCount: int)
    returns (r: Result<Pos, Error>)
    requires Placing(game, drawer, cells0, mines0, placed, randoms) && k == |placed|
    requires |placed| < mineCount && RandomDraws(randoms, mineCount, game.maxX * game.maxX)
    modifies game`cells, drawer, drawer.numbers
    ensures drawer.numbers == old(drawer.numbers)
    ensures r.Err? <==> |placed| == game.maxX * game.maxX
    ensures r.Err? ==> r.error == ValueError && game.cells == old(game.cells)
    ensures r.Ok? ==> Placing(game, drawer, cells0, mines0, placed + [r.value], randoms)
  {
    var n := game.maxX;
    ghost var before := game.cells;
    ghost var numbers := drawer.numbers[..];
    ghost var drawn := drawer.drawn;
    ghost var maxNumber := drawer.maxNumber;
    var random := if k < |randoms| then randoms[k] else 0;
    r := PlaceNext(game, drawer, placed, random);
    if r.Err? {
      return;
    }
    LaidNext(cells0, before, game.cells, n, mines0, placed, r.value);
    DrawnNext(numbers, drawn, maxNumber, n, placed, randoms, mineCount, drawer.numbers[..], drawer.drawn, r.value);
  }

  /**
   * `placeMines(game.cells, game.maxX, mineCount)`: draws `mineCount` distinct numbers below
   * the number of cells, `randoms[k]` being the value of the k-th `randrange`, and marks the
   * cell each one names. It raises IndexError on an empty board and ValueError once more
   * mines are asked for than there are cells.
   */
  method PlaceMines(game: Game, mineCount: int, randoms: seq<int>) returns (r: Result<seq<Pos>, Error>)
    requires game.Valid()
    requires RandomDraws(randoms, mineCount, game.maxX * game.maxX)
    modifies game`cells
    ensures game.Valid()
    ensures OnlyMinesDiffer(old(game.cells), game.cells, game.maxX)
    ensures r.Err? <==> game.maxX == 0 || mineCount > game.maxX * game.maxX
    ensures game.maxX == 0 ==> r == Err(IndexError)
    ensures game.maxX > 0 && mineCount > game.maxX * game.maxX ==> r == Err(ValueError)
    ensures r.Ok? ==>
      && |r.value| == (if mineCount < 0 then 0 else mineCount)
      && Distinct(r.value)
      && (forall i :: 0 <= i < |r.value| ==> InBounds(game.maxX, r.value[i]))
      && Mines(game.cells, game.maxX) == old(Mines(game.cells, game.maxX)) + Elements(r.value)
    ensures r.Ok? ==>
      && |r.value| <= |randoms|
      && forall i :: 0 <= i < |r.value| ==>
           r.value[i] == MinePos(Draws(game.maxX * game.maxX, randoms, |r.value|).1[i], game.maxX)
  {
    var n := game.maxX;
    if |game.cells| == 0 {
      return Err(IndexError);
    }
    ghost var cells0: seq<seq<Cell>> := game.cells;
    ghost var mines0 := Mines(game.cells, n);
    var total := |game.cells| * |game.cells[0]|;
    assert total == n * n;
    var drawer := new NumberDrawer(total);
    var placed: seq<Pos> := [];
    var k := 0;
    while k < mineCount
      invariant 0 <= k <= total && (if mineCount < 0 then k == 0 else k <= mineCount)
      invariant fresh(drawer) && fresh(drawer.numbers)
      invariant |placed| == k && game.maxX == n
      invariant Placing(game, drawer, cells0, mines0, placed, randoms)
    {
      assert Laid(cells0, game.cells, n, mines0, placed);
      var next := PlaceRound(game, drawer, cells0, mines0, placed, k, randoms, mineCount);
      if next.Err? {
        return Err(next.error);
      }
      placed := placed + [next.value];
      k := k + 1;
    }
    r := Ok(placed);
  }

  /** The board after adding `delta` to the count of each listed cell, in order. */
  function AddAll(cells: seq<seq<Cell>>, n: int, ns: seq<Pos>, delta: int): (r: seq<seq<Cell>>)
    requires Square(cells, n) && AllInBounds(n, ns)
    ensures Square(r, n)
    decreases |ns|
  {
    if ns == [] then cells
    else
      var prev := AddAll(cells, n, ns[..|ns| - 1], delta);
      var q := ns[|ns| - 1];
      assert InBounds(n, q) && Square(prev, n);
      assert |prev[q.y]| == n;
      Update(prev, q, At(prev, q).(number := At(prev, q).number + delta))
  }

  lemma AddAllStep(cells: seq<seq<Cell>>, n: int, ns: seq<Pos>, q: Pos, delta: int)
    requires Square(cells, n) && AllInBounds(n, ns) && InBounds(n, q)
    ensures AllInBounds(n, ns + [q])
    ensures var prev := AddAll(cells, n, ns, delta);
      AddAll(cells, n, ns + [q], delta) == Update(prev, q, At(prev, q).(number := At(prev, q).number + delta))
  {
    assert (ns + [q])[..|ns|] == ns;
  }

  /** Adding to each of a list of distinct cells changes exactly their counts, by `delta`. */
  lemma {:induction false} AddAllEffect(cells: seq<seq<Cell>>, n: int, ns: seq<Pos>, delta: int)
    requires Square(cells, n) && AllInBounds(n, ns)
    requires Distinct(ns)
    ensures var r := AddAll(cells, n, ns, delta);
      forall y, x :: 0 <= y < n && 0 <= x < n ==>
        r[y][x] == cells[y][x].(number := cells[y][x].number + if Pos(x, y) in ns then delta else 0)
    decreases |ns|
  {
    if ns != [] {
      var init := ns[..|ns| - 1];
      var q := ns[|ns| - 1];
      assert AllInBounds(n, init) by {
        forall i | 0 <= i < |init| ensures InBounds(n, init[i]) {
          assert init[i] == ns[i];
        }
      }
      assert q !in init by {
        forall i | 0 <= i < |init| ensures init[i] != q {
          assert init[i] == ns[i];
        }
      }
      AddAllEffect(cells, n, init, delta);
      AddAllLast(cells, n, ns, delta);
    }
  }

  /** The last step of `AddAll`: adding to a cell not listed before it. */
  lemma AddAllLast(cells: seq<seq<Cell>>, n: int, ns: seq<Pos>, delta: int)
    requires Square(cells, n) && AllInBounds(n, ns) && ns != []
    requires AllInBounds(n, ns[..|ns| - 1]) && ns[|ns| - 1] !in ns[..|ns| - 1]
    requires var prev := AddAll(cells, n, ns[..|ns| - 1], delta);
      forall y, x :: 0 <= y < n && 0 <= x < n ==>
        prev[y][x] == cells[y][x].(number := cells[y][x].number + if Pos(x, y) in ns[..|ns| - 1] then delta else 0)
    ensures var r := AddAll(cells, n, ns, delta);
      forall y, x :: 0 <= y < n && 0 <= x < n ==>
        r[y][x] == cells[y][x].(number := cells[y][x].number + if Pos(x, y) in ns then delta else 0)
  {
    var init := ns[..|ns| - 1];
    var q := ns[|ns| - 1];
    var prev := AddAll(cells, n, init, delta);
    var added := At(prev, q).(number := At(prev, q).number + delta);
    var r := AddAll(cells, n, ns, delta);
    assert r == Update(prev, q, added);
    forall y, x | 0 <= y < n && 0 <= x < n
      ensures r[y][x] == cells[y][x].(number := cells[y][x].number + if Pos(x, y) in ns then delta else 0)
    {
      UpdatePoint(prev, q, added, y, x);
      InSplitLast(ns, Pos(x, y));
    }
  }

  /** `cell.number += delta` for the cell at `q`. */
  method AddToCell(game: Game, q: Pos, delta: int)
    requires game.Valid() && InBounds(game.maxX, q)
    modifies game`cells
    ensures game.Valid()
    ensures game.cells == Update(old(game.cells), q, At(old(game.cells), q).(number := At(old(game.cells), q).number + delta))
  {
    game.cells := Update(game.cells, q, At(game.cells, q).(number := At(game.cells, q).number + delta));
  }

  /** The loop `for neighbour in neighbours: neighbour.number += delta`. */
  method AddToEach(game: Game, neighbours: seq<Pos>, delta: int)
    requires game.Valid() && AllInBounds(game.maxX, neighbours)
    modifies game`cells
    ensures game.Valid()
    ensures game.cells == AddAll(old(game.cells), game.maxX, neighbours, delta)
  {
    var n := game.maxX;
    ghost var cells0: seq<seq<Cell>> := game.cells;
    var i := 0;
    ghost var done: seq<Pos> := [];
    while i < |neighbours|
      invariant 0 <= i <= |neighbours|
      invariant game.Valid() && game.maxX == n
      invariant done == neighbours[..i] && AllInBounds(n, done)
      invariant game.cells == AddAll(cells0, n, done, delta)
    {
      var q := neighbours[i];
      AddAllStep(cells0, n, done, q, delta);
      AddToCell(game, q, delta);
      done := done + [q];
      i := i + 1;
    }
    assert done == neighbours;
  }

  /**
   * `placeNumbers(game.cells, cellsWithMines)`: every cell's number grows by how many of
   * the listed cells it neighbours.
   */
  method PlaceNumbers(game: Game, cellsWithMines: seq<Pos>)
    requires game.Valid()
    modifies game`cells
    ensures game.Valid()
    ensures forall y, x :: 0 <= y < game.maxX && 0 <= x < game.maxX ==>
      game.cells[y][x] == old(game.cells[y][x]).(number := old(game.cells[y][x].number)
        + CountAround(cellsWithMines, game.maxX, Pos(x, y)))
  {
    var n := game.maxX;
    ghost var cells0: seq<seq<Cell>> := game.cells;
    var i := 0;
    while i < |cellsWithMines|
      invariant 0 <= i <= |cellsWithMines|
      invariant game.Valid() && game.maxX == n
      invariant forall y, x :: 0 <= y < n && 0 <= x < n ==>
        game.cells[y][x] == cells0[y][x].(number := cells0[y][x].number
          + CountAround(cellsWithMines[..i], n, Pos(x, y)))
    {
      assert cellsWithMines[..i + 1][..i] == cellsWithMines[..i];
      ghost var before: seq<seq<Cell>> := game.cells;
      var neighbours := Neighbours(n, cellsWithMines[i]);
      AddToEach(game, neighbours, 1);
      NeighboursSpec(n, cellsWithMines[i]);
      AddAllEffect(before, n, Neighbours(n, cellsWithMines[i]), 1);
      i := i + 1;
    }
    assert cellsWithMines[..i] == cellsWithMines;
  }

  /**
   * Counting the listed mines into a board whose counts were all zero, as `createGame`
   * does, leaves every cell counting exactly the mines around it.
   */
  lemma CountsAreConsistent(mined: seq<seq<Cell>>, counted: seq<seq<Cell>>, n: int, placed: seq<Pos>)
    requires Square(mined, n) && Square(counted, n)
    requires Distinct(placed) && forall i :: 0 <= i < |placed| ==> InBounds(n, placed[i])
    requires Mines(mined, n) == Elements(placed)
    requires forall y, x :: 0 <= y < n && 0 <= x < n ==> mined[y][x].number == 0
    requires forall y, x :: 0 <= y < n && 0 <= x < n ==>
      counted[y][x] == mined[y][x].(number := mined[y][x].number + CountAround(placed, n, Pos(x, y)))
    ensures Consistent(counted, n) && Mines(counted, n) == Mines(mined, n)
  {
    assert OnlyNumbersDiffer(mined, counted, n);
    SameMinesAndOpen(mined, counted, n);
    forall y, x | 0 <= y < n && 0 <= x < n
      ensures counted[y][x].number == MinesAround(counted, n, Pos(x, y))
    {
      CountAroundIsCard(placed, n, Pos(x, y));
    }
  }

  /**
   * The cells that the first `count` draws name (none for a negative count), `randoms`
   * being the `randrange` results.
   */
  ghost function DrawnCells(n: int, randoms: seq<int>, count: int): set<Pos>
    requires n > 0 && count <= n * n && RandomDraws(randoms, count, n * n)
  {
    var k := if count < 0 then 0 else count;
    var drawn := Draws(n * n, randoms, k).1;
    set i | 0 <= i < k :: MinePos(drawn[i], n)
  }

  /** The cells of a list that agrees, entry by entry, with the draws. */
  lemma PlacedAreDrawn(placed: seq<Pos>, n: int, randoms: seq<int>)
    requires n > 0 && |placed| <= n * n && |placed| <= |randoms| && RandomDraws(randoms, |placed|, n * n)
    requires forall i :: 0 <= i < |placed| ==> placed[i] == MinePos(Draws(n * n, randoms, |placed|).1[i], n)
    ensures Elements(placed) == DrawnCells(n, randoms, |placed|)
  {
    var drawn := Draws(n * n, randoms, |placed|).1;
    forall p | p in DrawnCells(n, randoms, |placed|) ensures p in Elements(placed) {
      var i :| 0 <= i < |placed| && p == MinePos(drawn[i], n);
      assert p == placed[i];
    }
  }

  /**
   * The body of `createGame` after the board is built: `placeMines` then `placeNumbers`.
   * On a board without mines whose counts are zero it lays `mines` mines and leaves every
   * cell counting the mines around it.
   */
  method LayMines(game: Game, mines: int, randoms: seq<int>) returns (r: Result<(), Error>)
    requires game.Valid() && Mines(game.cells, game.maxX) == {}
    requires forall y, x :: 0 <= y < game.maxX && 0 <= x < game.maxX ==> game.cells[y][x].number == 0
    requires RandomDraws(randoms, mines, game.maxX * game.maxX)
    modifies game`cells
    ensures game.Valid() && OnlyMinesAndNumbersDiffer(old(game.cells), game.cells, game.maxX)
    ensures r.Err? <==> game.maxX == 0 || mines > game.maxX * game.maxX
    ensures r.Ok? ==>
      && Consistent(game.cells, game.maxX)
      && |Mines(game.cells, game.maxX)| == (if mines < 0 then 0 else mines)
    ensures r.Ok? ==> Mines(game.cells, game.maxX) == DrawnCells(game.maxX, randoms, mines)
  {
    var n := game.maxX;
    ghost var cells0: seq<seq<Cell>> := game.cells;
    var placed := PlaceMines(game, mines, randoms);
    if placed.Err? {
      return Err(placed.error);
    }
    ghost var mined := game.cells;
    ghost var mineSet := Elements(placed.value);
    assert Mines(mined, n) == mineSet;
    PlacedAreDrawn(placed.value, n, randoms);
    PlaceNumbers(game, placed.value);
    CountsAreConsistent(mined, game.cells, n, placed.value);
    DistinctCard(placed.value);
    r := Ok(());
  }

  /**
   * `createGame(x, y, mines)` on a square board: a fresh game whose `mines` mines are
   * the cells the draws name and whose every cell counts the mines around it. It fails
   * with IndexError when the board is empty and with ValueError when there are more
   * mines than cells.
   */
  method CreateGame(x: int, y: int, mines: int, randoms: seq<int>) returns (r: Result<Game, Error>)
    requires x == y
    requires RandomDraws(randoms, mines, x * x)
    ensures r.Err? <==> x <= 0 || mines > x * x
    ensures r.Ok? ==>
      && fresh(r.value) && r.value.Valid()
      && r.value.maxX == x && r.value.maxY == y && r.value.minesCount == mines
      && Consistent(r.value.cells, x)
      && |Mines(r.value.cells, x)| == (if mines < 0 then 0 else mines)
      && (forall j, i :: 0 <= j < y && 0 <= i < x ==> !r.value.cells[j][i].isOpen && !r.value.cells[j][i].isFlagged)
      && r.value.nonMineCellsOpened == 0 && r.value.clicks == 0
      && !r.value.gameOver && !r.value.hitMine
    ensures r.Ok? ==> Mines(r.value.cells, x) == DrawnCells(x, randoms, mines)
  {
    var game := new Game(GenerateGrid(if x < 0 then 0 else x, if y < 0 then 0 else y), x, y, mines);
    if x < 0 {
      // `generateGrid` builds an empty board, on which `placeMines` raises.
      return Err(IndexError);
    }
    NoMinesOnNewBoard(x);
    var laid := LayMines(game, mines, randoms);
    if laid.Err? {
      return Err(laid.error);
    }
    r := Ok(game);
  }

  /** The row-by-row search of `moveMine` for the first cell without a mine. */
  method FindFree(game: Game) returns (f: Option<Pos>)
    requires game.Valid()
    ensures f == FirstFree(game.cells, game.maxX)
  {
    var n := game.maxX;
    var y := 0;
    while y < n
      invariant 0 <= y <= n
      invariant FirstFreeFrom(game.cells, n, y, 0) == FirstFree(game.cells, n)
    {
      var x := 0;
      while x < n
        invariant 0 <= x <= n
        invariant FirstFreeFrom(game.cells, n, y, x) == FirstFree(game.cells, n)
      {
        if !game.cells[y][x].isMine {
          return Some(Pos(x, y));
        }
        x := x + 1;
      }
      y := y + 1;
    }
    return None;
  }

  lemma CardRemoveOne<T>(a: set<T>, s: set<T>, p: T)
    requires p in s
    ensures |a * (s - {p})| == |a * s| - (if p in a then 1 else 0)
  {
    if p in a {
      assert a * s == (a * (s - {p})) + {p};
    } else {
      assert a * (s - {p}) == a * s;
    }
  }

  /**
   * Moving a mine from `c` to the free cell `f` (or just removing it when there is none)
   * and adjusting the counts of both neighbourhoods keeps every count right.
   */
  lemma MoveKeepsConsistent(a: seq<seq<Cell>>, b: seq<seq<Cell>>, n: int, c: Pos, f: Option<Pos>)
    requires Square(a, n) && Square(b, n) && Consistent(a, n)
    requires c in Mines(a, n)
    requires f.Some? ==> f.value in Positions(n) && f.value !in Mines(a, n)
    requires Mines(b, n) == (Mines(a, n) + (if f.Some? then {f.value} else {})) - {c}
    requires forall y, x :: 0 <= y < n && 0 <= x < n ==>
      b[y][x].number == a[y][x].number
        + (if f.Some? && Pos(x, y) in Neighbours(n, f.value) then 1 else 0)
        - (if Pos(x, y) in Neighbours(n, c) then 1 else 0)
    ensures Consistent(b, n)
  {
    var added := Mines(a, n) + (if f.Some? then {f.value} else {});
    forall y, x | 0 <= y < n && 0 <= x < n
      ensures b[y][x].number == MinesAround(b, n, Pos(x, y))
    {
      var q := Pos(x, y);
      var around := NeighbourSet(n, q);
      if f.Some? {
        CardAddOne(around, Mines(a, n), f.value);
        NeighbourSymmetric(n, q, f.value);
      }
      assert |around * added| == MinesAround(a, n, q) + (if f.Some? && f.value in around then 1 else 0);
      CardRemoveOne(around, added, c);
      NeighbourSymmetric(n, q, c);
    }
  }

  /**
   * The board after setting or clearing the mine at `p` and adding or taking one from the
   * count of each of its neighbours, as each half of `moveMine` does.
   */
  function Flip(cells: seq<seq<Cell>>, n: int, p: Pos, mine: bool): (r: seq<seq<Cell>>)
    requires Square(cells, n) && InBounds(n, p)
    ensures Square(r, n)
  {
    SetMine(cells, n, p, mine);
    var marked := Update(cells, p, At(cells, p).(isMine := mine));
    AddAll(marked, n, Neighbours(n, p), if mine then 1 else -1)
  }

  /**
   * Flipping the mine at `p` changes only mines and counts: `p` gains or loses its mine, and
   * exactly the neighbours of `p` gain or lose one from their count.
   */
  lemma FlipEffect(cells: seq<seq<Cell>>, n: int, p: Pos, mine: bool)
    requires Square(cells, n) && InBounds(n, p)
    ensures var r := Flip(cells, n, p, mine);
      && OnlyMinesAndNumbersDiffer(cells, r, n)
      && Mines(r, n) == (if mine then Mines(cells, n) + {p} else Mines(cells, n) - {p})
      && forall y, x :: 0 <= y < n && 0 <= x < n ==>
           r[y][x].number == cells[y][x].number + if Pos(x, y) in Neighbours(n, p) then (if mine then 1 else -1) else 0
  {
    SetMine(cells, n, p, mine);
    var marked := Update(cells, p, At(cells, p).(isMine := mine));
    var r := AddAll(marked, n, Neighbours(n, p), if mine then 1 else -1);
    NeighboursSpec(n, p);
    AddAllEffect(marked, n, Neighbours(n, p), if mine then 1 else -1);
    assert OnlyNumbersDiffer(marked, r, n);
    SameMinesAndOpen(marked, r, n);
  }

  /** Sets or clears the mine at `p` and moves the counts around it. */
  method FlipMine(game: Game, p: Pos, mine: bool)
    requires game.Valid() && InBounds(game.maxX, p)
    modifies game`cells
    ensures game.Valid() && game.cells == Flip(old(game.cells), game.maxX, p, mine)
  {
    SetMineFlag(game, p, mine);
    var neighbours := Neighbours(game.maxX, p);
    AddToEach(game, neighbours, if mine then 1 else -1);
  }

  /** The board `moveMine` leaves: a mine added on the first free cell, the one on `c` removed. */
  function Moved(cells: seq<seq<Cell>>, n: int, c: Pos): (r: seq<seq<Cell>>)
    requires Square(cells, n) && InBounds(n, c)
    ensures Square(r, n)
  {
    FirstFreeIsFirst(cells, n);
    var m := match FirstFree(cells, n) case Some(f) => Flip(cells, n, f, true) case None => cells;
    Flip(m, n, c, false)
  }

  /** The move as its two flips: the mines it adds and removes, and the counts around them. */
  lemma MovedFlips(cells: seq<seq<Cell>>, n: int, c: Pos)
    requires Square(cells, n) && InBounds(n, c)
    ensures var f := FirstFree(cells, n);
      var b := Moved(cells, n, c);
      && OnlyMinesAndNumbersDiffer(cells, b, n)
      && Mines(b, n) == (Mines(cells, n) + (if f.Some? then {f.value} else {})) - {c}
      && (forall y, x :: 0 <= y < n && 0 <= x < n ==>
          b[y][x].number == cells[y][x].number
            + (if f.Some? && Pos(x, y) in Neighbours(n, f.value) then 1 else 0)
            - (if Pos(x, y) in Neighbours(n, c) then 1 else 0))
  {
    FirstFreeIsFirst(cells, n);
    var f := FirstFree(cells, n);
    var m := match f case Some(free) => Flip(cells, n, free, true) case None => cells;
    var b := Flip(m, n, c, false);
    assert b == Moved(cells, n, c);
    if f.Some? {
      FlipEffect(cells, n, f.value, true);
    }
    FlipEffect(m, n, c, false);
    OnlyMinesAndNumbersDifferTrans(cells, m, b, n);
    assert Mines(m, n) == Mines(cells, n) + (if f.Some? then {f.value} else {});
    assert forall y, x :: 0 <= y < n && 0 <= x < n ==>
      m[y][x].number == cells[y][x].number + (if f.Some? && Pos(x, y) in Neighbours(n, f.value) then 1 else 0);
  }

  /**
   * After `moveMine` the free cell found row by row holds a mine, `c` does not, the counts
   * around both moved by one, and nothing else changed; if `c` held a mine and every count
   * was right, every count is still right, and as many mines remain when a free cell existed.
   */
  lemma MovedMine(cells: seq<seq<Cell>>, n: int, c: Pos)
    requires Square(cells, n) && InBounds(n, c)
    ensures var f := FirstFree(cells, n);
      var b := Moved(cells, n, c);
      && OnlyMinesAndNumbersDiffer(cells, b, n)
      && Mines(b, n) == (Mines(cells, n) + (if f.Some? then {f.value} else {})) - {c}
      && (forall y, x :: 0 <= y < n && 0 <= x < n ==>
          b[y][x].number == cells[y][x].number
            + (if f.Some? && Pos(x, y) in Neighbours(n, f.value) then 1 else 0)
            - (if Pos(x, y) in Neighbours(n, c) then 1 else 0))
      && (Consistent(cells, n) && c in Mines(cells, n) ==> Consistent(b, n))
      && (c in Mines(cells, n) && f.Some? ==> |Mines(b, n)| == |Mines(cells, n)|)
  {
    MovedFlips(cells, n, c);
    FirstFreeIsFirst(cells, n);
    var f := FirstFree(cells, n);
    var b := Moved(cells, n, c);
    if Consistent(cells, n) && c in Mines(cells, n) {
      MoveKeepsConsistent(cells, b, n, c, f);
    }
    if c in Mines(cells, n) && f.Some? {
      CardSwap(Mines(cells, n), f.value, c);
    }
  }

  /**
   * `moveMine(game, cell)`: puts a mine on the first free cell, row by row, and takes the
   * mine off `c`, adjusting the counts around both (the source searches and marks in one
   * loop; here the search comes first).
   */
  method MoveMine(game: Game, c: Pos)
    requires game.Valid() && InBounds(game.maxX, c)
    modifies game`cells
    ensures game.Valid() && game.cells == Moved(old(game.cells), game.maxX, c)
  {
    var f := FindFree(game);
    if f.Some? {
      FirstFreeIsFirst(game.cells, game.maxX);
      FlipMine(game, f.value, true);
    }
    FlipMine(game, c, false);
  }

  /** The cells open in `b` that were not open in `a`. */
  ghost function Opened(a: seq<seq<Cell>>, b: seq<seq<Cell>>, n: int): set<Pos>
    requires Square(a, n) && Square(b, n)
  {
    OpenSet(b, n) - OpenSet(a, n)
  }

  /** `cell.isOpen = True` for the cell at `q`. */
  method OpenAt(game: Game, q: Pos)
    requires game.Valid() && InBounds(game.maxX, q)
    modifies game`cells
    ensures game.Valid()
    ensures game.cells == Update(old(game.cells), q, At(old(game.cells), q).(isOpen := true))
  {
    SetOpen(game.cells, game.maxX, q);
    game.cells := Update(game.cells, q, At(game.cells, q).(isOpen := true));
  }

  /** Whether the inner loop of `openMultiple` opens `q`: it is neither flagged nor open. */
  predicate Openable(cells: seq<seq<Cell>>, n: int, q: Pos)
    requires Square(cells, n) && InBounds(n, q)
  {
    !At(cells, q).isFlagged && !At(cells, q).isOpen
  }

  /** The board after the inner loop of `openMultiple` has gone through `ns`, in order. */
  function OpenList(cells: seq<seq<Cell>>, n: int, ns: seq<Pos>): (r: seq<seq<Cell>>)
    requires Square(cells, n) && AllInBounds(n, ns)
    ensures Square(r, n)
    decreases |ns|
  {
    if ns == [] then cells
    else
      var prev := OpenList(cells, n, ns[..|ns| - 1]);
      var q := ns[|ns| - 1];
      assert InBounds(n, q) && Square(prev, n);
      SetOpen(prev, n, q);
      if Openable(prev, n, q) then Update(prev, q, At(prev, q).(isOpen := true)) else prev
  }

  /** The cells the inner loop of `openMultiple` pushes while going through `ns`. */
  function Pushed(cells: seq<seq<Cell>>, n: int, ns: seq<Pos>): seq<Pos>
    requires Square(cells, n) && AllInBounds(n, ns)
    decreases |ns|
  {
    if ns == [] then []
    else
      var prev := OpenList(cells, n, ns[..|ns| - 1]);
      var q := ns[|ns| - 1];
      assert InBounds(n, q);
      Pushed(cells, n, ns[..|ns| - 1]) + if Openable(prev, n, q) && At(prev, q).number == 0 then [q] else []
  }

  /** How many cells the inner loop of `openMultiple` opens while going through `ns`. */
  function OpenCount(cells: seq<seq<Cell>>, n: int, ns: seq<Pos>): nat
    requires Square(cells, n) && AllInBounds(n, ns)
    decreases |ns|
  {
    if ns == [] then 0
    else
      var prev := OpenList(cells, n, ns[..|ns| - 1]);
      var q := ns[|ns| - 1];
      assert InBounds(n, q);
      OpenCount(cells, n, ns[..|ns| - 1]) + if Openable(prev, n, q) then 1 else 0
  }

  lemma OpenListStep(cells: seq<seq<Cell>>, n: int, ns: seq<Pos>, q: Pos)
    requires Square(cells, n) && AllInBounds(n, ns) && InBounds(n, q)
    ensures AllInBounds(n, ns + [q])
    ensures var prev := OpenList(cells, n, ns);
      && OpenList(cells, n, ns + [q]) ==
           (if Openable(prev, n, q) then Update(prev, q, At(prev, q).(isOpen := true)) else prev)
      && Pushed(cells, n, ns + [q]) ==
           Pushed(cells, n, ns) + (if Openable(prev, n, q) && At(prev, q).number == 0 then [q] else [])
      && OpenCount(cells, n, ns + [q]) == OpenCount(cells, n, ns) + if Openable(prev, n, q) then 1 else 0
  {
    assert (ns + [q])[..|ns|] == ns;
  }

  /** `OpenListStep` for the prefixes of a list that the inner loop has walked. */
  lemma OpenPrefixStep(cells: seq<seq<Cell>>, n: int, ns: seq<Pos>, i: int)
    requires Square(cells, n) && AllInBounds(n, ns) && 0 <= i < |ns|
    ensures var prev := OpenList(cells, n, ns[..i]);
      var q := ns[i];
      && OpenList(cells, n, ns[..i + 1]) ==
           (if Openable(prev, n, q) then Update(prev, q, At(prev, q).(isOpen := true)) else prev)
      && Pushed(cells, n, ns[..i + 1]) ==
           Pushed(cells, n, ns[..i]) + (if Openable(prev, n, q) && At(prev, q).number == 0 then [q] else [])
      && OpenCount(cells, n, ns[..i + 1]) == OpenCount(cells, n, ns[..i]) + if Openable(prev, n, q) then 1 else 0
  {
    assert AllInBounds(n, ns[..i]);
    OpenListStep(cells, n, ns[..i], ns[i]);
    assert ns[..i + 1] == ns[..i] + [ns[i]];
  }

  /** The inner loop changes nothing but `isOpen`. */
  lemma {:induction false} OpenListKeeps(cells: seq<seq<Cell>>, n: int, ns: seq<Pos>)
    requires Square(cells, n) && AllInBounds(n, ns)
    ensures OnlyOpenDiffers(cells, OpenList(cells, n, ns), n)
    decreases |ns|
  {
    if ns != [] {
      var init := ns[..|ns| - 1];
      var q := ns[|ns| - 1];
      OpenListStep(cells, n, init, q);
      SplitLast(ns);
      var prev := OpenList(cells, n, init);
      OpenListKeeps(cells, n, init);
      SetOpen(prev, n, q);
      OnlyOpenDiffersTrans(cells, prev, OpenList(cells, n, ns), n);
    }
  }

  /** The inner loop opens exactly the listed cells that are not flagged. */
  lemma {:induction false} OpenListOpens(cells: seq<seq<Cell>>, n: int, ns: seq<Pos>)
    requires Square(cells, n) && AllInBounds(n, ns)
    ensures forall p :: p in OpenSet(OpenList(cells, n, ns), n) <==>
      p in OpenSet(cells, n) || (p in ns && !At(cells, p).isFlagged)
    decreases |ns|
  {
    if ns != [] {
      var init := ns[..|ns| - 1];
      var q := ns[|ns| - 1];
      OpenListStep(cells, n, init, q);
      SplitLast(ns);
      var prev := OpenList(cells, n, init);
      OpenListOpens(cells, n, init);
      OpenListKeeps(cells, n, init);
      assert At(prev, q).isFlagged == At(cells, q).isFlagged;
      SetOpen(prev, n, q);
      assert q in Positions(n);
    }
  }

  /** The inner loop counts each cell it opens exactly once. */
  lemma {:induction false} OpenListCount(cells: seq<seq<Cell>>, n: int, ns: seq<Pos>)
    requires Square(cells, n) && AllInBounds(n, ns)
    ensures OpenSet(cells, n) <= OpenSet(OpenList(cells, n, ns), n)
    ensures OpenCount(cells, n, ns) == |Opened(cells, OpenList(cells, n, ns), n)|
    decreases |ns|
  {
    if ns != [] {
      var init := ns[..|ns| - 1];
      var q := ns[|ns| - 1];
      OpenListStep(cells, n, init, q);
      var prev := OpenList(cells, n, init);
      var r := OpenList(cells, n, ns);
      SplitLast(ns);
      OpenListCount(cells, n, init);
      if Openable(prev, n, q) {
        SetOpen(prev, n, q);
        assert OpenSet(r, n) == OpenSet(prev, n) + {q} && q !in OpenSet(prev, n);
        assert OpenSet(r, n) - OpenSet(prev, n) == {q};
      } else {
        assert r == prev;
      }
      CardNested(OpenSet(cells, n), OpenSet(prev, n), OpenSet(r, n));
    }
  }

  /** The inner loop pushes exactly the cells it opens whose number is zero. */
  lemma {:induction false} PushedAreOpenedZeros(cells: seq<seq<Cell>>, n: int, ns: seq<Pos>)
    requires Square(cells, n) && AllInBounds(n, ns)
    ensures forall q :: q in Pushed(cells, n, ns) <==>
      q in Opened(cells, OpenList(cells, n, ns), n) && At(cells, q).number == 0
    decreases |ns|
  {
    if ns != [] {
      var init := ns[..|ns| - 1];
      var q := ns[|ns| - 1];
      OpenListStep(cells, n, init, q);
      SplitLast(ns);
      var prev := OpenList(cells, n, init);
      var r := OpenList(cells, n, ns);
      PushedAreOpenedZeros(cells, n, init);
      OpenListKeeps(cells, n, init);
      OpenListCount(cells, n, init);
      assert At(prev, q).number == At(cells, q).number;
      if Openable(prev, n, q) {
        SetOpen(prev, n, q);
        assert OpenSet(r, n) == OpenSet(prev, n) + {q};
        assert q !in OpenSet(cells, n);
        assert Opened(cells, r, n) == Opened(cells, prev, n) + {q};
      } else {
        assert r == prev;
      }
    }
  }

  /**
   * One pass of the inner loop of `openMultiple`: open `q` if it is neither flagged nor
   * open, counting it, and push it when its number is zero.
   */
  method OpenNeighbour(game: Game, q: Pos, pushed: seq<Pos>) returns (pushed': seq<Pos>)
    requires game.Valid() && InBounds(game.maxX, q)
    modifies game`cells, game`nonMineCellsOpened
    ensures game.Valid()
    ensures var prev := old(game.cells);
      && game.cells == (if Openable(prev, game.maxX, q) then Update(prev, q, At(prev, q).(isOpen := true)) else prev)
      && pushed' == pushed + (if Openable(prev, game.maxX, q) && At(prev, q).number == 0 then [q] else [])
      && game.nonMineCellsOpened == old(game.nonMineCellsOpened) + if Openable(prev, game.maxX, q) then 1 else 0
  {
    pushed' := pushed;
    var cell := At(game.cells, q);
    if !cell.isFlagged && !cell.isOpen {
      OpenAt(game, q);
      game.nonMineCellsOpened := game.nonMineCellsOpened + 1;
      if cell.number == 0 {
        pushed' := pushed' + [q];
      }
    }
  }

  /**
   * The inner loop of `openMultiple`: opens every listed cell that is neither flagged nor
   * open, counting each, and returns the newly opened zeros in the order they are pushed.
   */
  method OpenEach(game: Game, neighbours: seq<Pos>) returns (pushed: seq<Pos>)
    requires game.Valid() && AllInBounds(game.maxX, neighbours)
    modifies game`cells, game`nonMineCellsOpened
    ensures game.Valid()
    ensures game.cells == OpenList(old(game.cells), game.maxX, neighbours)
    ensures pushed == Pushed(old(game.cells), game.maxX, neighbours)
    ensures game.nonMineCellsOpened == old(game.nonMineCellsOpened) + OpenCount(old(game.cells), game.maxX, neighbours)
  {
    var n := game.maxX;
    ghost var cells0: seq<seq<Cell>> := game.cells;
    pushed := [];
    var i := 0;
    while i < |neighbours|
      invariant 0 <= i <= |neighbours|
      invariant game.Valid() && game.maxX == n
      invariant game.cells == OpenList(cells0, n, neighbours[..i])
      invariant pushed == Pushed(cells0, n, neighbours[..i])
      invariant game.nonMineCellsOpened == old(game.nonMineCellsOpened) + OpenCount(cells0, n, neighbours[..i])
    {
      var q := neighbours[i];
      OpenPrefixStep(cells0, n, neighbours, i);
      pushed := OpenNeighbour(game, q, pushed);
      i := i + 1;
    }
    assert neighbours[..i] == neighbours;
  }

  /**
   * A cell whose neighbours the flood fill started from `c` must go through: `c` itself, or
   * a cell it opened whose number is zero.
   */
  ghost predicate Source(cells0: seq<seq<Cell>>, cur: seq<seq<Cell>>, n: int, c: Pos, p: Pos)
    requires Square(cells0, n) && Square(cur, n)
  {
    p == c || (InBounds(n, p) && p in Opened(cells0, cur, n) && At(cells0, p).number == 0)
  }

  /** Opening from `c` cannot reach a mine: the board is consistent and `c` is a safe zero. */
  ghost predicate SafeStart(cells0: seq<seq<Cell>>, n: int, c: Pos)
    requires Square(cells0, n) && InBounds(n, c)
  {
    Consistent(cells0, n) && !At(cells0, c).isMine && At(cells0, c).number == 0
  }

  /** The invariant of the outer loop of `openMultiple`, from board `cells0` to board `cur`. */
  ghost predicate FloodInv(cells0: seq<seq<Cell>>, cur: seq<seq<Cell>>, n: int, c: Pos, stack: seq<Pos>)
  {
    && Square(cells0, n) && Square(cur, n) && InBounds(n, c)
    && OnlyOpenDiffers(cells0, cur, n)
    && OpenSet(cells0, n) + {c} <= OpenSet(cur, n)
    && AllInBounds(n, stack)
    && (forall q :: InBounds(n, q) && q in Opened(cells0, cur, n) && q != c ==> !At(cells0, q).isFlagged)
    && (forall i :: 0 <= i < |stack| ==> Source(cells0, cur, n, c, stack[i]))
    && (forall p :: Source(cells0, cur, n, c, p) ==> p in stack || Cleared(cur, n, p))
    && (SafeStart(cells0, n, c) ==> forall q :: q in Opened(cells0, cur, n) ==> q !in Mines(cells0, n))
  }

  /** Opening more cells keeps a cleared cell cleared. */
  lemma ClearedStays(a: seq<seq<Cell>>, b: seq<seq<Cell>>, n: int, p: Pos)
    requires Square(a, n) && Square(b, n)
    requires OnlyOpenDiffers(a, b, n) && OpenSet(a, n) <= OpenSet(b, n)
    requires Cleared(a, n, p)
    ensures Cleared(b, n, p)
  {
    var ns := Neighbours(n, p);
    forall q | q in ns
      ensures At(b, q).isOpen || At(b, q).isFlagged
    {
      assert InBounds(n, q);
      if At(a, q).isOpen {
        assert q in Positions(n);
        assert q in OpenSet(a, n);
      }
    }
  }

  /** Going through the neighbours of `p` leaves `p` cleared. */
  lemma PoppedCleared(cur: seq<seq<Cell>>, n: int, p: Pos)
    requires Square(cur, n)
    ensures Cleared(OpenList(cur, n, Neighbours(n, p)), n, p)
  {
    var ns := Neighbours(n, p);
    var next := OpenList(cur, n, ns);
    OpenListOpens(cur, n, ns);
    OpenListKeeps(cur, n, ns);
    forall q | q in ns
      ensures At(next, q).isOpen || At(next, q).isFlagged
    {
      assert InBounds(n, q);
      if !At(cur, q).isFlagged {
        assert q in OpenSet(next, n);
      }
    }
  }

  /** The neighbours of a safe zero hold no mine. */
  lemma ZeroHasNoMinesAround(cells: seq<seq<Cell>>, n: int, p: Pos, q: Pos)
    requires Square(cells, n) && Consistent(cells, n) && InBounds(n, p)
    requires At(cells, p).number == 0 && q in Neighbours(n, p)
    ensures q !in Mines(cells, n)
  {
    assert MinesAround(cells, n, Pos(p.x, p.y)) == 0;
    assert q in NeighbourSet(n, p);
  }

  /** The facts about one round of the outer loop that the lemmas below share. */
  ghost predicate Round(cells0: seq<seq<Cell>>, cur: seq<seq<Cell>>, next: seq<seq<Cell>>, n: int,
                        c: Pos, stack: seq<Pos>, p: Pos, pushed: seq<Pos>)
  {
    && FloodInv(cells0, cur, n, c, stack + [p])
    && next == OpenList(cur, n, Neighbours(n, p))
    && pushed == Pushed(cur, n, Neighbours(n, p))
  }

  /** A source stays a source while more cells open. */
  lemma SourceStays(cells0: seq<seq<Cell>>, cur: seq<seq<Cell>>, next: seq<seq<Cell>>, n: int, c: Pos, q: Pos)
    requires Square(cells0, n) && Square(cur, n) && Square(next, n)
    requires OpenSet(cur, n) <= OpenSet(next, n)
    requires Source(cells0, cur, n, c, q)
    ensures Source(cells0, next, n, c, q)
  {
  }

  /** A cell the inner loop pushes is a newly opened zero, so a source. */
  lemma PushedIsSource(cells0: seq<seq<Cell>>, cur: seq<seq<Cell>>, n: int, c: Pos, p: Pos, q: Pos)
    requires Square(cells0, n) && Square(cur, n)
    requires OnlyOpenDiffers(cells0, cur, n) && OpenSet(cells0, n) <= OpenSet(cur, n)
    requires q in Pushed(cur, n, Neighbours(n, p))
    ensures InBounds(n, q) && Source(cells0, OpenList(cur, n, Neighbours(n, p)), n, c, q)
  {
    var ns := Neighbours(n, p);
    PushedAreOpenedZeros(cur, n, ns);
    OpenListKeeps(cur, n, ns);
    assert q in Positions(n);
  }

  lemma RoundKeepsStack(cells0: seq<seq<Cell>>, cur: seq<seq<Cell>>, next: seq<seq<Cell>>, n: int,
                        c: Pos, stack: seq<Pos>, p: Pos, pushed: seq<Pos>)
    requires Round(cells0, cur, next, n, c, stack, p, pushed)
    ensures Square(next, n) && AllInBounds(n, stack + pushed)
    ensures forall i :: 0 <= i < |stack + pushed| ==> Source(cells0, next, n, c, (stack + pushed)[i])
  {
    var ns := Neighbours(n, p);
    var stack' := stack + pushed;
    OpenListCount(cur, n, ns);
    forall i | 0 <= i < |stack'|
      ensures InBounds(n, stack'[i]) && Source(cells0, next, n, c, stack'[i])
    {
      if i < |stack| {
        assert stack'[i] == (stack + [p])[i];
        SourceStays(cells0, cur, next, n, c, stack'[i]);
      } else {
        assert stack'[i] in pushed;
        PushedIsSource(cells0, cur, n, c, p, stack'[i]);
      }
    }
  }

  lemma RoundKeepsFlags(cells0: seq<seq<Cell>>, cur: seq<seq<Cell>>, next: seq<seq<Cell>>, n: int,
                        c: Pos, stack: seq<Pos>, p: Pos, pushed: seq<Pos>)
    requires Round(cells0, cur, next, n, c, stack, p, pushed)
    ensures OnlyOpenDiffers(cells0, next, n) && OpenSet(cells0, n) + {c} <= OpenSet(next, n)
    ensures forall q :: InBounds(n, q) && q in Opened(cells0, next, n) && q != c ==> !At(cells0, q).isFlagged
  {
    var ns := Neighbours(n, p);
    OpenListKeeps(cur, n, ns);
    OpenListOpens(cur, n, ns);
    OpenListCount(cur, n, ns);
    OnlyOpenDiffersTrans(cells0, cur, next, n);
  }

  lemma RoundKeepsClosure(cells0: seq<seq<Cell>>, cur: seq<seq<Cell>>, next: seq<seq<Cell>>, n: int,
                          c: Pos, stack: seq<Pos>, p: Pos, pushed: seq<Pos>)
    requires Round(cells0, cur, next, n, c, stack, p, pushed)
    ensures Square(next, n)
    ensures forall p' :: Source(cells0, next, n, c, p') ==> p' in stack + pushed || Cleared(next, n, p')
  {
    var ns := Neighbours(n, p);
    OpenListKeeps(cur, n, ns);
    OpenListCount(cur, n, ns);
    PushedAreOpenedZeros(cur, n, ns);
    forall p' | Source(cells0, next, n, c, p')
      ensures p' in stack + pushed || Cleared(next, n, p')
    {
      if p' == p {
        PoppedCleared(cur, n, p);
      } else if Source(cells0, cur, n, c, p') {
        if p' !in stack {
          ClearedStays(cur, next, n, p');
        }
      } else {
        assert p' in pushed;
      }
    }
  }

  lemma RoundKeepsSafety(cells0: seq<seq<Cell>>, cur: seq<seq<Cell>>, next: seq<seq<Cell>>, n: int,
                         c: Pos, stack: seq<Pos>, p: Pos, pushed: seq<Pos>)
    requires Round(cells0, cur, next, n, c, stack, p, pushed)
    ensures Square(next, n)
    ensures SafeStart(cells0, n, c) ==> forall q :: q in Opened(cells0, next, n) ==> q !in Mines(cells0, n)
  {
    var ns := Neighbours(n, p);
    OpenListOpens(cur, n, ns);
    assert Source(cells0, cur, n, c, p) by {
      assert (stack + [p])[|stack|] == p;
    }
    if SafeStart(cells0, n, c) {
      forall q | q in Opened(cells0, next, n)
        ensures q !in Mines(cells0, n)
      {
        if q !in Opened(cells0, cur, n) {
          assert q in ns;
          ZeroHasNoMinesAround(cells0, n, p, q);
        }
      }
    }
  }

  lemma RoundCounts(cells0: seq<seq<Cell>>, cur: seq<seq<Cell>>, next: seq<seq<Cell>>, n: int,
                    c: Pos, stack: seq<Pos>, p: Pos, pushed: seq<Pos>)
    requires Round(cells0, cur, next, n, c, stack, p, pushed)
    ensures Square(next, n)
    ensures |OpenSet(next, n) - (OpenSet(cells0, n) + {c})| ==
      |OpenSet(cur, n) - (OpenSet(cells0, n) + {c})| + OpenCount(cur, n, Neighbours(n, p))
  {
    var ns := Neighbours(n, p);
    OpenListCount(cur, n, ns);
    CardNested(OpenSet(cells0, n) + {c}, OpenSet(cur, n), OpenSet(next, n));
  }

  /** Each round of the outer loop opens a cell or shrinks the stack. */
  lemma RoundProgress(cur: seq<seq<Cell>>, n: int, p: Pos)
    requires Square(cur, n)
    ensures var next := OpenList(cur, n, Neighbours(n, p));
      && |Positions(n) - OpenSet(next, n)| <= |Positions(n) - OpenSet(cur, n)|
      && (|Positions(n) - OpenSet(next, n)| < |Positions(n) - OpenSet(cur, n)|
          || Pushed(cur, n, Neighbours(n, p)) == [])
  {
    var ns := Neighbours(n, p);
    var next := OpenList(cur, n, ns);
    var pushed := Pushed(cur, n, ns);
    OpenListCount(cur, n, ns);
    PushedAreOpenedZeros(cur, n, ns);
    CardNested(OpenSet(cur, n), OpenSet(next, n), Positions(n));
    if pushed != [] {
      assert pushed[0] in Opened(cur, next, n);
    }
  }

  /** One round of the outer loop of `openMultiple` keeps its invariant. */
  lemma FloodStep(cells0: seq<seq<Cell>>, cur: seq<seq<Cell>>, next: seq<seq<Cell>>, n: int,
                  c: Pos, stack: seq<Pos>, p: Pos, pushed: seq<Pos>)
    requires Round(cells0, cur, next, n, c, stack, p, pushed)
    ensures FloodInv(cells0, next, n, c, stack + pushed)
    ensures |OpenSet(next, n) - (OpenSet(cells0, n) + {c})| ==
      |OpenSet(cur, n) - (OpenSet(cells0, n) + {c})| + OpenCount(cur, n, Neighbours(n, p))
  {
    RoundKeepsStack(cells0, cur, next, n, c, stack, p, pushed);
    RoundKeepsFlags(cells0, cur, next, n, c, stack, p, pushed);
    RoundKeepsClosure(cells0, cur, next, n, c, stack, p, pushed);
    RoundKeepsSafety(cells0, cur, next, n, c, stack, p, pushed);
    RoundCounts(cells0, cur, next, n, c, stack, p, pushed);
  }

  /** Opening `c` and pushing it sets up the invariant of the outer loop. */
  lemma FloodStart(cells0: seq<seq<Cell>>, n: int, c: Pos)
    requires Square(cells0, n) && InBounds(n, c)
    ensures FloodInv(cells0, WithOpen(cells0, n, c), n, c, [c])
    ensures OpenSet(WithOpen(cells0, n, c), n) - (OpenSet(cells0, n) + {c}) == {}
  {
    var cur := WithOpen(cells0, n, c);
    SetOpen(cells0, n, c);
    assert Opened(cells0, cur, n) <= {c};
    forall p | Source(cells0, cur, n, c, p)
      ensures p in [c]
    {
    }
  }

  /**
   * The board the outer loop of `openMultiple` leaves when it starts from board `cur` and
   * stack `stack`, popping from the end.
   */
  ghost function FloodFrom(cur: seq<seq<Cell>>, n: int, stack: seq<Pos>): (r: seq<seq<Cell>>)
    requires Square(cur, n)
    ensures Square(r, n)
    decreases |Positions(n) - OpenSet(cur, n)|, |stack|
  {
    if stack == [] then cur
    else
      var p := stack[|stack| - 1];
      var ns := Neighbours(n, p);
      RoundProgress(cur, n, p);
      FloodFrom(OpenList(cur, n, ns), n, stack[..|stack| - 1] + Pushed(cur, n, ns))
  }

  /** How many cells the outer loop counts from board `cur` and stack `stack` on. */
  ghost function FloodCount(cur: seq<seq<Cell>>, n: int, stack: seq<Pos>): nat
    requires Square(cur, n)
    decreases |Positions(n) - OpenSet(cur, n)|, |stack|
  {
    if stack == [] then 0
    else
      var p := stack[|stack| - 1];
      var ns := Neighbours(n, p);
      RoundProgress(cur, n, p);
      OpenCount(cur, n, ns) + FloodCount(OpenList(cur, n, ns), n, stack[..|stack| - 1] + Pushed(cur, n, ns))
  }

  /** The board with the cell at `c` open. */
  function WithOpen(cells: seq<seq<Cell>>, n: int, c: Pos): (r: seq<seq<Cell>>)
    requires Square(cells, n) && InBounds(n, c)
    ensures Square(r, n) && OpenSet(r, n) == OpenSet(cells, n) + {c}
  {
    SetOpen(cells, n, c);
    Update(cells, c, At(cells, c).(isOpen := true))
  }

  /** The board `openMultiple(game, cell)` leaves: `c` opened, then the flood from it. */
  ghost function FloodFill(cells: seq<seq<Cell>>, n: int, c: Pos): (r: seq<seq<Cell>>)
    requires Square(cells, n) && InBounds(n, c)
    ensures Square(r, n)
  {
    FloodFrom(WithOpen(cells, n, c), n, [c])
  }

  /** Running the outer loop to the end keeps its invariant, and counts every cell it opens. */
  lemma {:induction false} FloodFromInv(cells0: seq<seq<Cell>>, cur: seq<seq<Cell>>, n: int, c: Pos, stack: seq<Pos>)
    requires FloodInv(cells0, cur, n, c, stack)
    ensures FloodInv(cells0, FloodFrom(cur, n, stack), n, c, [])
    ensures |OpenSet(FloodFrom(cur, n, stack), n) - (OpenSet(cells0, n) + {c})| ==
      |OpenSet(cur, n) - (OpenSet(cells0, n) + {c})| + FloodCount(cur, n, stack)
    decreases |Positions(n) - OpenSet(cur, n)|, |stack|
  {
    if stack != [] {
      var p := stack[|stack| - 1];
      var rest := stack[..|stack| - 1];
      SplitLast(stack);
      var ns := Neighbours(n, p);
      var next := OpenList(cur, n, ns);
      var pushed := Pushed(cur, n, ns);
      RoundProgress(cur, n, p);
      FloodStep(cells0, cur, next, n, c, rest, p, pushed);
      FloodFromInv(cells0, next, n, c, rest + pushed);
    }
  }

  /**
   * What `openMultiple` promises: `c` and every cell it opened whose number is zero have
   * all their neighbours open or flagged; it opened no flagged cell but perhaps `c`; it
   * changed nothing but `isOpen` and closed nothing; and, on a consistent board where `c`
   * is a safe zero, it opened no mine.
   */
  lemma FloodFillSpec(cells: seq<seq<Cell>>, n: int, c: Pos)
    requires Square(cells, n) && InBounds(n, c)
    ensures var r := FloodFill(cells, n, c);
      && OnlyOpenDiffers(cells, r, n)
      && OpenSet(cells, n) + {c} <= OpenSet(r, n)
      && (forall q :: InBounds(n, q) && q in Opened(cells, r, n) && q != c ==> !At(cells, q).isFlagged)
      && (forall p :: Source(cells, r, n, c, p) ==> Cleared(r, n, p))
      && (SafeStart(cells, n, c) ==> forall q :: q in Opened(cells, r, n) ==> q !in Mines(cells, n))
  {
    FloodStart(cells, n, c);
    FloodFromInv(cells, WithOpen(cells, n, c), n, c, [c]);
  }

  /** The counter grows by one for every cell the flood opens besides `c`. */
  lemma FloodFillCount(cells: seq<seq<Cell>>, n: int, c: Pos)
    requires Square(cells, n) && InBounds(n, c)
    ensures FloodCount(WithOpen(cells, n, c), n, [c]) ==
      |OpenSet(FloodFill(cells, n, c), n) - (OpenSet(cells, n) + {c})|
  {
    FloodStart(cells, n, c);
    FloodFromInv(cells, WithOpen(cells, n, c), n, c, [c]);
  }

  /** The measure the outer loop of `openMultiple` decreases, with the stack's length. */
  ghost function Closed(cells: seq<seq<Cell>>, n: int): nat
    requires Square(cells, n)
  {
    |Positions(n) - OpenSet(cells, n)|
  }

  /** One round of the outer loop of `openMultiple`: pop a cell and open around it. */
  method FloodRound(game: Game, stack: seq<Pos>) returns (stack': seq<Pos>)
    requires game.Valid() && stack != []
    modifies game`cells, game`nonMineCellsOpened
    ensures game.Valid()
    ensures FloodFrom(game.cells, game.maxX, stack') == FloodFrom(old(game.cells), game.maxX, stack)
    ensures game.nonMineCellsOpened + FloodCount(game.cells, game.maxX, stack') ==
      old(game.nonMineCellsOpened) + FloodCount(old(game.cells), game.maxX, stack)
    ensures Closed(game.cells, game.maxX) < Closed(old(game.cells), game.maxX) ||
      (Closed(game.cells, game.maxX) == Closed(old(game.cells), game.maxX) && |stack'| < |stack|)
  {
    var n := game.maxX;
    var p := stack[|stack| - 1];
    var neighbours := Neighbours(n, p);
    RoundProgress(game.cells, n, p);
    var pushed := OpenEach(game, neighbours);
    stack' := stack[..|stack| - 1] + pushed;
  }

  /** The outer loop of `openMultiple`, run from `stack` until the stack is empty. */
  method FloodLoop(game: Game, stack: seq<Pos>)
    requires game.Valid()
    modifies game`cells, game`nonMineCellsOpened
    ensures game.Valid()
    ensures game.cells == FloodFrom(old(game.cells), game.maxX, stack)
    ensures game.nonMineCellsOpened == old(game.nonMineCellsOpened) + FloodCount(old(game.cells), game.maxX, stack)
  {
    var n := game.maxX;
    ghost var cells0: seq<seq<Cell>> := game.cells;
    var todo := stack;
    while |todo| > 0
      invariant game.Valid() && game.maxX == n
      invariant FloodFrom(game.cells, n, todo) == FloodFrom(cells0, n, stack)
      invariant game.nonMineCellsOpened + FloodCount(game.cells, n, todo) ==
        old(game.nonMineCellsOpened) + FloodCount(cells0, n, stack)
      decreases Closed(game.cells, n), |todo|
    {
      todo := FloodRound(game, todo);
    }
  }

  /**
   * `openMultiple(game, cell)`: opens `c`, then repeatedly pops a cell and opens its
   * neighbours that are neither flagged nor open, pushing those whose number is zero.
   */
  method OpenMultiple(game: Game, c: Pos)
    requires game.Valid() && InBounds(game.maxX, c)
    modifies game`cells, game`nonMineCellsOpened
    ensures game.Valid()
    ensures game.cells == FloodFill(old(game.cells), game.maxX, c)
    ensures game.nonMineCellsOpened == old(game.nonMineCellsOpened) +
      |OpenSet(game.cells, game.maxX) - (OpenSet(old(game.cells), game.maxX) + {c})|
  {
    ghost var cells0: seq<seq<Cell>> := game.cells;
    OpenAt(game, c);
    assert game.cells == WithOpen(cells0, game.maxX, c);
    FloodLoop(game, [c]);
    FloodFillCount(cells0, game.maxX, c);
  }

  /** The board a click at `c` starts from: on the first click a mine under `c` is moved away. */
  ghost function FirstMoved(cells: seq<seq<Cell>>, n: int, c: Pos, first: bool): (r: seq<seq<Cell>>)
    requires Square(cells, n) && InBounds(n, c)
    ensures Square(r, n)
  {
    if first && At(cells, c).isMine then Moved(cells, n, c) else cells
  }

  /** Whether a click at `c` opens a mine. */
  ghost predicate HitsMine(cells: seq<seq<Cell>>, n: int, c: Pos, first: bool)
    requires Square(cells, n) && InBounds(n, c)
  {
    var b := FirstMoved(cells, n, c, first);
    Openable(b, n, c) && At(b, c).isMine
  }

  /**
   * The board after `openCell` at `c`: a flagged or open cell stays as it is, a mine or a
   * numbered cell is opened alone, and a zero is opened with the flood from it.
   */
  ghost function Clicked(cells: seq<seq<Cell>>, n: int, c: Pos, first: bool): (r: seq<seq<Cell>>)
    requires Square(cells, n) && InBounds(n, c)
    ensures Square(r, n)
  {
    var b := FirstMoved(cells, n, c, first);
    if !Openable(b, n, c) then b
    else if At(b, c).isMine || At(b, c).number != 0 then WithOpen(b, n, c)
    else FloodFill(b, n, c)
  }

  /** How much a click at `c` adds to `nonMineCellsOpened`: every cell it opens, unless it hits a mine. */
  ghost function ClickCount(cells: seq<seq<Cell>>, n: int, c: Pos, first: bool): nat
    requires Square(cells, n) && InBounds(n, c)
  {
    if HitsMine(cells, n, c, first) then 0 else |Opened(cells, Clicked(cells, n, c, first), n)|
  }

  /** After the first-click move, `c` holds no mine, and the open cells and flags are as before. */
  lemma FirstMovedClears(cells: seq<seq<Cell>>, n: int, c: Pos, first: bool)
    requires Square(cells, n) && InBounds(n, c)
    ensures var b := FirstMoved(cells, n, c, first);
      && (first ==> !At(b, c).isMine)
      && OpenSet(b, n) == OpenSet(cells, n)
      && At(b, c).isFlagged == At(cells, c).isFlagged && At(b, c).isOpen == At(cells, c).isOpen
      && (first && At(cells, c).isMine ==> FirstMoved(b, n, c, first) == b)
      && (Consistent(cells, n) ==> Consistent(b, n))
  {
    var b := FirstMoved(cells, n, c, first);
    if first && At(cells, c).isMine {
      MovedMine(cells, n, c);
      assert c in Positions(n);
      assert c !in Mines(b, n);
    }
    MovingKeepsOpen(cells, b, n);
  }

  /** A click changes the board only by the first-click move and by opening cells. */
  lemma ClickOnlyOpens(cells: seq<seq<Cell>>, n: int, c: Pos, first: bool)
    requires Square(cells, n) && InBounds(n, c)
    ensures OnlyOpenDiffers(FirstMoved(cells, n, c, first), Clicked(cells, n, c, first), n)
    ensures OpenSet(cells, n) <= OpenSet(Clicked(cells, n, c, first), n)
    ensures Openable(FirstMoved(cells, n, c, first), n, c) ==> c in OpenSet(Clicked(cells, n, c, first), n)
  {
    var b := FirstMoved(cells, n, c, first);
    FirstMovedClears(cells, n, c, first);
    if Openable(b, n, c) {
      SetOpen(b, n, c);
      FloodFillSpec(b, n, c);
    }
  }

  /**
   * A click keeps every count right, and keeps the number of mines, unless it is a first
   * click on a mine when every cell holds a mine.
   */
  lemma ClickKeepsConsistent(cells: seq<seq<Cell>>, n: int, c: Pos, first: bool)
    requires Square(cells, n) && InBounds(n, c)
    ensures Consistent(cells, n) ==> Consistent(Clicked(cells, n, c, first), n)
    ensures !(first && At(cells, c).isMine) || FirstFree(cells, n).Some? ==>
      |Mines(Clicked(cells, n, c, first), n)| == |Mines(cells, n)|
  {
    var b := FirstMoved(cells, n, c, first);
    var r := Clicked(cells, n, c, first);
    ClickOnlyOpens(cells, n, c, first);
    OpeningKeepsMines(b, r, n);
    if first && At(cells, c).isMine {
      MovedMine(cells, n, c);
      assert c in Positions(n);
    }
  }

  /** The first click never opens a mine, and opens `c` unless it is flagged or open. */
  lemma FirstClickIsSafe(cells: seq<seq<Cell>>, n: int, c: Pos)
    requires Square(cells, n) && InBounds(n, c)
    ensures !HitsMine(cells, n, c, true)
    ensures !At(Clicked(cells, n, c, true), c).isMine
    ensures !At(cells, c).isFlagged ==> c in OpenSet(Clicked(cells, n, c, true), n)
  {
    var b := FirstMoved(cells, n, c, true);
    FirstMovedClears(cells, n, c, true);
    ClickOnlyOpens(cells, n, c, true);
    if !At(cells, c).isFlagged && At(cells, c).isOpen {
      assert c in OpenSet(cells, n);
    }
  }

  /** Opening a closed, unflagged cell that holds no mine on a consistent board opens no mine. */
  lemma SafeOpenOpensNoMine(b: seq<seq<Cell>>, n: int, c: Pos)
    requires Square(b, n) && InBounds(n, c) && Consistent(b, n)
    requires Openable(b, n, c) && !At(b, c).isMine
    ensures var r := if At(b, c).number != 0 then WithOpen(b, n, c) else FloodFill(b, n, c);
      forall q :: q in Opened(b, r, n) ==> q !in Mines(b, n)
  {
    if At(b, c).number != 0 {
      assert Opened(b, WithOpen(b, n, c), n) <= {c};
      assert c in Positions(n);
    } else {
      FloodFillSpec(b, n, c);
      assert SafeStart(b, n, c);
    }
  }

  /** On a consistent board, a click that does not hit a mine opens no mine at all. */
  lemma SafeClickOpensNoMine(cells: seq<seq<Cell>>, n: int, c: Pos, first: bool)
    requires Square(cells, n) && InBounds(n, c)
    requires Consistent(cells, n) && !HitsMine(cells, n, c, first)
    ensures forall q :: q in Opened(cells, Clicked(cells, n, c, first), n) ==>
      q !in Mines(Clicked(cells, n, c, first), n)
  {
    var b := FirstMoved(cells, n, c, first);
    var r := Clicked(cells, n, c, first);
    FirstMovedClears(cells, n, c, first);
    ClickOnlyOpens(cells, n, c, first);
    OpeningKeepsMines(b, r, n);
    assert Opened(cells, r, n) == Opened(b, r, n);
    if Openable(b, n, c) {
      assert r == if At(b, c).number != 0 then WithOpen(b, n, c) else FloodFill(b, n, c);
      SafeOpenOpensNoMine(b, n, c);
    } else {
      assert r == b;
    }
  }

  /** After the first-click move, a click at `c` acts as it would on the moved board. */
  lemma FirstClickOnMoved(cells: seq<seq<Cell>>, n: int, c: Pos)
    requires Square(cells, n) && InBounds(n, c) && At(cells, c).isMine
    ensures var b := Moved(cells, n, c);
      && Clicked(b, n, c, true) == Clicked(cells, n, c, true)
      && !HitsMine(b, n, c, true) && !HitsMine(cells, n, c, true)
      && ClickCount(b, n, c, true) == ClickCount(cells, n, c, true)
      && !At(b, c).isMine
  {
    FirstMovedClears(cells, n, c, true);
    FirstMovedClears(Moved(cells, n, c), n, c, true);
  }

  /** Without a mine under `c`, or after the first click, a click moves nothing. */
  lemma NoMoveNeeded(cells: seq<seq<Cell>>, n: int, c: Pos, first: bool)
    requires Square(cells, n) && InBounds(n, c) && !(first && At(cells, c).isMine)
    ensures Clicked(cells, n, c, first) == Clicked(cells, n, c, false)
    ensures HitsMine(cells, n, c, first) == HitsMine(cells, n, c, false)
    ensures ClickCount(cells, n, c, first) == ClickCount(cells, n, c, false)
  {
  }

  /** A click after the first, branch by branch: what it opens and what it counts. */
  lemma ChosenClick(cells: seq<seq<Cell>>, n: int, c: Pos)
    requires Square(cells, n) && InBounds(n, c)
    ensures !Openable(cells, n, c) ==>
      Clicked(cells, n, c, false) == cells && !HitsMine(cells, n, c, false) && ClickCount(cells, n, c, false) == 0
    ensures Openable(cells, n, c) && At(cells, c).isMine ==>
      Clicked(cells, n, c, false) == WithOpen(cells, n, c) && HitsMine(cells, n, c, false) && ClickCount(cells, n, c, false) == 0
    ensures Openable(cells, n, c) && !At(cells, c).isMine && At(cells, c).number != 0 ==>
      Clicked(cells, n, c, false) == WithOpen(cells, n, c) && !HitsMine(cells, n, c, false) && ClickCount(cells, n, c, false) == 1
    ensures Openable(cells, n, c) && !At(cells, c).isMine && At(cells, c).number == 0 ==>
      && Clicked(cells, n, c, false) == FloodFill(cells, n, c) && !HitsMine(cells, n, c, false)
      && ClickCount(cells, n, c, false) == 1 + |OpenSet(FloodFill(cells, n, c), n) - (OpenSet(cells, n) + {c})|
  {
    assert FirstMoved(cells, n, c, false) == cells;
    var o := OpenSet(cells, n);
    if !Openable(cells, n, c) {
      assert Opened(cells, cells, n) == {};
    } else if !At(cells, c).isMine {
      assert c !in o;
      if At(cells, c).number != 0 {
        assert Opened(cells, WithOpen(cells, n, c), n) == {c};
      } else {
        var r := FloodFill(cells, n, c);
        FloodFillSpec(cells, n, c);
        CardTakeOne(OpenSet(r, n), o, c);
      }
    }
  }

  /** The part of `openCell` after the first-click check: open `c` if it is closed and unflagged. */
  method OpenChosen(game: Game, c: Pos)
    requires game.Valid() && InBounds(game.maxX, c)
    modifies game`cells, game`nonMineCellsOpened, game`gameOver
    ensures game.Valid()
    ensures game.cells == Clicked(old(game.cells), game.maxX, c, false)
    ensures game.gameOver == (old(game.gameOver) || HitsMine(old(game.cells), game.maxX, c, false))
    ensures game.nonMineCellsOpened == old(game.nonMineCellsOpened) + ClickCount(old(game.cells), game.maxX, c, false)
  {
    ChosenClick(game.cells, game.maxX, c);
    var cell := At(game.cells, c);
    if !cell.isFlagged && !cell.isOpen {
      if cell.isMine {
        OpenAt(game, c);
        game.gameOver := true;
      } else {
        if cell.number == 0 {
          OpenMultiple(game, c);
        } else {
          OpenAt(game, c);
        }
        game.nonMineCellsOpened := game.nonMineCellsOpened + 1;
      }
    }
  }

  /** The first-click branch of `openCell`: move the mine away from `c`, then click `c` again. */
  method FirstClickOnMine(game: Game, c: Pos)
    requires game.Valid() && InBounds(game.maxX, c)
    requires game.clicks == 0 && At(game.cells, c).isMine
    modifies game`cells, game`nonMineCellsOpened, game`clicks, game`gameOver
    ensures game.Valid()
    ensures game.cells == Clicked(old(game.cells), game.maxX, c, true)
    ensures game.clicks == 1 && game.gameOver == old(game.gameOver)
    ensures game.nonMineCellsOpened == old(game.nonMineCellsOpened) + ClickCount(old(game.cells), game.maxX, c, true)
    decreases 1, 0
  {
    var n := game.maxX;
    ghost var cells0: seq<seq<Cell>> := game.cells;
    ghost var over := game.gameOver;
    FirstClickOnMoved(cells0, n, c);
    FirstClickIsSafe(cells0, n, c);
    MoveMine(game, c);
    ghost var moved := game.cells;
    assert game.clicks == 0 && game.gameOver == over;
    assert moved == Moved(cells0, n, c);
    assert !At(moved, c).isMine && !HitsMine(moved, n, c, true);
    OpenCell(game, c);
    assert game.gameOver == over;
  }

  /**
   * `openCell(game, cell)`: on the first click a mine under `c` is moved away first; then a
   * closed, unflagged cell is opened, ending the game if it holds a mine and otherwise being
   * counted with every cell the flood opens; every call counts one click.
   */
  method OpenCell(game: Game, c: Pos)
    requires game.Valid() && InBounds(game.maxX, c)
    modifies game`cells, game`nonMineCellsOpened, game`clicks, game`gameOver
    ensures game.Valid()
    ensures game.cells == Clicked(old(game.cells), game.maxX, c, old(game.clicks) == 0)
    ensures game.clicks == old(game.clicks) + 1
    ensures game.gameOver == (old(game.gameOver) || HitsMine(old(game.cells), game.maxX, c, old(game.clicks) == 0))
    ensures game.nonMineCellsOpened ==
      old(game.nonMineCellsOpened) + ClickCount(old(game.cells), game.maxX, c, old(game.clicks) == 0)
    decreases if game.clicks == 0 && At(game.cells, c).isMine then 1 else 0, 1
  {
    if game.clicks == 0 && At(game.cells, c).isMine {
      FirstClickIsSafe(game.cells, game.maxX, c);
      FirstClickOnMine(game, c);
      return;
    }
    NoMoveNeeded(game.cells, game.maxX, c, game.clicks == 0);
    OpenChosen(game, c);
    game.clicks := game.clicks + 1;
  }
}
