/**
 * The board of minesweeper.py: cells, `generateGrid`, `getCellNeighbours`, and the
 * neighbour-count invariant the game keeps.
 *
 * A board is `cells[row][column]`; the cell at column x and row y is `cells[y][x]` and
 * carries `x` and `y` itself. Cells are values here: a cell object of the source is
 * identified with its position on the board, which is sound because every board holds
 * distinct cell objects and cells are only ever reached through the board.
 */
module Grid {
  import opened Wrappers

  /** `common.Cell` with its defaults. */
  datatype Cell = Cell(
    x: int, y: int, number: int, isFlagged: bool, isMine: bool, isOpen: bool,
    screenX: int, screenY: int, size: int)

  function NewCell(x: int, y: int): Cell
  {
    Cell(x, y, 0, false, false, false, 0, 0, 0)
  }

  /** A board position: column `x`, row `y`. */
  datatype Pos = Pos(x: int, y: int)

  /** `generateGrid(x, y)`: `y` rows of `x` fresh cells, the cell at row j, column i knowing (i, j). */
  function GenerateGrid(x: nat, y: nat): (cells: seq<seq<Cell>>)
    ensures WellFormed(cells, x, y)
    ensures forall j, i :: 0 <= j < y && 0 <= i < x ==> cells[j][i] == NewCell(i, j)
  {
    seq(y, j => seq(x, i => NewCell(i, j)))
  }

  /** `rows` rows of `cols` cells, each cell knowing its own column and row. */
  ghost predicate WellFormed(cells: seq<seq<Cell>>, cols: int, rows: int)
  {
    && |cells| == rows
    && (forall j :: 0 <= j < rows ==> |cells[j]| == cols)
    && (forall j, i :: 0 <= j < rows && 0 <= i < cols ==> cells[j][i].x == i && cells[j][i].y == j)
  }

  predicate InBounds(n: int, p: Pos)
  {
    0 <= p.x < n && 0 <= p.y < n
  }

  // ---------------------------------------------------------------------------
  // getCellNeighbours

  /**
   * The k-th candidate of `getCellNeighbours`' double loop, which runs the column offset
   * in the outer loop and the row offset in the inner one: candidate k has column offset
   * `Dx(k)` and row offset `Dy(k)`, and `OffsetIndex` maps an offset back to its k.
   */
  function Dx(k: nat): int
  {
    if k < 3 then -1 else if k < 6 then 0 else 1
  }

  function Dy(k: nat): int
  {
    if k == 0 || k == 3 || k == 6 then -1 else if k == 1 || k == 4 || k == 7 then 0 else 1
  }

  function OffsetIndex(dx: int, dy: int): int
  {
    (dx + 1) * 3 + (dy + 1)
  }

  /**
   * `getCellNeighbours` from candidate `k` on, for a board of `rows` rows of `cols` cells.
   * The bounds test compares the column against the number of ROWS and the row against the
   * row LENGTH, then reads `cells[newY][newX]`; a read outside the board raises IndexError,
   * which is `None` here.
   */
  function NeighboursFrom(rows: int, cols: int, x: int, y: int, k: nat): Option<seq<Pos>>
    requires k <= 9
    decreases 9 - k
  {
    if k == 9 then Some([])
    else
      var newX := x + Dx(k);
      var newY := y + Dy(k);
      if (x != newX || y != newY) && newX > -1 && newY > -1 && newX < rows && newY < cols then
        if newY < rows && newX < cols then
          match NeighboursFrom(rows, cols, x, y, k + 1)
          case None => None
          case Some(rest) => Some([Pos(newX, newY)] + rest)
        else None
      else NeighboursFrom(rows, cols, x, y, k + 1)
  }

  /** `getCellNeighbours(cells, x, y)` for a board of `rows` rows of `cols` cells. */
  function CellNeighbours(rows: int, cols: int, x: int, y: int): Option<seq<Pos>>
  {
    NeighboursFrom(rows, cols, x, y, 0)
  }

  /** The in-bounds cells at Chebyshev distance exactly 1 from (x, y) on an n-by-n board. */
  predicate Adjacent(n: int, x: int, y: int, q: Pos)
  {
    InBounds(n, q) && q != Pos(x, y) && -1 <= q.x - x <= 1 && -1 <= q.y - y <= 1
  }

  predicate AllInBounds(n: int, ps: seq<Pos>)
  {
    forall i :: 0 <= i < |ps| ==> InBounds(n, ps[i])
  }

  ghost predicate Distinct<T>(s: seq<T>)
  {
    forall i, j :: 0 <= i < j < |s| ==> s[i] != s[j]
  }

  lemma OffsetRoundTrip(k: nat, dx: int, dy: int)
    requires k < 9 && -1 <= dx <= 1 && -1 <= dy <= 1
    ensures OffsetIndex(Dx(k), Dy(k)) == k
    ensures OffsetIndex(dx, dy) == k ==> dx == Dx(k) && dy == Dy(k)
  {
  }

  lemma {:induction false} SquareNeighboursFrom(n: int, x: int, y: int, k: nat)
    requires k <= 9
    ensures var r := NeighboursFrom(n, n, x, y, k);
      && r.Some?
      && (forall q :: q in r.value <==> Adjacent(n, x, y, q) && k <= OffsetIndex(q.x - x, q.y - y))
      && Distinct(r.value)
      && |r.value| <= 9 - k - (if k <= 4 then 1 else 0)
    decreases 9 - k
  {
    if k < 9 {
      SquareNeighboursFrom(n, x, y, k + 1);
      var here := Pos(x + Dx(k), y + Dy(k));
      var rest := NeighboursFrom(n, n, x, y, k + 1).value;
      OffsetRoundTrip(k, 0, 0);
      forall q | Adjacent(n, x, y, q)
        ensures OffsetIndex(q.x - x, q.y - y) == k <==> q == here
      {
        OffsetRoundTrip(k, q.x - x, q.y - y);
      }
    }
  }

  /**
   * On a square board, `getCellNeighbours` never raises and returns exactly the in-bounds
   * cells at Chebyshev distance 1, each once, never (x, y) itself, and at most 8 of them.
   */
  lemma SquareNeighbours(n: int, x: int, y: int)
    ensures var r := CellNeighbours(n, n, x, y);
      && r.Some?
      && (forall q :: q in r.value <==> Adjacent(n, x, y, q))
      && Distinct(r.value)
      && |r.value| <= 8
  {
    SquareNeighboursFrom(n, x, y, 0);
    forall q | Adjacent(n, x, y, q) ensures 0 <= OffsetIndex(q.x - x, q.y - y) {}
  }

  /**
   * On a board of 3 rows of 2 cells, asking for the neighbours of the cell at column 1,
   * row 0 reads past the end of a row: the swapped bounds test lets column 2 through.
   */
  lemma NonSquareNeighboursRaise()
    ensures CellNeighbours(3, 2, 1, 0).None?
  {
    assert NeighboursFrom(3, 2, 1, 0, 7) == None;
  }

  /** The neighbour list on a square board; `NeighboursSpec` says what it holds. */
  function Neighbours(n: int, p: Pos): (r: seq<Pos>)
    ensures AllInBounds(n, r)
  {
    SquareNeighbours(n, p.x, p.y);
    var r := CellNeighbours(n, n, p.x, p.y).value;
    assert forall i :: 0 <= i < |r| ==> r[i] in r;
    r
  }

  /** The neighbours of `p` are the in-bounds cells at Chebyshev distance 1, each listed once. */
  lemma NeighboursSpec(n: int, p: Pos)
    ensures forall q :: q in Neighbours(n, p) <==> Adjacent(n, p.x, p.y, q)
    ensures Distinct(Neighbours(n, p))
  {
    SquareNeighbours(n, p.x, p.y);
  }

  ghost function NeighbourSet(n: int, p: Pos): set<Pos>
  {
    set q | q in Neighbours(n, p)
  }

  /** Adjacency is symmetric between in-bounds cells. */
  lemma NeighbourSymmetric(n: int, p: Pos, q: Pos)
    requires InBounds(n, p) && InBounds(n, q)
    ensures q in Neighbours(n, p) <==> p in Neighbours(n, q)
  {
    NeighboursSpec(n, p);
    NeighboursSpec(n, q);
  }

  // ---------------------------------------------------------------------------
  // Mines and neighbour counts

  ghost predicate Square(cells: seq<seq<Cell>>, n: int)
  {
    n >= 0 && WellFormed(cells, n, n)
  }

  function At(cells: seq<seq<Cell>>, p: Pos): Cell
    requires 0 <= p.y < |cells| && 0 <= p.x < |cells[p.y]|
  {
    cells[p.y][p.x]
  }

  ghost function Positions(n: int): set<Pos>
  {
    set x, y | 0 <= x < n && 0 <= y < n :: Pos(x, y)
  }

  /** The positions of the mines on a square board. */
  ghost function Mines(cells: seq<seq<Cell>>, n: int): set<Pos>
    requires Square(cells, n)
  {
    set p | p in Positions(n) && At(cells, p).isMine
  }

  /** The number of mines among the neighbours of `p`. */
  ghost function MinesAround(cells: seq<seq<Cell>>, n: int, p: Pos): nat
    requires Square(cells, n)
  {
    |NeighbourSet(n, p) * Mines(cells, n)|
  }

  /** Every cell's `number` is the count of mines among its neighbours. */
  ghost predicate Consistent(cells: seq<seq<Cell>>, n: int)
    requires Square(cells, n)
  {
    forall y, x :: 0 <= y < n && 0 <= x < n ==> cells[y][x].number == MinesAround(cells, n, Pos(x, y))
  }

  /** The number of entries of `placed` that have `q` among their neighbours. */
  function CountAround(placed: seq<Pos>, n: int, q: Pos): nat
    decreases |placed|
  {
    if placed == [] then 0
    else CountAround(placed[..|placed| - 1], n, q) + (if q in Neighbours(n, placed[|placed| - 1]) then 1 else 0)
  }

  lemma CardAddOne<T>(a: set<T>, s: set<T>, p: T)
    requires p !in s
    ensures |a * (s + {p})| == |a * s| + (if p in a then 1 else 0)
  {
    if p in a {
      assert a * (s + {p}) == (a * s) + {p};
    } else {
      assert a * (s + {p}) == a * s;
    }
  }

  /**
   * Counting, for an in-bounds `q`, the distinct in-bounds positions in `placed` that
   * neighbour `q` is counting the mines among `q`'s neighbours when `placed` lists them.
   */
  lemma {:induction false} CountAroundIsCard(placed: seq<Pos>, n: int, q: Pos)
    requires Distinct(placed)
    requires InBounds(n, q)
    requires forall i :: 0 <= i < |placed| ==> InBounds(n, placed[i])
    ensures CountAround(placed, n, q) == |NeighbourSet(n, q) * Elements(placed)|
    decreases |placed|
  {
    if placed == [] {
      assert Elements(placed) == {};
    } else {
      var init := placed[..|placed| - 1];
      var last := placed[|placed| - 1];
      SplitLast(placed);
      assert Distinct(init) by {
        forall i, j | 0 <= i < j < |init| ensures init[i] != init[j] {
          assert init[i] == placed[i] && init[j] == placed[j];
        }
      }
      CountAroundIsCard(init, n, q);
      var before := Elements(init);
      assert Elements(placed) == before + {last};
      assert last !in before by {
        forall i | 0 <= i < |init| ensures init[i] != last {
          assert init[i] == placed[i];
        }
      }
      CardAddOne(NeighbourSet(n, q), before, last);
      NeighbourSymmetric(n, q, last);
      assert (last in NeighbourSet(n, q)) == (q in Neighbours(n, last));
      assert CountAround(placed, n, q) == CountAround(init, n, q) + (if q in Neighbours(n, last) then 1 else 0);
    }
  }

  /** The set of entries of a sequence. */
  ghost function Elements<T>(s: seq<T>): set<T>
  {
    set x | x in s
  }

  lemma {:induction false} DistinctCard<T>(s: seq<T>)
    requires Distinct(s)
    ensures |Elements(s)| == |s|
    decreases |s|
  {
    if s != [] {
      var init := s[..|s| - 1];
      DistinctCard(init);
      assert Elements(s) == Elements(init) + {s[|s| - 1]};
    }
  }

  // ---------------------------------------------------------------------------
  // Updating one cell

  /** The board with the cell at `p` replaced by `c`. */
  function Update(cells: seq<seq<Cell>>, p: Pos, c: Cell): (r: seq<seq<Cell>>)
    requires 0 <= p.y < |cells| && 0 <= p.x < |cells[p.y]|
    ensures |r| == |cells| && forall j :: 0 <= j < |r| ==> |r[j]| == |cells[j]|
  {
    cells[p.y := cells[p.y][p.x := c]]
  }

  /** The cell at (x, y) after `Update`: the new cell at `p`, the old one elsewhere. */
  lemma UpdatePoint(cells: seq<seq<Cell>>, p: Pos, c: Cell, y: int, x: int)
    requires 0 <= p.y < |cells| && 0 <= p.x < |cells[p.y]|
    requires 0 <= y < |cells| && 0 <= x < |cells[y]|
    ensures Update(cells, p, c)[y][x] == if y == p.y && x == p.x then c else cells[y][x]
  {
  }

  /** `Update` replaces the cell at `p` and no other. */
  lemma UpdateAt(cells: seq<seq<Cell>>, p: Pos, c: Cell)
    requires 0 <= p.y < |cells| && 0 <= p.x < |cells[p.y]|
    ensures var r := Update(cells, p, c);
      forall j, i :: 0 <= j < |r| && 0 <= i < |r[j]| ==>
        r[j][i] == if j == p.y && i == p.x then c else cells[j][i]
  {
  }

  /** Two boards that differ at most in the mine flags. */
  ghost predicate OnlyMinesDiffer(a: seq<seq<Cell>>, b: seq<seq<Cell>>, n: int)
    requires Square(a, n) && Square(b, n)
  {
    forall y, x :: 0 <= y < n && 0 <= x < n ==> b[y][x] == a[y][x].(isMine := b[y][x].isMine)
  }

  /** Two boards that differ at most in the neighbour counts. */
  ghost predicate OnlyNumbersDiffer(a: seq<seq<Cell>>, b: seq<seq<Cell>>, n: int)
    requires Square(a, n) && Square(b, n)
  {
    forall y, x :: 0 <= y < n && 0 <= x < n ==> b[y][x] == a[y][x].(number := b[y][x].number)
  }

  /** Two boards that differ at most in the mine flags and the neighbour counts. */
  ghost predicate OnlyMinesAndNumbersDiffer(a: seq<seq<Cell>>, b: seq<seq<Cell>>, n: int)
    requires Square(a, n) && Square(b, n)
  {
    forall y, x :: 0 <= y < n && 0 <= x < n ==>
      b[y][x] == a[y][x].(isMine := b[y][x].isMine, number := b[y][x].number)
  }

  /** Two boards that differ at most in which cells are open. */
  ghost predicate OnlyOpenDiffers(a: seq<seq<Cell>>, b: seq<seq<Cell>>, n: int)
    requires Square(a, n) && Square(b, n)
  {
    forall y, x :: 0 <= y < n && 0 <= x < n ==> b[y][x] == a[y][x].(isOpen := b[y][x].isOpen)
  }

  lemma NoMinesOnNewBoard(n: nat)
    ensures Square(GenerateGrid(n, n), n) && Mines(GenerateGrid(n, n), n) == {}
  {
    assert Mines(GenerateGrid(n, n), n) == {} by {
      forall p | p in Positions(n) ensures !At(GenerateGrid(n, n), p).isMine {}
    }
  }

  lemma OnlyMinesAndNumbersDifferTrans(a: seq<seq<Cell>>, b: seq<seq<Cell>>, c: seq<seq<Cell>>, n: int)
    requires Square(a, n) && Square(b, n) && Square(c, n)
    requires OnlyMinesAndNumbersDiffer(a, b, n) && OnlyMinesAndNumbersDiffer(b, c, n)
    ensures OnlyMinesAndNumbersDiffer(a, c, n)
  {
  }

  /** Boards that differ only in their counts have the same mines and the same open cells. */
  lemma SameMinesAndOpen(a: seq<seq<Cell>>, b: seq<seq<Cell>>, n: int)
    requires Square(a, n) && Square(b, n) && OnlyNumbersDiffer(a, b, n)
    ensures Mines(a, n) == Mines(b, n)
  {
    assert Mines(a, n) == Mines(b, n) by {
      forall p | p in Positions(n) ensures At(a, p).isMine == At(b, p).isMine {}
    }
  }

  /** Setting or clearing the mine flag of one cell adds or removes exactly that mine. */
  lemma SetMine(cells: seq<seq<Cell>>, n: int, p: Pos, mine: bool)
    requires Square(cells, n) && InBounds(n, p)
    ensures var b := Update(cells, p, At(cells, p).(isMine := mine));
      && Square(b, n)
      && OnlyMinesDiffer(cells, b, n)
      && Mines(b, n) == if mine then Mines(cells, n) + {p} else Mines(cells, n) - {p}
  {
    var b := Update(cells, p, At(cells, p).(isMine := mine));
    UpdateAt(cells, p, At(cells, p).(isMine := mine));
    if mine {
      assert Mines(b, n) == Mines(cells, n) + {p};
    } else {
      assert Mines(b, n) == Mines(cells, n) - {p};
    }
  }

  // ---------------------------------------------------------------------------
  // Open cells

  ghost function OpenSet(cells: seq<seq<Cell>>, n: int): set<Pos>
    requires Square(cells, n)
  {
    set p | p in Positions(n) && At(cells, p).isOpen
  }

  /** Every neighbour of `p` is open or flagged. */
  ghost predicate Cleared(cells: seq<seq<Cell>>, n: int, p: Pos)
    requires Square(cells, n)
  {
    forall q :: q in Neighbours(n, p) ==> At(cells, q).isOpen || At(cells, q).isFlagged
  }

  /** Opening one closed cell adds exactly that cell to the open ones. */
  lemma SetOpen(cells: seq<seq<Cell>>, n: int, p: Pos)
    requires Square(cells, n) && InBounds(n, p)
    ensures var b := Update(cells, p, At(cells, p).(isOpen := true));
      && Square(b, n)
      && OnlyOpenDiffers(cells, b, n)
      && OpenSet(b, n) == OpenSet(cells, n) + {p}
  {
    var b := Update(cells, p, At(cells, p).(isOpen := true));
    UpdateAt(cells, p, At(cells, p).(isOpen := true));
    assert OpenSet(b, n) == OpenSet(cells, n) + {p};
  }

  // ---------------------------------------------------------------------------
  // The first free cell in row-major order

  /** `q` comes before `p` when the board is read row by row. */
  predicate RowMajorBefore(q: Pos, p: Pos)
  {
    q.y < p.y || (q.y == p.y && q.x < p.x)
  }

  /** The first cell without a mine at or after column x of row y, reading row by row. */
  function FirstFreeFrom(cells: seq<seq<Cell>>, n: int, y: int, x: int): Option<Pos>
    requires Square(cells, n) && 0 <= y <= n && 0 <= x <= n
    decreases n - y, n - x
  {
    if y == n then None
    else if x == n then FirstFreeFrom(cells, n, y + 1, 0)
    else if !cells[y][x].isMine then Some(Pos(x, y))
    else FirstFreeFrom(cells, n, y, x + 1)
  }

  function FirstFree(cells: seq<seq<Cell>>, n: int): Option<Pos>
    requires Square(cells, n)
  {
    FirstFreeFrom(cells, n, 0, 0)
  }

  lemma {:induction false} FirstFreeFromIsFirst(cells: seq<seq<Cell>>, n: int, y: int, x: int)
    requires Square(cells, n) && 0 <= y <= n && 0 <= x <= n
    ensures var f := FirstFreeFrom(cells, n, y, x);
      && (f.Some? ==> InBounds(n, f.value) && !At(cells, f.value).isMine && !RowMajorBefore(f.value, Pos(x, y)))
      && (forall q :: InBounds(n, q) && !RowMajorBefore(q, Pos(x, y)) && (f.None? || RowMajorBefore(q, f.value))
            ==> At(cells, q).isMine)
    decreases n - y, n - x
  {
    if y == n {
    } else if x == n {
      FirstFreeFromIsFirst(cells, n, y + 1, 0);
    } else if !cells[y][x].isMine {
    } else {
      FirstFreeFromIsFirst(cells, n, y, x + 1);
    }
  }

  /**
   * `FirstFree` is the first cell without a mine when the board is read row by row, and
   * there is none exactly when every cell holds a mine.
   */
  lemma FirstFreeIsFirst(cells: seq<seq<Cell>>, n: int)
    requires Square(cells, n)
    ensures var f := FirstFree(cells, n);
      && (f.Some? ==> f.value in Positions(n) && f.value !in Mines(cells, n))
      && (f.Some? ==> forall q :: InBounds(n, q) && RowMajorBefore(q, f.value) ==> q in Mines(cells, n))
      && (f.None? <==> Mines(cells, n) == Positions(n))
  {
    FirstFreeFromIsFirst(cells, n, 0, 0);
    var f := FirstFree(cells, n);
    if f.None? {
      assert Mines(cells, n) == Positions(n);
    } else {
      assert f.value in Positions(n);
    }
  }

  lemma CardNested<T>(a: set<T>, b: set<T>, c: set<T>)
    requires a <= b <= c
    ensures |c - a| == |c - b| + |b - a|
  {
    assert c - a == (c - b) + (b - a);
    assert (c - b) * (b - a) == {};
  }

  lemma OnlyOpenDiffersTrans(a: seq<seq<Cell>>, b: seq<seq<Cell>>, c: seq<seq<Cell>>, n: int)
    requires Square(a, n) && Square(b, n) && Square(c, n)
    requires OnlyOpenDiffers(a, b, n) && OnlyOpenDiffers(b, c, n)
    ensures OnlyOpenDiffers(a, c, n)
  {
  }

  /** Opening cells changes neither the mines nor whether the counts are right. */
  lemma OpeningKeepsMines(a: seq<seq<Cell>>, b: seq<seq<Cell>>, n: int)
    requires Square(a, n) && Square(b, n) && OnlyOpenDiffers(a, b, n)
    ensures Mines(a, n) == Mines(b, n)
    ensures Consistent(a, n) ==> Consistent(b, n)
  {
    assert Mines(a, n) == Mines(b, n) by {
      forall p | p in Positions(n) ensures At(a, p).isMine == At(b, p).isMine {}
    }
  }

  /** Moving mines and counts changes neither the open cells nor the flags. */
  lemma MovingKeepsOpen(a: seq<seq<Cell>>, b: seq<seq<Cell>>, n: int)
    requires Square(a, n) && Square(b, n) && OnlyMinesAndNumbersDiffer(a, b, n)
    ensures OpenSet(a, n) == OpenSet(b, n)
    ensures forall p :: InBounds(n, p) ==> At(a, p).isFlagged == At(b, p).isFlagged && At(a, p).isOpen == At(b, p).isOpen
  {
    assert OpenSet(a, n) == OpenSet(b, n) by {
      forall p | p in Positions(n) ensures At(a, p).isOpen == At(b, p).isOpen {}
    }
  }

  /** Adding an element that is absent and removing one that is present keeps the size. */
  lemma CardSwap<T>(s: set<T>, add: T, remove: T)
    requires add !in s && remove in s
    ensures |(s + {add}) - {remove}| == |s|
  {
    assert |s + {add}| == |s| + 1;
  }

  lemma CardTakeOne<T>(x: set<T>, o: set<T>, c: T)
    requires c in x && c !in o
    ensures |x - o| == |x - (o + {c})| + 1
  {
    assert x - o == (x - (o + {c})) + {c};
  }
}
