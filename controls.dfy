/**
 * The touch handling of minesweeper.py: `getCellTouched`, `isSmileTouched` and the
 * `debouncer` closure that the main loop consults before acting on a touch.
 */
module Controls {
  import opened Wrappers
  import opened Grid
  import opened Common

  // ---------------------------------------------------------------------------
  // getCellTouched

  /** The square a drawn cell covers on screen, both edges included, contains the point. */
  predicate Covers(cell: Cell, tx: int, ty: int)
  {
    cell.screenX <= tx <= cell.screenX + cell.size && cell.screenY <= ty <= cell.screenY + cell.size
  }

  /** The position `(x, y)` indexes a cell of the (possibly ragged) board. */
  predicate OnBoard(cells: seq<seq<Cell>>, p: Pos)
  {
    0 <= p.y < |cells| && 0 <= p.x < |cells[p.y]|
  }

  /**
   * The first cell covering the point, reading the board row by row from column x of
   * row y on.
   */
  function TouchedFrom(cells: seq<seq<Cell>>, y: int, x: int, tx: int, ty: int): Option<Pos>
    requires 0 <= y <= |cells| && 0 <= x && (y < |cells| ==> x <= |cells[y]|)
    decreases |cells| - y, if y < |cells| then |cells[y]| - x else 0
  {
    if y == |cells| then None
    else if x == |cells[y]| then TouchedFrom(cells, y + 1, 0, tx, ty)
    else if Covers(cells[y][x], tx, ty) then Some(Pos(x, y))
    else TouchedFrom(cells, y, x + 1, tx, ty)
  }

  function Touched(cells: seq<seq<Cell>>, tx: int, ty: int): Option<Pos>
  {
    TouchedFrom(cells, 0, 0, tx, ty)
  }

  lemma {:induction false} TouchedFromIsFirst(cells: seq<seq<Cell>>, y: int, x: int, tx: int, ty: int)
    requires 0 <= y <= |cells| && 0 <= x && (y < |cells| ==> x <= |cells[y]|)
    ensures var t := TouchedFrom(cells, y, x, tx, ty);
      && (t.Some? ==> OnBoard(cells, t.value) && Covers(At(cells, t.value), tx, ty)
                      && !RowMajorBefore(t.value, Pos(x, y)))
      && (forall q :: OnBoard(cells, q) && !RowMajorBefore(q, Pos(x, y)) && (t.None? || RowMajorBefore(q, t.value))
            ==> !Covers(At(cells, q), tx, ty))
    decreases |cells| - y, if y < |cells| then |cells[y]| - x else 0
  {
    if y == |cells| {
    } else if x == |cells[y]| {
      TouchedFromIsFirst(cells, y + 1, 0, tx, ty);
    } else if Covers(cells[y][x], tx, ty) {
    } else {
      TouchedFromIsFirst(cells, y, x + 1, tx, ty);
    }
  }

  /**
   * The touched cell is the first cell, row by row, whose square contains the point, and
   * there is none exactly when no cell's square contains it.
   */
  lemma TouchedIsFirst(cells: seq<seq<Cell>>, tx: int, ty: int)
    ensures var t := Touched(cells, tx, ty);
      && (t.Some? ==> OnBoard(cells, t.value) && Covers(At(cells, t.value), tx, ty))
      && (t.Some? ==> forall q :: OnBoard(cells, q) && RowMajorBefore(q, t.value) ==> !Covers(At(cells, q), tx, ty))
      && (t.None? <==> forall q :: OnBoard(cells, q) ==> !Covers(At(cells, q), tx, ty))
  {
    TouchedFromIsFirst(cells, 0, 0, tx, ty);
    var t := Touched(cells, tx, ty);
    if t.Some? {
      assert OnBoard(cells, t.value) && Covers(At(cells, t.value), tx, ty);
    }
  }

  /** `getCellTouched(game, touchX, touchY)`: the position of the touched cell, or `None`. */
  method CellTouched(game: Game, tx: int, ty: int) returns (t: Option<Pos>)
    ensures t == Touched(game.cells, tx, ty)
  {
    var y := 0;
    while y < |game.cells|
      invariant 0 <= y <= |game.cells|
      invariant TouchedFrom(game.cells, y, 0, tx, ty) == Touched(game.cells, tx, ty)
    {
      var row := game.cells[y];
      var x := 0;
      while x < |row|
        invariant 0 <= x <= |row|
        invariant TouchedFrom(game.cells, y, x, tx, ty) == Touched(game.cells, tx, ty)
      {
        var cell := row[x];
        var x2 := cell.screenX + cell.size;
        var y2 := cell.screenY + cell.size;
        if cell.screenX <= tx <= x2 && cell.screenY <= ty <= y2 {
          return Some(Pos(x, y));
        }
        x := x + 1;
      }
      y := y + 1;
    }
    return None;
  }

  // ---------------------------------------------------------------------------
  // isSmileTouched

  /** The rectangle (x1, x2, y1, y2), both edges included, contains the point. */
  predicate InRect(rect: (int, int, int, int), tx: int, ty: int)
  {
    rect.0 <= tx <= rect.1 && rect.2 <= ty <= rect.3
  }

  /** `isSmileTouched(game, touchX, touchY)`. */
  method IsSmileTouched(game: Game, tx: int, ty: int) returns (touched: bool)
    ensures touched <==> InRect(game.smileRect, tx, ty)
  {
    var (x1, x2, y1, y2) := game.smileRect;
    if x1 <= tx <= x2 && y1 <= ty <= y2 {
      return true;
    }
    return false;
  }

  // ---------------------------------------------------------------------------
  // debouncer

  /**
   * The clock reading a debouncer created at `start` holds after being asked at each of
   * `times` in turn: a touch that comes `timeMs` or more after the last accepted one is
   * accepted and its time kept.
   */
  function LastAccepted(start: int, timeMs: int, times: seq<int>): int
  {
    if times == [] then start
    else
      var last := LastAccepted(start, timeMs, times[..|times| - 1]);
      if last + timeMs > times[|times| - 1] then last else times[|times| - 1]
  }

  /** The times among `times` at which the debouncer lets a touch through, in order. */
  function AcceptedTimes(start: int, timeMs: int, times: seq<int>): seq<int>
  {
    if times == [] then []
    else
      var prefix := times[..|times| - 1];
      var now := times[|times| - 1];
      if LastAccepted(start, timeMs, prefix) + timeMs > now then AcceptedTimes(start, timeMs, prefix)
      else AcceptedTimes(start, timeMs, prefix) + [now]
  }

  /** The kept reading is the creation time or the last accepted touch. */
  lemma {:induction false} LastIsLastAccepted(start: int, timeMs: int, times: seq<int>)
    ensures var a := AcceptedTimes(start, timeMs, times);
      LastAccepted(start, timeMs, times) == if a == [] then start else a[|a| - 1]
  {
    if times != [] {
      LastIsLastAccepted(start, timeMs, times[..|times| - 1]);
    }
  }

  /**
   * Each accepted touch comes at least `timeMs` after the previous accepted one, the first
   * at least `timeMs` after the debouncer was created; so with a non-negative window any
   * two accepted touches are at least `timeMs` apart.
   */
  lemma {:induction false} AcceptedAreSpaced(start: int, timeMs: int, times: seq<int>)
    ensures var a := [start] + AcceptedTimes(start, timeMs, times);
      forall k :: 0 <= k < |a| - 1 ==> a[k] + timeMs <= a[k + 1]
  {
    if times != [] {
      var prefix := times[..|times| - 1];
      var now := times[|times| - 1];
      AcceptedAreSpaced(start, timeMs, prefix);
      LastIsLastAccepted(start, timeMs, prefix);
      var b := [start] + AcceptedTimes(start, timeMs, prefix);
      if LastAccepted(start, timeMs, prefix) + timeMs <= now {
        assert [start] + AcceptedTimes(start, timeMs, times) == b + [now];
        assert b[|b| - 1] == LastAccepted(start, timeMs, prefix);
      }
    }
  }

  lemma {:induction false} SpacedChain(a: seq<int>, timeMs: int, i: int, j: int)
    requires 0 <= timeMs
    requires forall k :: 0 <= k < |a| - 1 ==> a[k] + timeMs <= a[k + 1]
    requires 0 <= i < j < |a|
    ensures a[i] + timeMs <= a[j]
    decreases j - i
  {
    if i + 1 < j {
      SpacedChain(a, timeMs, i + 1, j);
    }
  }

  lemma AcceptedApart(start: int, timeMs: int, times: seq<int>, i: int, j: int)
    requires 0 <= timeMs
    requires 0 <= i < j <= |AcceptedTimes(start, timeMs, times)|
    ensures var a := [start] + AcceptedTimes(start, timeMs, times);
      a[i] + timeMs <= a[j]
  {
    AcceptedAreSpaced(start, timeMs, times);
    SpacedChain([start] + AcceptedTimes(start, timeMs, times), timeMs, i, j);
  }

  /**
   * The closure returned by `debouncer(timeMs)`; the captured `lastTouchTime` is a field and
   * the wall clock, in milliseconds, is passed to each call.
   */
  class Debouncer {
    var lastTouchTime: int
    const timeMs: int
    /** The creation time and the clock readings of every call so far. */
    ghost const start: int
    ghost var asked: seq<int>

    ghost predicate Valid()
      reads this
    {
      lastTouchTime == LastAccepted(start, timeMs, asked)
    }

    /** `debouncer(timeMs)` at clock reading `now`. */
    constructor (timeMs: int, now: int)
      ensures Valid() && this.timeMs == timeMs && start == now && asked == []
      ensures lastTouchTime == now
    {
      this.timeMs := timeMs;
      lastTouchTime := now;
      start := now;
      asked := [];
    }

    /**
     * `checkDebounce()` at clock reading `now`: true (ignore the touch) when it comes
     * within `timeMs` of the last accepted one; otherwise the touch is accepted and `now`
     * becomes the last accepted time.
     */
    method Check(now: int) returns (bounce: bool)
      requires Valid()
      modifies this`lastTouchTime, this`asked
      ensures Valid() && asked == old(asked) + [now]
      ensures bounce <==> old(lastTouchTime) + timeMs > now
      ensures lastTouchTime == if bounce then old(lastTouchTime) else now
      ensures AcceptedTimes(start, timeMs, asked) ==
        AcceptedTimes(start, timeMs, old(asked)) + (if bounce then [] else [now])
    {
      asked := asked + [now];
      assert asked[..|asked| - 1] == old(asked);
      if lastTouchTime + timeMs > now {
        return true;
      }
      lastTouchTime := now;
      return false;
    }
  }
}
