/**
 * `nonRepeatingNumbers` of minesweeper.py: a drawer of distinct random numbers from
 * 0 .. maxNumber - 1, kept as a partial Fisher-Yates shuffle of an array. The closure's
 * captured `array` and `maxNumber` are the fields of `NumberDrawer`; the value drawn by
 * `randrange(0, maxNumber)` is a parameter.
 */
module Numbers {
  import opened Grid

  /** What one call of the drawer yields: a number, `None`, or the ValueError of `randrange(0, 0)`. */
  datatype Draw = Number(value: int) | NoNumber | RangeError

  /**
   * One draw on the drawer's contents as values: with `m` numbers left, the entry at
   * `random` is handed out and swapped with the last undrawn entry.
   */
  function DrawStep(numbers: seq<int>, drawn: seq<int>, m: int, random: int): (seq<int>, seq<int>)
    requires 0 <= random < m <= |numbers|
  {
    (numbers[random := numbers[m - 1]][m - 1 := numbers[random]], drawn + [numbers[random]])
  }

  /**
   * The array and the numbers drawn after the first `k` draws of a drawer of `total`
   * numbers, `randoms[i]` being what `randrange` returned in draw i.
   */
  function Draws(total: nat, randoms: seq<int>, k: nat): (r: (seq<int>, seq<int>))
    requires k <= total && k <= |randoms|
    requires forall i :: 0 <= i < k ==> 0 <= randoms[i] < total - i
    ensures |r.0| == total && |r.1| == k
  {
    if k == 0 then (seq(total, i => i), [])
    else
      var prev := Draws(total, randoms, k - 1);
      DrawStep(prev.0, prev.1, total - (k - 1), randoms[k - 1])
  }

  class NumberDrawer {
    var numbers: array<int>
    var maxNumber: int
    /** The size the drawer was created with. */
    ghost const size: int
    /** The numbers handed out so far, oldest first. */
    ghost var drawn: seq<int>

    /**
     * The array holds each of 0 .. size - 1 exactly once; the numbers already drawn sit at
     * its end, the oldest last, and the ones still to draw in front of `maxNumber`.
     */
    ghost predicate Valid()
      reads this, numbers
    {
      && numbers.Length == (if size < 0 then 0 else size)
      && (if size < 0 then maxNumber == size && drawn == []
          else 0 <= maxNumber <= size && |drawn| == size - maxNumber)
      && Distinct(numbers[..])
      && (forall i :: 0 <= i < numbers.Length ==> 0 <= numbers[i] < numbers.Length)
      && (forall k :: 0 <= k < |drawn| ==> drawn[k] == numbers[numbers.Length - 1 - k])
    }

    /** `nonRepeatingNumbers(maxNumber)`: the array 0 .. maxNumber - 1, nothing drawn yet. */
    constructor (maxNumber: int)
      ensures Valid() && fresh(numbers)
      ensures size == maxNumber && this.maxNumber == maxNumber && drawn == []
      ensures numbers[..] == seq(numbers.Length, i => i)
    {
      var n := if maxNumber < 0 then 0 else maxNumber;
      numbers := new int[n](i => i);
      this.maxNumber := maxNumber;
      size := maxNumber;
      drawn := [];
    }

    /**
     * `getNumber()`, where `random` is the value `randrange(0, maxNumber)` returns. It swaps
     * the chosen entry with the last undrawn one and hands it out.
     */
    method GetNumber(random: int) returns (r: Draw)
      requires Valid()
      requires maxNumber > 0 ==> 0 <= random < maxNumber
      modifies this, numbers
      ensures Valid() && numbers == old(numbers)
      ensures old(maxNumber) < 0 ==> r == NoNumber && maxNumber == old(maxNumber) && drawn == old(drawn)
      ensures old(maxNumber) == 0 ==> r == RangeError && maxNumber == 0 && drawn == old(drawn)
      ensures old(maxNumber) > 0 ==>
        && r == Number(old(numbers[random]))
        && maxNumber == old(maxNumber) - 1
        && drawn == old(drawn) + [r.value]
        && numbers[..] == old(numbers[..])[random := old(numbers[maxNumber - 1])][maxNumber := old(numbers[random])]
        && (numbers[..], drawn) == DrawStep(old(numbers[..]), old(drawn), old(maxNumber), random)
      ensures r.Number? ==> 0 <= r.value < size && r.value !in old(drawn)
    {
      if maxNumber < 0 {
        return NoNumber;
      }
      if maxNumber == 0 {
        return RangeError;
      }
      var number := numbers[random];
      numbers[random] := numbers[maxNumber - 1];
      numbers[maxNumber - 1] := number;
      maxNumber := maxNumber - 1;
      drawn := drawn + [number];
      r := Number(number);
    }

    /** Every number handed out lies in 0 .. size - 1 and none is handed out twice. */
    lemma DrawnDistinct()
      requires Valid()
      ensures Distinct(drawn)
      ensures forall k :: 0 <= k < |drawn| ==> 0 <= drawn[k] < size
      ensures |drawn| <= size || drawn == []
    {
      forall i, j | 0 <= i < j < |drawn| ensures drawn[i] != drawn[j] {
        assert drawn[i] == numbers[..][numbers.Length - 1 - i];
        assert drawn[j] == numbers[..][numbers.Length - 1 - j];
      }
    }
  }
}
