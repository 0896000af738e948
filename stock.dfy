/**
 * Stock: a stock counter held in a Java `int`, and the ThreadState demonstration,
 * which adds twenty to it and then drains it with a loop whose bound is re-read
 * on every iteration.
 */
module Inventory {

  /** Java's 32-bit `int`. */
  newtype Int32 = x: int | -0x8000_0000 <= x < 0x8000_0000

  const MaxInt: Int32 := 0x7fff_ffff
  const MinInt: Int32 := -0x8000_0000

  class Stock {
    var number: Int32

    constructor (number: Int32)
      ensures this.number == number
    {
      this.number := number;
    }

    /** Adds one; at the largest int the Java addition wraps to the smallest. */
    method AddStock()
      modifies this
      ensures old(number) < MaxInt ==> number == old(number) + 1
      ensures old(number) == MaxInt ==> number == MinInt
    {
      number := if number == MaxInt then MinInt else number + 1;
    }

    /** Takes one away only when the count is positive; returns the new count, or 0 otherwise. */
    method ReduceStock() returns (r: Int32)
      modifies this
      ensures old(number) > 0 ==> number == old(number) - 1 && r == number
      ensures old(number) <= 0 ==> number == old(number) && r == 0
      ensures 0 <= old(number) ==> 0 <= number
    {
      if number > 0 {
        number := number - 1;
        r := number;
      } else {
        r := 0;
      }
    }

    function GetRemain(): (r: Int32)
      reads this
      ensures r == number
    {
      number
    }
  }

  /**
   * The drain loop of ThreadState: `for (int i = 0; i < stock.getRemain(); i++)`
   * printing each `reduceStock()`. The bound shrinks as the counter climbs, so from
   * a positive `n` it reduces ceil(n/2) times and leaves floor(n/2). Returns the
   * values it prints.
   */
  method Drain(stock: Stock) returns (printed: seq<Int32>)
    modifies stock
    ensures old(stock.number) <= 0 ==> printed == [] && stock.number == old(stock.number)
    ensures 0 < old(stock.number) ==> |printed| == (old(stock.number) as int + 1) / 2
    ensures 0 < old(stock.number) ==> stock.number as int == old(stock.number) as int / 2
    ensures forall k :: 0 <= k < |printed| ==> printed[k] as int == old(stock.number) as int - 1 - k
  {
    ghost var n := stock.number as int;
    var i: Int32 := 0;
    printed := [];
    while i < stock.GetRemain()
      invariant 0 <= i as int == |printed|
      invariant n <= 0 ==> i == 0 && stock.number as int == n
      invariant 0 < n ==> stock.number as int == n - i as int && 2 * i as int <= n + 1
      invariant forall k :: 0 <= k < |printed| ==> printed[k] as int == n - 1 - k
      decreases stock.number as int - i as int
    {
      var r := stock.ReduceStock();
      printed := printed + [r];
      i := i + 1;
    }
  }

  /**
   * The ThreadState demonstration without its threads: a Stock of 20, a loop that
   * adds twenty, then the drain loop. It prints 39 down to 20 and leaves 20.
   */
  method ThreadState() returns (printed: seq<Int32>, remain: Int32)
    ensures |printed| == 20
    ensures forall k :: 0 <= k < 20 ==> printed[k] == 39 - k as Int32
    ensures remain == 20
  {
    var stock := new Stock(20);
    for i := 0 to 20
      invariant stock.number as int == 20 + i
    {
      stock.AddStock();
    }
    printed := Drain(stock);
    remain := stock.GetRemain();
  }
}
