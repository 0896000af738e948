/**
 * MyStock: the shop's stock of goods, a FIFO queue of string codes held in a
 * linked list, with a capacity `size` fixed by the constructor. The queue itself
 * never checks the capacity; only the producer's guard keeps it within `size`.
 */
module Shop {
  import opened Wrappers

  class MyStock {
    /** The goods in stock, oldest first (the linked list `ls`). */
    var ls: seq<string>
    /** The capacity given to the constructor; any int is accepted. */
    var size: int

    constructor (size: int)
      ensures ls == [] && this.size == size
    {
      this.size := size;
      ls := [];
    }

    /** `offer`: the code joins the tail; the capacity is not consulted. */
    method AddStock(code: string)
      modifies this`ls
      ensures ls == old(ls) + [code]
      ensures |ls| == |old(ls)| + 1 && ls[|ls| - 1] == code
    {
      ls := ls + [code];
    }

    /** `poll`: removes and returns the head, or returns null (None) on an empty list. */
    method ReduceStock() returns (code: Option<string>)
      modifies this`ls
      ensures old(ls) == [] ==> code == None && ls == []
      ensures old(ls) != [] ==> code == Some(old(ls)[0]) && ls == old(ls)[1..]
      ensures code.Some? ==> [code.value] + ls == old(ls)
    {
      if ls == [] {
        code := None;
      } else {
        code := Some(ls[0]);
        ls := ls[1..];
      }
    }

    /** Full means as many goods as the capacity, which a negative capacity never allows. */
    function IsFull(): (r: bool)
      reads this
      ensures r <==> |ls| == size
      ensures r ==> 0 <= size
    {
      |ls| == size
    }

    /** Empty means no goods at all. */
    function IsEmpty(): (r: bool)
      reads this
      ensures r <==> ls == []
    {
      |ls| == 0
    }

    /** The capacity; no method of the class assigns it after construction. */
    function GetSize(): (r: int)
      reads this
      ensures IsFull() <==> r == |ls|
    {
      size
    }

    /** The number of goods in stock, never negative, zero exactly when empty. */
    function GetRemain(): (r: nat)
      reads this
      ensures r == 0 <==> IsEmpty()
      ensures IsFull() <==> r == size
    {
      |ls|
    }
  }
}
