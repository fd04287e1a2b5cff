/**
 * The first-in first-out frontier of the breadth-first search: squares are appended at
 * the back and taken from the front.
 */
module Fifo {
  import opened Wrappers
  import opened Square
  import opened SquareObject

  /** Queue: the squares waiting, front first. */
  class Queue {
    var items: seq<MysticSquare3>
    /** The states of all the squares ever pushed, in the order they were pushed. */
    ghost var history: seq<State>

    /** NewMysticSquareQueue: an empty queue that has seen no push. */
    constructor ()
      ensures items == [] && history == []
    {
      items := [];
      history := [];
    }

    /** Len: the number of squares waiting. */
    function Len(): (r: nat)
      reads this
      ensures r == |items|
      ensures r == 0 <==> items == []
    {
      |items|
    }

    /** Empty: no square is waiting. */
    function Empty(): (r: bool)
      reads this
      ensures r <==> Len() == 0
      ensures r <==> items == []
    {
      Len() == 0
    }

    /** Pop: removes the front square and returns it; the rest keep their order. */
    method Pop() returns (item: MysticSquare3)
      requires items != []
      modifies this
      ensures item == old(items[0]) && items == old(items[1..])
      ensures old(items) == [item] + items
      ensures history == old(history)
    {
      item := items[0];
      items := items[1..];
    }

    /** Push: appends a square at the back (and records its state in the history). */
    method Push(item: MysticSquare3)
      modifies this
      ensures items == old(items) + [item]
      ensures items[|items| - 1] == item && Len() == old(Len()) + 1
      ensures history == old(history) + [item.state]
    {
      items := items + [item];
      history := history + [item.state];
    }

    /**
     * Process: on an empty queue no square and nothing changes; otherwise the front
     * square, removed from the queue.
     */
    method Process() returns (current: Option<MysticSquare3>, hasItem: bool)
      modifies this
      ensures hasItem <==> old(items) != []
      ensures !hasItem ==> current == None && items == old(items)
      ensures hasItem ==> current == Some(old(items[0])) && items == old(items[1..])
      ensures (if hasItem then [current.value] else []) + items == old(items)
      ensures history == old(history)
    {
      hasItem := !Empty();
      if hasItem {
        var data := Pop();
        current := Some(data);
      } else {
        current := None;
      }
    }
  }
}
