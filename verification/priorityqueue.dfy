/**
 * The priority queue of the A* and Dijkstra searches: a growable list of item objects
 * kept in min-heap order by the sift operations of Go's container/heap. Every live
 * item records its own slot in `index` (-1 once popped), which is what lets Update
 * re-sift an item after its priority changes.
 */
module PriorityQueue {
  import opened Square
  import opened SquareObject
  import opened HeapOrder

  /** MysticSquareItem: a square, its priority and its slot in the queue. */
  class Item {
    const square: MysticSquare3
    var priority: int
    var index: int

    /** NewMysticSquareItem: the index keeps Go's zero value until the item is pushed. */
    constructor (square: MysticSquare3, priority: int)
      ensures this.square == square && this.priority == priority && index == 0
    {
      this.square := square;
      this.priority := priority;
      index := 0;
    }
  }

  /** The priorities of a list of items, slot by slot. */
  ghost function Priorities(s: seq<Item>): (r: seq<int>)
    reads s`priority
    ensures |r| == |s| && forall k :: 0 <= k < |s| ==> r[k] == s[k].priority
  {
    if s == [] then [] else Priorities(s[..|s| - 1]) + [s[|s| - 1].priority]
  }

  /** Exchanging two entries keeps the same members. */
  lemma ExchangedElems(s: seq<Item>, i: int, j: int)
    requires 0 <= i < |s| && 0 <= j < |s|
    ensures forall x :: x in Exchanged(s, i, j) <==> x in s
  {
    var t := Exchanged(s, i, j);
    forall x | x in t ensures x in s {
      var k :| 0 <= k < |t| && t[k] == x;
    }
    forall x | x in s ensures x in t {
      var k :| 0 <= k < |s| && s[k] == x;
      var k' := if k == i then j else if k == j then i else k;
      assert t[k'] == x;
    }
  }

  /** Exchanging two items exchanges their priorities. */
  lemma PrioritiesExchanged(s: seq<Item>, i: int, j: int)
    requires 0 <= i < |s| && 0 <= j < |s|
    ensures Priorities(Exchanged(s, i, j)) == Exchanged(Priorities(s), i, j)
  {
  }

  /** Lists with the same elements, counted with multiplicity, have the same members. */
  lemma MultisetMembers(s: seq<Item>, t: seq<Item>)
    requires multiset(s) == multiset(t)
    ensures forall k :: 0 <= k < |s| ==> s[k] in t
  {
    forall k | 0 <= k < |s| ensures s[k] in t {
      assert s[k] in multiset(s);
    }
  }

  /** PriorityQueue: the slots of the heap. */
  class PriorityQueue {
    var slots: seq<Item>
    /** The states of the squares of all the items ever pushed, in the order they were pushed. */
    ghost var history: seq<State>

    /** The priorities, slot by slot. */
    ghost function Keys(): seq<int>
      reads this, slots`priority
    {
      Priorities(slots)
    }

    /** Every item's index is its slot, so no item sits in two slots. */
    ghost predicate Indexed()
      reads this, slots`index
    {
      forall k :: 0 <= k < |slots| ==> slots[k].index == k
    }

    /** The queue invariant: indices match slots and the priorities are in heap order. */
    ghost predicate Valid()
      reads this, slots`index, slots`priority
    {
      Indexed() && IsHeap(Keys(), |slots|)
    }

    /** NewMysticSquarePriorityQueue. */
    constructor ()
      ensures slots == [] && history == [] && Valid()
    {
      slots := [];
      history := [];
    }

    /** Len: the number of items. */
    function Len(): nat
      reads this
    {
      |slots|
    }

    /** Empty: no items. */
    function Empty(): bool
      reads this
    {
      Len() == 0
    }

    /** Less: slot i has strictly smaller priority than slot j. */
    function Less(i: int, j: int): (r: bool)
      requires 0 <= i < |slots| && 0 <= j < |slots|
      reads this, slots`priority
      ensures r <==> Keys()[i] < Keys()[j]
    {
      slots[i].priority < slots[j].priority
    }

    /** The slice assignment at the heart of Swap: exchanges the items in two slots. */
    method ExchangeSlots(i: int, j: int)
      requires 0 <= i < |slots| && 0 <= j < |slots|
      modifies this`slots
      ensures slots == Exchanged(old(slots), i, j)
      ensures forall x :: x in slots <==> x in old(slots)
      ensures multiset(slots) == old(multiset(slots))
      ensures Keys() == Exchanged(old(Keys()), i, j)
    {
      ExchangedMultiset(slots, i, j);
      ExchangedElems(slots, i, j);
      PrioritiesExchanged(slots, i, j);
      slots := Exchanged(slots, i, j);
    }

    /** Swap: exchanges two slots and records the new slot in both items. */
    method Swap(i: int, j: int)
      requires 0 <= i < |slots| && 0 <= j < |slots|
      modifies this`slots, {slots[i], slots[j]}`index
      ensures slots == Exchanged(old(slots), i, j)
      ensures slots[j].index == j && (slots[i] != slots[j] ==> slots[i].index == i)
      ensures forall x :: x in slots <==> x in old(slots)
      ensures multiset(slots) == old(multiset(slots))
      ensures Keys() == Exchanged(old(Keys()), i, j)
      ensures old(Indexed()) ==> Indexed()
    {
      ghost var before := slots;
      ghost var wasIndexed := Indexed();
      ExchangeSlots(i, j);
      slots[i].index := i;
      slots[j].index := j;
      if wasIndexed {
        forall k | 0 <= k < |slots| && k != i && k != j ensures slots[k].index == k {
          assert old(before[k].index) == k && old(before[i].index) == i && old(before[j].index) == j;
          assert slots[k] == before[k] && before[k] != before[i] && before[k] != before[j];
        }
      }
    }

    /** Push (the list operation): appends the item at the last slot. */
    method Push(item: Item)
      modifies this`slots, this`history, item`index
      ensures slots == old(slots) + [item] && item.index == old(|slots|)
      ensures history == old(history) + [item.square.state]
      ensures old(Indexed()) && item !in old(slots) ==> Indexed()
    {
      var n := |slots|;
      item.index := n;
      slots := slots + [item];
      history := history + [item.square.state];
    }

    /** Pop (the list operation): removes the last slot and marks its item as popped. */
    method Pop() returns (item: Item)
      requires |slots| > 0
      modifies this`slots, {slots[|slots| - 1]}`index
      ensures item == old(slots[|slots| - 1]) && item.index == -1
      ensures slots == old(slots[..|slots| - 1])
      ensures multiset(slots) + multiset{item} == old(multiset(slots))
      ensures Keys() == old(Keys()[..|slots| - 1])
      ensures old(Indexed()) ==> Indexed()
    {
      var n := |slots|;
      item := slots[n - 1];
      ghost var keys := Keys();
      item.index := -1;
      assert slots == slots[..n - 1] + [item];
      slots := slots[..n - 1];
      assert Keys() == keys[..n - 1];
    }
  
    /** up (container/heap): moves the item at slot j towards the root while it is smaller than its parent. */
    method Up(j0: int)
      requires Indexed() && 0 <= j0 < |slots| && UpInv(Keys(), |slots|, j0)
      modifies this`slots, slots`index
      ensures Indexed() && IsHeap(Keys(), |slots|) && |slots| == old(|slots|)
      ensures multiset(slots) == old(multiset(slots))
    {
      var j := j0;
      while j > 0
        invariant 0 <= j < |slots| && |slots| == old(|slots|)
        invariant Indexed() && UpInv(Keys(), |slots|, j)
        invariant multiset(slots) == old(multiset(slots))
        decreases j
      {
        var i := Parent(j);
        if !Less(j, i) {
          break;
        }
        UpStep(Keys(), |slots|, j);
        assert slots[i] in multiset(slots) && slots[j] in multiset(slots);
        Swap(i, j);
        j := i;
      }
      UpExit(Keys(), |slots|, j);
    }

    /**
     * The child of slot i that down compares against: the left child, or the right one
     * when it is in range and strictly smaller. No child of i is smaller.
     */
    function SmallerChild(i: int, n: int): (j: int)
      requires 0 <= i && 2 * i + 1 < n <= |slots|
      reads this, slots`priority
      ensures (j == 2 * i + 1 || j == 2 * i + 2) && j < n
      ensures forall k :: 0 < k < n && Parent(k) == i ==> Keys()[j] <= Keys()[k]
    {
      var j1 := 2 * i + 1;
      var j := if j1 + 1 < n && Less(j1 + 1, j1) then j1 + 1 else j1;
      ChildChoice(Keys(), n, i, j);
      j
    }

    /**
     * One round of down's loop at slot i, which has a child among the first n slots:
     * exchanges i with its smaller child when that child is smaller. Returns the child
     * moved to, or i itself when down stops there.
     */
    method DownOnce(i: int, n: int, ghost lo: int, ghost i0: int) returns (next: int)
      requires Indexed() && 0 <= i && 2 * i + 1 < n <= |slots| && DownInv(Keys(), n, lo, i0, i)
      modifies this`slots, slots`index
      ensures Indexed() && |slots| == old(|slots|)
      ensures next == i ==> slots == old(slots)
      ensures next == i ==> Settled(Keys(), n, i)
      ensures next != i ==> (next == 2 * i + 1 || next == 2 * i + 2) && next < n
      ensures DownInv(Keys(), n, lo, i0, next)
      ensures forall k :: n <= k < |slots| ==> slots[k] == old(slots[k])
      ensures multiset(slots) == old(multiset(slots))
    {
      var j := SmallerChild(i, n);
      if !Less(j, i) {
        return i;
      }
      DownStep(Keys(), n, lo, i0, i, j);
      Swap(i, j);
      next := j;
    }

    /**
     * down (container/heap): moves the item at slot i0 away from the root, among the first
     * n slots, while a child is smaller; reports whether it moved. `lo` bounds the region
     * whose order the caller relies on (the whole heap, or the part already heapified).
     */
    method Down(i0: int, n: int, ghost lo: int) returns (moved: bool)
      requires Indexed() && 0 <= i0 <= n <= |slots| && DownInv(Keys(), n, lo, i0, i0)
      modifies this`slots, slots`index
      ensures Indexed() && |slots| == old(|slots|)
      ensures moved ==> HeapFrom(Keys(), n, lo, -1)
      ensures HeapFrom(Keys(), n, lo, i0)
      ensures !moved ==> slots == old(slots)
      ensures forall k :: n <= k < |slots| ==> slots[k] == old(slots[k])
      ensures multiset(slots) == old(multiset(slots))
    {
      var i := i0;
      while 2 * i + 1 < n
        invariant i0 <= i <= n && |slots| == old(|slots|)
        invariant Indexed() && DownInv(Keys(), n, lo, i0, i)
        invariant i == i0 ==> slots == old(slots)
        invariant forall k :: n <= k < |slots| ==> slots[k] == old(slots[k])
        invariant multiset(slots) == old(multiset(slots))
        decreases n - i
      {
        MultisetMembers(slots, old(slots));
        var next := DownOnce(i, n, lo, i0);
        if next == i {
          break;
        }
        i := next;
      }
      if 2 * i + 1 >= n {
        Leaf(Keys(), n, i);
      }
      DownExit(Keys(), n, lo, i0, i);
      moved := i > i0;
    }

    /** heap.Init: establishes heap order by sifting down every slot that has a child, last first. */
    method HeapInit()
      requires Indexed()
      modifies this`slots, slots`index
      ensures Valid() && |slots| == old(|slots|)
      ensures multiset(slots) == old(multiset(slots))
      ensures old(|slots|) <= 1 ==> slots == old(slots)
    {
      var n := |slots|;
      InitStart(Keys(), n);
      var i := n / 2 - 1;
      while i >= 0
        invariant -1 <= i < n && |slots| == n
        invariant Indexed() && HeapFrom(Keys(), n, i + 1, -1)
        invariant multiset(slots) == old(multiset(slots))
        invariant n <= 1 ==> slots == old(slots)
      {
        InitStep(Keys(), n, i);
        MultisetMembers(slots, old(slots));
        var _ := Down(i, n, i);
        i := i - 1;
      }
    }

    /** heap.Push: appends the item and sifts it up. */
    method HeapPush(item: Item)
      requires Valid() && item !in slots
      modifies this`slots, this`history, slots`index, item`index
      ensures Valid() && |slots| == old(|slots|) + 1
      ensures multiset(slots) == old(multiset(slots)) + multiset{item}
      ensures history == old(history) + [item.square.state]
    {
      PushStart(Keys(), item.priority);
      Push(item);
      Up(|slots| - 1);
    }

    /**
     * The body of heap.Pop: moves the root to the last slot, sifts the new root down
     * among the others and removes the last slot, returning the old root.
     */
    method RemoveRoot() returns (item: Item)
      requires Valid() && |slots| > 0
      modifies this`slots, slots`index
      ensures Valid() && |slots| == old(|slots|) - 1
      ensures item == old(slots[0]) && item.index == -1
      ensures multiset(slots) + multiset{item} == old(multiset(slots))
    {
      var n := |slots| - 1;
      PopStart(Keys(), n);
      Swap(0, n);
      var _ := Down(0, n, 0);
      HeapPrefix(Keys(), n);
      item := Pop();
    }

    /**
     * heap.Pop: removes and returns the root, which has the smallest priority; the
     * other items stay, in heap order.
     */
    method HeapPop() returns (item: Item)
      requires Valid() && |slots| > 0
      modifies this`slots, slots`index
      ensures Valid() && |slots| == old(|slots|) - 1
      ensures item == old(slots[0]) && item.index == -1
      ensures multiset(slots) + multiset{item} == old(multiset(slots))
      ensures forall x :: x in slots ==> x in old(slots) && item.priority <= x.priority
    {
      ghost var before := slots;
      ghost var keys := Keys();
      forall x | x in before ensures before[0].priority <= x.priority {
        var k :| 0 <= k < |before| && before[k] == x;
        HeapMin(keys, |keys|, k);
      }
      item := RemoveRoot();
      forall x | x in slots ensures x in before {
        assert x in multiset(slots);
        assert x in multiset(before);
      }
    }

    /** heap.Fix: restores heap order after the priority at slot i changed. */
    method HeapFix(i: int)
      requires Indexed() && 0 <= i < |slots| && DownInv(Keys(), |slots|, 0, i, i)
      modifies this`slots, slots`index
      ensures Valid() && |slots| == old(|slots|)
      ensures multiset(slots) == old(multiset(slots))
    {
      var moved := Down(i, |slots|, 0);
      if !moved {
        Up(i);
      }
    }

    /**
     * Process: on an empty queue, no item and nothing changes; otherwise the item with
     * the smallest priority, removed from the queue.
     */
    method Process() returns (current: Item?, itemExists: bool)
      requires Valid()
      modifies this`slots, slots`index
      ensures Valid()
      ensures itemExists <==> old(|slots|) > 0
      ensures !itemExists ==> current == null && slots == old(slots)
      ensures itemExists ==>
        && current == old(slots[0]) && current.index == -1
        && multiset(slots) + multiset{current} == old(multiset(slots))
        && forall x :: x in slots ==> x in old(slots) && current.priority <= x.priority
    {
      itemExists := !Empty();
      if itemExists {
        current := HeapPop();
      } else {
        current := null;
      }
    }

    /** Update: re-prioritises an item still in the queue; a popped item (index < 0) is left alone. */
    method Update(item: Item, priority: int)
      requires Valid()
      requires item.index >= 0 ==> item.index < |slots| && slots[item.index] == item
      modifies this`slots, slots`index, item`priority
      ensures Valid()
      ensures old(item.index) < 0 ==> slots == old(slots) && item.priority == old(item.priority)
      ensures old(item.index) >= 0 ==> item.priority == priority
      ensures multiset(slots) == old(multiset(slots)) && |slots| == old(|slots|)
    {
      if item.index >= 0 {
        UpdateLive(item, priority);
      }
    }

    /** update: sets the priority of an item in the queue and fixes its slot. */
    method UpdateLive(item: Item, priority: int)
      requires Valid() && 0 <= item.index < |slots| && slots[item.index] == item
      modifies this`slots, slots`index, item`priority
      ensures Valid() && item.priority == priority
      ensures multiset(slots) == old(multiset(slots)) && |slots| == old(|slots|)
    {
      var i := item.index;
      ChangedKey(Keys(), |slots|, i, priority);
      ghost var expected := Keys()[i := priority];
      item.priority := priority;
      forall k | 0 <= k < |slots| && k != i ensures slots[k] != item {
        assert slots[k].index == k;
      }
      assert Keys() == expected;
      HeapFix(i);
    }
  }
}
