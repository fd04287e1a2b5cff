/**
 * The items of Dijkstra's algorithm and A*: the map from each state to the one item made
 * for it (the source's itemsMap) and the priority queue holding the live items. The three
 * queue operations the searches perform on that pair, giving a new state an item, changing
 * an item's priority and popping the least item, are written here once with their effect
 * on the pair.
 */
module Registry {
  import opened Wrappers
  import opened Square
  import opened SquareObject
  import opened PriorityQueue
  import opened Search

  /**
   * Which items fill the slots: each state's item holds a square of that state, the slots
   * hold items of the map, and a state is `live` exactly when its item fills a slot.
   */
  ghost predicate Enrolled(slots: seq<Item>, items: map<State, Item>, live: set<State>) {
    && (forall k :: k in items ==> items[k].square.state == k)
    && (forall i :: 0 <= i < |slots| ==> slots[i].square.state in live)
    && (forall i :: 0 <= i < |slots| ==> slots[i].square.state in items && items[slots[i].square.state] == slots[i])
    && (forall k :: k in live ==> k in items && items[k] in slots)
  }

  /** Every item that is not live carries the index -1 of a popped item. */
  ghost predicate Retired(items: map<State, Item>, live: set<State>)
    reads items.Values
  {
    forall k :: k in items && k !in live ==> items[k].index == -1
  }

  /** Every item in a slot carries the priority `prio` gives its state. */
  ghost predicate Prioritised(slots: seq<Item>, prio: map<State, int>)
    reads slots
  {
    forall i :: 0 <= i < |slots| ==> slots[i].square.state in prio && slots[i].priority == prio[slots[i].square.state]
  }

  /** The items map and the queue `q` agree, with the live states and their priorities. */
  ghost predicate Registered(q: PriorityQueue, items: map<State, Item>, live: set<State>, prio: map<State, int>)
    reads q, q.slots, items.Values
  {
    q.Valid() && Enrolled(q.slots, items, live) && Retired(items, live) && Prioritised(q.slots, prio)
  }

  /**
   * The items map has an item for exactly the states with an entry in `paths`, each
   * holding a square built by NewMysticSquare.
   */
  ghost predicate Catalogued(items: map<State, Item>, paths: Paths) {
    && (forall k :: k in items <==> k in paths)
    && (forall k {:trigger Made(items[k].square)} :: k in items ==> Made(items[k].square))
  }

  /** A new state's item and its entry arrive together. */
  lemma CatalogueAdd(items: map<State, Item>, paths: Paths, k: State, item: Item, v: Option<MysticSquare3>,
                     items': map<State, Item>, paths': Paths)
    requires Catalogued(items, paths) && Made(item.square)
    requires items' == items[k := item] && paths' == paths[k := v]
    ensures Catalogued(items', paths')
  {
  }

  /** The map holding only the item of a well-built square and the map holding only its entry, with no predecessor, agree. */
  lemma CatalogueOne(sq: MysticSquare3, item: Item)
    requires Made(sq) && item.square == sq
    ensures Catalogued(map[sq.state := item], map[sq.state := None])
  {
  }

  /** A new entry for a state with an item leaves the catalogue as it is. */
  lemma CatalogueSet(items: map<State, Item>, paths: Paths, k: State, v: Option<MysticSquare3>, paths': Paths)
    requires Catalogued(items, paths) && k in paths && paths' == paths[k := v]
    ensures Catalogued(items, paths')
  {
  }

  /** A live state's item sits in the slot its index names. */
  lemma LiveIndex(q: PriorityQueue, items: map<State, Item>, live: set<State>, prio: map<State, int>, k: State)
    requires Registered(q, items, live, prio) && k in live
    ensures k in items && 0 <= items[k].index < |q.slots| && q.slots[items[k].index] == items[k]
  {
    var i :| 0 <= i < |q.slots| && q.slots[i] == items[k];
    assert q.slots[i].index == i;
  }

  /** In a valid queue no item fills two slots. */
  lemma OnceInSlots(q: PriorityQueue, x: Item)
    requires q.Valid() && x in q.slots
    ensures multiset(q.slots)[x] == 1
  {
    var s := q.slots;
    var i :| 0 <= i < |s| && s[i] == x;
    assert s == s[..i] + [x] + s[i + 1..];
    forall j | 0 <= j < |s| && j != i ensures s[j] != x {
      assert s[j].index == j;
    }
    var front, back := s[..i], s[i + 1..];
    forall j | 0 <= j < |front| ensures front[j] != x {
      assert front[j] == s[j];
    }
    forall j | 0 <= j < |back| ensures back[j] != x {
      assert back[j] == s[i + 1 + j];
    }
  }

  /** Pushing the item of a state with no item yet makes that state live. */
  lemma EnrolledPush(slots: seq<Item>, items: map<State, Item>, live: set<State>, item: Item, slots': seq<Item>)
    requires Enrolled(slots, items, live) && item.square.state !in items
    requires multiset(slots') == multiset(slots) + multiset{item}
    ensures Enrolled(slots', items[item.square.state := item], live + {item.square.state})
  {
    var items', live' := items[item.square.state := item], live + {item.square.state};
    forall i | 0 <= i < |slots'|
      ensures slots'[i].square.state in live'
      ensures slots'[i].square.state in items' && items'[slots'[i].square.state] == slots'[i]
    {
      assert slots'[i] in multiset(slots');
      if slots'[i] != item {
        assert slots'[i] in multiset(slots);
        var j :| 0 <= j < |slots| && slots[j] == slots'[i];
      }
    }
    forall k | k in live' ensures k in items' && items'[k] in slots' {
      assert items'[k] in multiset(slots');
    }
  }

  /** Every state with an item in `items0` keeps that item in `items`: none is dropped or replaced. */
  ghost predicate Extends(items0: map<State, Item>, items: map<State, Item>) {
    forall k :: k in items0 ==> k in items && items[k] == items0[k]
  }

  /** Two maps that each keep the items of the one before keep those of the first. */
  lemma ExtendsTrans(items0: map<State, Item>, items1: map<State, Item>, items: map<State, Item>)
    requires Extends(items0, items1) && Extends(items1, items)
    ensures Extends(items0, items)
  {
  }

  /** Giving a state without an item its item keeps every other state's item. */
  lemma ItemsGrown(items: map<State, Item>, k: State, items': map<State, Item>)
    requires k !in items && k in items' && items' == items[k := items'[k]]
    ensures Extends(items, items')
  {
  }

  /** Adding one item to the slots brings in no other. */
  lemma Grown(slots: seq<Item>, item: Item, slots': seq<Item>)
    requires multiset(slots') == multiset(slots) + multiset{item}
    ensures forall x :: x in slots' ==> x in slots || x == item
  {
    forall x | x in slots' ensures x in slots || x == item {
      assert x in multiset(slots');
    }
  }

  /** Reordering the slots changes nothing about which states are live. */
  lemma EnrolledSame(slots: seq<Item>, items: map<State, Item>, live: set<State>, slots': seq<Item>)
    requires Enrolled(slots, items, live) && multiset(slots') == multiset(slots)
    ensures Enrolled(slots', items, live)
  {
    forall i | 0 <= i < |slots'| ensures slots'[i] in slots {
      assert slots'[i] in multiset(slots');
    }
    forall k | k in live ensures items[k] in slots' {
      assert items[k] in multiset(slots);
    }
  }

  /** Removing the one slot of an item makes its state no longer live. */
  lemma EnrolledRemove(slots: seq<Item>, items: map<State, Item>, live: set<State>, x: Item, slots': seq<Item>)
    requires Enrolled(slots, items, live) && multiset(slots)[x] == 1
    requires multiset(slots') + multiset{x} == multiset(slots)
    ensures x.square.state in live && items[x.square.state] == x
    ensures Enrolled(slots', items, live - {x.square.state})
  {
    assert x in multiset(slots);
    var j :| 0 <= j < |slots| && slots[j] == x;
    assert x !in multiset(slots');
    assert multiset(slots')[x] == 0;
    forall i | 0 <= i < |slots'| ensures slots'[i] in slots && slots'[i] != x {
      assert slots'[i] in multiset(slots');
      assert slots'[i] in multiset(slots);
    }
    forall k | k in live && k != x.square.state ensures items[k] in slots' {
      assert items[k] in multiset(slots);
    }
  }

  /** No item of a state that is not live fills a slot. */
  lemma Outside(slots: seq<Item>, items: map<State, Item>, live: set<State>, x: State)
    requires Enrolled(slots, items, live) && x in items && x !in live
    ensures items[x] !in slots
  {
    forall i | 0 <= i < |slots| ensures slots[i] != items[x] {
      assert slots[i].square.state in live;
    }
  }

  /** The queue is empty exactly when no state is live. */
  lemma LiveEmpty(slots: seq<Item>, items: map<State, Item>, live: set<State>)
    requires Enrolled(slots, items, live)
    ensures |slots| == 0 <==> live == {}
  {
    if |slots| > 0 {
      assert slots[0].square.state in live;
    }
  }

  /** A valid queue whose one slot holds the item of k, of the given priority, agrees with the map holding that item alone. */
  lemma Single(q: PriorityQueue, items: map<State, Item>, k: State, priority: int)
    requires q.Valid() && k in items && items == map[k := items[k]] && q.slots == [items[k]]
    requires items[k].square.state == k && items[k].priority == priority
    ensures Registered(q, items, {k}, map[k := priority])
  {
    assert items[k] in q.slots;
  }

  /**
   * The start of a search: a new item of the given priority for the initial square `sq`
   * (NewMysticSquareItem), the items map holding it alone, and a new queue with that item
   * pushed onto it (q.Push) and heap order established (heap.Init).
   */
  method Open(sq: MysticSquare3, priority: int) returns (q: PriorityQueue, items: map<State, Item>)
    ensures sq.state in items && items == map[sq.state := items[sq.state]] && items[sq.state].square == sq
    ensures fresh(q) && q.slots == [items[sq.state]] && q.history == [sq.state]
    ensures fresh(items[sq.state]) && (forall k :: k in items ==> fresh(items[k])) && forall x :: x in q.slots ==> fresh(x)
    ensures Registered(q, items, {sq.state}, map[sq.state := priority])
  {
    var item := new Item(sq, priority);
    items := map[sq.state := item];
    q := Holding(item);
    forall k | k in items ensures fresh(items[k]) {
      assert k == sq.state;
    }
    forall x | x in q.slots ensures fresh(x) {
      assert x == item;
    }
    Single(q, items, sq.state, priority);
  }

  /** A new queue with `item` pushed onto it (q.Push) and heap order established (heap.Init). */
  method Holding(item: Item) returns (q: PriorityQueue)
    modifies item`index
    ensures fresh(q) && q.Valid() && q.slots == [item] && q.history == [item.square.state]
    ensures item.priority == old(item.priority)
  {
    q := new PriorityQueue();
    q.Push(item);
    q.HeapInit();
  }

  /**
   * Gives the state of `sq`, which has no item yet, a fresh item of the given priority and
   * pushes it onto the queue (NewMysticSquareItem, the itemsMap entry and heap.Push).
   */
  method Admit(q: PriorityQueue, items: map<State, Item>, ghost live: set<State>, ghost prio: map<State, int>,
               sq: MysticSquare3, priority: int)
    returns (items': map<State, Item>)
    requires Registered(q, items, live, prio) && sq.state !in items
    modifies q, q.slots
    ensures sq.state in items' && fresh(items'[sq.state]) && items'[sq.state].square == sq
    ensures items' == items[sq.state := items'[sq.state]] && |q.slots| == old(|q.slots|) + 1
    ensures Registered(q, items', live + {sq.state}, prio[sq.state := priority])
    ensures q.history == old(q.history) + [sq.state]
    ensures forall x :: x in q.slots ==> x in old(q.slots) || fresh(x)
  {
    var item := new Item(sq, priority);
    items' := items[sq.state := item];
    ghost var before := q.slots;
    q.HeapPush(item);
    EnrolledPush(before, items, live, item, q.slots);
    Grown(before, item, q.slots);
  }

  /**
   * Update on the item of state k: re-prioritises it if it is live; a popped item, whose
   * index is -1, is left as it is.
   */
  method Reprioritise(q: PriorityQueue, items: map<State, Item>, ghost live: set<State>, ghost prio: map<State, int>,
                      k: State, priority: int)
    requires Registered(q, items, live, prio) && k in items
    modifies q, q.slots, items[k]
    ensures Registered(q, items, live, prio[k := priority]) && |q.slots| == old(|q.slots|)
    ensures q.history == old(q.history)
  {
    var item := items[k];
    if item.index >= 0 {
      ReprioritiseLive(q, items, live, prio, k, priority);
    } else {
      // Update's own test on the index fails: nothing changes.
      forall i | 0 <= i < |q.slots| ensures q.slots[i].square.state != k {
        assert q.slots[i].index == i;
      }
    }
  }

  /** Update on the item of a live state k: its slot is fixed for the new priority. */
  method ReprioritiseLive(q: PriorityQueue, items: map<State, Item>, ghost live: set<State>, ghost prio: map<State, int>,
                          k: State, priority: int)
    requires Registered(q, items, live, prio) && k in items && items[k].index >= 0
    modifies q, q.slots, items[k]
    ensures Registered(q, items, live, prio[k := priority]) && |q.slots| == old(|q.slots|)
    ensures q.history == old(q.history)
  {
    var item := items[k];
    ghost var before := q.slots;
    assert k in live;
    LiveIndex(q, items, live, prio, k);
    q.Update(item, priority);
    forall x | x in items && x !in live ensures items[x].index == -1 {
      Outside(before, items, live, x);
    }
    EnrolledSame(before, items, live, q.slots);
    ghost var prio' := prio[k := priority];
    forall i | 0 <= i < |q.slots| ensures q.slots[i].square.state in prio' && q.slots[i].priority == prio'[q.slots[i].square.state] {
      var x := q.slots[i];
      assert x in multiset(q.slots);
      var j :| 0 <= j < |before| && before[j] == x;
      if x.square.state == k {
        assert x == item;
      } else {
        assert x != item && x.priority == old(x.priority);
      }
    }
  }

  /**
   * Process on the queue: when some state is live, pops the item of least priority, whose
   * state is then no longer live (`live'`).
   */
  method PopLeast(q: PriorityQueue, items: map<State, Item>, ghost live: set<State>, ghost prio: map<State, int>)
    returns (current: Item?, itemExists: bool, ghost live': set<State>)
    requires Registered(q, items, live, prio)
    modifies q, q.slots
    ensures itemExists <==> live != {}
    ensures old(|q.slots|) == |q.slots| + if itemExists then 1 else 0
    ensures Registered(q, items, live', prio) && q.history == old(q.history)
    ensures !itemExists ==> current == null && live' == live
    ensures itemExists ==>
      && current != null && current.square.state in live && items[current.square.state] == current
      && live' == live - {current.square.state}
      && forall k :: k in live ==> prio[current.square.state] <= prio[k]
  {
    LiveEmpty(q.slots, items, live);
    ghost var before := q.slots;
    if |q.slots| > 0 {
      OnceInSlots(q, q.slots[0]);
    }
    current, itemExists := q.Process();
    live' := live;
    if itemExists {
      live' := live - {current.square.state};
      EnrolledRemove(before, items, live, current, q.slots);
      forall x | x in items && x !in live' ensures items[x].index == -1 {
        assert items[x] !in before || items[x] == current by {
          if items[x] in before {
            var j :| 0 <= j < |before| && before[j] == items[x];
          }
        }
      }
      forall x | x in live ensures prio[current.square.state] <= prio[x] {
        if x != current.square.state {
          assert items[x] in q.slots;
        }
      }
    }
  }
}
