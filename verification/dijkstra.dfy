/**
 * Dijkstra's algorithm over squares: a priority queue ordered by distance from the initial
 * state, every state given an item when it is first seen, and a shorter way to a state
 * recorded, with the item's priority lowered, wherever one is found. There is no visited
 * set: a popped state may be relaxed again, its item then being left as it is.
 */
module Dijkstra {
  import opened Wrappers
  import opened Square
  import opened SquareObject
  import opened Search
  import opened PriorityQueue
  import opened Registry
  import opened Relaxation

  /**
   * What the first step of a turn of the neighbour loop does to the maps: a state seen for
   * the first time gets distance MaxInt, a new item holding `value`, a log entry and a
   * place among the live states; a state with a distance changes nothing.
   */
  ghost predicate Discovered(value: MysticSquare3, dist0: map<State, int>, items0: map<State, Item>,
                             pushed0: seq<State>, live0: set<State>,
                             dist: map<State, int>, items: map<State, Item>, pushed: seq<State>, live: set<State>)
  {
    if value.state !in dist0 then
      && dist == dist0[value.state := MaxInt] && live == live0 + {value.state} && pushed == pushed0 + [value.state]
      && value.state in items && items == items0[value.state := items[value.state]] && items[value.state].square == value
    else
      dist == dist0 && items == items0 && live == live0 && pushed == pushed0
  }

  /**
   * The first step of a turn of the neighbour loop of dijkstrasAlgorithm: a square `value`
   * seen for the first time gets distance MaxInt and an item of that priority in the queue.
   */
  method Discover(q: PriorityQueue, value: MysticSquare3, dist0: map<State, int>, items0: map<State, Item>,
                  ghost pushed0: seq<State>, ghost live0: set<State>)
    returns (dist: map<State, int>, items: map<State, Item>, ghost pushed: seq<State>, ghost live: set<State>)
    requires Registered(q, items0, live0, dist0) && forall k :: k in items0 <==> k in dist0
    requires q.history == pushed0
    modifies q, q.slots
    ensures Registered(q, items, live, dist) && q.history == pushed
    ensures Discovered(value, dist0, items0, pushed0, live0, dist, items, pushed, live)
    ensures |q.slots| == old(|q.slots|) + if value.state in dist0 then 0 else 1
    ensures value.state !in dist0 ==> fresh(items[value.state])
    ensures Extends(items0, items)
    ensures forall x :: x in q.slots ==> x in old(q.slots) || fresh(x)
  {
    dist, items, pushed, live := dist0, items0, pushed0, live0;
    var valueState := value.state;
    if valueState !in dist {
      dist := dist[valueState := MaxInt];
      items := Admit(q, items, live, dist0, value, dist[valueState]);
      ItemsGrown(items0, valueState, items);
      live := live + {valueState};
      pushed := pushed + [valueState];
    }
  }

  /**
   * The second step: if going through `cur` is shorter, the square of state s gets `cur` as
   * predecessor, the shorter distance and that priority (q.Update). `shorter` tells whether
   * it was.
   */
  method Shorten(q: PriorityQueue, cur: MysticSquare3, s: State,
                 paths0: Paths, dist0: map<State, int>, items: map<State, Item>, ghost live: set<State>)
    returns (paths: Paths, dist: map<State, int>, ghost shorter: bool)
    requires Registered(q, items, live, dist0) && s in dist0 && s in items && cur.state in dist0
    modifies q, q.slots, items[s]
    ensures shorter <==> dist0[cur.state] + 1 < dist0[s]
    ensures shorter ==> paths == paths0[s := Some(cur)] && Reranked(dist0, s, dist0[cur.state] + 1, dist)
    ensures !shorter ==> paths == paths0 && dist == dist0
    ensures Registered(q, items, live, dist) && |q.slots| == old(|q.slots|)
    ensures q.history == old(q.history)
  {
    paths, dist := paths0, dist0;
    var currentDistanceForValue := dist[s];
    var altDistance := dist[cur.state] + 1;
    shorter := altDistance < currentDistanceForValue;
    if altDistance < currentDistanceForValue {
      paths := paths[s := Some(cur)];
      dist := dist[s := altDistance];
      Reprioritise(q, items, live, dist0, s, altDistance);
    }
  }

  /**
   * What the two steps of a turn of the neighbour loop of either search do to the maps, put
   * together: the Outcome of the turn, with the items map still matching the predecessor
   * map. A state seen for the first time always takes the way through `cur`.
   */
  lemma Composed(cur: MysticSquare3, value: MysticSquare3,
                 paths0: Paths, dist0: map<State, int>, items0: map<State, Item>, pushed0: seq<State>, live0: set<State>,
                 dist1: map<State, int>, items: map<State, Item>, pushed: seq<State>, live: set<State>,
                 shorter: bool, paths: Paths, dist: map<State, int>)
    requires Catalogued(items0, paths0) && (forall k :: k in dist0 <==> k in paths0)
    requires cur.state in paths0 && dist0[cur.state] + 1 < MaxInt && Made(value)
    requires Discovered(value, dist0, items0, pushed0, live0, dist1, items, pushed, live)
    requires value.state in dist1 && cur.state in dist1
    requires shorter ==> dist1[cur.state] + 1 < dist1[value.state]
    requires value.state !in dist0 ==> shorter
    requires shorter ==> paths == paths0[value.state := Some(cur)] && Reranked(dist1, value.state, dist1[cur.state] + 1, dist)
    requires !shorter ==> paths == paths0 && dist == dist1
    ensures Outcome(paths0, dist0, pushed0, live0, cur, value.state, shorter, paths, dist, pushed, live)
    ensures Catalogued(items, paths)
  {
    var s := value.state;
    if s !in paths0 {
      assert dist1[cur.state] == dist0[cur.state];
      RerankedTwice(dist0, s, MaxInt, dist0[cur.state] + 1, dist1, dist);
      CatalogueAdd(items0, paths0, s, items[s], Some(cur), items, paths);
    } else if shorter {
      assert dist1 == dist0;
      assert Reranked(dist0, s, dist0[cur.state] + 1, dist);
      CatalogueSet(items0, paths0, s, Some(cur), paths);
    } else {
      assert dist == dist0;
    }
  }

  /**
   * One turn of the neighbour loop of dijkstrasAlgorithm for the adjacent square `value`:
   * Discover, then Shorten.
   */
  method Relax(q: PriorityQueue, cur: MysticSquare3, value: MysticSquare3,
               paths0: Paths, dist0: map<State, int>, items0: map<State, Item>,
               ghost pushed0: seq<State>, ghost live0: set<State>)
    returns (paths: Paths, dist: map<State, int>, items: map<State, Item>,
             ghost pushed: seq<State>, ghost live: set<State>, ghost shorter: bool)
    requires Registered(q, items0, live0, dist0) && Catalogued(items0, paths0)
    requires forall k :: k in dist0 <==> k in paths0
    requires cur.state in paths0 && dist0[cur.state] + 1 < MaxInt && Made(value)
    requires q.history == pushed0
    modifies q, q.slots, items0.Values
    ensures Outcome(paths0, dist0, pushed0, live0, cur, value.state, shorter, paths, dist, pushed, live)
    ensures Registered(q, items, live, dist) && Catalogued(items, paths) && q.history == pushed
    ensures |q.slots| - old(|q.slots|) == if value.state in paths0 then 0 else 1
    ensures Extends(items0, items)
    ensures forall k :: k in items && k !in items0 ==> fresh(items[k])
  {
    var dist1;
    dist1, items, pushed, live := Discover(q, value, dist0, items0, pushed0, live0);
    if value.state in items0 {
      assert items[value.state] in items0.Values;
    }
    paths, dist, shorter := Shorten(q, cur, value.state, paths0, dist1, items, live);
    Composed(cur, value, paths0, dist0, items0, pushed0, live0, dist1, items, pushed, live, shorter, paths, dist);
  }

  /**
   * Relax for the adjacent square `adjacent[j]`, with what it keeps of the invariant of
   * the neighbour loop.
   */
  method RelaxNext(q: PriorityQueue, cur: MysticSquare3, adjacent: seq<MysticSquare3>, j: int,
                   paths0: Paths, dist0: map<State, int>, items0: map<State, Item>,
                   ghost pushed0: seq<State>, ghost live0: set<State>,
                   ghost expanded: set<State>, ghost root: State, ghost target: State)
    returns (paths: Paths, dist: map<State, int>, items: map<State, Item>,
             ghost pushed: seq<State>, ghost live: set<State>)
    requires Progress(paths0, dist0, pushed0, live0 + {cur.state}, expanded, root, target)
    requires Legal(paths0, root) && Valid(root)
    requires Registered(q, items0, live0, dist0) && Catalogued(items0, paths0)
    requires cur.state in paths0 && Made(cur) && Successors(cur, adjacent)
    requires 0 <= j < |adjacent| && Handled(adjacent, j, paths0)
    requires q.history == pushed0
    modifies q, q.slots, items0.Values
    ensures Progress(paths, dist, pushed, live + {cur.state}, expanded, root, target) && Legal(paths, root)
    ensures Registered(q, items, live, dist) && Catalogued(items, paths) && q.history == pushed
    ensures Handled(adjacent, j + 1, paths)
    ensures |q.slots| - old(|q.slots|) == |paths| - |paths0| >= 0
    ensures Framed(paths0, dist0, cur, paths, dist)
    ensures Extends(items0, items)
    ensures forall k :: k in items && k !in items0 ==> fresh(items[k])
  {
    DistanceBelow(paths0, dist0, pushed0, root, cur.state);
    ghost var shorter;
    paths, dist, items, pushed, live, shorter := Relax(q, cur, adjacent[j], paths0, dist0, items0, pushed0, live0);
    Turn(paths0, dist0, pushed0, live0, expanded, root, target, cur, adjacent, j, shorter, paths, dist, pushed, live);
    FramedTurn(paths0, dist0, pushed0, live0, cur, adjacent[j].state, shorter, paths, dist, pushed, live);
  }

  /**
   * The neighbour loop of dijkstrasAlgorithm while `cur` is expanded: Relax for each
   * adjacent square in turn. Afterwards every adjacent square has an entry, the maps still
   * satisfy the invariant, and the queue has grown by one slot per new entry.
   */
  method RelaxAll(q: PriorityQueue, cur: MysticSquare3, adjacent: seq<MysticSquare3>,
                  paths0: Paths, dist0: map<State, int>, items0: map<State, Item>,
                  ghost pushed0: seq<State>, ghost live0: set<State>,
                  ghost expanded: set<State>, ghost root: State, ghost target: State)
    returns (paths: Paths, dist: map<State, int>, items: map<State, Item>,
             ghost pushed: seq<State>, ghost live: set<State>)
    requires Progress(paths0, dist0, pushed0, live0 + {cur.state}, expanded, root, target)
    requires Legal(paths0, root) && Valid(root)
    requires Registered(q, items0, live0, dist0) && Catalogued(items0, paths0)
    requires cur.state in paths0 && Made(cur) && Successors(cur, adjacent)
    requires q.history == pushed0
    modifies q, q.slots, items0.Values
    ensures Progress(paths, dist, pushed, live + {cur.state}, expanded, root, target) && Legal(paths, root)
    ensures Registered(q, items, live, dist) && Catalogued(items, paths) && q.history == pushed
    ensures Handled(adjacent, |adjacent|, paths)
    ensures |q.slots| - old(|q.slots|) == |paths| - |paths0| >= 0
    ensures Framed(paths0, dist0, cur, paths, dist)
    ensures Extends(items0, items)
    ensures forall k :: k in items && k !in items0 ==> fresh(items[k])
  {
    paths, dist, items, pushed, live := paths0, dist0, items0, pushed0, live0;
    var j := 0;
    while j < |adjacent|
      invariant 0 <= j <= |adjacent|
      invariant Progress(paths, dist, pushed, live + {cur.state}, expanded, root, target) && Legal(paths, root)
      invariant Registered(q, items, live, dist) && Catalogued(items, paths) && q.history == pushed
      invariant Handled(adjacent, j, paths)
      invariant |q.slots| - old(|q.slots|) == |paths| - |paths0| >= 0
      invariant Framed(paths0, dist0, cur, paths, dist)
      invariant Extends(items0, items)
      invariant forall k :: k in items && k !in items0 ==> fresh(items[k])
    {
      ghost var paths1, dist1, items1 := paths, dist, items;
      paths, dist, items, pushed, live := RelaxNext(q, cur, adjacent, j, paths, dist, items, pushed, live, expanded, root, target);
      FramedTrans(paths0, dist0, cur, paths1, dist1, paths, dist);
      ExtendsTrans(items0, items1, items);
      forall k | k in items && k !in items0 ensures fresh(items[k]) {
        if k in items1 {
          assert fresh(items1[k]);
        }
      }
      j := j + 1;
    }
  }

  /**
   * The neighbour loop of dijkstrasAlgorithm for the popped square `cur`, which is not the
   * target, after which `cur` counts as expanded.
   */
  method ExpandSquare(q: PriorityQueue, cur: MysticSquare3,
                paths0: Paths, dist0: map<State, int>, items0: map<State, Item>,
                ghost pushed0: seq<State>, ghost live0: set<State>, ghost expanded0: set<State>,
                ghost root: State, ghost target: State)
    returns (paths: Paths, dist: map<State, int>, items: map<State, Item>,
             ghost pushed: seq<State>, ghost live: set<State>)
    requires Progress(paths0, dist0, pushed0, live0 + {cur.state}, expanded0, root, target)
    requires Legal(paths0, root) && Valid(root)
    requires Registered(q, items0, live0, dist0) && Catalogued(items0, paths0)
    requires cur.state in paths0 && Made(cur) && cur.state != target
    requires q.history == pushed0
    modifies q, q.slots, items0.Values
    ensures Progress(paths, dist, pushed, live, expanded0 + {cur.state}, root, target)
    ensures Registered(q, items, live, dist) && Catalogued(items, paths) && Legal(paths, root)
    ensures q.history == pushed && |paths| <= StateBound
    ensures |q.slots| == old(|q.slots|) + |paths| - |paths0|
    ensures |paths0| <= |paths|
    ensures Framed(paths0, dist0, cur, paths, dist)
    ensures Extends(items0, items)
    ensures forall k :: k in items && k !in items0 ==> fresh(items[k])
  {
    var adjacent := Adjacent(cur);
    AdjacentSteps(cur);
    paths, dist, items, pushed, live := RelaxAll(q, cur, adjacent, paths0, dist0, items0, pushed0, live0, expanded0, root, target);
    ExpandState(paths, dist, pushed, live, expanded0, root, target, cur);
    TreeValid(paths, dist, root);
    StatesBound(paths.Keys);
  }

  /**
   * Pops the next item of the main loop of either search (q.Process), whose state is then the
   * one being expanded: one of least priority among the pending states.
   */
  method Next(q: PriorityQueue, paths: Paths, dist: map<State, int>, ghost prio: map<State, int>,
              items: map<State, Item>, ghost pushed: seq<State>, ghost live0: set<State>,
              ghost expanded: set<State>, ghost root: State, ghost target: State)
    returns (current: Item?, itemExists: bool, ghost live: set<State>)
    requires Progress(paths, dist, pushed, live0, expanded, root, target)
    requires Registered(q, items, live0, prio) && Catalogued(items, paths)
    modifies q, q.slots
    ensures Registered(q, items, live, prio) && (itemExists <==> live0 != {}) && q.history == old(q.history)
    ensures itemExists ==> current != null && current.square.state in paths && Made(current.square)
    ensures itemExists ==> current.square.state in live0 && live == live0 - {current.square.state}
    ensures itemExists ==> forall k :: k in live0 ==> k in prio && current.square.state in prio && prio[current.square.state] <= prio[k]
    ensures itemExists ==> Progress(paths, dist, pushed, live + {current.square.state}, expanded, root, target)
    ensures !itemExists ==> live == {} && Progress(paths, dist, pushed, {}, expanded, root, target)
    ensures old(|q.slots|) == |q.slots| + if itemExists then 1 else 0
  {
    current, itemExists, live := PopLeast(q, items, live0, prio);
    if itemExists {
      Popped(paths, dist, pushed, live0, expanded, root, target, current.square.state, live);
    }
  }

  /**
   * The rest of an iteration of dijkstrasAlgorithm's main loop once the popped square `cur`
   * is known not to be the target: ExpandSquare, then Next. Either the predecessor map grows, or
   * it stays as it is and the queue shrinks.
   */
  method Step(q: PriorityQueue, cur: MysticSquare3,
              paths0: Paths, dist0: map<State, int>, items0: map<State, Item>,
              ghost pushed0: seq<State>, ghost live0: set<State>, ghost expanded0: set<State>,
              ghost root: State, ghost target: State)
    returns (paths: Paths, dist: map<State, int>, items: map<State, Item>,
             ghost pushed: seq<State>, ghost live: set<State>, ghost expanded: set<State>,
             current: Item?, itemExists: bool)
    requires Progress(paths0, dist0, pushed0, live0 + {cur.state}, expanded0, root, target)
    requires Legal(paths0, root) && Valid(root)
    requires Registered(q, items0, live0, dist0) && Catalogued(items0, paths0)
    requires cur.state in paths0 && Made(cur) && cur.state != target
    requires q.history == pushed0
    modifies q, q.slots, items0.Values
    ensures Registered(q, items, live, dist) && Catalogued(items, paths) && Legal(paths, root)
    ensures q.history == pushed && |paths| <= StateBound
    ensures expanded == expanded0 + {cur.state}
    ensures itemExists ==> current != null && current.square.state in paths && Made(current.square)
    ensures itemExists ==> Progress(paths, dist, pushed, live + {current.square.state}, expanded, root, target)
    ensures itemExists ==> current.square.state !in live
    ensures itemExists ==> forall k :: k in live ==>
      k in dist && current.square.state in dist && dist[current.square.state] <= dist[k]
    ensures !itemExists ==> live == {} && Progress(paths, dist, pushed, {}, expanded, root, target)
    ensures |q.slots| + (if itemExists then 1 else 0) == old(|q.slots|) + |paths| - |paths0|
    ensures |paths0| <= |paths|
    ensures Framed(paths0, dist0, cur, paths, dist)
    ensures Extends(items0, items)
    ensures forall k :: k in items && k !in items0 ==> fresh(items[k])
  {
    paths, dist, items, pushed, live := ExpandSquare(q, cur, paths0, dist0, items0, pushed0, live0, expanded0, root, target);
    expanded := expanded0 + {cur.state};
    current, itemExists, live := Next(q, paths, dist, dist, items, pushed, live, expanded, root, target);
  }

  /**
   * The start of dijkstrasAlgorithm: the initial state at distance 0 with no predecessor,
   * its new item in the items map and a new queue holding that item (q.Push, heap.Init).
   */
  method Seed(initial: MysticSquare3, ghost target: State)
    returns (q: PriorityQueue, paths: Paths, dist: map<State, int>, items: map<State, Item>, ghost pushed: seq<State>)
    requires Made(initial)
    ensures fresh(q) && (forall k :: k in items ==> fresh(items[k])) && forall x :: x in q.slots ==> fresh(x)
    ensures Registered(q, items, {initial.state}, dist) && Catalogued(items, paths)
    ensures paths == map[initial.state := None] && q.history == pushed
    ensures Progress(paths, dist, pushed, {initial.state}, {}, initial.state, target)
  {
    var root := initial.state;
    paths := map[root := None];
    dist := map[root := 0];
    pushed := [root];
    Start(root, target);
    q, items := Open(initial, 0);
    CatalogueOne(initial, items[root]);
  }

  /** The start of dijkstrasAlgorithm, then the first pop: the initial state's item. */
  method Begin(initial: MysticSquare3, ghost target: State)
    returns (q: PriorityQueue, paths: Paths, dist: map<State, int>, items: map<State, Item>,
             ghost pushed: seq<State>, ghost live: set<State>, current: Item?, itemExists: bool)
    requires Made(initial)
    ensures fresh(q) && forall k :: k in items ==> fresh(items[k])
    ensures Registered(q, items, live, dist) && Catalogued(items, paths)
    ensures paths == map[initial.state := None] && q.history == pushed
    ensures itemExists && current != null && current.square.state in paths && Made(current.square)
    ensures Progress(paths, dist, pushed, live + {current.square.state}, {}, initial.state, target)
  {
    q, paths, dist, items, pushed := Seed(initial, target);
    current, itemExists, live := Next(q, paths, dist, dist, items, pushed, {initial.state}, {}, initial.state, target);
  }

  /**
   * dijkstrasAlgorithm: explores from `initial`, always expanding a pending state of least
   * distance, until a square with the target's key is popped. When it is, `paths` is a
   * predecessor tree rooted at the initial state (ranked by the distances) that holds the
   * target; when the queue runs dry, the target cannot be reached. `frontier` is the queue
   * the search used: its history lists the states of the items pushed, the root first, and
   * none twice; they are exactly the states with an entry in `paths`.
   */
  method DijkstrasAlgorithm(initial: MysticSquare3, target: MysticSquare3)
    returns (paths: Paths, pathFound: bool, dist: map<State, int>, ghost frontier: PriorityQueue)
    requires Made(initial) && Made(target)
    ensures pathFound ==> Tree(paths, dist, initial.state) && target.state in paths
    ensures !pathFound ==> !Reachable(initial.state, target.state)
    ensures Log(paths, frontier.history, initial.state)
  {
    var root := initial.state;
    var q, items, current, itemExists;
    ghost var live, pushed;
    q, paths, dist, items, pushed, live, current, itemExists := Begin(initial, target.state);
    RootLegal(root);
    ghost var expanded: set<State> := {};
    pathFound := false;
    while itemExists
      invariant fresh(q) && forall k :: k in items ==> fresh(items[k])
      invariant Registered(q, items, live, dist) && Catalogued(items, paths) && q.history == pushed
      invariant Legal(paths, root) && Valid(root) && |paths| <= StateBound
      invariant itemExists ==> current != null && current.square.state in paths && Made(current.square)
      invariant itemExists ==> Progress(paths, dist, pushed, live + {current.square.state}, expanded, root, target.state)
      invariant !itemExists ==> live == {} && Progress(paths, dist, pushed, {}, expanded, root, target.state)
      invariant !pathFound
      decreases StateBound - |paths|, |q.slots| + if itemExists then 1 else 0
    {
      var cur := current.square;
      KeyIdentifies(cur, target);
      pathFound := cur.Key() == target.Key();
      if pathFound {
        break;
      }
      ghost var before := items;
      paths, dist, items, pushed, live, expanded, current, itemExists :=
        Step(q, cur, paths, dist, items, pushed, live, expanded, root, target.state);
      forall k | k in items ensures fresh(items[k]) {
        if k in before {
          assert fresh(before[k]);
        }
      }
    }
    if !pathFound {
      Drained(paths, dist, pushed, expanded, root, target.state);
    }
    frontier := q;
  }
}
