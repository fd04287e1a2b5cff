/**
 * A* over squares: Dijkstra's scheme with each item prioritised by f = g + h, the distance
 * so far plus the heuristic's estimate, summed without going past MaxInt, and with a
 * visited set: an expanded state is never given a shorter way again.
 */
module AStar {
  import opened Wrappers
  import opened Square
  import opened SquareObject
  import opened Search
  import opened PriorityQueue
  import opened Registry
  import opened Relaxation
  import opened Dijkstra

  /** math.MinInt of a 64-bit Go int. */
  const MinInt: int := -0x8000_0000_0000_0000

  /** A Go int: a value of 64 bits. */
  predicate GoInt(x: int) {
    MinInt <= x <= MaxInt
  }

  /** The smaller of two integers. */
  function Min(a: int, b: int): int {
    if a <= b then a else b
  }

  /**
   * detectOverflow: whether a + b would pass MaxInt. For an `a` that is a Go int it reports
   * exactly the sums above MaxInt; a negative `b` is never reported.
   */
  function DetectOverflow(a: int, b: int): (overflow: bool)
    ensures a <= MaxInt ==> (overflow <==> a + b > MaxInt)
    ensures b <= 0 ==> !overflow
  {
    b > 0 && a > MaxInt - b
  }

  /**
   * f on the values of g and h: their sum, or MaxInt where detectOverflow reports that the
   * sum would pass it. So f is the sum cut off at MaxInt, and on Go ints with g not
   * negative it stays a Go int: it never wraps around.
   */
  function F(g: int, h: int): (r: int)
    ensures g <= MaxInt ==> r == Min(g + h, MaxInt)
    ensures r == g + h || r == MaxInt
    ensures 0 <= g && GoInt(g) && GoInt(h) ==> GoInt(r)
  {
    if DetectOverflow(g, h) then MaxInt else g + h
  }

  /** g: the distance recorded for the square's state, Go's zero value 0 without an entry. */
  function G(dist: map<State, int>, sq: MysticSquare3): int {
    if sq.state in dist then dist[sq.state] else 0
  }

  /** f for the square `sq` under the distances `dist` and the heuristic `h`. */
  function Priority(dist: map<State, int>, h: MysticSquare3 -> int, sq: MysticSquare3): int {
    F(G(dist, sq), h(sq))
  }

  /** The square NewMysticSquare builds for the state k. */
  function SquareOf(k: State): MysticSquare3 {
    MysticSquare3(k, StateString(k))
  }

  /**
   * Every state with a distance has, in `prio`, the f its distance and its square's
   * heuristic value give: the priority its item was last given.
   */
  ghost predicate Scored(dist: map<State, int>, prio: map<State, int>, h: MysticSquare3 -> int) {
    forall k :: k in dist ==> k in prio && prio[k] == F(dist[k], h(SquareOf(k)))
  }

  /** Giving state k the distance d and the priority f of d keeps every state scored. */
  lemma ScoredSet(dist: map<State, int>, prio: map<State, int>, h: MysticSquare3 -> int,
                  k: State, d: int, dist': map<State, int>, prio': map<State, int>)
    requires Scored(dist, prio, h)
    requires dist' == dist[k := d] && prio' == prio[k := F(d, h(SquareOf(k)))]
    ensures Scored(dist', prio', h)
  {
  }

  /**
   * Giving the state of `value` the distance d and the priority f computed with it keeps
   * every state scored; the distance map is reranked at that state.
   */
  lemma Rescored(dist0: map<State, int>, prio0: map<State, int>, h: MysticSquare3 -> int, value: MysticSquare3, d: int,
                 dist: map<State, int>, prio: map<State, int>)
    requires Scored(dist0, prio0, h) && Made(value)
    requires dist == dist0[value.state := d] && prio == prio0[value.state := Priority(dist, h, value)]
    ensures Scored(dist, prio, h) && Reranked(dist0, value.state, d, dist)
  {
    assert value == SquareOf(value.state);
    ScoredSet(dist0, prio0, h, value.state, d, dist, prio);
  }

  /**
   * The first step of a turn of the neighbour loop of aStar: a square `value` seen for the
   * first time gets distance MaxInt and an item of priority f, computed with that distance.
   */
  method Discover(q: PriorityQueue, value: MysticSquare3, h: MysticSquare3 -> int,
                  dist0: map<State, int>, items0: map<State, Item>,
                  ghost prio0: map<State, int>, ghost pushed0: seq<State>, ghost live0: set<State>)
    returns (dist: map<State, int>, items: map<State, Item>,
             ghost prio: map<State, int>, ghost pushed: seq<State>, ghost live: set<State>)
    requires Registered(q, items0, live0, prio0) && Scored(dist0, prio0, h)
    requires (forall k :: k in items0 <==> k in dist0) && Made(value)
    requires q.history == pushed0
    modifies q, q.slots
    ensures Registered(q, items, live, prio) && Scored(dist, prio, h) && q.history == pushed
    ensures Discovered(value, dist0, items0, pushed0, live0, dist, items, pushed, live)
    ensures value.state in dist0 ==> prio == prio0
    ensures |q.slots| == old(|q.slots|) + if value.state in dist0 then 0 else 1
    ensures value.state !in dist0 ==> fresh(items[value.state])
    ensures Extends(items0, items)
    ensures forall x :: x in q.slots ==> x in old(q.slots) || fresh(x)
  {
    dist, items, prio, pushed, live := dist0, items0, prio0, pushed0, live0;
    var valueState := value.state;
    if valueState !in dist {
      dist := dist[valueState := MaxInt];
      var priority := Priority(dist, h, value);
      prio := prio[valueState := priority];
      Rescored(dist0, prio0, h, value, MaxInt, dist, prio);
      items := Admit(q, items, live, prio0, value, priority);
      ItemsGrown(items0, valueState, items);
      live := live + {valueState};
      pushed := pushed + [valueState];
    }
  }

  /**
   * The second step: if going through `cur` is shorter and the square of state s has not
   * been expanded, it gets `cur` as predecessor, the shorter distance and the priority f
   * computed with it (q.Update). `shorter` tells whether it did.
   */
  method Shorten(q: PriorityQueue, cur: MysticSquare3, value: MysticSquare3, h: MysticSquare3 -> int,
                 visited: set<State>, paths0: Paths, dist0: map<State, int>, items: map<State, Item>,
                 ghost prio0: map<State, int>, ghost live: set<State>)
    returns (paths: Paths, dist: map<State, int>, ghost prio: map<State, int>, ghost shorter: bool)
    requires Registered(q, items, live, prio0) && Scored(dist0, prio0, h)
    requires value.state in dist0 && value.state in items && Made(value)
    requires cur.state in dist0
    modifies q, q.slots, items[value.state]
    ensures shorter <==> dist0[cur.state] + 1 < dist0[value.state] && value.state !in visited
    ensures shorter ==> paths == paths0[value.state := Some(cur)] && Reranked(dist0, value.state, dist0[cur.state] + 1, dist)
    ensures !shorter ==> paths == paths0 && dist == dist0
    ensures Registered(q, items, live, prio) && Scored(dist, prio, h) && |q.slots| == old(|q.slots|)
    ensures q.history == old(q.history)
  {
    paths, dist, prio := paths0, dist0, prio0;
    var s := value.state;
    var tentativeDistance := dist[cur.state] + 1;
    var neighborDistance := dist[s];
    var neighborVisited := s in visited;
    shorter := tentativeDistance < neighborDistance && !neighborVisited;
    if tentativeDistance < neighborDistance && !neighborVisited {
      paths := paths[s := Some(cur)];
      dist := dist[s := tentativeDistance];
      var priority := Priority(dist, h, value);
      prio := prio[s := priority];
      Rescored(dist0, prio0, h, value, tentativeDistance, dist, prio);
      Reprioritise(q, items, live, prio0, s, priority);
    }
  }

  /**
   * Shorten once Discover has given the state of `value` a distance and an item, with what
   * the two steps together do to the maps: the Outcome of the turn.
   */
  method Settle(q: PriorityQueue, cur: MysticSquare3, value: MysticSquare3, h: MysticSquare3 -> int,
                visited: set<State>, paths0: Paths, dist0: map<State, int>, items0: map<State, Item>,
                ghost pushed0: seq<State>, ghost live0: set<State>,
                dist1: map<State, int>, items: map<State, Item>, ghost prio1: map<State, int>,
                ghost pushed: seq<State>, ghost live: set<State>)
    returns (paths: Paths, dist: map<State, int>, ghost prio: map<State, int>, ghost shorter: bool)
    requires Registered(q, items, live, prio1) && Scored(dist1, prio1, h)
    requires Catalogued(items0, paths0) && (forall k :: k in dist0 <==> k in paths0) && visited <= paths0.Keys
    requires cur.state in paths0 && dist0[cur.state] + 1 < MaxInt && Made(value)
    requires Discovered(value, dist0, items0, pushed0, live0, dist1, items, pushed, live)
    modifies q, q.slots, items[value.state]
    ensures Outcome(paths0, dist0, pushed0, live0, cur, value.state, shorter, paths, dist, pushed, live)
    ensures shorter <==> value.state !in visited && (value.state !in paths0 || dist0[cur.state] + 1 < dist0[value.state])
    ensures Registered(q, items, live, prio) && Catalogued(items, paths) && Scored(dist, prio, h)
    ensures |q.slots| == old(|q.slots|) && q.history == old(q.history)
  {
    paths, dist, prio, shorter := Shorten(q, cur, value, h, visited, paths0, dist1, items, prio1, live);
    Composed(cur, value, paths0, dist0, items0, pushed0, live0, dist1, items, pushed, live, shorter, paths, dist);
  }

  /** One turn of the neighbour loop of aStar for the adjacent square `value`: Discover, then Shorten. */
  method Relax(q: PriorityQueue, cur: MysticSquare3, value: MysticSquare3, h: MysticSquare3 -> int,
               visited: set<State>, paths0: Paths, dist0: map<State, int>, items0: map<State, Item>,
               ghost prio0: map<State, int>, ghost pushed0: seq<State>, ghost live0: set<State>)
    returns (paths: Paths, dist: map<State, int>, items: map<State, Item>,
             ghost prio: map<State, int>, ghost pushed: seq<State>, ghost live: set<State>, ghost shorter: bool)
    requires Registered(q, items0, live0, prio0) && Catalogued(items0, paths0) && Scored(dist0, prio0, h)
    requires forall k :: k in dist0 <==> k in paths0
    requires visited <= paths0.Keys
    requires cur.state in paths0 && dist0[cur.state] + 1 < MaxInt && Made(value)
    requires q.history == pushed0
    modifies q, q.slots, items0.Values
    ensures Outcome(paths0, dist0, pushed0, live0, cur, value.state, shorter, paths, dist, pushed, live)
    ensures shorter <==> value.state !in visited && (value.state !in paths0 || dist0[cur.state] + 1 < dist0[value.state])
    ensures Registered(q, items, live, prio) && Catalogued(items, paths) && Scored(dist, prio, h)
    ensures q.history == pushed
    ensures |q.slots| - old(|q.slots|) == if value.state in paths0 then 0 else 1
    ensures Extends(items0, items)
    ensures forall k :: k in items && k !in items0 ==> fresh(items[k])
  {
    var dist1;
    ghost var prio1;
    dist1, items, prio1, pushed, live := Discover(q, value, h, dist0, items0, prio0, pushed0, live0);
    if value.state in items0 {
      assert items[value.state] in items0.Values;
    }
    paths, dist, prio, shorter :=
      Settle(q, cur, value, h, visited, paths0, dist0, items0, pushed0, live0, dist1, items, prio1, pushed, live);
  }

  /** aStar's closed set: the entries of the visited states are kept as they were. */
  ghost predicate Closed(visited: set<State>, paths0: Paths, dist0: map<State, int>, paths: Paths, dist: map<State, int>) {
    forall k :: k in visited ==>
      k in paths0 && k in dist0 && k in paths && k in dist && paths[k] == paths0[k] && dist[k] == dist0[k]
  }

  /** A turn of the neighbour loop never changes the entry of a visited state. */
  lemma ClosedTurn(visited: set<State>, paths0: Paths, dist0: map<State, int>, pushed0: seq<State>, live0: set<State>,
                   cur: MysticSquare3, s: State, shorter: bool,
                   paths: Paths, dist: map<State, int>, pushed: seq<State>, live: set<State>)
    requires visited <= paths0.Keys && (forall k :: k in dist0 <==> k in paths0) && cur.state in dist0
    requires Outcome(paths0, dist0, pushed0, live0, cur, s, shorter, paths, dist, pushed, live)
    requires shorter ==> s !in visited
    ensures Closed(visited, paths0, dist0, paths, dist)
  {
    if s in paths0 && !shorter {
      assert paths == paths0 && dist == dist0;
    }
  }

  /** Two stretches that keep the visited entries make one that does. */
  lemma ClosedTrans(visited: set<State>, paths0: Paths, dist0: map<State, int>,
                    paths1: Paths, dist1: map<State, int>, paths: Paths, dist: map<State, int>)
    requires Closed(visited, paths0, dist0, paths1, dist1) && Closed(visited, paths1, dist1, paths, dist)
    ensures Closed(visited, paths0, dist0, paths, dist)
  {
  }

  /** Relax for the adjacent square `adjacent[j]`, with what it keeps of the invariant. */
  method RelaxNext(q: PriorityQueue, cur: MysticSquare3, adjacent: seq<MysticSquare3>, j: int,
                   h: MysticSquare3 -> int, visited: set<State>,
                   paths0: Paths, dist0: map<State, int>, items0: map<State, Item>, ghost prio0: map<State, int>,
                   ghost pushed0: seq<State>, ghost live0: set<State>, ghost root: State, ghost target: State)
    returns (paths: Paths, dist: map<State, int>, items: map<State, Item>, ghost prio: map<State, int>,
             ghost pushed: seq<State>, ghost live: set<State>)
    requires Progress(paths0, dist0, pushed0, live0 + {cur.state}, visited, root, target)
    requires Legal(paths0, root) && Valid(root)
    requires Registered(q, items0, live0, prio0) && Catalogued(items0, paths0) && Scored(dist0, prio0, h)
    requires cur.state in paths0 && Made(cur) && Successors(cur, adjacent)
    requires 0 <= j < |adjacent| && Handled(adjacent, j, paths0)
    requires q.history == pushed0
    modifies q, q.slots, items0.Values
    ensures Progress(paths, dist, pushed, live + {cur.state}, visited, root, target) && Legal(paths, root)
    ensures Registered(q, items, live, prio) && Catalogued(items, paths) && Scored(dist, prio, h)
    ensures Handled(adjacent, j + 1, paths) && q.history == pushed
    ensures |q.slots| - old(|q.slots|) == |paths| - |paths0| >= 0
    ensures Framed(paths0, dist0, cur, paths, dist) && Closed(visited, paths0, dist0, paths, dist)
    ensures Extends(items0, items)
    ensures forall k :: k in items && k !in items0 ==> fresh(items[k])
  {
    DistanceBelow(paths0, dist0, pushed0, root, cur.state);
    ghost var shorter;
    paths, dist, items, prio, pushed, live, shorter :=
      Relax(q, cur, adjacent[j], h, visited, paths0, dist0, items0, prio0, pushed0, live0);
    Turn(paths0, dist0, pushed0, live0, visited, root, target, cur, adjacent, j, shorter, paths, dist, pushed, live);
    FramedTurn(paths0, dist0, pushed0, live0, cur, adjacent[j].state, shorter, paths, dist, pushed, live);
    ClosedTurn(visited, paths0, dist0, pushed0, live0, cur, adjacent[j].state, shorter, paths, dist, pushed, live);
  }

  /**
   * The neighbour loop of aStar while `cur` is expanded: Relax for each adjacent square in
   * turn. Afterwards every adjacent square has an entry and the invariant still holds.
   */
  method RelaxAll(q: PriorityQueue, cur: MysticSquare3, adjacent: seq<MysticSquare3>,
                  h: MysticSquare3 -> int, visited: set<State>,
                  paths0: Paths, dist0: map<State, int>, items0: map<State, Item>, ghost prio0: map<State, int>,
                  ghost pushed0: seq<State>, ghost live0: set<State>, ghost root: State, ghost target: State)
    returns (paths: Paths, dist: map<State, int>, items: map<State, Item>, ghost prio: map<State, int>,
             ghost pushed: seq<State>, ghost live: set<State>)
    requires Progress(paths0, dist0, pushed0, live0 + {cur.state}, visited, root, target)
    requires Legal(paths0, root) && Valid(root)
    requires Registered(q, items0, live0, prio0) && Catalogued(items0, paths0) && Scored(dist0, prio0, h)
    requires cur.state in paths0 && Made(cur) && Successors(cur, adjacent)
    requires q.history == pushed0
    modifies q, q.slots, items0.Values
    ensures Progress(paths, dist, pushed, live + {cur.state}, visited, root, target) && Legal(paths, root)
    ensures Registered(q, items, live, prio) && Catalogued(items, paths) && Scored(dist, prio, h)
    ensures Handled(adjacent, |adjacent|, paths) && q.history == pushed
    ensures |q.slots| - old(|q.slots|) == |paths| - |paths0| >= 0
    ensures Framed(paths0, dist0, cur, paths, dist) && Closed(visited, paths0, dist0, paths, dist)
    ensures Extends(items0, items)
    ensures forall k :: k in items && k !in items0 ==> fresh(items[k])
  {
    paths, dist, items, prio, pushed, live := paths0, dist0, items0, prio0, pushed0, live0;
    var j := 0;
    while j < |adjacent|
      invariant 0 <= j <= |adjacent|
      invariant Progress(paths, dist, pushed, live + {cur.state}, visited, root, target) && Legal(paths, root)
      invariant Registered(q, items, live, prio) && Catalogued(items, paths) && Scored(dist, prio, h)
      invariant Handled(adjacent, j, paths) && q.history == pushed
      invariant |q.slots| - old(|q.slots|) == |paths| - |paths0| >= 0
      invariant Framed(paths0, dist0, cur, paths, dist) && Closed(visited, paths0, dist0, paths, dist)
      invariant Extends(items0, items)
      invariant forall k :: k in items && k !in items0 ==> fresh(items[k])
    {
      ghost var paths1, dist1, items1 := paths, dist, items;
      paths, dist, items, prio, pushed, live :=
        RelaxNext(q, cur, adjacent, j, h, visited, paths, dist, items, prio, pushed, live, root, target);
      FramedTrans(paths0, dist0, cur, paths1, dist1, paths, dist);
      ExtendsTrans(items0, items1, items);
      ClosedTrans(visited, paths0, dist0, paths1, dist1, paths, dist);
      forall k | k in items && k !in items0 ensures fresh(items[k]) {
        if k in items1 {
          assert fresh(items1[k]);
        }
      }
      j := j + 1;
    }
  }

  /**
   * The neighbour loop of aStar for the popped square `cur`, which is not the target, after
   * which `cur`'s state is marked visited.
   */
  method ExpandSquare(q: PriorityQueue, cur: MysticSquare3, h: MysticSquare3 -> int, visited0: set<State>,
                      paths0: Paths, dist0: map<State, int>, items0: map<State, Item>, ghost prio0: map<State, int>,
                      ghost pushed0: seq<State>, ghost live0: set<State>, ghost root: State, ghost target: State)
    returns (paths: Paths, dist: map<State, int>, items: map<State, Item>, visited: set<State>,
             ghost prio: map<State, int>, ghost pushed: seq<State>, ghost live: set<State>)
    requires Progress(paths0, dist0, pushed0, live0 + {cur.state}, visited0, root, target)
    requires Legal(paths0, root) && Valid(root)
    requires Registered(q, items0, live0, prio0) && Catalogued(items0, paths0) && Scored(dist0, prio0, h)
    requires cur.state in paths0 && Made(cur) && cur.state != target
    requires q.history == pushed0
    modifies q, q.slots, items0.Values
    ensures visited == visited0 + {cur.state}
    ensures Progress(paths, dist, pushed, live, visited, root, target)
    ensures Registered(q, items, live, prio) && Catalogued(items, paths) && Legal(paths, root)
    ensures Scored(dist, prio, h) && q.history == pushed
    ensures |paths| <= StateBound
    ensures |q.slots| == old(|q.slots|) + |paths| - |paths0|
    ensures |paths0| <= |paths|
    ensures Framed(paths0, dist0, cur, paths, dist) && Closed(visited0, paths0, dist0, paths, dist)
    ensures Extends(items0, items)
    ensures forall k :: k in items && k !in items0 ==> fresh(items[k])
  {
    var adjacent := Adjacent(cur);
    AdjacentSteps(cur);
    paths, dist, items, prio, pushed, live :=
      RelaxAll(q, cur, adjacent, h, visited0, paths0, dist0, items0, prio0, pushed0, live0, root, target);
    ExpandState(paths, dist, pushed, live, visited0, root, target, cur);
    visited := visited0 + {cur.state};
    TreeValid(paths, dist, root);
    StatesBound(paths.Keys);
  }

  /**
   * The rest of an iteration of aStar's main loop once the popped square `cur` is known not
   * to be the target: ExpandSquare, then Next, which pops a pending state of least f.
   */
  method Step(q: PriorityQueue, cur: MysticSquare3, h: MysticSquare3 -> int, visited0: set<State>,
              paths0: Paths, dist0: map<State, int>, items0: map<State, Item>, ghost prio0: map<State, int>,
              ghost pushed0: seq<State>, ghost live0: set<State>, ghost root: State, ghost target: State)
    returns (paths: Paths, dist: map<State, int>, items: map<State, Item>, visited: set<State>,
             ghost prio: map<State, int>, ghost pushed: seq<State>, ghost live: set<State>,
             current: Item?, itemExists: bool)
    requires Progress(paths0, dist0, pushed0, live0 + {cur.state}, visited0, root, target)
    requires Legal(paths0, root) && Valid(root)
    requires Registered(q, items0, live0, prio0) && Catalogued(items0, paths0) && Scored(dist0, prio0, h)
    requires cur.state in paths0 && Made(cur) && cur.state != target
    requires q.history == pushed0
    modifies q, q.slots, items0.Values
    ensures Registered(q, items, live, prio) && Catalogued(items, paths) && Legal(paths, root)
    ensures Scored(dist, prio, h) && q.history == pushed
    ensures |paths| <= StateBound && visited == visited0 + {cur.state}
    ensures itemExists ==> current != null && current.square.state in paths && Made(current.square)
    ensures itemExists ==> Progress(paths, dist, pushed, live + {current.square.state}, visited, root, target)
    ensures itemExists ==> current.square.state !in live
    ensures itemExists ==> forall k :: k in live ==>
      k in prio && current.square.state in prio && prio[current.square.state] <= prio[k]
    ensures !itemExists ==> live == {} && Progress(paths, dist, pushed, {}, visited, root, target)
    ensures |q.slots| + (if itemExists then 1 else 0) == old(|q.slots|) + |paths| - |paths0|
    ensures |paths0| <= |paths|
    ensures Framed(paths0, dist0, cur, paths, dist) && Closed(visited0, paths0, dist0, paths, dist)
    ensures Extends(items0, items)
    ensures forall k :: k in items && k !in items0 ==> fresh(items[k])
  {
    paths, dist, items, visited, prio, pushed, live :=
      ExpandSquare(q, cur, h, visited0, paths0, dist0, items0, prio0, pushed0, live0, root, target);
    current, itemExists, live := Next(q, paths, dist, prio, items, pushed, live, visited, root, target);
  }

  /**
   * The start of aStar: the initial state at distance 0 with no predecessor, its new item,
   * of priority f, in the items map and a new queue holding that item (q.Push, heap.Init).
   */
  method Seed(initial: MysticSquare3, h: MysticSquare3 -> int, ghost target: State)
    returns (q: PriorityQueue, paths: Paths, dist: map<State, int>, items: map<State, Item>,
             ghost prio: map<State, int>, ghost pushed: seq<State>)
    requires Made(initial)
    ensures fresh(q) && (forall k :: k in items ==> fresh(items[k])) && forall x :: x in q.slots ==> fresh(x)
    ensures Registered(q, items, {initial.state}, prio) && Catalogued(items, paths) && Scored(dist, prio, h)
    ensures paths == map[initial.state := None] && q.history == pushed
    ensures Progress(paths, dist, pushed, {initial.state}, {}, initial.state, target)
  {
    var root := initial.state;
    paths := map[root := None];
    dist := map[root := 0];
    var priority := Priority(dist, h, initial);
    prio := map[root := priority];
    Rescored(map[], map[], h, initial, 0, dist, prio);
    pushed := [root];
    Start(root, target);
    q, items := Open(initial, priority);
    CatalogueOne(initial, items[root]);
  }

  /** The start of aStar, then the first pop: the initial state's item. */
  method Begin(initial: MysticSquare3, h: MysticSquare3 -> int, ghost target: State)
    returns (q: PriorityQueue, paths: Paths, dist: map<State, int>, items: map<State, Item>,
             ghost prio: map<State, int>, ghost pushed: seq<State>, ghost live: set<State>,
             current: Item?, itemExists: bool)
    requires Made(initial)
    ensures fresh(q) && forall k :: k in items ==> fresh(items[k])
    ensures Registered(q, items, live, prio) && Catalogued(items, paths) && Scored(dist, prio, h)
    ensures paths == map[initial.state := None] && q.history == pushed
    ensures itemExists && current != null && current.square.state in paths && Made(current.square)
    ensures Progress(paths, dist, pushed, live + {current.square.state}, {}, initial.state, target)
  {
    q, paths, dist, items, prio, pushed := Seed(initial, h, target);
    current, itemExists, live := Next(q, paths, dist, prio, items, pushed, {initial.state}, {}, initial.state, target);
  }

  /**
   * aStar with the heuristic h: explores from `initial`, always expanding a pending state of
   * least f, never giving a visited state a new way, until a square with the target's key is
   * popped. When it is, `paths` is a predecessor tree rooted at the initial state (ranked by
   * the distances) that holds the target; when the queue runs dry, the target cannot be
   * reached. `frontier` is the queue the search used: its history lists the states of the
   * items pushed, the root first, and none twice; they are exactly the states with an entry
   * in `paths`.
   */
  method AStar(initial: MysticSquare3, target: MysticSquare3, h: MysticSquare3 -> int)
    returns (paths: Paths, pathFound: bool, dist: map<State, int>, ghost frontier: PriorityQueue)
    requires Made(initial) && Made(target)
    ensures pathFound ==> Tree(paths, dist, initial.state) && target.state in paths
    ensures !pathFound ==> !Reachable(initial.state, target.state)
    ensures Log(paths, frontier.history, initial.state)
  {
    var root := initial.state;
    var q, items, current, itemExists;
    ghost var prio, live, pushed;
    q, paths, dist, items, prio, pushed, live, current, itemExists := Begin(initial, h, target.state);
    RootLegal(root);
    var visited: set<State> := {};
    pathFound := false;
    while itemExists
      invariant fresh(q) && forall k :: k in items ==> fresh(items[k])
      invariant Registered(q, items, live, prio) && Catalogued(items, paths) && Scored(dist, prio, h)
      invariant q.history == pushed
      invariant Legal(paths, root) && Valid(root) && |paths| <= StateBound
      invariant itemExists ==> current != null && current.square.state in paths && Made(current.square)
      invariant itemExists ==> Progress(paths, dist, pushed, live + {current.square.state}, visited, root, target.state)
      invariant !itemExists ==> live == {} && Progress(paths, dist, pushed, {}, visited, root, target.state)
      invariant !pathFound
      decreases StateBound - |paths|, |q.slots| + if itemExists then 1 else 0
    {
      var cur := current.square;
      KeyIdentifies(cur, target);
      pathFound := cur.Key() == target.Key();
      if pathFound {
        break;
      }
      ghost var before := items;
      paths, dist, items, visited, prio, pushed, live, current, itemExists :=
        Step(q, cur, h, visited, paths, dist, items, prio, pushed, live, root, target.state);
      forall k | k in items ensures fresh(items[k]) {
        if k in before {
          assert fresh(before[k]);
        }
      }
    }
    if !pathFound {
      Drained(paths, dist, pushed, visited, root, target.state);
    }
    frontier := q;
  }
}
