/**
 * Breadth-first search over squares: a first-in first-out frontier, states marked
 * visited when they are enqueued, and each state's predecessor written once.
 */
module BreadthFirst {
  import opened Wrappers
  import opened Square
  import opened SquareObject
  import opened Search
  import opened Fifo
  import opened BreadthFirstInvariant

  /**
   * The squares of `adjacent` that the neighbour loop enqueues, in order: each one whose
   * state is neither in `seen` nor the state of a square enqueued before it.
   */
  ghost function NewOnes(adjacent: seq<MysticSquare3>, seen: set<State>): seq<MysticSquare3>
  {
    if adjacent == [] then []
    else
      var front := NewOnes(adjacent[..|adjacent| - 1], seen);
      var sq := adjacent[|adjacent| - 1];
      if sq.state in seen || sq.state in States(front) then front else front + [sq]
  }

  /** Extending the list by one square enqueues it exactly when its state is new. */
  lemma NewOnesNext(adjacent: seq<MysticSquare3>, j: int, seen: set<State>)
    requires 0 <= j < |adjacent|
    ensures var front := NewOnes(adjacent[..j], seen);
      NewOnes(adjacent[..j + 1], seen) ==
        if adjacent[j].state in seen || adjacent[j].state in States(front) then front else front + [adjacent[j]]
  {
    assert adjacent[..j + 1][..j] == adjacent[..j];
  }

  /**
   * The squares enqueued are taken from `adjacent`, none has a state in `seen`, and no
   * state is enqueued twice.
   */
  lemma {:induction false} NewOnesFresh(adjacent: seq<MysticSquare3>, seen: set<State>)
    ensures var r := NewOnes(adjacent, seen);
      && (forall i :: 0 <= i < |r| ==> r[i] in adjacent && r[i].state !in seen)
      && Distinct(States(r))
  {
    if adjacent != [] {
      var init := adjacent[..|adjacent| - 1];
      var sq := adjacent[|adjacent| - 1];
      var front := NewOnes(init, seen);
      NewOnesFresh(init, seen);
      assert forall x :: x in init ==> x in adjacent;
      if !(sq.state in seen || sq.state in States(front)) {
        var r := front + [sq];
        StatesSnoc(front, sq);
        forall i | 0 <= i < |r| ensures r[i] in adjacent && r[i].state !in seen {
          if i < |front| {
            assert r[i] == front[i];
          }
        }
        forall i, k | 0 <= i < k < |States(r)| ensures States(r)[i] != States(r)[k] {
          if k == |front| {
            assert States(front)[i] == States(r)[i];
          }
        }
      }
    }
  }

  /** The prefix of full length is the whole sequence. */
  lemma Whole<T>(s: seq<T>)
    ensures s[..|s|] == s
  {
  }

  /**
   * The entries after part of the neighbour loop: the entries of `paths0` are kept, each
   * square `added` has a new entry naming `cur` as predecessor, and there is no other
   * entry.
   */
  ghost predicate Entered(paths0: Paths, cur: MysticSquare3, added: seq<MysticSquare3>, paths: Paths) {
    && (forall k :: k in paths0 ==> k in paths && paths[k] == paths0[k])
    && (forall i :: 0 <= i < |added| ==>
          added[i].state !in paths0 && added[i].state in paths && paths[added[i].state] == Some(cur))
    && |paths| == |paths0| + |added|
  }

  /** Entering a square's state with `cur` as predecessor adds the square to the entered ones. */
  lemma EnteredAdd(paths0: Paths, cur: MysticSquare3, front: seq<MysticSquare3>, paths1: Paths,
                   sq: MysticSquare3, paths: Paths)
    requires Entered(paths0, cur, front, paths1) && sq.state !in paths1
    requires paths == paths1[sq.state := Some(cur)]
    ensures Entered(paths0, cur, front + [sq], paths)
  {
    var added := front + [sq];
    forall i | 0 <= i < |added|
      ensures added[i].state !in paths0 && added[i].state in paths && paths[added[i].state] == Some(cur)
    {
      if i < |front| {
        assert added[i] == front[i];
      }
    }
  }

  /** Appending one element after a concatenation. */
  lemma Appended<T>(a: seq<T>, b: seq<T>, x: T)
    ensures (a + b) + [x] == a + (b + [x])
  {
  }

  /**
   * The neighbour loop after its first `j` turns: the squares of NewOnes are appended to
   * the queue and its history, and they are the states entered, each with `cur`.
   */
  ghost predicate Progressed(adjacent: seq<MysticSquare3>, j: int, paths0: Paths, cur: MysticSquare3,
                             items0: seq<MysticSquare3>, history0: seq<State>,
                             paths: Paths, items: seq<MysticSquare3>, history: seq<State>)
    requires 0 <= j <= |adjacent|
  {
    var added := NewOnes(adjacent[..j], paths0.Keys);
    && items == items0 + added && history == history0 + States(added)
    && Entered(paths0, cur, added, paths)
    && forall k :: k in paths ==> k in paths0 || k in States(added)
  }

  /** One turn of the neighbour loop, whichever way it goes, keeps Progressed. */
  lemma ProgressedTurn(adjacent: seq<MysticSquare3>, j: int, paths0: Paths, cur: MysticSquare3,
                       items0: seq<MysticSquare3>, history0: seq<State>,
                       paths1: Paths, items1: seq<MysticSquare3>, history1: seq<State>,
                       paths: Paths, items: seq<MysticSquare3>, history: seq<State>)
    requires 0 <= j < |adjacent|
    requires Progressed(adjacent, j, paths0, cur, items0, history0, paths1, items1, history1)
    requires var s := adjacent[j].state;
      if s in paths1 then
        paths == paths1 && items == items1 && history == history1
      else
        paths == paths1[s := Some(cur)] && items == items1 + [adjacent[j]] && history == history1 + [s]
    ensures Progressed(adjacent, j + 1, paths0, cur, items0, history0, paths, items, history)
  {
    var front := NewOnes(adjacent[..j], paths0.Keys);
    NewOnesNext(adjacent, j, paths0.Keys);
    if adjacent[j].state !in paths1 {
      EnteredAdd(paths0, cur, front, paths1, adjacent[j], paths);
      StatesSnoc(front, adjacent[j]);
      Appended(items0, front, adjacent[j]);
      Appended(history0, States(front), adjacent[j].state);
      assert forall k :: k in States(front) ==> k in States(front + [adjacent[j]]);
    }
  }

  /**
   * One turn of the neighbour loop of bfs: the adjacent square `adjacent[j]`, unless
   * already visited, is queued, marked visited and given `cur` as its predecessor;
   * a visited one changes nothing.
   */
  method Visit(q: Queue, cur: MysticSquare3, adjacent: seq<MysticSquare3>, j: int,
               paths0: Paths, visited0: set<State>, ghost depth0: map<State, int>,
               ghost expanded: set<State>, ghost root: State, ghost target: State)
    returns (paths: Paths, visited: set<State>, ghost depth: map<State, int>)
    requires Frontier(paths0, depth0, q.history, q.items, expanded, root, target, cur)
    requires 0 <= j < |adjacent| && Handled(adjacent, j, paths0)
    requires visited0 == paths0.Keys && Successors(cur, adjacent)
    modifies q
    ensures Frontier(paths, depth, q.history, q.items, expanded, root, target, cur)
    ensures visited == paths.Keys && Handled(adjacent, j + 1, paths)
    ensures var s := adjacent[j].state;
      if s in visited0 then
        paths == paths0 && visited == visited0 && q.items == old(q.items) && q.history == old(q.history)
      else
        && paths == paths0[s := Some(cur)] && visited == visited0 + {s}
        && q.items == old(q.items) + [adjacent[j]] && q.history == old(q.history) + [s]
    ensures |visited| - |visited0| == |q.items| - old(|q.items|) >= 0
  {
    var newSquare := adjacent[j];
    if newSquare.state !in visited0 {
      paths, visited, depth := Discover(q, cur, adjacent, j, paths0, visited0, depth0, expanded, root, target);
    } else {
      paths, visited := paths0, visited0;
      depth := depth0;
      HandledNext(adjacent, j, paths);
    }
  }

  /** The turn of Visit that meets a state not seen before: it is queued and recorded. */
  method Discover(q: Queue, cur: MysticSquare3, adjacent: seq<MysticSquare3>, j: int,
                  paths0: Paths, visited0: set<State>, ghost depth0: map<State, int>,
                  ghost expanded: set<State>, ghost root: State, ghost target: State)
    returns (paths: Paths, visited: set<State>, ghost depth: map<State, int>)
    requires Frontier(paths0, depth0, q.history, q.items, expanded, root, target, cur)
    requires 0 <= j < |adjacent| && Handled(adjacent, j, paths0)
    requires visited0 == paths0.Keys && Successors(cur, adjacent) && adjacent[j].state !in visited0
    modifies q
    ensures Frontier(paths, depth, q.history, q.items, expanded, root, target, cur)
    ensures visited == paths.Keys && Handled(adjacent, j + 1, paths)
    ensures paths == paths0[adjacent[j].state := Some(cur)] && visited == visited0 + {adjacent[j].state}
    ensures q.items == old(q.items) + [adjacent[j]] && q.history == old(q.history) + [adjacent[j].state]
    ensures |visited| == |visited0| + 1
  {
    var newSquare := adjacent[j];
    paths := paths0[newSquare.state := Some(cur)];
    visited := visited0 + {newSquare.state};
    depth := depth0[newSquare.state := depth0[cur.state] + 1];
    Enqueue(paths0, depth0, q.history, q.items, expanded, root, target, cur, adjacent, j,
            paths, depth, q.history + [newSquare.state], q.items + [newSquare]);
    q.Push(newSquare);
  }

  /** Visit with the loop's bookkeeping: the first `j + 1` turns have Progressed. */
  method Advance(q: Queue, cur: MysticSquare3, adjacent: seq<MysticSquare3>, j: int,
                 paths1: Paths, visited1: set<State>, ghost depth1: map<State, int>,
                 ghost paths0: Paths, ghost items0: seq<MysticSquare3>, ghost history0: seq<State>,
                 ghost expanded: set<State>, ghost root: State, ghost target: State)
    returns (paths: Paths, visited: set<State>, ghost depth: map<State, int>)
    requires Frontier(paths1, depth1, q.history, q.items, expanded, root, target, cur)
    requires 0 <= j < |adjacent| && Handled(adjacent, j, paths1)
    requires visited1 == paths1.Keys && Successors(cur, adjacent)
    requires Progressed(adjacent, j, paths0, cur, items0, history0, paths1, q.items, q.history)
    modifies q
    ensures Frontier(paths, depth, q.history, q.items, expanded, root, target, cur)
    ensures visited == paths.Keys && Handled(adjacent, j + 1, paths)
    ensures Progressed(adjacent, j + 1, paths0, cur, items0, history0, paths, q.items, q.history)
    ensures |visited| - |visited1| == |q.items| - old(|q.items|) >= 0
  {
    paths, visited, depth := Visit(q, cur, adjacent, j, paths1, visited1, depth1, expanded, root, target);
    ProgressedTurn(adjacent, j, paths0, cur, items0, history0, paths1, old(q.items), old(q.history),
                   paths, q.items, q.history);
  }

  /**
   * The neighbour loop of bfs: every adjacent square not yet visited is queued, marked
   * visited and given `cur` as its predecessor, in the order of `adjacent`; entries made
   * before are kept.
   */
  method EnqueueNew(q: Queue, cur: MysticSquare3, adjacent: seq<MysticSquare3>,
                    paths0: Paths, visited0: set<State>, ghost depth0: map<State, int>,
                    ghost expanded: set<State>, ghost root: State, ghost target: State)
    returns (paths: Paths, visited: set<State>, ghost depth: map<State, int>)
    requires Frontier(paths0, depth0, q.history, q.items, expanded, root, target, cur)
    requires visited0 == paths0.Keys && Successors(cur, adjacent)
    modifies q
    ensures Frontier(paths, depth, q.history, q.items, expanded, root, target, cur)
    ensures visited == paths.Keys && Handled(adjacent, |adjacent|, paths)
    ensures q.items == old(q.items) + NewOnes(adjacent, visited0)
    ensures q.history == old(q.history) + States(NewOnes(adjacent, visited0))
    ensures Entered(paths0, cur, NewOnes(adjacent, visited0), paths)
    ensures |visited| - |visited0| == |q.items| - old(|q.items|) >= 0
  {
    paths, visited := paths0, visited0;
    depth := depth0;
    var j := 0;
    while j < |adjacent|
      invariant 0 <= j <= |adjacent|
      invariant Frontier(paths, depth, q.history, q.items, expanded, root, target, cur)
      invariant visited == paths.Keys && Handled(adjacent, j, paths)
      invariant Progressed(adjacent, j, paths0, cur, old(q.items), old(q.history), paths, q.items, q.history)
      invariant |visited| - |visited0| == |q.items| - old(|q.items|) >= 0
    {
      paths, visited, depth := Advance(q, cur, adjacent, j, paths, visited, depth, paths0, old(q.items), old(q.history),
                                       expanded, root, target);
      j := j + 1;
    }
    Whole(adjacent);
  }

  /**
   * The neighbour loop run on the adjacent squares of `cur`: afterwards every one-move
   * successor of `cur` has an entry, and the history grows with the queue.
   */
  method EnqueueAdjacent(q: Queue, cur: MysticSquare3, paths0: Paths, visited0: set<State>,
                         ghost depth0: map<State, int>, ghost expanded: set<State>, ghost root: State,
                         ghost target: State)
    returns (paths: Paths, visited: set<State>, ghost depth: map<State, int>)
    requires Frontier(paths0, depth0, q.history, q.items, expanded, root, target, cur)
    requires visited0 == paths0.Keys
    modifies q
    ensures Frontier(paths, depth, q.history, q.items, expanded, root, target, cur)
    ensures visited == paths.Keys && Handled(Adjacent(cur), |Adjacent(cur)|, paths)
    ensures q.items == old(q.items) + NewOnes(Adjacent(cur), visited0)
    ensures q.history == old(q.history) + States(NewOnes(Adjacent(cur), visited0))
    ensures Entered(paths0, cur, NewOnes(Adjacent(cur), visited0), paths)
    ensures |visited| - |visited0| == |q.items| - old(|q.items|) >= 0
  {
    var adjacent := Adjacent(cur);
    AdjacentSteps(cur);
    paths, visited, depth := EnqueueNew(q, cur, adjacent, paths0, visited0, depth0, expanded, root, target);
  }

  /**
   * The expansion of `cur` in bfs, which is not the target: its adjacent squares are
   * generated and the new ones queued, in the order of Adjacent. Then `cur` counts as
   * expanded, and every entry is expanded or still queued.
   */
  method ExpandCurrent(q: Queue, cur: MysticSquare3, paths0: Paths, visited0: set<State>,
                       ghost depth0: map<State, int>, ghost expanded0: set<State>, ghost root: State,
                       ghost target: State)
    returns (paths: Paths, visited: set<State>, ghost depth: map<State, int>, ghost expanded: set<State>)
    requires Frontier(paths0, depth0, q.history, q.items, expanded0, root, target, cur)
    requires visited0 == paths0.Keys && cur.state != target && Valid(root)
    modifies q
    ensures Tree(paths, depth, root) && Log(paths, q.history, root)
    ensures visited == paths.Keys && |visited| <= StateBound
    ensures Queued(q.items, paths) && Explored(expanded, paths, target)
    ensures Covered(paths, expanded, States(q.items)) && expanded == expanded0 + {cur.state}
    ensures q.items == old(q.items) + NewOnes(Adjacent(cur), visited0)
    ensures q.history == old(q.history) + States(NewOnes(Adjacent(cur), visited0))
    ensures Entered(paths0, cur, NewOnes(Adjacent(cur), visited0), paths)
    ensures |visited| - |visited0| == |q.items| - old(|q.items|) >= 0
  {
    paths, visited, depth := EnqueueAdjacent(q, cur, paths0, visited0, depth0, expanded0, root, target);
    Expand(paths, expanded0, target, cur, States(q.items));
    expanded := expanded0 + {cur.state};
    TreeValid(paths, depth, root);
    StatesBound(visited);
  }

  /**
   * One turn of the search loop after `cur` turned out not to be the target: its new
   * neighbours are queued and the next square is taken from the front of the queue.
   * Either a new state was visited or the queue is one square shorter.
   */
  method Round(q: Queue, cur: MysticSquare3, paths0: Paths, visited0: set<State>,
               ghost depth0: map<State, int>, ghost expanded0: set<State>, ghost root: State,
               ghost target: State)
    returns (paths: Paths, visited: set<State>, ghost depth: map<State, int>, ghost expanded: set<State>,
             current: Option<MysticSquare3>, hasItem: bool)
    requires Frontier(paths0, depth0, q.history, q.items, expanded0, root, target, cur)
    requires visited0 == paths0.Keys && cur.state != target && Valid(root)
    modifies q
    ensures Tree(paths, depth, root) && Log(paths, q.history, root)
    ensures visited == paths.Keys && |visited| <= StateBound
    ensures Queued(q.items, paths) && Explored(expanded, paths, target)
    ensures hasItem <==> current.Some?
    ensures hasItem ==> Made(current.value) && current.value.state in paths
    ensures hasItem ==> Covered(paths, expanded, [current.value.state] + States(q.items))
    ensures !hasItem ==> q.items == [] && Covered(paths, expanded, [])
    ensures (if hasItem then [current.value] else []) + q.items == old(q.items) + NewOnes(Adjacent(cur), visited0)
    ensures q.history == old(q.history) + States(NewOnes(Adjacent(cur), visited0))
    ensures Entered(paths0, cur, NewOnes(Adjacent(cur), visited0), paths)
    ensures |visited| >= |visited0|
    ensures |visited| > |visited0| || |q.items| + (if hasItem then 1 else 0) <= old(|q.items|)
  {
    paths, visited, depth, expanded := ExpandCurrent(q, cur, paths0, visited0, depth0, expanded0, root, target);
    if q.items != [] {
      Dequeue(q.items, paths, expanded);
    }
    current, hasItem := q.Process();
  }

  /**
   * bfs: explores from `initial` until a square with the target's key leaves the queue.
   * When it does, `paths` is a predecessor tree rooted at the initial state (ranked by
   * `depth`) that holds the target; otherwise the target cannot be reached and `paths`
   * is empty (the source's nil map). `frontier` is the queue the search used: its
   * history lists the states pushed, the root first, and none is pushed twice; a
   * state's predecessor is written exactly when it is pushed.
   */
  method Bfs(initial: MysticSquare3, target: MysticSquare3)
    returns (paths: Paths, pathFound: bool, ghost depth: map<State, int>, ghost frontier: Queue)
    requires Made(initial) && Made(target)
    ensures pathFound ==> Tree(paths, depth, initial.state) && target.state in paths
    ensures !pathFound ==> paths == map[] && !Reachable(initial.state, target.state)
    ensures |frontier.history| >= 1 && frontier.history[0] == initial.state && Distinct(frontier.history)
    ensures pathFound ==> forall k :: k in paths <==> k in frontier.history
  {
    var q := new Queue();
    var visited: set<State> := {};
    paths := map[];
    pathFound := false;
    q.Push(initial);
    paths := paths[initial.state := None];
    visited := visited + {initial.state};
    depth := map[initial.state := 0];
    ghost var expanded: set<State> := {};
    ghost var root := initial.state;
    Dequeue(q.items, paths, expanded);

    var current, hasItem := q.Process();
    while hasItem
      invariant fresh(q)
      invariant Tree(paths, depth, root) && Log(paths, q.history, root)
      invariant visited == paths.Keys && |visited| <= StateBound
      invariant Queued(q.items, paths) && Explored(expanded, paths, target.state)
      invariant hasItem <==> current.Some?
      invariant hasItem ==> Made(current.value) && current.value.state in paths
      invariant hasItem ==> Covered(paths, expanded, [current.value.state] + States(q.items))
      invariant !hasItem ==> q.items == [] && Covered(paths, expanded, [])
      invariant !pathFound
      decreases StateBound - |visited|, |q.items| + if hasItem then 1 else 0
    {
      var cur := current.value;
      KeyIdentifies(cur, target);
      pathFound := cur.Key() == target.Key();
      if pathFound {
        break;
      }
      assert Frontier(paths, depth, q.history, q.items, expanded, root, target.state, cur);
      paths, visited, depth, expanded, current, hasItem :=
        Round(q, cur, paths, visited, depth, expanded, root, target.state);
    }
    if !pathFound {
      Exhausted(paths, expanded, root, target.state);
      paths := map[];
    }
    frontier := q;
  }
}
