/**
 * The invariant of the breadth-first search's loops and the lemmas that show each step
 * of the search keeps it.
 */
module BreadthFirstInvariant {
  import opened Wrappers
  import opened Square
  import opened SquareObject
  import opened Search

  /** Every queued square is well built and has an entry in `paths`. */
  ghost predicate Queued(items: seq<MysticSquare3>, paths: Paths) {
    && (forall i :: 0 <= i < |items| ==> items[i].state in paths)
    && (forall i {:trigger Made(items[i])} :: 0 <= i < |items| ==> Made(items[i]))
  }

  /** Queueing a square that has just been given an entry keeps every queued square entered. */
  lemma QueuedAdd(items: seq<MysticSquare3>, paths: Paths, sq: MysticSquare3, v: Option<MysticSquare3>,
                  items': seq<MysticSquare3>, paths': Paths)
    requires Queued(items, paths) && Made(sq) && items' == items + [sq] && paths' == paths[sq.state := v]
    ensures Queued(items', paths')
  {
    forall i | 0 <= i < |items'| ensures items'[i].state in paths' && Made(items'[i]) {
      if i < |items| {
        assert items'[i] == items[i];
      }
    }
  }

  /**
   * The invariant of the neighbour loop while `cur` is expanded: the tree and its log,
   * the queued squares, and every state with an entry expanded, queued or `cur`.
   */
  ghost predicate Frontier(paths: Paths, depth: map<State, int>, pushed: seq<State>, items: seq<MysticSquare3>,
                           expanded: set<State>, root: State, target: State, cur: MysticSquare3)
  {
    && Tree(paths, depth, root) && Log(paths, pushed, root)
    && Made(cur) && cur.state in paths
    && Queued(items, paths) && Explored(expanded, paths, target)
    && Covered(paths, expanded, [cur.state] + States(items))
  }

  /**
   * The body of the neighbour loop for a square not yet visited: enqueueing it and
   * recording `cur` as its predecessor keeps the loop invariant.
   */
  lemma Enqueue(paths: Paths, depth: map<State, int>, pushed: seq<State>, items: seq<MysticSquare3>,
                expanded: set<State>, root: State, target: State, cur: MysticSquare3,
                adjacent: seq<MysticSquare3>, j: int,
                paths': Paths, depth': map<State, int>, pushed': seq<State>, items': seq<MysticSquare3>)
    requires Frontier(paths, depth, pushed, items, expanded, root, target, cur)
    requires 0 <= j < |adjacent| && Handled(adjacent, j, paths)
    requires Successors(cur, adjacent) && adjacent[j].state !in paths
    requires var sq := adjacent[j];
      && paths' == paths[sq.state := Some(cur)] && depth' == depth[sq.state := depth[cur.state] + 1]
      && pushed' == pushed + [sq.state] && items' == items + [sq]
    ensures Frontier(paths', depth', pushed', items', expanded, root, target, cur)
    ensures Handled(adjacent, j + 1, paths')
  {
    var sq := adjacent[j];
    TreeSet(paths, depth, root, sq.state, cur, depth[cur.state] + 1, paths', depth');
    LogAdd(paths, pushed, root, sq.state, Some(cur));
    QueuedAdd(items, paths, sq, Some(cur), items', paths');
    ExploredAdd(expanded, paths, target, sq.state, Some(cur), paths');
    PendingSnoc(cur.state, items, sq, items');
    CoveredAdd(paths, expanded, [cur.state] + States(items), sq.state, Some(cur), paths', [cur.state] + States(items'));
  }

  /** Taking the front square off the queue leaves it pending, the rest still queued. */
  lemma Dequeue(items: seq<MysticSquare3>, paths: Paths, expanded: set<State>)
    requires Queued(items, paths) && Covered(paths, expanded, States(items)) && |items| > 0
    ensures Made(items[0]) && items[0].state in paths
    ensures Queued(items[1..], paths) && Covered(paths, expanded, [items[0].state] + States(items[1..]))
  {
    StatesCons(items);
    var rest := items[1..];
    forall i | 0 <= i < |rest| ensures rest[i].state in paths && Made(rest[i]) {
      assert rest[i] == items[i + 1];
    }
  }

}
