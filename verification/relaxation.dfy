/**
 * What Dijkstra's algorithm and A* keep true of their maps: the predecessor map is a tree
 * ranked by the distance map, the two maps have the same keys, every distance is below the
 * number of entries, and every entry is expanded or still pending in the priority queue.
 * The lemmas show that each relaxation of an edge, each pop and each expansion keeps it.
 */
module Relaxation {
  import opened Wrappers
  import opened Square
  import opened SquareObject
  import opened Search

  /** math.MaxInt of a 64-bit Go int: the distance a state gets when it is first seen. */
  const MaxInt: int := 0x7fff_ffff_ffff_ffff

  /** Every state with an entry is expanded or pending. */
  ghost predicate CoveredBy(paths: Paths, expanded: set<State>, pending: set<State>) {
    forall k :: k in paths ==> k in expanded || k in pending
  }

  /**
   * The distances of both searches: the distance map has the same keys as the predecessor
   * map, the root is at distance 0 and every distance is below the number of entries.
   */
  ghost predicate Distances(paths: Paths, dist: map<State, int>, root: State) {
    && (forall k :: k in dist <==> k in paths)
    && root in dist && dist[root] == 0
    && (forall k :: k in dist ==> dist[k] < |paths|)
  }

  /**
   * The maps of both searches: the predecessor map `paths` is ranked by the distance map
   * `dist` towards the root, `pushed` logs the states given an item, each once, and
   * Distances holds. (That each link is a legal move, Legal, is kept apart.)
   */
  ghost predicate Labelled(paths: Paths, dist: map<State, int>, pushed: seq<State>, root: State) {
    Ranked(paths, dist, root) && Log(paths, pushed, root) && Distances(paths, dist, root)
  }

  /**
   * Every `pending` state (one with a live item, or the state being expanded) has an entry,
   * and every state with an entry is pending or expanded.
   */
  ghost predicate Spanned(paths: Paths, pending: set<State>, expanded: set<State>, target: State) {
    && (forall k :: k in pending ==> k in paths)
    && Explored(expanded, paths, target)
    && CoveredBy(paths, expanded, pending)
  }

  /** The invariant of both searches, apart from Legal. */
  ghost predicate Progress(paths: Paths, dist: map<State, int>, pushed: seq<State>, pending: set<State>,
                           expanded: set<State>, root: State, target: State)
  {
    Labelled(paths, dist, pushed, root) && Spanned(paths, pending, expanded, target)
  }

  /** The search's start: only the root has an entry, at distance 0, and it is pending. */
  lemma Start(root: State, target: State)
    ensures Progress(map[root := None], map[root := 0], [root], {root}, {}, root, target)
  {
  }

  /** The predecessor map holding only the root, which has no predecessor, is legal. */
  lemma RootLegal(root: State)
    ensures var paths: Paths := map[root := None]; Legal(paths, root) && |paths| == 1
  {
  }

  /** Every distance is far below MaxInt: there are fewer entries than valid states. */
  lemma DistanceBelow(paths: Paths, dist: map<State, int>, pushed: seq<State>, root: State, k: State)
    requires Labelled(paths, dist, pushed, root) && Legal(paths, root) && Valid(root) && k in paths
    ensures 0 <= dist[k] < StateBound && dist[k] + 1 < MaxInt
  {
    TreeValid(paths, dist, root);
    StatesBound(paths.Keys);
  }

  /**
   * A state seen for the first time from `c` is first given distance MaxInt and then, the
   * way through `c` being shorter, `c` as predecessor, one more than c's distance, a log
   * entry and a live item.
   */
  lemma RelaxNew(paths: Paths, dist: map<State, int>, pushed: seq<State>, live: set<State>,
                 expanded: set<State>, root: State, target: State, c: MysticSquare3, k: State,
                 paths': Paths, dist': map<State, int>, pushed': seq<State>, live': set<State>)
    requires Progress(paths, dist, pushed, live + {c.state}, expanded, root, target)
    requires c.state in paths && k !in paths
    requires paths' == paths[k := Some(c)] && Reranked(dist, k, dist[c.state] + 1, dist')
    requires pushed' == pushed + [k] && live' == live + {k}
    ensures Progress(paths', dist', pushed', live' + {c.state}, expanded, root, target)
    ensures |paths'| == |paths| + 1
  {
    RankedSet(paths, dist, root, k, c, dist[c.state] + 1, paths', dist');
    LogAdd(paths, pushed, root, k, Some(c));
    ExploredAdd(expanded, paths, target, k, Some(c), paths');
    assert |paths'| == |paths| + 1;
    forall x | x in dist' ensures dist'[x] < |paths'| {
      if x != k {
        assert x in dist;
      }
    }
    forall x | x in paths' ensures x in expanded || x in live' + {c.state} {
      if x != k {
        assert x in paths;
      }
    }
  }

  /** A shorter way to a state with an entry replaces its predecessor and distance. */
  lemma RelaxOld(paths: Paths, dist: map<State, int>, pushed: seq<State>, pending: set<State>,
                 expanded: set<State>, root: State, target: State, c: MysticSquare3, k: State,
                 paths': Paths, dist': map<State, int>)
    requires Progress(paths, dist, pushed, pending, expanded, root, target)
    requires c.state in paths && k in paths && dist[c.state] + 1 < dist[k]
    requires paths' == paths[k := Some(c)] && Reranked(dist, k, dist[c.state] + 1, dist')
    ensures Progress(paths', dist', pushed, pending, expanded, root, target)
  {
    RankedSet(paths, dist, root, k, c, dist[c.state] + 1, paths', dist');
    assert paths'.Keys == paths.Keys;
    ExploredAdd(expanded, paths, target, k, Some(c), paths');
  }

  /**
   * What one turn of the neighbour loop of either search does to the maps for an adjacent
   * square with state s: a state seen for the first time is given the way through `cur`;
   * a state with an entry is given it when `shorter` (the search's test, which implies that
   * the way is shorter); otherwise nothing changes.
   */
  ghost predicate Outcome(paths0: Paths, dist0: map<State, int>, pushed0: seq<State>, live0: set<State>,
                          cur: MysticSquare3, s: State, shorter: bool,
                          paths: Paths, dist: map<State, int>, pushed: seq<State>, live: set<State>)
    requires cur.state in dist0
  {
    if s !in paths0 then
      && paths == paths0[s := Some(cur)] && Reranked(dist0, s, dist0[cur.state] + 1, dist)
      && pushed == pushed0 + [s] && live == live0 + {s}
    else if shorter then
      && s in dist0 && dist0[cur.state] + 1 < dist0[s]
      && paths == paths0[s := Some(cur)] && Reranked(dist0, s, dist0[cur.state] + 1, dist)
      && pushed == pushed0 && live == live0
    else
      paths == paths0 && dist == dist0 && pushed == pushed0 && live == live0
  }

  /**
   * Every outcome of a turn of the neighbour loop keeps the invariant and leaves s with
   * an entry, new exactly when s had none; `cur` is s's predecessor if anything changed.
   */
  lemma Relaxed(paths0: Paths, dist0: map<State, int>, pushed0: seq<State>, live0: set<State>,
                expanded: set<State>, root: State, target: State, cur: MysticSquare3, s: State, shorter: bool,
                paths: Paths, dist: map<State, int>, pushed: seq<State>, live: set<State>)
    requires Progress(paths0, dist0, pushed0, live0 + {cur.state}, expanded, root, target)
    requires cur.state in paths0
    requires Outcome(paths0, dist0, pushed0, live0, cur, s, shorter, paths, dist, pushed, live)
    ensures Progress(paths, dist, pushed, live + {cur.state}, expanded, root, target)
    ensures s in paths && |paths| == |paths0| + if s in paths0 then 0 else 1
    ensures paths == paths0 || paths == paths0[s := Some(cur)]
  {
    if s !in paths0 {
      RelaxNew(paths0, dist0, pushed0, live0, expanded, root, target, cur, s, paths, dist, pushed, live);
    } else if shorter {
      RelaxOld(paths0, dist0, pushed0, live0 + {cur.state}, expanded, root, target, cur, s, paths, dist);
    }
  }

  /**
   * One turn of the neighbour loop of either search, for the square `adjacent[j]`: keeps
   * the invariant and every link legal, and leaves the squares up to j with an entry.
   */
  lemma Turn(paths0: Paths, dist0: map<State, int>, pushed0: seq<State>, live0: set<State>,
             expanded: set<State>, root: State, target: State, cur: MysticSquare3,
             adjacent: seq<MysticSquare3>, j: int, shorter: bool,
             paths: Paths, dist: map<State, int>, pushed: seq<State>, live: set<State>)
    requires Progress(paths0, dist0, pushed0, live0 + {cur.state}, expanded, root, target) && Legal(paths0, root)
    requires cur.state in paths0 && Made(cur) && Successors(cur, adjacent)
    requires 0 <= j < |adjacent| && Handled(adjacent, j, paths0)
    requires Outcome(paths0, dist0, pushed0, live0, cur, adjacent[j].state, shorter, paths, dist, pushed, live)
    ensures Progress(paths, dist, pushed, live + {cur.state}, expanded, root, target) && Legal(paths, root)
    ensures Handled(adjacent, j + 1, paths)
    ensures |paths| == |paths0| + if adjacent[j].state in paths0 then 0 else 1
  {
    var s := adjacent[j].state;
    Relaxed(paths0, dist0, pushed0, live0, expanded, root, target, cur, s, shorter, paths, dist, pushed, live);
    assert LegalLink(s, cur);
    LegalMaybeSet(paths0, root, s, cur, paths);
  }

  /** No move leaves a state as it is. */
  lemma NoSelfStep(a: State)
    ensures !Step(a, a)
  {
    forall d | Move(a, d).Some? ensures Move(a, d).value != a {
      MoveChanges(a, d);
    }
  }

  /**
   * What expanding `cur` may do to the maps: no entry is removed, only states one move
   * from cur's state change, and a changed entry has `cur` as predecessor, at one more
   * than cur's distance.
   */
  ghost predicate Framed(paths0: Paths, dist0: map<State, int>, cur: MysticSquare3, paths: Paths, dist: map<State, int>)
    requires cur.state in dist0
  {
    && (forall k :: k in paths0 ==> k in paths)
    && (forall k :: k in dist0 ==> k in dist)
    && (forall k :: k in paths && !Step(cur.state, k) ==> k in paths0 && paths[k] == paths0[k])
    && (forall k :: k in dist && !Step(cur.state, k) ==> k in dist0 && dist[k] == dist0[k])
    && (forall k :: k in paths && (k !in paths0 || paths[k] != paths0[k]) ==> paths[k] == Some(cur))
    && (forall k :: k in dist && (k !in dist0 || dist[k] != dist0[k]) ==> dist[k] == dist0[cur.state] + 1)
  }

  /** A turn of the neighbour loop for a state s one move from cur's state stays in the frame. */
  lemma FramedTurn(paths0: Paths, dist0: map<State, int>, pushed0: seq<State>, live0: set<State>,
                   cur: MysticSquare3, s: State, shorter: bool,
                   paths: Paths, dist: map<State, int>, pushed: seq<State>, live: set<State>)
    requires cur.state in dist0 && Step(cur.state, s)
    requires Outcome(paths0, dist0, pushed0, live0, cur, s, shorter, paths, dist, pushed, live)
    ensures Framed(paths0, dist0, cur, paths, dist)
  {
  }

  /**
   * Two stretches of one expansion make one: cur's own entry never changes (it is not one
   * move from itself), so both stretches measure from the same distance.
   */
  lemma FramedTrans(paths0: Paths, dist0: map<State, int>, cur: MysticSquare3,
                    paths1: Paths, dist1: map<State, int>, paths: Paths, dist: map<State, int>)
    requires cur.state in dist0 && Framed(paths0, dist0, cur, paths1, dist1)
    requires cur.state in dist1 && Framed(paths1, dist1, cur, paths, dist)
    ensures Framed(paths0, dist0, cur, paths, dist)
  {
    NoSelfStep(cur.state);
    assert dist1[cur.state] == dist0[cur.state];
  }

  /** Popping the live item of `c` makes `c` the state being expanded. */
  lemma Popped(paths: Paths, dist: map<State, int>, pushed: seq<State>, live: set<State>,
               expanded: set<State>, root: State, target: State, c: State, live': set<State>)
    requires Progress(paths, dist, pushed, live, expanded, root, target)
    requires c in live && live' == live - {c}
    ensures Progress(paths, dist, pushed, live' + {c}, expanded, root, target)
  {
    assert live' + {c} == live;
  }

  /**
   * Once every successor of the state being expanded has an entry, it joins the expanded
   * states (it is not the target: the searches stop there).
   */
  lemma ExpandState(paths: Paths, dist: map<State, int>, pushed: seq<State>, live: set<State>,
                    expanded: set<State>, root: State, target: State, c: MysticSquare3)
    requires Progress(paths, dist, pushed, live + {c.state}, expanded, root, target)
    requires c.state != target
    requires var adjacent := Adjacent(c); forall i :: 0 <= i < |adjacent| ==> adjacent[i].state in paths
    ensures Progress(paths, dist, pushed, live, expanded + {c.state}, root, target)
  {
    ExploredExpand(paths, expanded, target, c);
  }

  /** With nothing pending, a target without an entry cannot be reached from the root. */
  lemma Drained(paths: Paths, dist: map<State, int>, pushed: seq<State>,
                expanded: set<State>, root: State, target: State)
    requires Progress(paths, dist, pushed, {}, expanded, root, target)
    ensures !Reachable(root, target)
  {
    assert Covered(paths, expanded, []);
    Exhausted(paths, expanded, root, target);
  }
}
