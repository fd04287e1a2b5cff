/**
 * The run command's work: builds the two squares, runs the chosen search and, when it
 * finds the target, follows the predecessor map back from the target to the initial
 * square to give the path of moves from one to the other.
 */
module Run {
  import opened Wrappers
  import opened Square
  import opened SquareObject
  import opened Search
  import BreadthFirst
  import Dijkstra
  import AStar
  import Heuristic

  /** Go's lookup paths[k]: the recorded predecessor, nil for the root and for a state without an entry. */
  function Predecessor(paths: Paths, k: State): Option<MysticSquare3> {
    if k in paths then paths[k] else None
  }

  /** The square `p` is the recorded predecessor of the square `c`. */
  predicate Parent(paths: Paths, p: MysticSquare3, c: MysticSquare3) {
    c.state in paths && paths[c.state] == Some(p)
  }

  /** slices.Reverse, on a value. */
  function Reversed<T>(s: seq<T>): (r: seq<T>)
    ensures |r| == |s| && forall i :: 0 <= i < |s| ==> r[i] == s[|s| - 1 - i]
  {
    if s == [] then [] else Reversed(s[1..]) + [s[0]]
  }

  /**
   * In a predecessor tree exactly the root has no predecessor; any other state's
   * predecessor is a square one legal move before it, with an entry and a lower rank.
   */
  lemma Climb(paths: Paths, rank: map<State, int>, root: State, k: State)
    requires Tree(paths, rank, root) && k in paths
    ensures k in rank && 0 <= rank[k] && (paths[k] == None <==> k == root)
    ensures paths[k].Some? ==>
      && LegalLink(k, paths[k].value) && paths[k].value.state in paths
      && paths[k].value.state in rank && rank[paths[k].value.state] < rank[k]
  {
    if k != root {
      assert Linked(paths, rank, k) && LegalLink(k, paths[k].value);
    }
  }

  /** The list p runs from the square a to the square b, each square one legal move from the one before. */
  ghost predicate Walk(p: seq<MysticSquare3>, a: MysticSquare3, b: MysticSquare3) {
    && |p| >= 1 && p[0] == a && p[|p| - 1] == b
    && forall i :: 0 <= i < |p| - 1 ==> Step(p[i].state, p[i + 1].state)
  }

  /** The square b ranks above the square a. */
  ghost predicate Rises(rank: map<State, int>, a: MysticSquare3, b: MysticSquare3) {
    a.state in rank && b.state in rank && rank[a.state] < rank[b.state]
  }

  /** Ranks that grow from each square to the next grow along the whole list: no state comes twice. */
  lemma {:induction false} Ascending(path: seq<MysticSquare3>, rank: map<State, int>)
    requires forall i :: 0 <= i < |path| - 1 ==> Rises(rank, path[i], path[i + 1])
    ensures forall i, j :: 0 <= i < j < |path| ==> Rises(rank, path[i], path[j])
  {
    if |path| >= 2 {
      var prefix := path[..|path| - 1];
      Ascending(prefix, rank);
      forall i, j | 0 <= i < j < |path| ensures Rises(rank, path[i], path[j]) {
        if j < |path| - 1 {
          assert Rises(rank, prefix[i], prefix[j]);
        } else if i < j - 1 {
          assert Rises(rank, prefix[i], prefix[j - 1]) && Rises(rank, path[j - 1], path[j]);
        }
      }
    }
  }

  /** Along a chain of recorded predecessors in a predecessor tree each step is a legal move and the ranks grow strictly. */
  lemma ChainRises(paths: Paths, rank: map<State, int>, root: State, path: seq<MysticSquare3>)
    requires Tree(paths, rank, root)
    requires forall i :: 0 <= i < |path| - 1 ==> Parent(paths, path[i], path[i + 1])
    ensures forall i :: 0 <= i < |path| - 1 ==> Step(path[i].state, path[i + 1].state)
    ensures forall i, j :: 0 <= i < j < |path| ==> Rises(rank, path[i], path[j])
  {
    forall i | 0 <= i < |path| - 1
      ensures Rises(rank, path[i], path[i + 1]) && Step(path[i].state, path[i + 1].state)
    {
      assert Parent(paths, path[i], path[i + 1]);
      Climb(paths, rank, root, path[i + 1].state);
    }
    Ascending(path, rank);
  }

  /**
   * What WalkBack leaves: the square it stops at is well built, and with it added the list
   * runs from the target back to it, each square's recorded predecessor next.
   */
  lemma Closed(paths: Paths, rank: map<State, int>, root: State, target: MysticSquare3,
               back: seq<MysticSquare3>, current: MysticSquare3)
    requires Tree(paths, rank, root) && Made(target)
    requires |back| == 0 ==> current == target
    requires |back| > 0 ==> back[0] == target && Parent(paths, current, back[|back| - 1])
    requires forall i :: 0 <= i < |back| - 1 ==> Parent(paths, back[i + 1], back[i])
    ensures Made(current)
    ensures var forward := back + [current];
      forall i :: 0 <= i < |forward| - 1 ==> Parent(paths, forward[i + 1], forward[i])
  {
    var forward := back + [current];
    if |back| > 0 {
      Climb(paths, rank, root, back[|back| - 1].state);
    }
    forall i | 0 <= i < |forward| - 1 ensures Parent(paths, forward[i + 1], forward[i]) {
      assert forward[i] == back[i];
      if i < |back| - 1 {
        assert forward[i + 1] == back[i + 1];
      }
    }
  }

  /** Reversing a list that runs from child to predecessor gives one from predecessor to child. */
  lemma Reversal(paths: Paths, forward: seq<MysticSquare3>, path: seq<MysticSquare3>)
    requires forall i :: 0 <= i < |forward| - 1 ==> Parent(paths, forward[i + 1], forward[i])
    requires path == Reversed(forward)
    ensures forall i :: 0 <= i < |path| - 1 ==> Parent(paths, path[i], path[i + 1])
  {
    forall i | 0 <= i < |path| - 1 ensures Parent(paths, path[i], path[i + 1]) {
      var n := |forward| - 2 - i;
      assert path[i] == forward[n + 1] && path[i + 1] == forward[n];
    }
  }

  /**
   * The loop of executeRun's path reconstruction: from the target, collects squares while
   * the current one has a predecessor. It stops at the root, having collected, target
   * first, squares each the recorded successor of the next one.
   */
  method WalkBack(paths: Paths, ghost rank: map<State, int>, ghost root: State, target: MysticSquare3)
    returns (back: seq<MysticSquare3>, current: MysticSquare3)
    requires Tree(paths, rank, root) && target.state in paths && Made(target)
    ensures current.state == root
    ensures |back| == 0 ==> current == target
    ensures |back| > 0 ==> back[0] == target && Parent(paths, current, back[|back| - 1])
    ensures forall i :: 0 <= i < |back| - 1 ==> Parent(paths, back[i + 1], back[i])
  {
    back := [];
    current := target;
    while Predecessor(paths, current.state) != None
      invariant current.state in paths
      invariant |back| == 0 ==> current == target
      invariant |back| > 0 ==> back[0] == target && Parent(paths, current, back[|back| - 1])
      invariant forall i :: 0 <= i < |back| - 1 ==> Parent(paths, back[i + 1], back[i])
      decreases rank[current.state]
    {
      Climb(paths, rank, root, current.state);
      ghost var prev := back;
      back := back + [current];
      forall i | 0 <= i < |back| - 1 ensures Parent(paths, back[i + 1], back[i]) {
        if i < |prev| - 1 {
          assert back[i] == prev[i] && back[i + 1] == prev[i + 1];
        } else {
          assert back[i] == prev[|prev| - 1] && back[i + 1] == current;
        }
      }
      current := paths[current.state].value;
    }
    Climb(paths, rank, root, current.state);
  }

  /**
   * The path reconstruction of executeRun: WalkBack, then the initial square added and the
   * list reversed. On a predecessor tree rooted at the initial state that holds the target,
   * the path runs from the initial square to the target, each square being the recorded
   * predecessor of the next and so one legal move from it, with strictly increasing ranks,
   * so no state twice. When the initial and target states agree it is the initial square alone.
   */
  method ReconstructPath(paths: Paths, ghost rank: map<State, int>, initial: MysticSquare3, target: MysticSquare3)
    returns (path: seq<MysticSquare3>)
    requires Tree(paths, rank, initial.state) && target.state in paths && Made(initial) && Made(target)
    ensures Walk(path, initial, target)
    ensures forall i :: 0 <= i < |path| - 1 ==> Parent(paths, path[i], path[i + 1])
    ensures forall i, j :: 0 <= i < j < |path| ==> Rises(rank, path[i], path[j])
    ensures initial.state == target.state ==> path == [initial]
  {
    var back, current := WalkBack(paths, rank, initial.state, target);
    Closed(paths, rank, initial.state, target, back, current);
    KeyIdentifies(current, initial);
    var forward := back + [initial];
    path := Reversed(forward);
    Reversal(paths, forward, path);
    ChainRises(paths, rank, initial.state, path);
  }


  /** The run command's choice of search; any other value runs nothing and finds no path. */
  datatype Algorithm = AStarSearch | DijkstrasAlgorithm | BreadthFirstSearch | Unlisted

  /** What executeRun needs of the command's arguments: the two states and the search. */
  datatype RunArgs = RunArgs(initialState: State, targetState: State, algorithm: Algorithm)

  /** What executeRun prints: START and the path's squares in order, or "No Path". */
  datatype Report = Solution(path: seq<MysticSquare3>) | NoPath

  /**
   * The heuristic the run command gives A*: the Manhattan distance from a square to the
   * target (manhattanDistance, which only ever sees valid squares here; 0 stands in for its
   * panic on an invalid one).
   */
  function ManhattanTo(target: MysticSquare3, sq: MysticSquare3): (d: int)
    ensures Valid(sq.state) && Valid(target.state) ==> d == Heuristic.Manhattan(sq.state, target.state)
    ensures Valid(sq.state) && Valid(target.state) ==> (d == 0 <==> sq.state == target.state)
  {
    if Valid(sq.state) && Valid(target.state) then
      Heuristic.ManhattanZero(sq.state, target.state);
      Heuristic.Manhattan(sq.state, target.state)
    else 0
  }

  /**
   * realAlgorithm and its call: runs the chosen search (A* with the Manhattan heuristic
   * towards the target). A found path leaves a predecessor tree rooted at the initial state
   * that holds the target; any of the three searches finds no path only when the target is
   * unreachable; an unlisted choice finds none.
   */
  method RunAlgorithm(algorithm: Algorithm, initial: MysticSquare3, target: MysticSquare3)
    returns (paths: Paths, pathFound: bool, ghost rank: map<State, int>)
    requires Made(initial) && Made(target)
    ensures pathFound ==> Tree(paths, rank, initial.state) && target.state in paths
    ensures !pathFound && algorithm != Unlisted ==> !Reachable(initial.state, target.state)
    ensures algorithm == Unlisted ==> !pathFound
  {
    paths, pathFound, rank := map[], false, map[];
    match algorithm {
      case AStarSearch =>
        var dist;
        ghost var frontier;
        paths, pathFound, dist, frontier := AStar.AStar(initial, target, sq => ManhattanTo(target, sq));
        rank := dist;
      case DijkstrasAlgorithm =>
        var dist;
        ghost var frontier;
        paths, pathFound, dist, frontier := Dijkstra.DijkstrasAlgorithm(initial, target);
        rank := dist;
      case BreadthFirstSearch =>
        ghost var frontier;
        paths, pathFound, rank, frontier := BreadthFirst.Bfs(initial, target);
      case Unlisted =>
    }
  }

  /**
   * The body of executeRun once both squares are built: runs the chosen search and, when it
   * finds the target, reconstructs the path. A reported path is a list of legal moves from
   * the initial square to the target; any of the three searches reports none only when the
   * target is unreachable; an unlisted choice reports none.
   */
  method Solve(algorithm: Algorithm, initial: MysticSquare3, target: MysticSquare3) returns (report: Report)
    requires Made(initial) && Made(target)
    ensures report.Solution? ==> Walk(report.path, initial, target)
    ensures report.NoPath? && algorithm != Unlisted ==> !Reachable(initial.state, target.state)
    ensures algorithm == Unlisted ==> report.NoPath?
  {
    var paths, pathFound, rank := RunAlgorithm(algorithm, initial, target);
    if pathFound {
      var path := ReconstructPath(paths, rank, initial, target);
      report := Solution(path);
    } else {
      report := NoPath;
    }
  }

  /**
   * executeRun: fails without arguments or when either state is not a valid square;
   * otherwise runs the chosen search and reports either a path of legal moves from the
   * initial state to the target or, from any of the three searches, that none exists, in
   * which case the target is indeed unreachable.
   */
  method ExecuteRun(args: Option<RunArgs>) returns (r: Result<Report>)
    ensures args.None? ==> r.Failure?
    ensures args.Some? ==> (r.Success? <==> Valid(args.value.initialState) && Valid(args.value.targetState))
    ensures r.Success? && r.value.Solution? ==>
      var p := r.value.path;
      && |p| >= 1 && p[0].state == args.value.initialState && p[|p| - 1].state == args.value.targetState
      && Walk(p, p[0], p[|p| - 1])
    ensures r.Success? && r.value.NoPath? && args.value.algorithm != Unlisted ==>
      !Reachable(args.value.initialState, args.value.targetState)
    ensures r.Success? && args.value.algorithm == Unlisted ==> r.value.NoPath?
  {
    if args.None? {
      return Failure("args not provided");
    }
    var initialMysticSquare := NewMysticSquare3(args.value.initialState);
    var targetMysticSquare := NewMysticSquare3(args.value.targetState);
    if initialMysticSquare.Failure? || targetMysticSquare.Failure? {
      return Failure("initial or target states invalid");
    }
    var report := Solve(args.value.algorithm, initialMysticSquare.value, targetMysticSquare.value);
    r := Success(report);
  }
}
