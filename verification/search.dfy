/**
 * What the three searches share: the neighbours of a square in the order the searches
 * generate them, the predecessor map they return, paths of legal moves, and the bound on
 * the number of distinct valid states that makes every search terminate.
 */
module Search {
  import opened Wrappers
  import opened Lists
  import opened Square
  import opened SquareObject

  /** A square as NewMysticSquare builds it: a valid state with its own rendering as key. */
  predicate Made(sq: MysticSquare3) {
    Valid(sq.state) && sq.Key() == StateString(sq.state)
  }

  /** Squares built from the same state are the same square; different states have different keys. */
  lemma KeyIdentifies(a: MysticSquare3, b: MysticSquare3)
    requires Made(a) && Made(b)
    ensures a.Key() == b.Key() <==> a.state == b.state
    ensures a.state == b.state ==> a == b
  {
    StateStringInjective(a.state, b.state);
  }

  /** The square one blank move away in direction d, when the move is legal. */
  function Neighbour(current: MysticSquare3, d: Direction): (r: Option<MysticSquare3>)
    ensures r.Some? <==> Move(current.state, d).Some?
    ensures r.Some? ==> r.value.state == Move(current.state, d).value && Made(r.value)
  {
    match Move(current.RealState(), d)
    case None => None
    case Some(m) =>
      match NewMysticSquare3(m)
      case Success(sq) => Some(sq)
      case Failure(_) => None
  }

  /** The list with the square appended when there is one. */
  function Append(s: seq<MysticSquare3>, o: Option<MysticSquare3>): (r: seq<MysticSquare3>)
    ensures o.None? ==> r == s
    ensures o.Some? ==> r == s + [o.value]
  {
    match o
    case None => s
    case Some(sq) => s + [sq]
  }

  /**
   * The `adjacent` list every search builds: the squares one legal move away, in the
   * order left, right, up, down.
   */
  function Adjacent(current: MysticSquare3): (adjacent: seq<MysticSquare3>)
    ensures |adjacent| <= 4
  {
    var left := Append([], Neighbour(current, Left));
    var right := Append(left, Neighbour(current, Right));
    var up := Append(right, Neighbour(current, Up));
    Append(up, Neighbour(current, Down))
  }

  /** Every entry of `s` is a well-built square one legal move from `current`. */
  ghost predicate Successors(current: MysticSquare3, s: seq<MysticSquare3>) {
    && (forall i {:trigger Made(s[i])} :: 0 <= i < |s| ==> Made(s[i]))
    && (forall i {:trigger Step(current.state, s[i].state)} :: 0 <= i < |s| ==> Step(current.state, s[i].state))
  }

  /** Appending the neighbour in one direction keeps every entry a successor. */
  lemma AppendNeighbour(current: MysticSquare3, s: seq<MysticSquare3>, d: Direction)
    requires Successors(current, s)
    ensures Successors(current, Append(s, Neighbour(current, d)))
  {
    var o := Neighbour(current, d);
    if o.Some? {
      assert Move(current.state, d) == Some(o.value.state);
      assert Step(current.state, o.value.state) by {
        match d
        case Up =>
        case Down =>
        case Left =>
        case Right =>
      }
    }
  }

  /** The adjacent list holds exactly the one-move successors, each a well-built square. */
  lemma AdjacentSteps(current: MysticSquare3)
    ensures Successors(current, Adjacent(current))
    ensures var adjacent := Adjacent(current);
      forall b :: Step(current.state, b) ==> exists i :: 0 <= i < |adjacent| && adjacent[i].state == b
  {
    var l, r, u, d := Neighbour(current, Left), Neighbour(current, Right), Neighbour(current, Up), Neighbour(current, Down);
    AppendNeighbour(current, [], Left);
    AppendNeighbour(current, Append([], l), Right);
    AppendNeighbour(current, Append(Append([], l), r), Up);
    AppendNeighbour(current, Append(Append(Append([], l), r), u), Down);
    var adjacent := Adjacent(current);
    forall b | Step(current.state, b) ensures exists i :: 0 <= i < |adjacent| && adjacent[i].state == b {
      var o := if Move(current.state, Left) == Some(b) then l
        else if Move(current.state, Right) == Some(b) then r
        else if Move(current.state, Up) == Some(b) then u
        else d;
      assert o.Some? && o.value.state == b;
      assert o.value in adjacent;
      MemberIndex(adjacent, o.value);
    }
  }

  /** A member of a list of squares sits at some index. */
  lemma MemberIndex(s: seq<MysticSquare3>, x: MysticSquare3)
    requires x in s
    ensures exists i :: 0 <= i < |s| && s[i].state == x.state
  {
    var i :| 0 <= i < |s| && s[i] == x;
  }

  /** `path` starts at `from`, ends at `to` and each entry is one legal move from the one before. */
  ghost predicate IsPath(path: seq<State>, from: State, to: State) {
    && |path| >= 1 && path[0] == from && path[|path| - 1] == to
    && forall i :: 0 <= i < |path| - 1 ==> Step(path[i], path[i + 1])
  }

  /** Some sequence of legal moves leads from `from` to `to`. */
  ghost predicate Reachable(from: State, to: State) {
    exists path :: IsPath(path, from, to)
  }

  /** No legal move leads out of the set. */
  ghost predicate Closed(s: set<State>) {
    forall a, b :: a in s && Step(a, b) ==> b in s
  }

  /** A path that starts in a closed set stays in it. */
  lemma {:induction false} ClosedReach(s: set<State>, path: seq<State>, from: State, to: State)
    requires Closed(s) && from in s
    ensures IsPath(path, from, to) ==> to in s
    decreases |path|
  {
    if |path| >= 2 && IsPath(path, from, to) {
      var prefix := path[..|path| - 1];
      var last := prefix[|prefix| - 1];
      assert IsPath(prefix, from, last);
      ClosedReach(s, prefix, from, last);
      assert Step(last, to);
    }
  }

  /** A state outside a closed set that holds `from` cannot be reached from `from`. */
  lemma Unreachable(s: set<State>, from: State, to: State)
    requires Closed(s) && from in s && to !in s
    ensures !Reachable(from, to)
  {
    forall path ensures !IsPath(path, from, to) {
      ClosedReach(s, path, from, to);
    }
  }

  /** The predecessor map of a search, keyed by state; None marks the root. */
  type Paths = map<State, Option<MysticSquare3>>

  /** k's entry names a predecessor that has an entry too, at a lower rank. */
  ghost predicate Linked(paths: Paths, rank: map<State, int>, k: State) {
    && k in paths && k in rank && paths[k].Some?
    && paths[k].value.state in paths && paths[k].value.state in rank
    && rank[paths[k].value.state] < rank[k]
  }

  /**
   * The predecessor map hangs from `root`: the root maps to None, every other state to a
   * predecessor of lower rank, so following predecessors always ends at the root.
   */
  ghost predicate Ranked(paths: Paths, rank: map<State, int>, root: State) {
    && root in paths && paths[root] == None
    && (forall k :: k in paths ==> k in rank && 0 <= rank[k])
    && (forall k :: k in paths && k != root ==> Linked(paths, rank, k))
  }

  /** `p` is a well-built square from which one legal move leads to `k`. */
  ghost predicate LegalLink(k: State, p: MysticSquare3) {
    Made(p) && Step(p.state, k)
  }

  /** Every recorded predecessor is one legal move before the state it is recorded for. */
  ghost predicate Legal(paths: Paths, root: State) {
    forall k {:trigger LegalLink(k, paths[k].value)} ::
      k in paths && k != root && paths[k].Some? ==> LegalLink(k, paths[k].value)
  }

  /** The predecessor map of a search: ranked towards the root, each link a legal move. */
  ghost predicate Tree(paths: Paths, rank: map<State, int>, root: State) {
    Ranked(paths, rank, root) && Legal(paths, root)
  }

  /** `rank'` is `rank` with k given rank r. */
  ghost predicate Reranked(rank: map<State, int>, k: State, r: int, rank': map<State, int>) {
    && k in rank' && rank'[k] == r
    && forall x :: x != k ==> (x in rank' <==> x in rank) && (x in rank' ==> rank'[x] == rank[x])
  }

  /** Giving k two ranks in a row leaves it with the second. */
  lemma RerankedTwice(rank: map<State, int>, k: State, m: int, r: int, rank1: map<State, int>, rank': map<State, int>)
    requires Reranked(rank, k, m, rank1) && Reranked(rank1, k, r, rank')
    ensures Reranked(rank, k, r, rank')
  {
  }

  /**
   * Recording `p` as the predecessor of `k` at rank r, above p's rank and no higher than
   * k's old rank, keeps the ranking. (The updated maps are passed in as `paths'` and
   * `rank'`.)
   */
  lemma RankedSet(paths: Paths, rank: map<State, int>, root: State, k: State, p: MysticSquare3, r: int,
                  paths': Paths, rank': map<State, int>)
    requires Ranked(paths, rank, root) && k != root
    requires p.state in paths && rank[p.state] < r && p.state != k
    requires k in paths ==> r <= rank[k]
    requires paths' == paths[k := Some(p)] && Reranked(rank, k, r, rank')
    ensures Ranked(paths', rank', root)
  {
    forall x | x in paths' && x != root ensures Linked(paths', rank', x) {
      if x == k {
        assert rank'[p.state] == rank[p.state];
      } else {
        assert Linked(paths, rank, x);
        var y := paths[x].value.state;
        assert paths'[x] == paths[x] && rank'[x] == rank[x];
        assert rank'[y] <= rank[y];
      }
    }
  }

  /** Recording a legal predecessor keeps every link legal. */
  lemma LegalSet(paths: Paths, root: State, k: State, p: MysticSquare3, paths': Paths)
    requires Legal(paths, root) && LegalLink(k, p) && paths' == paths[k := Some(p)]
    ensures Legal(paths', root)
  {
  }

  /** Recording `p` as k's predecessor, if anything is recorded, keeps every link legal. */
  lemma LegalMaybeSet(paths: Paths, root: State, k: State, p: MysticSquare3, paths': Paths)
    requires Legal(paths, root) && LegalLink(k, p)
    requires paths' == paths || paths' == paths[k := Some(p)]
    ensures Legal(paths', root)
  {
    if paths' != paths {
      LegalSet(paths, root, k, p, paths');
    }
  }

  /**
   * `p` may become the predecessor of `k` at rank r: k is not the root, one legal move
   * leads from p to k, p has an entry of lower rank, and k's old rank, if any, is no lower.
   */
  ghost predicate Graft(paths: Paths, rank: map<State, int>, root: State, k: State, p: MysticSquare3, r: int) {
    && k != root && LegalLink(k, p)
    && p.state in paths && p.state in rank && rank[p.state] < r
    && (k in paths && k in rank ==> r <= rank[k])
  }

  /** Recording `p` as k's predecessor where Graft allows it keeps the tree. */
  lemma TreeSet(paths: Paths, rank: map<State, int>, root: State, k: State, p: MysticSquare3, r: int,
                paths': Paths, rank': map<State, int>)
    requires Tree(paths, rank, root) && Graft(paths, rank, root, k, p, r)
    requires paths' == paths[k := Some(p)] && rank' == rank[k := r]
    ensures Tree(paths', rank', root)
  {
    StepSymmetric(p.state, k);
    RankedSet(paths, rank, root, k, p, r, paths', rank');
    LegalSet(paths, root, k, p, paths');
  }

  /** With a valid root, every state with an entry is valid. */
  lemma TreeValid(paths: Paths, rank: map<State, int>, root: State)
    requires Tree(paths, rank, root) && Valid(root)
    ensures forall k :: k in paths ==> Valid(k)
  {
    forall k | k in paths && k != root ensures Valid(k) {
      assert Linked(paths, rank, k) && LegalLink(k, paths[k].value);
      StepSymmetric(paths[k].value.state, k);
    }
  }

  /** Following predecessors from any state with an entry back to the root gives a path. */
  lemma {:induction false} TreePath(paths: Paths, rank: map<State, int>, root: State, k: State)
    returns (path: seq<State>)
    requires Tree(paths, rank, root) && k in paths
    ensures IsPath(path, root, k)
    decreases rank[k]
  {
    if k == root {
      path := [root];
    } else {
      assert Linked(paths, rank, k) && LegalLink(k, paths[k].value);
      var p := paths[k].value.state;
      var prefix := TreePath(paths, rank, root, p);
      PathSnoc(prefix, root, p, k);
      path := prefix + [k];
    }
  }

  /** A path extended by one legal move is a path. */
  lemma PathSnoc(path: seq<State>, from: State, p: State, k: State)
    requires IsPath(path, from, p) && Step(p, k)
    ensures IsPath(path + [k], from, k)
  {
    var path' := path + [k];
    forall i | 0 <= i < |path'| - 1 ensures Step(path'[i], path'[i + 1]) {
      if i < |path| - 1 {
        assert path'[i] == path[i] && path'[i + 1] == path[i + 1];
      }
    }
  }

  /** No list entry occurs twice. */
  ghost predicate Distinct(s: seq<State>) {
    forall i, j :: 0 <= i < j < |s| ==> s[i] != s[j]
  }

  /** The states of a list of squares, in order. */
  function States(s: seq<MysticSquare3>): (r: seq<State>)
    ensures |r| == |s| && forall i :: 0 <= i < |s| ==> r[i] == s[i].state
  {
    if s == [] then [] else States(s[..|s| - 1]) + [s[|s| - 1].state]
  }

  /** The states of a list of squares split into the first and the rest. */
  lemma StatesCons(s: seq<MysticSquare3>)
    requires |s| > 0
    ensures States(s) == [s[0].state] + States(s[1..])
  {
  }

  /** Appending a square appends its state. */
  lemma StatesSnoc(s: seq<MysticSquare3>, x: MysticSquare3)
    ensures States(s + [x]) == States(s) + [x.state]
  {
  }

  /** Queueing a square keeps every pending state pending and makes the square's state pending. */
  lemma PendingSnoc(c: State, items: seq<MysticSquare3>, sq: MysticSquare3, items': seq<MysticSquare3>)
    requires items' == items + [sq]
    ensures forall x :: x in [c] + States(items) ==> x in [c] + States(items')
    ensures sq.state in [c] + States(items')
  {
    StatesSnoc(items, sq);
  }

  /**
   * `pushed` logs the keys of `paths` in the order they were written, the root first,
   * each exactly once.
   */
  ghost predicate Log(paths: Paths, pushed: seq<State>, root: State) {
    && |pushed| >= 1 && pushed[0] == root && Distinct(pushed)
    && forall k :: k in paths <==> k in pushed
  }

  /** Writing a new key and logging it keeps the log exact. */
  lemma LogAdd(paths: Paths, pushed: seq<State>, root: State, k: State, v: Option<MysticSquare3>)
    requires Log(paths, pushed, root) && k !in paths
    ensures Log(paths[k := v], pushed + [k], root)
  {
  }

  /** Every state with an entry in `paths` is expanded or still pending. */
  ghost predicate Covered(paths: Paths, expanded: set<State>, pending: seq<State>) {
    forall k :: k in paths ==> k in expanded || k in pending
  }

  /**
   * Expanded states have entries, so do all their one-move successors, and the target
   * is not among them.
   */
  ghost predicate Explored(expanded: set<State>, paths: Paths, target: State) {
    && (forall k :: k in expanded ==> k in paths)
    && (forall a, b :: a in expanded && Step(a, b) ==> b in paths)
    && target !in expanded
  }

  /** Giving one more state an entry keeps the expanded states explored. */
  lemma ExploredAdd(expanded: set<State>, paths: Paths, target: State, k: State, v: Option<MysticSquare3>, paths': Paths)
    requires Explored(expanded, paths, target) && paths' == paths[k := v]
    ensures Explored(expanded, paths', target)
  {
  }

  /** A new entry for a state that is pending keeps every entry covered. */
  lemma CoveredAdd(paths: Paths, expanded: set<State>, pending: seq<State>, k: State, v: Option<MysticSquare3>,
                   paths': Paths, pending': seq<State>)
    requires Covered(paths, expanded, pending) && paths' == paths[k := v]
    requires (forall x :: x in pending ==> x in pending') && k in pending'
    ensures Covered(paths', expanded, pending')
  {
    forall x | x in paths' ensures x in expanded || x in pending' {
      if x != k {
        assert x in paths;
      }
    }
  }

  /** The first j adjacent squares have entries in `paths`. */
  ghost predicate Handled(adjacent: seq<MysticSquare3>, j: int, paths: Paths)
    requires 0 <= j <= |adjacent|
  {
    forall i :: 0 <= i < j ==> adjacent[i].state in paths
  }

  /** A square that already has an entry needs nothing more. */
  lemma HandledNext(adjacent: seq<MysticSquare3>, j: int, paths: Paths)
    requires 0 <= j < |adjacent| && Handled(adjacent, j, paths) && adjacent[j].state in paths
    ensures Handled(adjacent, j + 1, paths)
  {
  }

  /** When every square of Adjacent(cur) has an entry, so does every one-move successor of cur. */
  lemma AdjacentEntered(paths: Paths, cur: MysticSquare3)
    requires var adjacent := Adjacent(cur); forall i :: 0 <= i < |adjacent| ==> adjacent[i].state in paths
    ensures forall b :: Step(cur.state, b) ==> b in paths
  {
    AdjacentSteps(cur);
    var adjacent := Adjacent(cur);
    forall b | Step(cur.state, b) ensures b in paths {
      var i :| 0 <= i < |adjacent| && adjacent[i].state == b;
    }
  }

  /** Expanding a state all of whose successors have entries keeps the expanded states explored. */
  lemma ExploredExpand(paths: Paths, expanded: set<State>, target: State, cur: MysticSquare3)
    requires Explored(expanded, paths, target) && cur.state in paths && cur.state != target
    requires var adjacent := Adjacent(cur); forall i :: 0 <= i < |adjacent| ==> adjacent[i].state in paths
    ensures Explored(expanded + {cur.state}, paths, target)
  {
    AdjacentEntered(paths, cur);
  }

  /** Expanding a pending state whose successors all have entries keeps the frontier invariants. */
  lemma Expand(paths: Paths, expanded: set<State>, target: State, cur: MysticSquare3, rest: seq<State>)
    requires Covered(paths, expanded, [cur.state] + rest) && Explored(expanded, paths, target)
    requires cur.state in paths && cur.state != target
    requires var adjacent := Adjacent(cur); forall i :: 0 <= i < |adjacent| ==> adjacent[i].state in paths
    ensures Covered(paths, expanded + {cur.state}, rest) && Explored(expanded + {cur.state}, paths, target)
  {
    ExploredExpand(paths, expanded, target, cur);
  }

  /** When nothing is pending the entries are closed under moves; a target outside them is unreachable. */
  lemma Exhausted(paths: Paths, expanded: set<State>, root: State, target: State)
    requires Covered(paths, expanded, []) && Explored(expanded, paths, target) && root in paths
    ensures !Reachable(root, target)
  {
    assert Closed(paths.Keys);
    Unreachable(paths.Keys, root, target);
  }

  // ---------------------------------------------------------------------
  // There are at most 9^9 valid states: each is a distinct base-9 numeral.

  function Pow9(k: nat): nat {
    if k == 0 then 1 else 9 * Pow9(k - 1)
  }

  /** 9^9: more than the number of valid states, far below the largest 64-bit integer. */
  const StateBound: nat := 387420489

  /** Positions p..9 of a valid state read as a base-9 numeral, position p the lowest digit. */
  function CodeFrom(m: State, p: int): (c: nat)
    requires Valid(m) && 1 <= p <= 10
    ensures c < Pow9(10 - p)
    decreases 10 - p
  {
    if p == 10 then 0 else (m[p] - 1) + 9 * CodeFrom(m, p + 1)
  }

  /** States with the same numeral from p on agree on positions p..9. */
  lemma {:induction false} CodeFromInjective(a: State, b: State, p: int)
    requires Valid(a) && Valid(b) && 1 <= p <= 10
    requires CodeFrom(a, p) == CodeFrom(b, p)
    ensures forall q :: p <= q <= 9 ==> a[q] == b[q]
    decreases 10 - p
  {
    if p < 10 {
      var ca, cb := CodeFrom(a, p + 1), CodeFrom(b, p + 1);
      var da, db := a[p] - 1, b[p] - 1;
      assert da + 9 * ca == db + 9 * cb;
      assert 0 <= da < 9 && 0 <= db < 9;
      DigitsAgree(da, db, ca, cb);
      CodeFromInjective(a, b, p + 1);
    }
  }

  /** Base-9 numerals with equal values have equal lowest digits and equal rests. */
  lemma DigitsAgree(da: int, db: int, ca: int, cb: int)
    requires 0 <= da < 9 && 0 <= db < 9 && da + 9 * ca == db + 9 * cb
    ensures da == db && ca == cb
  {
    assert 9 * (ca - cb) == db - da;
  }

  /** The numeral of a state, counted from 1. */
  function Code(m: State): (c: int)
    requires Valid(m)
    ensures 1 <= c <= StateBound
  {
    assert Pow9(9) == StateBound;
    CodeFrom(m, 1) + 1
  }

  /** Different valid states have different numerals. */
  lemma CodeInjective(a: State, b: State)
    requires Valid(a) && Valid(b)
    ensures Code(a) == Code(b) ==> a == b
  {
    if Code(a) == Code(b) {
      CodeFromInjective(a, b, 1);
      SameEntries(a, b);
    }
  }

  /** The elements of a finite set of states, listed once each. */
  lemma {:induction false} Enumerate(s: set<State>) returns (list: seq<State>)
    ensures |list| == |s| && Distinct(list)
    ensures forall i :: 0 <= i < |list| ==> list[i] in s
    decreases |s|
  {
    if s == {} {
      list := [];
    } else {
      var x :| x in s;
      var rest := Enumerate(s - {x});
      list := rest + [x];
    }
  }

  /** A set of valid states has at most StateBound elements. */
  lemma StatesBound(s: set<State>)
    requires forall m :: m in s ==> Valid(m)
    ensures |s| <= StateBound
  {
    var list := Enumerate(s);
    var codes := seq(|list|, i requires 0 <= i < |list| => Code(list[i]));
    forall i, j | 0 <= i < j < |codes| ensures codes[i] != codes[j] {
      CodeInjective(list[i], list[j]);
    }
    BoundedNoDup(codes, StateBound);
  }
}
