/**
 * The 3x3 mystic square: a position -> value map over positions 1..9 (row-major),
 * with value 9 standing for the blank. Moves slide the blank to a neighbouring
 * position and always build a new map; the receiver is a value and never changes.
 */
module Square {
  import opened Wrappers
  import opened Lists

  /** Position (1..9, row-major) to tile value (1..9; 9 is the blank). */
  type State = map<int, int>

  /** The tile value that stands for the empty cell. */
  const Blank: int := 9

  /** No value sits at two positions. */
  predicate Injective(m: State) {
    forall p, q :: p in m && q in m && m[p] == m[q] ==> p == q
  }

  /**
   * A state is valid when its keys are exactly the positions 1..9, every value lies in
   * 1..9 and no value repeats; ValidSurjective shows that every value then occurs.
   */
  predicate Valid(m: State) {
    && (forall p :: p in m ==> 1 <= p <= 9)
    && (forall p :: 1 <= p <= 9 ==> p in m)
    && (forall p :: p in m ==> 1 <= m[p] <= 9)
    && Injective(m)
  }

  /** The values at positions 1..9, in order (0 where a position is missing). */
  function Cells(m: State): (c: seq<int>)
    ensures |c| == 9
    ensures forall i :: 0 <= i < 9 ==> c[i] == if i + 1 in m then m[i + 1] else 0
  {
    seq(9, i => if i + 1 in m then m[i + 1] else 0)
  }

  /** A valid state has exactly nine entries. */
  lemma ValidSize(m: State)
    requires Valid(m)
    ensures |m| == 9
  {
    RangeMembers(9);
    RangeCard(9);
    assert m.Keys <= Range(9) by {
      forall p | p in m.Keys ensures p in Range(9) { }
    }
    assert Range(9) <= m.Keys by {
      forall p | p in Range(9) ensures p in m.Keys { }
    }
    assert m.Keys == Range(9);
  }

  /** First position at or after `p` (up to 9) holding `v`, or -1. */
  function PositionFrom(m: State, v: int, p: int): (r: int)
    requires 1 <= p <= 10
    ensures r == -1 <==> forall q :: p <= q <= 9 ==> q !in m || m[q] != v
    ensures r != -1 ==> p <= r <= 9 && r in m && m[r] == v
    decreases 10 - p
  {
    if p == 10 then -1
    else if p in m && m[p] == v then p
    else PositionFrom(m, v, p + 1)
  }

  /** Every tile value occurs in a valid state (nine distinct values from 1..9). */
  lemma ValidSurjective(m: State, v: int)
    requires Valid(m) && 1 <= v <= 9
    ensures PositionFrom(m, v, 1) != -1
  {
    var c := Cells(m);
    assert NoDup(c) by {
      forall i, j | 0 <= i < j < |c| ensures c[i] != c[j] {
        assert c[i] == m[i + 1] && c[j] == m[j + 1];
      }
    }
    assert forall i :: 0 <= i < |c| ==> 1 <= c[i] <= |c| by {
      forall i | 0 <= i < |c| ensures 1 <= c[i] <= |c| {
        assert i + 1 in m;
      }
    }
    Pigeonhole(c);
    assert v in c;
    var i :| 0 <= i < |c| && c[i] == v;
    assert m[i + 1] == v;
  }

  /** The unique position of value `v` in a valid state. */
  function PositionOf(m: State, v: int): (r: int)
    requires Valid(m) && 1 <= v <= 9
    ensures 1 <= r <= 9 && r in m && m[r] == v
    ensures forall q :: q in m && m[q] == v ==> q == r
  {
    ValidSurjective(m, v);
    PositionFrom(m, v, 1)
  }

  // ---------------------------------------------------------------------
  // ValidateState, written as the source's loop with its find/remove helpers.
  // Go visits the entries of a map in an unspecified order; `order` is that
  // order: every key exactly once.

  /** `order` lists every key of `m` exactly once. */
  predicate IsOrder(m: State, order: seq<int>) {
    && NoDup(order)
    && (forall i :: 0 <= i < |order| ==> order[i] in m)
    && (forall k :: k in m ==> k in order)
  }

  /** An iteration order has one step per entry. */
  lemma OrderLength(m: State, order: seq<int>)
    requires IsOrder(m, order)
    ensures |order| == |m|
  {
    ElemsCard(order);
    assert Elems(order) <= m.Keys by {
      forall k | k in Elems(order) ensures k in m.Keys { }
    }
    assert m.Keys <= Elems(order) by {
      forall k | k in m.Keys ensures k in Elems(order) { }
    }
    assert Elems(order) == m.Keys;
  }

  /** The keys of `m` in increasing order, one iteration order that always exists. */
  function SortedKeys(m: State): (order: seq<int>)
    requires Valid(m)
    ensures IsOrder(m, order)
  {
    [1, 2, 3, 4, 5, 6, 7, 8, 9]
  }

  /** Index of the first occurrence of `value` in `a`, or -1 (the `find` helper). */
  method Find(a: seq<int>, value: int) returns (index: int)
    ensures index == -1 <==> value !in a
    ensures index != -1 ==> 0 <= index < |a| && a[index] == value && value !in a[..index]
  {
    index := 0;
    while index < |a|
      invariant 0 <= index <= |a|
      invariant value !in a[..index]
    {
      if a[index] == value {
        return;
      }
      index := index + 1;
    }
    index := -1;
  }

  /** Drops the first occurrence of `value` from `a`, if any (the `remove` helper). */
  method Remove(a: seq<int>, value: int) returns (r: seq<int>)
    ensures value !in a ==> r == a
    ensures value in a ==> |r| == |a| - 1
    ensures NoDup(a) ==> NoDup(r) && forall x :: x in r <==> x in a && x != value
  {
    var idx := Find(a, value);
    if idx >= 0 && idx < |a| {
      r := a[..idx] + a[idx + 1..];
      if NoDup(a) {
        RemoveAt(a, idx);
      }
    } else {
      r := a;
    }
  }

  /** Cutting index `i` out of a list without duplicates removes exactly `a[i]`. */
  lemma RemoveAt(a: seq<int>, i: int)
    requires NoDup(a) && 0 <= i < |a|
    ensures var r := a[..i] + a[i + 1..];
      && NoDup(r) && forall x :: x in r <==> x in a && x != a[i]
  {
    var r := a[..i] + a[i + 1..];
    assert forall j :: 0 <= j < |r| ==> r[j] == if j < i then a[j] else a[j + 1];
    forall x | x in r ensures x in a && x != a[i] {
      var j :| 0 <= j < |r| && r[j] == x;
    }
    forall x | x in a && x != a[i] ensures x in r {
      var j :| 0 <= j < |a| && a[j] == x;
      if j < i {
        assert r[j] == x;
      } else {
        assert r[j - 1] == x;
      }
    }
  }

  /**
   * ValidateState: the map must have nine entries, and visiting every entry (in the
   * iteration order `order`) must strike its key off a list of the positions 1..9 and
   * its value off a list of the values 1..9, leaving both lists empty. The verdict
   * coincides with Valid whatever the iteration order.
   */
  method ValidateState(board: State, order: seq<int>) returns (validState: bool)
    requires IsOrder(board, order)
    ensures validState <==> Valid(board)
  {
    if |board| != 9 {
      validState := false;
      if Valid(board) {
        ValidSize(board);
      }
      return;
    }
    OrderLength(board, order);
    var positions := [1, 2, 3, 4, 5, 6, 7, 8, 9];
    var values := [1, 2, 3, 4, 5, 6, 7, 8, 9];
    ghost var seen: seq<int> := [];
    var i := 0;
    while i < |order|
      invariant 0 <= i <= |order|
      invariant NoDup(positions) && NoDup(values)
      invariant forall x :: x in positions <==> 1 <= x <= 9 && x !in order[..i]
      invariant |seen| == i
      invariant forall j :: 0 <= j < i ==> seen[j] == board[order[j]]
      invariant forall x :: x in values <==> 1 <= x <= 9 && x !in seen
    {
      var key := order[i];
      var value := board[key];
      positions := Remove(positions, key);
      values := Remove(values, value);
      assert order[..i + 1] == order[..i] + [key];
      seen := seen + [value];
      i := i + 1;
    }
    assert order[..i] == order;
    Unvisited(positions, order);
    Unvisited(values, seen);
    validState := |positions| == 0 && |values| == 0;
    Verdict(board, order, seen);
  }

  /** A list of the tiles not yet seen is empty exactly when every tile was seen. */
  lemma Unvisited(rest: seq<int>, seen: seq<int>)
    requires forall x :: x in rest <==> 1 <= x <= 9 && x !in seen
    ensures |rest| == 0 <==> forall x :: 1 <= x <= 9 ==> x in seen
  {
    if |rest| == 0 {
      forall x | 1 <= x <= 9 ensures x in seen {
        assert x !in rest;
      }
    } else {
      var x := rest[0];
      assert x in rest;
      assert 1 <= x <= 9 && x !in seen;
    }
  }

  /**
   * After every entry has been visited, "every position was struck off and every value
   * was struck off" is exactly validity.
   */
  lemma Verdict(board: State, order: seq<int>, seen: seq<int>)
    requires IsOrder(board, order) && |order| == 9 && |seen| == 9
    requires forall j :: 0 <= j < 9 ==> seen[j] == board[order[j]]
    ensures ((forall x :: 1 <= x <= 9 ==> x in order) && (forall x :: 1 <= x <= 9 ==> x in seen))
      <==> Valid(board)
  {
    if Valid(board) {
      VerdictOfValid(board, order, seen);
    }
    if (forall x :: 1 <= x <= 9 ==> x in order) && (forall x :: 1 <= x <= 9 ==> x in seen) {
      ValidOfVerdict(board, order, seen);
    }
  }

  lemma VerdictOfValid(board: State, order: seq<int>, seen: seq<int>)
    requires IsOrder(board, order) && |order| == 9 && |seen| == 9
    requires forall j :: 0 <= j < 9 ==> seen[j] == board[order[j]]
    requires Valid(board)
    ensures forall x :: 1 <= x <= 9 ==> x in order
    ensures forall x :: 1 <= x <= 9 ==> x in seen
  {
    forall j | 0 <= j < 9 ensures 1 <= seen[j] <= 9 {
      assert order[j] in board;
    }
    forall i, j | 0 <= i < j < 9 ensures seen[i] != seen[j] {
      assert order[i] != order[j];
    }
    Pigeonhole(seen);
  }

  lemma ValidOfVerdict(board: State, order: seq<int>, seen: seq<int>)
    requires IsOrder(board, order) && |order| == 9 && |seen| == 9
    requires forall j :: 0 <= j < 9 ==> seen[j] == board[order[j]]
    requires forall x :: 1 <= x <= 9 ==> x in order
    requires forall x :: 1 <= x <= 9 ==> x in seen
    ensures Valid(board)
  {
    Cover(order);
    Cover(seen);
    forall p | 1 <= p <= 9 ensures p in board {
      assert p in order;
      var j :| 0 <= j < 9 && order[j] == p;
    }
    forall p | p in board ensures 1 <= p <= 9 && 1 <= board[p] <= 9 {
      var j :| 0 <= j < 9 && order[j] == p;
      assert seen[j] == board[p];
    }
    forall p, q | p in board && q in board && board[p] == board[q] ensures p == q {
      var i :| 0 <= i < 9 && order[i] == p;
      var j :| 0 <= j < 9 && order[j] == q;
      assert seen[i] == seen[j];
    }
  }

  // ---------------------------------------------------------------------
  // Blank lookup

  /** The blank's position in a valid state is visited by every iteration order. */
  lemma BlankInOrder(m: State, order: seq<int>)
    requires Valid(m) && IsOrder(m, order)
    ensures PositionOf(m, Blank) in order
  {
  }

  /**
   * FindEmptySpace: visits the entries in the iteration order and returns the first key
   * holding the blank, or -1 when no entry does; on a valid state that is the blank's
   * unique position. (On a map that is not a state, a key -1 holding the blank is
   * returned like the "not found" answer.)
   */
  method FindEmptySpace(m: State, order: seq<int>) returns (emptySpace: int)
    requires IsOrder(m, order)
    ensures (forall k :: k in m ==> m[k] != Blank) ==> emptySpace == -1
    ensures (forall k :: k in m ==> m[k] != Blank) ||
      exists i :: 0 <= i < |order| && order[i] == emptySpace && m[order[i]] == Blank &&
        forall j :: 0 <= j < i ==> m[order[j]] != Blank
    ensures emptySpace != -1 ==> emptySpace in m && m[emptySpace] == Blank
    ensures Valid(m) ==> emptySpace == PositionOf(m, Blank)
  {
    ghost var b := if Valid(m) then PositionOf(m, Blank) else -1;
    if Valid(m) {
      BlankInOrder(m, order);
    }
    emptySpace := -1;
    var i := 0;
    while i < |order|
      invariant 0 <= i <= |order|
      invariant forall j :: 0 <= j < i ==> m[order[j]] != Blank
      invariant Valid(m) ==> b in order[i..]
    {
      if m[order[i]] == Blank {
        emptySpace := order[i];
        return;
      }
      assert order[i..] == [order[i]] + order[i + 1..];
      i := i + 1;
    }
    forall k | k in m ensures m[k] != Blank {
      var j :| 0 <= j < |order| && order[j] == k;
    }
  }

  // ---------------------------------------------------------------------
  // Adjacency and moves

  datatype Direction = Up | Down | Left | Right

  /**
   * MapKeyToNewKey: where the blank goes from position `p` in direction `d`, if the
   * table has an entry. The table is that of the 3x3 grid (AdjacencyTable lists it).
   */
  function Neighbor(p: int, d: Direction): (r: Option<int>)
    ensures r.Some? ==> 1 <= p <= 9 && 1 <= r.value <= 9 && r.value != p
  {
    if !(1 <= p <= 9) then None
    else
      match d
      case Up => if p > 3 then Some(p - 3) else None
      case Down => if p < 7 then Some(p + 3) else None
      case Left => if p != 1 && p != 4 && p != 7 then Some(p - 1) else None
      case Right => if p != 3 && p != 6 && p != 9 then Some(p + 1) else None
  }

  /** The adjacency table entry by entry. */
  lemma AdjacencyTable()
    ensures Neighbor(1, Up) == None && Neighbor(1, Down) == Some(4) && Neighbor(1, Left) == None && Neighbor(1, Right) == Some(2)
    ensures Neighbor(2, Up) == None && Neighbor(2, Down) == Some(5) && Neighbor(2, Left) == Some(1) && Neighbor(2, Right) == Some(3)
    ensures Neighbor(3, Up) == None && Neighbor(3, Down) == Some(6) && Neighbor(3, Left) == Some(2) && Neighbor(3, Right) == None
    ensures Neighbor(4, Up) == Some(1) && Neighbor(4, Down) == Some(7) && Neighbor(4, Left) == None && Neighbor(4, Right) == Some(5)
    ensures Neighbor(5, Up) == Some(2) && Neighbor(5, Down) == Some(8) && Neighbor(5, Left) == Some(4) && Neighbor(5, Right) == Some(6)
    ensures Neighbor(6, Up) == Some(3) && Neighbor(6, Down) == Some(9) && Neighbor(6, Left) == Some(5) && Neighbor(6, Right) == None
    ensures Neighbor(7, Up) == Some(4) && Neighbor(7, Down) == None && Neighbor(7, Left) == None && Neighbor(7, Right) == Some(8)
    ensures Neighbor(8, Up) == Some(5) && Neighbor(8, Down) == None && Neighbor(8, Left) == Some(7) && Neighbor(8, Right) == Some(9)
    ensures Neighbor(9, Up) == Some(6) && Neighbor(9, Down) == None && Neighbor(9, Left) == Some(8) && Neighbor(9, Right) == None
    ensures forall p, d :: !(1 <= p <= 9) ==> Neighbor(p, d) == None
  {
  }

  /** Zero-based grid row and column of a position. */
  function RowOf(p: int): int { (p - 1) / 3 }
  function ColOf(p: int): int { (p - 1) % 3 }

  function Opposite(d: Direction): Direction {
    match d
    case Up => Down
    case Down => Up
    case Left => Right
    case Right => Left
  }

  /**
   * The table is the 3x3 grid: up/down change the row by one and keep the column,
   * left/right change the column by one and keep the row, and an entry is missing
   * exactly at the border it would cross.
   */
  lemma NeighborGeometry(p: int, d: Direction)
    requires 1 <= p <= 9
    ensures Neighbor(p, d).Some? <==>
      match d
      case Up => RowOf(p) > 0
      case Down => RowOf(p) < 2
      case Left => ColOf(p) > 0
      case Right => ColOf(p) < 2
    ensures Neighbor(p, d).Some? ==>
      var q := Neighbor(p, d).value;
      && 1 <= q <= 9 && q != p
      && match d
        case Up => RowOf(q) == RowOf(p) - 1 && ColOf(q) == ColOf(p)
        case Down => RowOf(q) == RowOf(p) + 1 && ColOf(q) == ColOf(p)
        case Left => RowOf(q) == RowOf(p) && ColOf(q) == ColOf(p) - 1
        case Right => RowOf(q) == RowOf(p) && ColOf(q) == ColOf(p) + 1
  {
  }

  /** The table is symmetric: going one way and then the opposite way comes back. */
  lemma NeighborSymmetric(p: int, d: Direction)
    requires Neighbor(p, d).Some?
    ensures Neighbor(Neighbor(p, d).value, Opposite(d)) == Some(p)
  {
  }

  /** Exchanging the values at two positions of a valid state leaves it valid. */
  lemma SwapValid(m: State, a: int, b: int)
    requires Valid(m) && a in m && b in m
    ensures var r := m[a := m[b]][b := m[a]];
      && Valid(r) && r[a] == m[b] && r[b] == m[a]
      && (forall p :: p in m && p != a && p != b ==> r[p] == m[p])
  {
  }

  function Move(m: State, d: Direction): (r: Option<State>)
    ensures r.Some? <==> Valid(m) && Neighbor(PositionOf(m, Blank), d).Some?
    ensures r.Some? ==>
      var b := PositionOf(m, Blank);
      var n := Neighbor(b, d).value;
      && Valid(r.value)
      && r.value[b] == m[n] && r.value[n] == Blank
      && (forall p :: p in m && p != b && p != n ==> r.value[p] == m[p])
  {
    if !Valid(m) then None
    else
      var b := PositionOf(m, Blank);
      match Neighbor(b, d)
      case None => None
      case Some(n) =>
        SwapValid(m, b, n);
        Some(m[b := m[n]][n := m[b]])
  }

  /** Moving in direction `d` and then in the opposite direction restores the state. */
  lemma MoveInverse(m: State, d: Direction)
    requires Move(m, d).Some?
    ensures Move(Move(m, d).value, Opposite(d)) == Some(m)
  {
    var b := PositionOf(m, Blank);
    var n := Neighbor(b, d).value;
    var m' := Move(m, d).value;
    assert PositionOf(m', Blank) == n;
    NeighborSymmetric(b, d);
    var back := Move(m', Opposite(d)).value;
    forall p | p in m ensures p in back && back[p] == m[p] {
      if p == b {
        assert back[b] == m'[n] == Blank == m[b];
      }
    }
    SameEntries(back, m);
  }

  /** Two states with the same keys and the same value at each key are equal. */
  lemma SameEntries(a: State, b: State)
    requires Valid(a) && Valid(b)
    requires forall p :: p in b ==> p in a && a[p] == b[p]
    ensures a == b
  {
    forall p | p in a ensures p in b { }
    forall p | p in b ensures p in a && a[p] == b[p] { }
  }

  /** A move always changes the state: the tile it slides is not the blank. */
  lemma MoveChanges(m: State, d: Direction)
    requires Move(m, d).Some?
    ensures Move(m, d).value != m
  {
    var b := PositionOf(m, Blank);
    var n := Neighbor(b, d).value;
    NeighborGeometry(b, d);
    assert Move(m, d).value[n] == Blank;
  }

  /** `b` is reachable from `a` by one legal blank move. */
  predicate Step(a: State, b: State) {
    Move(a, Up) == Some(b) || Move(a, Down) == Some(b) ||
    Move(a, Left) == Some(b) || Move(a, Right) == Some(b)
  }

  /** One move joins two distinct valid states and can always be undone by one move. */
  lemma StepSymmetric(a: State, b: State)
    requires Step(a, b)
    ensures Step(b, a) && Valid(a) && Valid(b) && a != b
  {
    var d := if Move(a, Up) == Some(b) then Up
      else if Move(a, Down) == Some(b) then Down
      else if Move(a, Left) == Some(b) then Left
      else Right;
    MoveInverse(a, d);
    MoveChanges(a, d);
  }

  // ---------------------------------------------------------------------
  // The state string used as the identity key

  /** A tile as rendered by strconv.Itoa, with the blank shown as a space. */
  function Cell(v: int): char
    requires 1 <= v <= 9
  {
    if v == Blank then ' ' else (48 + v) as char
  }

  /** Distinct tiles are rendered as distinct characters. */
  lemma CellInjective(v: int, w: int)
    requires 1 <= v <= 9 && 1 <= w <= 9 && Cell(v) == Cell(w)
    ensures v == w
  {
    assert Cell(v) as int == if v == Blank then 32 else 48 + v;
    assert Cell(w) as int == if w == Blank then 32 else 48 + w;
  }

  /** Every position holds a tile value: what the rendering needs. */
  predicate Filled(m: State) {
    forall p :: 1 <= p <= 9 ==> p in m && 1 <= m[p] <= 9
  }

  /** One row "a b c" of the rendering (the buildRow helper). */
  function Row(m: State, row: int): (s: string)
    requires Filled(m) && 1 <= row <= 3
    ensures |s| == 5 && s[1] == ' ' && s[3] == ' '
    ensures forall c :: 1 <= c <= 3 ==> s[2 * c - 2] == Cell(m[c + 3 * (row - 1)])
  {
    [Cell(m[1 + 3 * (row - 1)]), ' ', Cell(m[2 + 3 * (row - 1)]), ' ', Cell(m[3 + 3 * (row - 1)])]
  }

  /** The three rows joined by newlines. */
  function Grid(m: State): string
    requires Filled(m)
  {
    Row(m, 1) + "\n" + Row(m, 2) + "\n" + Row(m, 3)
  }

  /**
   * The grid has seventeen characters: position p's tile at index 2(p-1), spaces
   * between the cells of a row and newlines between the rows.
   */
  lemma GridLayout(m: State)
    requires Filled(m)
    ensures var s := Grid(m);
      && |s| == 17
      && (forall p :: 1 <= p <= 9 ==> s[2 * p - 2] == Cell(m[p]))
      && s[5] == '\n' && s[11] == '\n'
      && s[1] == s[3] == s[7] == s[9] == s[13] == s[15] == ' '
  {
    var s := Grid(m);
    var r1, r2, r3 := Row(m, 1), Row(m, 2), Row(m, 3);
    assert forall k :: 0 <= k < 5 ==> s[k] == r1[k] && s[6 + k] == r2[k] && s[12 + k] == r3[k];
    forall p | 1 <= p <= 9 ensures s[2 * p - 2] == Cell(m[p]) {
      if p <= 3 {
        assert s[2 * p - 2] == r1[2 * p - 2];
      } else if p <= 6 {
        assert s[2 * p - 2] == r2[2 * (p - 3) - 2];
      } else {
        assert s[2 * p - 2] == r3[2 * (p - 6) - 2];
      }
    }
  }

  /**
   * buildMysticSquare3StateString: the grid for a valid state, "Invalid State" for any
   * other map.
   */
  function StateString(m: State): (s: string)
    ensures !Valid(m) ==> s == "Invalid State"
    ensures Valid(m) ==> Filled(m) && s == Grid(m)
  {
    if Valid(m) then Grid(m) else "Invalid State"
  }

  /** Two valid states have the same string exactly when they are the same map. */
  lemma StateStringInjective(a: State, b: State)
    requires Valid(a) && Valid(b)
    ensures StateString(a) == StateString(b) <==> a == b
  {
    if StateString(a) == StateString(b) {
      GridLayout(a);
      GridLayout(b);
      forall p | p in b ensures p in a && a[p] == b[p] {
        assert Cell(a[p]) == StateString(a)[2 * p - 2] == Cell(b[p]);
        CellInjective(a[p], b[p]);
      }
      SameEntries(a, b);
    }
  }
}

/** The square object: a valid state together with its rendering. */
module SquareObject {
  import opened Wrappers
  import opened Square

  /** MysticSquare3: the state and its rendering, computed once at construction. */
  datatype MysticSquare3 = MysticSquare3(state: State, strState: string) {
    /** State(): the identity key. */
    function Key(): string { strState }
    /** RealState: the position -> value map (a copy in the source, a value here). */
    function RealState(): State { state }
  }

  /**
   * NewMysticSquare3 (and NewMysticSquare, which forwards to it): a square carrying its
   * state string when the map is valid, an error and no square when it is not.
   */
  function NewMysticSquare3(m: State): (r: Result<MysticSquare3>)
    ensures r.Success? <==> Valid(m)
    ensures r.Success? ==> r.value.RealState() == m && r.value.Key() == StateString(m)
  {
    if Valid(m) then
      Success(MysticSquare3(m, StateString(m)))
    else Failure("invalid state")
  }
}
