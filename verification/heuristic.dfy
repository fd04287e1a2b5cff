/**
 * The Manhattan-distance heuristic of the A* search: for every tile that is not the
 * blank and not where the target has it, the number of rows plus the number of columns
 * between its position and its position in the target.
 */
module Heuristic {
  import opened Wrappers
  import opened Square
  import opened SquareObject

  /** Integer absolute value (the source takes it of a float64 difference of small integers). */
  function Abs(x: int): (r: nat)
    ensures r == x || r == -x
  {
    if x < 0 then -x else x
  }

  /**
   * What position p contributes: nothing for the blank or for a tile already in place,
   * otherwise the rows plus the columns between p and where the target holds that tile.
   */
  function TileCost(cur: State, tgt: State, p: int): nat
    requires Valid(cur) && Valid(tgt) && 1 <= p <= 9
  {
    if cur[p] == tgt[p] || cur[p] == Blank then 0
    else
      var q := PositionOf(tgt, cur[p]);
      Abs(RowOf(p) - RowOf(q)) + Abs(ColOf(p) - ColOf(q))
  }

  /** The contributions of positions 1..k. */
  function CostUpTo(cur: State, tgt: State, k: int): nat
    requires Valid(cur) && Valid(tgt) && 0 <= k <= 9
  {
    if k == 0 then 0 else CostUpTo(cur, tgt, k - 1) + TileCost(cur, tgt, k)
  }

  /** The contributions of positions 1..k are those of 1..k-1 and that of k. */
  lemma CostUpToNext(cur: State, tgt: State, k: int)
    requires Valid(cur) && Valid(tgt) && 1 <= k <= 9
    ensures CostUpTo(cur, tgt, k) == CostUpTo(cur, tgt, k - 1) + TileCost(cur, tgt, k)
  {
  }

  /** The Manhattan distance of `cur` from `tgt`: the contributions of all nine positions. */
  function Manhattan(cur: State, tgt: State): nat
    requires Valid(cur) && Valid(tgt)
  {
    CostUpTo(cur, tgt, 9)
  }

  /** A position contributes exactly when it holds a tile, not the blank, out of place. */
  lemma TileCostPositive(cur: State, tgt: State, p: int)
    requires Valid(cur) && Valid(tgt) && 1 <= p <= 9
    ensures TileCost(cur, tgt, p) > 0 <==> cur[p] != tgt[p] && cur[p] != Blank
  {
    if cur[p] != tgt[p] && cur[p] != Blank {
      var q := PositionOf(tgt, cur[p]);
      assert q != p;
      assert p == 3 * RowOf(p) + ColOf(p) + 1 && q == 3 * RowOf(q) + ColOf(q) + 1;
    }
  }

  /** Position 3 * row + col + 1 lies in zero-based grid row `row` and column `col`. */
  lemma Coordinates(row: int, col: int)
    requires 0 <= row < 3 && 0 <= col < 3
    ensures RowOf(3 * row + col + 1) == row && ColOf(3 * row + col + 1) == col
  {
  }

  /** The contribution of the misplaced tile at (row, col), found at (trow, tcol) of the target. */
  lemma TileCostAt(cur: State, tgt: State, row: int, col: int, trow: int, tcol: int)
    requires Valid(cur) && Valid(tgt) && 0 <= row < 3 && 0 <= col < 3 && 0 <= trow < 3 && 0 <= tcol < 3
    requires var p := 3 * row + col + 1;
      cur[p] != tgt[p] && cur[p] != Blank && tgt[3 * trow + tcol + 1] == cur[p]
    ensures TileCost(cur, tgt, 3 * row + col + 1) == Abs(row - trow) + Abs(col - tcol)
  {
    var p := 3 * row + col + 1;
    var q := 3 * trow + tcol + 1;
    assert PositionOf(tgt, cur[p]) == q;
    Coordinates(row, col);
    Coordinates(trow, tcol);
  }

  /** A prefix sum is zero exactly when each of its contributions is. */
  lemma {:induction false} CostUpToZero(cur: State, tgt: State, k: int)
    requires Valid(cur) && Valid(tgt) && 0 <= k <= 9
    ensures CostUpTo(cur, tgt, k) == 0 <==> forall p :: 1 <= p <= k ==> TileCost(cur, tgt, p) == 0
  {
    if k > 0 {
      CostUpToZero(cur, tgt, k - 1);
    }
  }

  /**
   * The heuristic vanishes exactly on the target: a state whose tiles are all in place
   * has its blank in place too.
   */
  lemma ManhattanZero(cur: State, tgt: State)
    requires Valid(cur) && Valid(tgt)
    ensures Manhattan(cur, tgt) == 0 <==> cur == tgt
  {
    CostUpToZero(cur, tgt, 9);
    if Manhattan(cur, tgt) == 0 {
      forall p | 1 <= p <= 9 && cur[p] != Blank ensures cur[p] == tgt[p] {
        TileCostPositive(cur, tgt, p);
      }
      // The blank of the target is then the blank of the current state as well.
      var b := PositionOf(tgt, Blank);
      assert cur[b] == Blank;
      forall p | p in tgt ensures p in cur && cur[p] == tgt[p] {
        if cur[p] == Blank {
          assert p == b;
        }
      }
      SameEntries(cur, tgt);
    } else {
      var p :| 1 <= p <= 9 && TileCost(cur, tgt, p) != 0;
      TileCostPositive(cur, tgt, p);
    }
  }

  /** `grid` holds the state row by row: grid[row][col] is the value at position 3 * row + col + 1. */
  ghost predicate GridOf(grid: seq<seq<int>>, m: State)
    requires Valid(m)
  {
    && |grid| == 3
    && (forall r :: 0 <= r < 3 ==> |grid[r]| == 3)
    && (forall r, c :: 0 <= r < 3 && 0 <= c < 3 ==> grid[r][c] == m[3 * r + c + 1])
  }

  /**
   * manhattanDistance: fails, where the source panics, unless both squares are valid;
   * otherwise lays both states out as 3x3 grids and sums the tile distances.
   */
  method ManhattanDistance(current: MysticSquare3, target: MysticSquare3,
                           currentOrder: seq<int>, targetOrder: seq<int>) returns (r: Result<int>)
    requires IsOrder(current.RealState(), currentOrder) && IsOrder(target.RealState(), targetOrder)
    ensures r.Success? <==> Valid(current.RealState()) && Valid(target.RealState())
    ensures r.Success? ==> r.value == Manhattan(current.RealState(), target.RealState())
  {
    var currentValid := ValidateState(current.RealState(), currentOrder);
    if !currentValid {
      return Failure("passed an invalid state to manhattan distance function");
    }
    var targetValid := ValidateState(target.RealState(), targetOrder);
    if !targetValid {
      return Failure("passed an invalid state to manhattan distance function");
    }
    var cur := current.RealState();
    var tgt := target.RealState();
    // The source's third check, equal sizes, cannot fail once both states are valid.
    ValidSize(cur);
    ValidSize(tgt);
    assert |cur| == |tgt|;

    var currentState, targetState := Layout(cur, tgt);
    var distance := SumOfDistances(currentState, targetState, cur, tgt);
    r := Success(distance);
  }

  /** The first loop of manhattanDistance: lays out both states as 3x3 grids, row by row. */
  method Layout(cur: State, tgt: State) returns (currentState: seq<seq<int>>, targetState: seq<seq<int>>)
    requires Valid(cur) && Valid(tgt)
    ensures GridOf(currentState, cur) && GridOf(targetState, tgt)
  {
    currentState, targetState := [], [];
    var i := 0;
    while i < 3
      invariant 0 <= i <= 3 && |currentState| == i && |targetState| == i
      invariant forall r :: 0 <= r < i ==> |currentState[r]| == 3 && |targetState[r]| == 3
      invariant forall r, c :: 0 <= r < i && 0 <= c < 3 ==>
        currentState[r][c] == cur[3 * r + c + 1] && targetState[r][c] == tgt[3 * r + c + 1]
    {
      currentState := currentState + [[cur[1 + 3 * i], cur[2 + 3 * i], cur[3 + 3 * i]]];
      targetState := targetState + [[tgt[1 + 3 * i], tgt[2 + 3 * i], tgt[3 + 3 * i]]];
      i := i + 1;
    }
  }

  /**
   * The nested loops of manhattanDistance: for each cell of the current grid holding a
   * tile out of place, searches the target grid row by row for that tile and adds the
   * row and column differences.
   */
  method SumOfDistances(currentState: seq<seq<int>>, targetState: seq<seq<int>>, ghost cur: State, ghost tgt: State)
    returns (distance: int)
    requires Valid(cur) && Valid(tgt) && GridOf(currentState, cur) && GridOf(targetState, tgt)
    ensures distance == Manhattan(cur, tgt)
  {
    distance := 0;
    var currentRow := 0;
    while currentRow < 3
      invariant 0 <= currentRow <= 3
      invariant distance == CostUpTo(cur, tgt, 3 * currentRow)
    {
      var currentColumn := 0;
      while currentColumn < 3
        invariant 0 <= currentColumn <= 3
        invariant distance == CostUpTo(cur, tgt, 3 * currentRow + currentColumn)
      {
        CostUpToNext(cur, tgt, 3 * currentRow + currentColumn + 1);
        var d := CellDistance(currentState, targetState, currentRow, currentColumn, cur, tgt);
        distance := distance + d;
        currentColumn := currentColumn + 1;
      }
      currentRow := currentRow + 1;
    }
  }

  /**
   * The body of the column loop of manhattanDistance: a cell holding a tile, not the blank,
   * that differs from the target's cell adds that tile's distance; any other adds nothing.
   */
  method CellDistance(currentState: seq<seq<int>>, targetState: seq<seq<int>>, currentRow: int, currentColumn: int,
                      ghost cur: State, ghost tgt: State) returns (d: int)
    requires Valid(cur) && Valid(tgt) && GridOf(currentState, cur) && GridOf(targetState, tgt)
    requires 0 <= currentRow < 3 && 0 <= currentColumn < 3
    ensures d == TileCost(cur, tgt, 3 * currentRow + currentColumn + 1)
  {
    ghost var p := 3 * currentRow + currentColumn + 1;
    var currentValue := currentState[currentRow][currentColumn];
    var targetValue := targetState[currentRow][currentColumn];
    assert currentValue == cur[p] && targetValue == tgt[p];
    if targetValue != currentValue && currentValue != 9 {
      d := TileDistance(targetState, currentRow, currentColumn, currentValue, cur, tgt);
    } else {
      d := 0;
    }
  }

  /**
   * The innermost loops of manhattanDistance: searches the target grid row by row for
   * the misplaced tile `currentValue` of cell (currentRow, currentColumn), stopping at
   * the first hit, and gives the row difference plus the column difference.
   */
  method TileDistance(targetState: seq<seq<int>>, currentRow: int, currentColumn: int, currentValue: int,
                      ghost cur: State, ghost tgt: State) returns (distance: int)
    requires Valid(cur) && Valid(tgt) && GridOf(targetState, tgt)
    requires 0 <= currentRow < 3 && 0 <= currentColumn < 3
    requires var p := 3 * currentRow + currentColumn + 1;
      cur[p] == currentValue && currentValue != tgt[p] && currentValue != Blank
    ensures distance == TileCost(cur, tgt, 3 * currentRow + currentColumn + 1)
  {
    ghost var q := PositionOf(tgt, currentValue);
    ghost var cost := TileCost(cur, tgt, 3 * currentRow + currentColumn + 1);
    distance := 0;
    var valueFound := false;
    var targetRow := 0;
    while targetRow < 3
      invariant 0 <= targetRow <= 3
      invariant !valueFound ==> distance == 0 && 3 * targetRow + 1 <= q
      invariant valueFound ==> distance == cost
    {
      if valueFound {
        break;
      }
      var targetColumn := 0;
      while targetColumn < 3
        invariant 0 <= targetColumn <= 3
        invariant !valueFound ==> distance == 0 && 3 * targetRow + targetColumn + 1 <= q
        invariant valueFound ==> distance == cost
      {
        if targetState[targetRow][targetColumn] == currentValue {
          TileCostAt(cur, tgt, currentRow, currentColumn, targetRow, targetColumn);
          distance := distance + Abs(currentRow - targetRow) + Abs(currentColumn - targetColumn);
          valueFound := true;
          break;
        }
        targetColumn := targetColumn + 1;
      }
      targetRow := targetRow + 1;
    }
  }
}
