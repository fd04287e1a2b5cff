# Mystic square: a verified model of the search engine

mystic-square solves the 3x3 sliding-tile puzzle (the "mystic square"). A square is a map from the
positions 1..9 (row-major) to the tile values 1..9, with 9 standing for the blank. A move slides the
blank to a neighbouring position and builds a new map. A square's identity key is its rendering as
three rows of "a b c". The run command builds an initial and a target square and runs one of three
searches:
- A*, with the Manhattan distance as heuristic and an overflow-clamped `f = g + h`;
- Dijkstra's algorithm, which has no closed set;
- breadth-first search, which marks states visited when it enqueues them.

Each search returns a predecessor map, in which the initial state is the root mapped to nil, and a
found flag. When the target is found, the run command walks the map back from the target and
reverses the result into the path of moves.

The model has one module per part of the program:
- `Square` and `SquareObject` (square.go): validation, the adjacency table, moves, blank lookup and
  the state string.
- `Fifo` (queue.go): the breadth-first search's queue, a class over a `seq`.
- `PriorityQueue` (priorityqueue.go): the item and queue classes. The `container/heap` sift
  operations they rely on are written out, with `HeapOrder` holding the heap-order lemmas.
- `Registry`: the pairing of the searches' items map with the queue.
- `Search`, `Relaxation` and `BreadthFirstInvariant`: what the searches share (neighbour generation,
  predecessor trees, reachability, and the bound on the number of states) and their loop
  invariants.
- `BreadthFirst`, `Dijkstra`, `AStar`, `Heuristic` and `Run` (run.go): the searches, the heuristic
  and `executeRun` with its path reconstruction.

The searches are imperative methods with the source's loops. Their contracts say:
- a found target comes with a predecessor tree rooted at the initial state, in which every link is
  one legal move and ranks decrease towards the root;
- a search that finds nothing proves the target unreachable from the initial state;
- each search hands back, as a ghost `frontier`, the queue it used. The queue's history of pushed
  states starts at the root, repeats no state and holds exactly the states with a predecessor
  entry. So every state is enqueued (or given an item) exactly once, when its entry is first written;
- one pass of the neighbour loop touches only the entries of states one move from the square being
  expanded. Every changed entry names that square as predecessor (and, in Dijkstra's algorithm and
  A*, its distance plus one). No item of the items map is replaced, and A* leaves the entries of
  visited states alone.

`Run.ExecuteRun` then states that every reported path is a sequence of legal moves from the initial
state to the target.

## Model

| member | source | states |
|---|---|---|
| Square.ValidateState | square/square.go:203-242 | For every iteration order of the map, the find/remove loop returns true exactly when the keys are 1..9, the values lie in 1..9 and no value repeats, which also makes every value occur. |
| Square.Find | square/square.go:215-223 | Returns -1 exactly when the value is absent; otherwise the index of its first occurrence. |
| Square.Remove | square/square.go:224-232 | Returns the list unchanged when the value is absent, otherwise one element shorter. On a list without duplicates it removes exactly that value and keeps the rest. |
| Square.Verdict | square/square.go:238-240 | Once every entry has been visited, "all positions struck off and all values struck off" is equivalent to validity. |
| Square.ValidSize | square/square.go:207-210 | A valid state has exactly nine entries, so the length test never rejects one. |
| Square.ValidSurjective | square/square.go:233-240 | Every tile value 1..9 occurs in a valid state. |
| Square.PositionOf | square/square.go:190-200 | In a valid state each value sits at exactly one position in 1..9. |
| Square.FindEmptySpace | square/square.go:190-200 | Returns -1 when no entry holds the blank. Otherwise it returns the first key in iteration order that holds the blank. On a valid state the result is the blank's unique position, whatever the iteration order. |
| Square.Neighbor | square/square.go:166-180 | The target of an entry of MapKeyToNewKey is a different position in 1..9. |
| Square.AdjacencyTable | square/square.go:166-180 | The table entry by entry, with no entry outside positions 1..9. |
| Square.NeighborGeometry | square/square.go:166-180 | Up and down change the grid row by one and keep the column. Left and right change the column by one and keep the row. An entry is missing exactly at the border it would cross. |
| Square.NeighborSymmetric | square/square.go:166-180 | The table is symmetric: going in one direction and then in the opposite one returns to the start. |
| Square.Move | square/square.go:78-163 | A move yields a map exactly when the state is valid and the blank's table entry has that direction. The new map swaps the blank with that neighbour, keeps every other position and is valid again. |
| Square.SwapValid | square/square.go:84-92 | Exchanging the values at two positions of a valid state keeps it valid and changes nothing else. |
| Square.MoveInverse | square/square.go:78-177 | Moving the blank one way and then the opposite way restores the original map. |
| Square.MoveChanges | square/square.go:90-92 | A legal move always changes the state. |
| Square.StepSymmetric | square/square.go:78-177 | Two states one move apart are valid and distinct, and each is one move from the other. |
| Square.Row | square/square.go:27-46 | A row of the rendering is five characters: the three cells, 9 shown as a space, separated by spaces. |
| Square.CellInjective | square/square.go:28-42 | Distinct tile values render as distinct characters. |
| Square.GridLayout | square/square.go:48-53 | The rendering of a filled state has 17 characters: position p's tile at index 2(p-1), with spaces within rows and newlines between rows. |
| Square.StateString | square/square.go:26-58 | A valid state renders as its three-row grid; any other map renders as "Invalid State". |
| Square.StateStringInjective | square/square.go:26-58 | Two valid states have the same state string exactly when they are the same map. |
| SquareObject.NewMysticSquare3 | square/square.go:61-75 | The result is a square exactly when the map is valid (an error otherwise). The square carries that map as RealState and its state string as key. |
| Search.KeyIdentifies | square/square.go:183-187 | Two squares built by NewMysticSquare have equal keys exactly when their states are equal, and are then the same square. |
| Search.Neighbour | cmd/run/run.go:309-313 | A neighbour square exists exactly when the move is legal. It holds the moved state and is well built. |
| Search.AdjacentSteps | cmd/run/run.go:307-331 | The adjacent list holds only well-built squares one legal move away, and every state one move away appears in it. |
| Search.TreePath | cmd/run/run.go:505-511 | In a predecessor tree every state with an entry is reached from the root by a path of legal moves. |
| Search.Exhausted | cmd/run/run.go:445-484 | When nothing is pending and every expanded state has all its successors entered, a target that was never expanded cannot be reached from the root. |
| Search.TreeSet | cmd/run/run.go:346-347 | Recording a legal predecessor of lower rank keeps the map a predecessor tree. |
| Search.StatesBound | cmd/run/run.go:300-353 | There are at most 9^9 valid states, which bounds every search. |
| Fifo.Queue.constructor | datastructures/queue.go:52-55 | A new queue is empty and has seen no push. |
| Fifo.Queue.Len | datastructures/queue.go:27-29 | The length is the number of waiting squares, so it is zero exactly when the queue is empty. |
| Fifo.Queue.Empty | datastructures/queue.go:32-34 | True exactly when Len is 0. |
| Fifo.Queue.Pop | datastructures/queue.go:8-15 | Returns the front square and removes it. The rest keep their order, and the push history is unchanged. |
| Fifo.Queue.Push | datastructures/queue.go:18-24 | Appends the square at the back, one longer, and records its state at the end of the push history. |
| Fifo.Queue.Process | datastructures/queue.go:37-49 | On an empty queue: no square, and the queue is unchanged. Otherwise: the front square, removed from the queue. In both cases the returned square followed by the new queue is the old queue. The push history never changes. |
| BreadthFirstInvariant.Enqueue | cmd/run/run.go:478-482 | Queueing an unvisited neighbour with `cur` as its predecessor keeps the tree, the one-entry-per-state log, the queued squares and the coverage of all entered states. |
| BreadthFirstInvariant.Dequeue | cmd/run/run.go:445 | The front square is well built and entered, and it becomes the state being expanded. |
| BreadthFirst.Visit | cmd/run/run.go:478-482 | An unvisited neighbour is appended to the queue (its state to the push history), marked visited and given `cur` as predecessor. A visited one leaves the map, the visited set, the queue and the history exactly as they were. The visited set is exactly the states with an entry. |
| BreadthFirst.Discover | cmd/run/run.go:479-481 | A state not seen before: the map gains exactly the entry naming `cur`, the visited set gains exactly the state, and the queue and history gain exactly that square and its state. The search invariant holds again. |
| BreadthFirst.EnqueueNew | cmd/run/run.go:477-483 | After the loop every adjacent square has an entry. The queue gains exactly the adjacent squares whose states were neither visited nor met earlier in the list, in list order, and the history gains their states. Each of them gets `cur` as predecessor, the earlier entries are kept, and no other entry appears. |
| BreadthFirst.EnqueueAdjacent | cmd/run/run.go:451-483 | The neighbour loop on the adjacent list of `cur` appends exactly the new adjacent squares to the queue, in order, and their states to the history. Each of them gets `cur` as predecessor, the old entries are kept, and every successor of `cur` ends up with an entry. |
| BreadthFirst.ExpandCurrent | cmd/run/run.go:451-483 | Expanding a non-target square has the same exact effect on the queue, the history and the map. Afterwards it counts as expanded, and the tree, the log and the 9^9 bound hold. |
| BreadthFirst.Round | cmd/run/run.go:445-484 | One iteration after the target test: the invariant holds for the next popped square, if any. The popped square followed by the queue is the old queue followed by exactly the new adjacent squares, in order, and the history gains their states. Old entries are kept, and each new square's entry names `cur`. So the map grows, or it stays as it is and the queue shrinks. |
| BreadthFirst.Bfs | cmd/run/run.go:436-490 | Found: the predecessor map is a tree rooted at the initial state, ranked by depth, and holds the target. Not found: the map is empty (nil) and the target is unreachable. The queue's push history starts at the root and repeats no state. When found, the states pushed are exactly the states with an entry. |
| PriorityQueue.Item.constructor | datastructures/priorityqueue.go:16-19 | A new item holds the square and the priority, and its index is Go's zero value. |
| PriorityQueue.PriorityQueue.constructor | datastructures/priorityqueue.go:101-104 | A new queue is empty, valid and has seen no push. |
| PriorityQueue.PriorityQueue.Less | datastructures/priorityqueue.go:36-38 | True exactly when slot i's priority is strictly below slot j's. |
| PriorityQueue.PriorityQueue.Swap | datastructures/priorityqueue.go:41-45 | Exchanges two slots and their priorities and records the new slots in both items. Every item's index stays equal to its slot, and the items stay the same. |
| PriorityQueue.PriorityQueue.Push | datastructures/priorityqueue.go:48-53 | Appends the item at slot n with index n, one longer, and records its state at the end of the push history. The index invariant holds for a new item. |
| PriorityQueue.PriorityQueue.Pop | datastructures/priorityqueue.go:56-64 | Removes the last slot, marks its item popped (index -1) and leaves every other slot as it was. |
| PriorityQueue.PriorityQueue.Up | datastructures/priorityqueue.go:97 | Sifting up (container/heap) restores heap order with the same items and keeps every index equal to its slot. |
| PriorityQueue.PriorityQueue.SmallerChild | datastructures/priorityqueue.go:97 | The child that down compares with has the least priority among i's children. |
| PriorityQueue.PriorityQueue.Down | datastructures/priorityqueue.go:97 | Sifting down (container/heap) restores heap order on the region below i with the same items. Slots past n are untouched, and "not moved" means the slots are unchanged. |
| PriorityQueue.PriorityQueue.HeapInit | cmd/run/run.go:295 | heap.Init establishes heap order with the same items, and leaves a queue of at most one item as it was. |
| PriorityQueue.PriorityQueue.HeapPush | cmd/run/run.go:340 | heap.Push adds exactly the new item, keeps the queue valid and appends the item's state to the push history. |
| PriorityQueue.PriorityQueue.HeapPop | datastructures/priorityqueue.go:75 | heap.Pop removes and returns the root, marked popped. Its priority is at most every remaining item's, and the rest stay valid. |
| PriorityQueue.PriorityQueue.HeapFix | datastructures/priorityqueue.go:97 | heap.Fix restores heap order after one priority changed, with the same items. |
| PriorityQueue.PriorityQueue.Process | datastructures/priorityqueue.go:72-85 | On an empty queue: nil, false, unchanged. Otherwise: the item of least priority, removed exactly once, with the rest in heap order. |
| PriorityQueue.PriorityQueue.Update | datastructures/priorityqueue.go:88-92 | A popped item (index < 0) leaves the queue and its priority unchanged. A live item gets the new priority, with the items unchanged and heap order kept. |
| PriorityQueue.PriorityQueue.UpdateLive | datastructures/priorityqueue.go:95-98 | update sets the live item's priority and fixes its slot, keeping the items and heap order. |
| Registry.OnceInSlots | datastructures/priorityqueue.go:41-45 | In a valid queue no item fills two slots: indices equal slots. |
| Registry.LiveIndex | datastructures/priorityqueue.go:88-90 | A live state's item sits in the slot its index names. |
| Registry.Admit | cmd/run/run.go:338-340 | A state without an item gets a fresh item of the given priority, pushed onto the queue: the queue grows by one and its history by that state. Every slot holds an old item or the fresh one, and the items map and the queue still agree. |
| Registry.Open | cmd/run/run.go:289-295 | The start of a search: the items map holds exactly the initial state's fresh item, with the given priority, and a new queue holds that item alone and has pushed exactly that state. The map and queue agree. |
| Registry.Holding | cmd/run/run.go:293-295 | A new queue, after q.Push and heap.Init, is valid, holds exactly the given item and has pushed exactly its state; the item's priority is unchanged. |
| Registry.Reprioritise | cmd/run/run.go:348-349 | Update on a state's item gives it the new priority, with the queue's length unchanged and the items map and queue still agreeing. |
| Registry.PopLeast | cmd/run/run.go:300 | Process pops an item exactly when some state is live. The item is of least priority among the live states, and its state is no longer live. The push history is unchanged. |
| Relaxation.Start | cmd/run/run.go:361-365 | The root alone, at distance 0 and pending, satisfies the search invariant. |
| Relaxation.DistanceBelow | cmd/run/run.go:422 | Every recorded distance lies between 0 and 9^9, so `distance + 1` never reaches MaxInt. |
| Relaxation.Relaxed | cmd/run/run.go:414-428 | Every outcome of a neighbour turn (new state, strictly shorter way, or nothing) keeps the invariant and leaves the neighbour with an entry. The map grows exactly when the state was new. |
| Relaxation.Turn | cmd/run/run.go:333-351 | One neighbour turn keeps the invariant and every predecessor one legal move away. |
| Relaxation.NoSelfStep | square/square.go:78-163 | No legal move leads from a state to itself. |
| Relaxation.FramedTurn | cmd/run/run.go:412-429 | A neighbour turn for a state one move from `cur` changes at most that state's entry: keys are kept, its new predecessor is `cur` and its new distance is `cur`'s plus one. |
| Relaxation.FramedTrans | cmd/run/run.go:412-429 | Two framed turns for the same `cur` make a framed pair: `cur`'s own distance does not change in between. |
| Relaxation.ExpandState | cmd/run/run.go:352 | A non-target state whose successors all have entries joins the expanded states. |
| Relaxation.Drained | cmd/run/run.go:377 | When the queue runs dry without the target, the target is unreachable from the root. |
| Dijkstra.Discover | cmd/run/run.go:414-419 | A state seen for the first time gets distance MaxInt and a fresh item of that priority. The item is pushed once, and its state is logged in the push history and made live. A state already seen changes nothing. No existing item is replaced. |
| Dijkstra.Shorten | cmd/run/run.go:421-428 | The predecessor and distance change exactly when `distance[current] + 1` is strictly smaller, and then the item's priority becomes the new distance. |
| Dijkstra.Composed | cmd/run/run.go:412-429 | The two steps together are one Outcome of the turn. A new state always takes the way through the current one. |
| Dijkstra.Relax | cmd/run/run.go:412-429 | One turn of the neighbour loop is one Outcome and keeps the queue and items map in agreement. The queue grows by one exactly for a new state. The push history follows the log, and existing items are kept while new ones are fresh. |
| Dijkstra.RelaxNext | cmd/run/run.go:412-429 | A turn on `adjacent[j]` keeps the search invariant, link legality and the push history. It gives that square an entry and changes only entries of states one move from `cur`, to `cur` and its distance plus one. |
| Dijkstra.RelaxAll | cmd/run/run.go:412-429 | After the neighbour loop every adjacent square has an entry, the invariant and link legality hold, and the queue grew by the number of new entries. Only entries of states one move from `cur` changed, each to `cur` and its distance plus one, and no item was replaced. |
| Dijkstra.ExpandSquare | cmd/run/run.go:387-429 | Expanding a non-target square keeps the invariant, makes it expanded and keeps at most 9^9 entries. Only its one-move neighbours' entries change, each to `cur` and its distance plus one. |
| Dijkstra.Next | cmd/run/run.go:377 | The popped item's state has an entry, was pending, is no longer pending and has the least priority among the pending states. The push history is unchanged. |
| Dijkstra.Step | cmd/run/run.go:377-430 | One iteration of the main loop after the target test. `cur` joins the expanded states, and the next pop is a pending state of least distance. The map grows or the queue shrinks, the invariant holds, and only `cur`'s neighbours' entries change. |
| Dijkstra.Seed | cmd/run/run.go:359-372 | The start: the root has no predecessor and distance 0. Its one item is in a new valid queue whose push history is the root. |
| Dijkstra.Begin | cmd/run/run.go:359-377 | The start and the first pop, which returns the root's item. |
| Dijkstra.DijkstrasAlgorithm | cmd/run/run.go:358-433 | Found: the map is a predecessor tree rooted at the initial state, ranked by the distances, holding the target. Not found: the target is unreachable. The queue's push history starts at the root, repeats no state and holds exactly the states with an entry. |
| AStar.DetectOverflow | cmd/run/run.go:267-277 | For a Go int `a`, reports exactly the sums `a + b` above MaxInt; a non-positive `b` is never reported. |
| AStar.F | cmd/run/run.go:266-287 | f is `g + h` cut off at MaxInt: either the sum or MaxInt. On Go ints with g not negative it stays a Go int and never wraps. |
| AStar.Rescored | cmd/run/run.go:338 | Giving a state a distance and the f computed from it keeps every state's priority equal to f of its distance. |
| AStar.Discover | cmd/run/run.go:336-341 | A state seen for the first time gets distance MaxInt and a fresh item of priority f. The item is pushed once, and its state is logged and made live. A state already seen changes nothing, its priorities included. No existing item is replaced. |
| AStar.Shorten | cmd/run/run.go:343-350 | The predecessor and distance change exactly when the way through the current state is strictly shorter and the neighbour is not visited. The item then gets priority f of the new distance. |
| AStar.Settle | cmd/run/run.go:336-350 | Both steps together: one Outcome of the turn, taken exactly when the neighbour is unvisited and new or strictly improved. |
| AStar.Relax | cmd/run/run.go:333-351 | One neighbour turn is one Outcome and keeps the queue, items map and priorities consistent. The queue grows by one exactly for a new state. The push history follows the log, and existing items are kept. |
| AStar.ClosedTurn | cmd/run/run.go:345 | A neighbour turn never changes the entry or distance of a visited state. |
| AStar.ClosedTrans | cmd/run/run.go:345-352 | Two turns that leave the visited states' entries alone leave them alone together. |
| AStar.RelaxNext | cmd/run/run.go:333-351 | A turn on `adjacent[j]` keeps the invariant and the push history and gives that square an entry. It changes only entries of unvisited states one move from `cur`, to `cur` and its distance plus one. |
| AStar.RelaxAll | cmd/run/run.go:333-351 | After the neighbour loop every adjacent square has an entry, the invariant holds and the queue grew by the number of new entries. Only unvisited one-move neighbours' entries changed, each to `cur` and its distance plus one, and no item was replaced. |
| AStar.ExpandSquare | cmd/run/run.go:307-352 | Expanding a non-target square marks it visited and keeps the invariant and at most 9^9 entries. Visited states' entries are untouched, and only `cur`'s neighbours' entries change. |
| AStar.Step | cmd/run/run.go:300-353 | One iteration after the target test: `cur` is added to the visited set, and the next pop is a pending state of least f. The invariant is kept, and visited states' entries are untouched. |
| AStar.Seed | cmd/run/run.go:253-295 | The start: the root has distance 0, no predecessor and an item of priority f, in a new valid queue whose push history is the root. |
| AStar.Begin | cmd/run/run.go:253-301 | The start and the first pop, which returns the root's item. |
| AStar.AStar | cmd/run/run.go:248-355 | Found: the map is a predecessor tree rooted at the initial state, ranked by the distances, holding the target. Not found: the target is unreachable. The queue's push history starts at the root, repeats no state and holds exactly the states with an entry. |
| Heuristic.Abs | cmd/run/run.go:234 | The absolute value is the number or its negation, and never negative. |
| Heuristic.TileCostPositive | cmd/run/run.go:226 | A position adds to the distance exactly when it holds a tile that is not the blank and is out of place. |
| Heuristic.TileCostAt | cmd/run/run.go:232-235 | A misplaced tile found at (trow, tcol) of the target adds the row difference plus the column difference. |
| Heuristic.ManhattanZero | cmd/run/run.go:224-243 | The Manhattan distance is 0 exactly when the current state is the target. |
| Heuristic.ManhattanDistance | cmd/run/run.go:199-245 | Fails, where the source panics, exactly when either square is invalid. Otherwise returns the sum over the out-of-place non-blank tiles of their row and column distance to the target. |
| Heuristic.Layout | cmd/run/run.go:215-222 | Both states are laid out as 3x3 grids: cell (r, c) holds position 3r + c + 1. |
| Heuristic.SumOfDistances | cmd/run/run.go:224-243 | The nested loops add up every position's tile cost: the Manhattan distance. |
| Heuristic.CellDistance | cmd/run/run.go:226-241 | One cell adds its tile's distance when it is not the blank and differs from the target's cell, and nothing otherwise. |
| Heuristic.TileDistance | cmd/run/run.go:227-240 | The search of the target grid stops at the tile's unique position and returns its row plus column distance. |
| Run.Reversed | cmd/run/run.go:511 | slices.Reverse: same length, with element i taken from position n-1-i. |
| Run.Climb | cmd/run/run.go:507 | In a predecessor tree exactly the root has no predecessor. Any other state's predecessor is one legal move before it, entered, and of lower rank. |
| Run.Ascending | cmd/run/run.go:505-511 | Ranks that grow between neighbours grow along the whole list, so no state repeats. |
| Run.ChainRises | cmd/run/run.go:505-511 | Along a chain of recorded predecessors each step is a legal move, and ranks rise strictly. |
| Run.Closed | cmd/run/run.go:507-510 | Where the walk back stops is a well-built square. With it appended, the list runs from the target through recorded predecessors. |
| Run.Reversal | cmd/run/run.go:511 | Reversing a child-to-predecessor list gives a predecessor-to-child list. |
| Run.WalkBack | cmd/run/run.go:507-509 | The loop stops at the root. It collects the target first and then each square's recorded predecessor in turn. |
| Run.ReconstructPath | cmd/run/run.go:505-511 | The path starts at the initial square and ends at the target. Each square is the recorded predecessor of the next, so one legal move from it, and no state repeats. When the initial and target states are the same, the path is the initial square alone. |
| Run.ManhattanTo | cmd/run/run.go:181 | On valid squares the heuristic is the Manhattan distance to the target, and it is 0 exactly at the target. |
| Run.RunAlgorithm | cmd/run/run.go:177-195 | Any found path comes with a predecessor tree rooted at the initial state that holds the target. The three searches find nothing only when the target is unreachable, and an unlisted choice finds nothing. |
| Run.Solve | cmd/run/run.go:503-519 | A reported path is a sequence of legal moves from the initial square to the target. "No Path" from a listed search means the target is unreachable. |
| Run.ExecuteRun | cmd/run/run.go:493-525 | Missing arguments fail. Otherwise the run succeeds exactly when both states are valid. A reported path runs by legal moves from the initial state to the target state, and "No Path" from a listed search means the target is unreachable. |

## Left out

- The command line (NewRunCliArgs, RunCmd, init, initConfig, algorithmDescription, difficultyDescription) is argument handling. Run.ExecuteRun takes the two states and the algorithm as a `RunArgs` value, with `None` for a nil `*CliArgs`.
- The scenario tables (easy, hard, noPath) and squaresForDifficulty are fixed data, not logic; their states are parameters of Run.ExecuteRun. That the noPath scenario is unsolvable (a parity argument) is not proved.
- Printing (START, the squares, "No Path") is output only. Run.Solve returns it as a `Report` value.
- Go's `math.Abs` on `float64` (cmd/run/run.go:234) is integer absolute value here: the operands are small integers, so the float computation is exact.
- The dynamic type assertions and their panics in Queue.Push, Queue.Process and PriorityQueue.Process are Go runtime details; the model's types make them impossible.
- Fifo.Queue.Pop: `items[0]` on an empty slice panics with an index out of range (datastructures/queue.go:11). Pop requires a non-empty queue instead; its one caller, Process, tests Empty first, so the panic cannot occur on any path the model covers.
- container/heap is not part of this model as a library. Its up, down, Init, Push, Pop and Fix are written out as PriorityQueue methods, following that library's algorithm.
- Go visits map entries in an unspecified order. Square.ValidateState, Square.FindEmptySpace and Heuristic.ManhattanDistance take the iteration order as a parameter and are proved for every order.
- The searches key their maps by the state itself rather than by its string. Square.StateStringInjective and Search.KeyIdentifies prove that the two keys identify the same squares.
- Go ints are 64-bit. Distances, priorities and the heuristic are unbounded integers here. Relaxation.DistanceBelow shows that `distance + 1` stays far below MaxInt, and AStar.F models the explicit MaxInt clamp.
- The panics of manhattanDistance on an invalid square and of aStar on a nil heuristic cannot happen on the run command's path. Heuristic.ManhattanDistance returns a Failure instead. A* receives the heuristic as a total function (the Manhattan function, because a lambda cannot call a method). Run.ManhattanTo gives 0 in place of the panic.
- Run.RunAlgorithm: a selector that matches none of the three searches runs the default closure, which returns no path; that is the `Unlisted` case.
- Registry.Reprioritise splits the source's single q.Update call into a live case and a popped case; this is a proof device, and the behaviour is unchanged.
- BreadthFirst.Bfs, Dijkstra.DijkstrasAlgorithm, AStar.AStar: the contracts state what a found or not-found result implies (a tree holding the target, or unreachability). They do not state that pathFound is set by the pop of the target's key, and they do not state that the path found is a shortest one (the optimality of breadth-first search, of Dijkstra's algorithm and of A* with an admissible heuristic is not proved).
- Heuristic.ManhattanDistance: admissibility of the heuristic (that it never exceeds the number of moves to the target) is not proved.
- PriorityQueue.PriorityQueue.Len, PriorityQueue.PriorityQueue.Empty and the method form of RealState carry no contract of their own; they are the slot count, its test against zero and the state field.
