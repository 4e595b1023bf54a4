# AI lab search programs, modelled in Dafny

This project models two small search programs from an AI lab repository.

**The 8-puzzle (puzzle/1.py).**
- A board is a 3×3 grid of tiles with 0 for the blank.
- Sliding a tile into the blank gives the neighbouring boards.
- The Manhattan-distance heuristic scores a board against a goal.
- Three solvers use these:
  - breadth-first search with a FIFO queue;
  - greedy best-first search ordered by the heuristic;
  - A* ordered by path length plus heuristic. It keeps the least path cost found per board and skips entries that have gone stale.

**N-Queens (N-Queen/1.py, N-Queen/2.py, N-Queen/sol.py).** These are backtracking searches that place one queen per row.
- The first program keeps a column per row.
- The other two keep an n×n grid of '.' and 'Q' and check the column and both upward diagonals.

Modules:
- `EightPuzzle`: boards, the blank, the moves of the blank, the goal table, the heuristic and the constructor.
  - A board is its nine cells read row by row, so `state[r][c]` is `At(state, r, c)`.
- `SearchSpace`: what the three solvers share:
  - the result they report;
  - chains of legal moves;
  - the neighbours a visited set lets through;
  - the least-key removal from a priority queue;
  - the finite set of boards the searches stay in.
- `BruteForceSearch`, `HeuristicSearch`, `AStarSearch`: the three solvers.
  - Each loop is a `while` loop whose invariant ties the frontier, the visited record and the count of nodes explored to the boards enqueued and expanded so far.
  - `Solve` proves that a returned path is a chain of legal moves from the initial board to the goal, with `steps` equal to its length.
  - It also proves that "no solution" means no chain of moves reaches the goal.
  - Each `Solve` also returns the run of its loop's turns under an independent step relation: first in, first out for breadth-first search, least heuristic for greedy search, and least f for A*. Each turn counts the entry it takes off, so nodes explored is the number of turns.
  - Termination rests on the finiteness of the boards built from the initial board's tiles. A* uses a potential over the recorded costs, which only ever go down.
- `NQueens`: the enumeration both kinds of program perform, as a function on placements (the column of each row's queen). It is proved to list every non-attacking placement exactly once, in ascending lexicographic order.
- `NQueensColumns`: `solve_n_queens` and its nested helpers over an array of columns.
- `NQueensGrid`: `isValid` and `solve` over an n×n character array.
  - It is proved to record exactly the rendered placements of `NQueens`, in the same order.
  - The module-level `n` that these functions read is a parameter.
- `NQueensSolution`: `Solution.solveNQueens`. Its nested helpers are the same code as those of N-Queen/2.py, so it uses `NQueensGrid`.
- `Wrappers`, `Arithmetic`: `Option` and `Abs`.

## Model

| member | source | states |
|---|---|---|
| EightPuzzle.FirstZero | puzzle/1.py:25-31 | the offset of the first 0 in row-major order: it holds 0 and no earlier cell does |
| EightPuzzle.FindBlank | puzzle/1.py:25-31 | None exactly when the board has no 0; otherwise the first cell, rows top to bottom and columns left to right, that holds 0 |
| EightPuzzle.GetNeighbors | puzzle/1.py:33-50 | the neighbours built by the loop over the four moves are exactly `Successors(state)`, the boards the lemmas below describe |
| EightPuzzle.SlideCells | puzzle/1.py:45-47 | after a move the tile's old cell holds 0 and the blank's old cell holds the tile; every other cell is unchanged |
| EightPuzzle.SuccessorsInOrder | puzzle/1.py:38-48 | the neighbours come in the order up, down, left, right; each is present exactly when its target cell is on the board |
| EightPuzzle.SuccessorCount | puzzle/1.py:41-44 | 4 neighbours with the blank in the centre, 3 on an edge, 2 in a corner |
| EightPuzzle.SuccessorsAreMoves | puzzle/1.py:41-48 | every neighbour swaps the first blank with an adjacent tile; on a valid board exactly those two cells change |
| EightPuzzle.MovesAreSuccessors | puzzle/1.py:41-48 | on a valid board every legal slide of a tile into the blank is among the neighbours |
| EightPuzzle.SuccessorsValid | puzzle/1.py:45-48 | a neighbour of a board holding each tile 0..8 once holds each tile once too |
| EightPuzzle.GoalPositionsSpec | puzzle/1.py:18 | the goal table's keys are exactly the goal's tiles; each key maps to a cell of the goal holding that tile (the cell itself when the goal is a valid board) |
| EightPuzzle.DefaultGoalValid | puzzle/1.py:15 | the default goal 1..8 then the blank holds each tile once |
| EightPuzzle.NewPuzzle | puzzle/1.py:10-18 | keeps the initial board; takes the given goal unless it is absent or empty, else the default goal; the goal table has exactly the goal's tiles as keys |
| EightPuzzle.ManhattanDistance | puzzle/1.py:52-61 | the double loop returns the non-negative sum over non-blank tiles of the row and column distance to the tile's goal cell |
| EightPuzzle.ManhattanZeroIffGoal | puzzle/1.py:52-61 | on valid boards the heuristic is 0 exactly when the board is the goal |
| EightPuzzle.ManhattanIgnoresBlank | puzzle/1.py:58-60 | the goal table's entry for the blank has no effect on the heuristic |
| EightPuzzle.MoveChangesManhattanByOne | puzzle/1.py:52-61 | every move changes the heuristic by exactly one, up or down |
| SearchSpace.ManhattanAdmissible | puzzle/1.py:52-61 | the heuristic never exceeds the length of any chain of moves from the board to the goal |
| SearchSpace.ChainExtend | puzzle/1.py:91 | a chain extended by a neighbour of its last board is a chain ending on that neighbour |
| SearchSpace.ClosedSetSeparates | puzzle/1.py:94 | if a set holding the initial board and closed under moves lacks the goal, then no chain reaches the goal |
| SearchSpace.FreshSpec | puzzle/1.py:88-92 | the neighbours let through by the visited set are, once each, exactly those not in it |
| SearchSpace.PopMin | puzzle/1.py:110 | `heappop`: removes one entry of least key from the frontier and returns it; the rest keeps all other entries |
| BruteForceSearch.EnqueueFresh | puzzle/1.py:88-92 | the queue grows by the unvisited neighbours in order, each with the path extended by it; the visited set gains all neighbours |
| BruteForceSearch.EndedCounts | puzzle/1.py:75-77 | in any run that ends with a result, that result's nodes explored equals the number of entries taken off the queue, the goal's included |
| BruteForceSearch.EndedUnique | puzzle/1.py:75-92 | two runs from the same puzzle that both end report the same result: breadth-first search has no choice to make, so its path and count are fixed by the puzzle |
| BruteForceSearch.Solve | puzzle/1.py:68-94 | a returned path is a chain of moves from the initial board to the goal, and steps is its length. The search is a run of turns of the step relation `Turn`, starting from the initial board alone on the queue and marked visited. Each turn takes the oldest entry off and adds one to nodes explored. It appends the unvisited neighbours to the back of the queue, each with its path extended by it, and marks all neighbours visited. A returned result comes from the goal at the head of the queue after such a run (`Ended`), and its nodes explored counts that dequeue. The ghost trace of queued boards starts at the initial board and holds each board at most once. Every later board in it neighbours an earlier board that was expanded, and every neighbour of an expanded board is in it (`Explored`). None means the run emptied the queue (`Exhausts`) and no chain reaches the goal. An initial board equal to the goal gives path [], 0 steps, 1 node |
| HeuristicSearch.PushFresh | puzzle/1.py:122-127 | the frontier grows by the unvisited neighbours in order, each with its heuristic and the path extended by it; the visited set gains all neighbours |
| HeuristicSearch.ExpandEntry | puzzle/1.py:122-127 | expanding an entry of least heuristic that is not the goal is one turn of the run. The rest of the frontier gains the unvisited neighbours with their heuristic and extended path, and the visited set gains all neighbours. Either more of the finite board space is visited, or the frontier is shorter |
| HeuristicSearch.TakeTurn | puzzle/1.py:110-127 | one pass of the loop adds one to nodes explored. It either reports the goal as the end of the run so far, or extends the run by one turn |
| HeuristicSearch.TurnTakesLeast | puzzle/1.py:110 | in every turn, the entry taken off has a heuristic no greater than that of any entry left on the frontier |
| HeuristicSearch.EndedCounts | puzzle/1.py:109-111 | in any run that ends with a result, that result's nodes explored equals the number of entries taken off the frontier, the goal's included |
| HeuristicSearch.Solve | puzzle/1.py:101-129 | same guarantees as breadth-first search for a returned path and for None. The search is a run of turns of the step relation `TurnAt`, starting from the initial board alone on the frontier with its heuristic. Each turn takes off an entry of least heuristic and adds one to nodes explored. It pushes the unvisited neighbours with their heuristic and extended path, and marks all neighbours visited. A returned result comes from a goal entry of least heuristic taken off after such a run (`Ended`). nodes explored is the number of boards taken off, the last being the goal. That trace starts at the initial board and holds each board once, and every later board in it neighbours an earlier one (`Traced`). Every pushed board after the first neighbours an expanded board, each board is pushed at most once, and every neighbour of an expanded board was pushed (`Explored`). None means the run emptied the frontier (`Exhausts`) |
| AStarSearch.RelaxSpec | puzzle/1.py:166-169 | recorded costs only go down, and strictly. A neighbour is pushed exactly when it is new or reached more cheaply, with cost g + 1. Each is pushed once. Nothing else changes |
| AStarSearch.RelaxBound | puzzle/1.py:166-169 | recorded costs stay below the number of boards recorded |
| AStarSearch.RelaxDecreases | puzzle/1.py:166-169 | each pushed neighbour lowers the potential (the sum of recorded costs over the finite board space) by at least one, so the search terminates |
| AStarSearch.RelaxNeighbors | puzzle/1.py:166-173 | the loop updates the cost map as `Relax` does and pushes each updated neighbour with f = g + 1 + heuristic, g + 1 and the extended path |
| AStarSearch.Popped | puzzle/1.py:150-154 | a popped entry's g equals the length of its path, a chain of moves from the initial board to its board; that board is in `visited` at a cost no higher than g, so the stale test's lookup succeeds |
| AStarSearch.Stale | puzzle/1.py:153-155 | dropping an entry whose g exceeds its board's recorded cost keeps the loop invariant: every board seen is expanded or has a live entry at its recorded cost |
| AStarSearch.ExpandEntry | puzzle/1.py:166-173 | expanding a live non-goal entry keeps the loop invariant, including every entry's g equal to its path length; it lowers the potential, or leaves `visited` as it was and shortens the frontier |
| AStarSearch.TakeTurn | puzzle/1.py:150-173 | one pass of the loop. If it reports a result, the run so far ends with that result. Otherwise the run gains one `TurnAt` step, so nodes explored goes up by one whether or not the entry was stale. Also, the potential falls or the frontier shrinks |
| AStarSearch.EndedCounts | puzzle/1.py:150-155 | in any run that ends with a result, that result's nodes explored equals the number of entries taken off, counting stale, live and goal entries alike |
| AStarSearch.Solve | puzzle/1.py:136-175 | a returned path is a chain of moves from the initial board to the goal, with steps equal to its length. The search is a run of turns of the step relation `TurnAt`, starting from the initial entry alone at g = 0 and cost 0. Each turn takes off an entry of least f and adds one to nodes explored. It drops the entry when its g exceeds its board's recorded cost, and otherwise relaxes its neighbours. A returned result comes from a live goal entry of least f taken off after such a run (`Ended`). Its nodes explored is the number of entries taken off, stale ones included. The boards taken off start at the initial board, and every later one neighbours an earlier one (`Descends`). None means the run emptied the frontier (`Exhausts`), no chain reaches the goal, and every neighbour of a board taken off was taken off too (`ClosedTrace`). An initial board equal to the goal gives path [], 0 steps, 1 node |
| NQueens.SafeExtends | N-Queen/1.py:2-8 | a column that `is_safe` accepts extends a non-attacking in-range placement to another |
| NQueens.SolutionsSound | N-Queen/1.py:10-19 | every placement the backtracking records is complete, in range, non-attacking, and extends the rows already placed |
| NQueens.SolutionsComplete | N-Queen/1.py:10-19 | every complete non-attacking placement extending the rows already placed is recorded |
| NQueens.SolutionsSorted | N-Queen/1.py:15-19 | the recorded placements are in strictly ascending lexicographic order, so none is recorded twice |
| NQueens.EnumerationCorrect | N-Queen/1.py:29-32 | from the empty board: exactly the n-queens solutions, each once, in ascending order; for n = 0 the single empty placement |
| NQueens.RenderShape | N-Queen/1.py:21-27 | a rendered placement has one string of length n per row, with 'Q' exactly at the queen's column; distinct placements render differently |
| NQueensColumns.IsSafe | N-Queen/1.py:2-8 | true exactly when no earlier row holds a queen in the same column or on a diagonal with (row, col) |
| NQueensColumns.CreateBoard | N-Queen/1.py:21-27 | n strings of n characters with 'Q' exactly at each row's queen column |
| NQueensColumns.TryColumn | N-Queen/1.py:16-19 | appends the solutions through this column when it is safe, nothing otherwise, and leaves the board as it was |
| NQueensColumns.Backtrack | N-Queen/1.py:10-19 | appends the rendered solutions extending the placed rows, in search order, and restores the board |
| NQueensColumns.SolveNQueens | N-Queen/1.py:1-32 | the rendered n-queens solutions, each once, in ascending order; [] for negative n |
| NQueensGrid.IsValid | N-Queen/2.py:5-27 | true exactly when no queen is above (row, col) in its column or on either upward diagonal through it, the cell itself included |
| NQueensGrid.GridValidIffSafe | N-Queen/2.py:5-27 | on a grid drawn from a column placement, the grid check agrees with the column check |
| NQueensGrid.TryColumn | N-Queen/2.py:36-40 | places the queen when valid, searches onward and clears the cell; the board is restored |
| NQueensGrid.Solve | N-Queen/2.py:32-40 | appends every completed grid reachable from this row, in search order, and restores the board |
| NQueensGrid.GridSolutionsMatch | N-Queen/2.py:32-40 | the grids recorded are exactly the rendered placements the column program records, in the same order |
| NQueensGrid.GridOf | N-Queen/sol.py:42 | the grid of a partial placement: 'Q' at each placed row's column and '.' everywhere else |
| NQueensSolution.SolveNQueens | N-Queen/sol.py:2-44 | the same list as the column program: every solution once, in ascending order; [] for negative n |

## Left out

- Time measurement (`time.time()` and the `time_taken` field) is not modelled. `SearchResult` holds path, steps and nodes explored only.
- The `__main__` block of puzzle/1.py and the `print_solution`, `main` and input/print lines of the N-Queens programs (N-Queen/1.py:34-55, N-Queen/2.py:42-50) are interactive I/O.
- `state_to_tuple` is not modelled. It only changes the container type; the model's boards are immutable sequences already.
- SearchSpace.PopMin: `heapq` returns the least entry in Python's tuple order, which breaks ties on the board and path for greedy search and on g, then the board and path, for A*. The model removes some entry of least first component. Which of several tied entries comes out is not fixed, and neither is the heap's internal layout.
- BruteForceSearch.Solve: the shortest-path optimality of breadth-first search is not proved. It needs one more loop invariant, that the paths along the queue are ordered by length and differ by at most one, plus a lemma that a shorter chain would have been dequeued first.
- AStarSearch.Solve: optimality of the returned path is not proved. Admissibility of the heuristic is proved as `SearchSpace.ManhattanAdmissible`, and its consistency as `EightPuzzle.MoveChangesManhattanByOne`. What is missing is the argument that the pop of some entry of least f, whichever one it is, never yields the goal by a longer path than the shortest. The model leaves that choice open, and is not a sorted heap.
- HeuristicSearch.Solve: each turn of the run takes off some entry of least heuristic, and which of several tied entries comes out is left open (see `SearchSpace.PopMin`). So nodes explored is the count of a run with some order for ties, not necessarily the order Python's tuple comparison gives. No claim is made about the length of the returned path beyond its being a chain to the goal.
- AStarSearch.Solve: each turn of the run takes off some entry of least f, and which of several tied entries comes out is left open (see `SearchSpace.PopMin`). So nodes explored is the count of a run with some order for ties, not necessarily the order Python's tuple comparison gives.
- EightPuzzle.GetNeighbors: requires a board with a blank. The source fails when unpacking `None` from `find_blank` on such a board, and the model does not represent that exception.
- BruteForceSearch.Solve, HeuristicSearch.Solve, AStarSearch.Solve: require an initial board of nine cells. The class fixes `self.size = 3` (puzzle/1.py:16), and the model keeps that shape. A board of another shape makes the source either raise or search a different space, and neither behaviour is modelled. The initial board must also hold a blank unless it is already the goal, because `get_neighbors` raises `TypeError` on a board without one.
- HeuristicSearch.Solve, AStarSearch.Solve: also require every tile of the initial board other than the blank to be a key of the goal table. The source raises `KeyError` in `manhattan_distance` otherwise.
- EightPuzzle.NewPuzzle: requires a given goal to be 3×3, as the rest of the class reads nine cells. Goals of other shapes are not modelled.
- N-Queen/sol.py's nested `isValid` and `solve` are not modelled separately. They are the same code as N-Queen/2.py's and share `NQueensGrid`.
- In N-Queen/2.py, `n` is the global read by `input()`. Here it is a parameter of `IsValid` and `Solve`.
