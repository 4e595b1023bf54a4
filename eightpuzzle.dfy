/** Class `EightPuzzle` of puzzle/1.py: boards, the blank, the moves of the blank and
    the Manhattan-distance heuristic.  The program's state is a tuple of three row
    tuples with 0 for the blank; here a board is the same nine cells read row by row,
    so `state[r][c]` is `At(state, r, c)`, the cell at offset 3 * r + c.  Boards are
    values: making a neighbour never changes the board it is made from. */
module EightPuzzle {
  import opened Wrappers
  import opened Arithmetic

  type Board = seq<int>

  /** A cell as (row, column). */
  type Pos = (int, int)

  /** `self.size`: the side of the board. */
  const Size: nat := 3

  /** The number of cells. */
  const Cells: nat := 9

  /** The goal used when none is given. */
  const DefaultGoal: Board := [1, 2, 3, 4, 5, 6, 7, 8, 0]

  /** The blank's moves as (row, column) offsets, in the order they are tried:
      up, down, left, right. */
  const Moves: seq<Pos> := [(-1, 0), (1, 0), (0, -1), (0, 1)]

  predicate InGrid(p: Pos) {
    0 <= p.0 < Size && 0 <= p.1 < Size
  }

  /** Three rows of three cells. */
  predicate Shaped(s: Board) {
    |s| == Cells
  }

  /** Where cell (r, c) sits in the row-by-row reading of the board. */
  function Offset(p: Pos): (k: nat)
    requires InGrid(p)
    ensures k < Cells
  {
    3 * p.0 + p.1
  }

  /** The cell at a given offset. */
  function CellAt(k: nat): (p: Pos)
    requires k < Cells
    ensures InGrid(p) && Offset(p) == k
  {
    if k < 3 then (0, k) else if k < 6 then (1, k - 3) else (2, k - 6)
  }

  lemma OffsetInjective(p: Pos, q: Pos)
    requires InGrid(p) && InGrid(q) && Offset(p) == Offset(q)
    ensures p == q
  {
  }

  /** `state[r][c]`. */
  function At(s: Board, r: int, c: int): int
    requires Shaped(s) && InGrid((r, c))
  {
    s[Offset((r, c))]
  }

  /** A board of the puzzle proper: the tiles 0 .. 8, each exactly once. */
  ghost predicate ValidBoard(s: Board) {
    && Shaped(s)
    && (forall k :: 0 <= k < |s| ==> 0 <= s[k] < Cells)
    && (forall i, j :: 0 <= i < |s| && 0 <= j < |s| && s[i] == s[j] ==> i == j)
    && (forall v :: 0 <= v < Cells ==> v in s)
  }

  // ---------------------------------------------------------------------------
  // The blank

  /** The offset of the first 0 of the board. */
  function FirstZero(s: Board): (k: nat)
    requires 0 in s
    ensures k < |s| && s[k] == 0
    ensures forall j :: 0 <= j < k ==> s[j] != 0
  {
    if s[0] == 0 then 0 else 1 + FirstZero(s[1..])
  }

  /** `find_blank`: scans the rows top to bottom and each row left to right and returns
      the first cell holding 0; None exactly when no cell holds 0. */
  method FindBlank(state: Board) returns (pos: Option<Pos>)
    requires Shaped(state)
    ensures pos.None? <==> 0 !in state
    ensures pos.Some? ==> InGrid(pos.value) && state[Offset(pos.value)] == 0
    ensures pos.Some? ==> forall k :: 0 <= k < Offset(pos.value) ==> state[k] != 0
    ensures pos.Some? ==> Offset(pos.value) == FirstZero(state)
  {
    for r := 0 to Size
      invariant forall k :: 0 <= k < 3 * r ==> state[k] != 0
    {
      for c := 0 to Size
        invariant forall k :: 0 <= k < 3 * r + c ==> state[k] != 0
      {
        if At(state, r, c) == 0 {
          return Some((r, c));
        }
      }
    }
    return None;
  }

  // ---------------------------------------------------------------------------
  // Moves of the blank

  function Distance(p: Pos, q: Pos): nat {
    Abs(p.0 - q.0) + Abs(p.1 - q.1)
  }

  /** The cells at offsets i and j are side by side or one above the other. */
  predicate Adjacent(i: nat, j: nat)
    requires i < Cells && j < Cells
  {
    Distance(CellAt(i), CellAt(j)) == 1
  }

  /** The board after the tile at offset j slides into the blank at offset i: cell i
      takes the tile and cell j becomes 0, by the two assignments of `get_neighbors`. */
  function Slide(s: Board, i: nat, j: nat): (t: Board)
    requires Shaped(s) && i < Cells && j < Cells
    ensures Shaped(t)
  {
    s[i := s[j]][j := 0]
  }

  /** After a slide, cell j holds 0, cell i holds the tile that was at j, and every
      other cell is unchanged. */
  lemma SlideCells(s: Board, i: nat, j: nat)
    requires Shaped(s) && i < Cells && j < Cells
    ensures Slide(s, i, j)[j] == 0
    ensures i != j ==> Slide(s, i, j)[i] == s[j]
    ensures forall k :: 0 <= k < Cells && k != i && k != j ==> Slide(s, i, j)[k] == s[k]
  {
  }

  /** The boards produced by the first n moves of the blank at b, in order. */
  function MovesFrom(s: Board, b: Pos, n: nat): seq<Board>
    requires Shaped(s) && InGrid(b) && n <= |Moves|
  {
    if n == 0 then []
    else
      var q := (b.0 + Moves[n - 1].0, b.1 + Moves[n - 1].1);
      MovesFrom(s, b, n - 1) + (if InGrid(q) then [Slide(s, Offset(b), Offset(q))] else [])
  }

  /** The boards `get_neighbors` returns, in the order it returns them. */
  function Successors(s: Board): seq<Board>
    requires Shaped(s) && 0 in s
  {
    MovesFrom(s, CellAt(FirstZero(s)), |Moves|)
  }

  /** `get_neighbors`: for each move in turn whose target cell lies on the board, a copy
      of the state with the blank and that cell's tile swapped.  The source unpacks the
      result of `find_blank` and fails on a board without a blank; that board is
      excluded. */
  method GetNeighbors(state: Board) returns (neighbors: seq<Board>)
    requires Shaped(state) && 0 in state
    ensures neighbors == Successors(state)
  {
    var blank := FindBlank(state);
    var (blankRow, blankCol) := blank.value;
    CellOffset((blankRow, blankCol));
    neighbors := [];
    for i := 0 to |Moves|
      invariant neighbors == MovesFrom(state, (blankRow, blankCol), i)
    {
      var (dr, dc) := Moves[i];
      var newRow, newCol := blankRow + dr, blankCol + dc;
      if 0 <= newRow < Size && 0 <= newCol < Size {
        var next := state;
        next := next[Offset((blankRow, blankCol)) := At(next, newRow, newCol)];
        next := next[Offset((newRow, newCol)) := 0];
        assert next == Slide(state, Offset((blankRow, blankCol)), Offset((newRow, newCol)));
        neighbors := neighbors + [next];
      }
    }
  }

  /** The four moves from the blank at p, in order. */
  lemma {:induction false} MovesInOrder(s: Board, p: Pos)
    requires Shaped(s) && InGrid(p)
    ensures
      var b := Offset(p);
      MovesFrom(s, p, |Moves|) ==
        (if p.0 > 0 then [Slide(s, b, b - 3)] else []) +
        (if p.0 < 2 then [Slide(s, b, b + 3)] else []) +
        (if p.1 > 0 then [Slide(s, b, b - 1)] else []) +
        (if p.1 < 2 then [Slide(s, b, b + 1)] else [])
  {
    var b := Offset(p);
    var up := if p.0 > 0 then [Slide(s, b, b - 3)] else [];
    var down := if p.0 < 2 then [Slide(s, b, b + 3)] else [];
    var left := if p.1 > 0 then [Slide(s, b, b - 1)] else [];
    var right := if p.1 < 2 then [Slide(s, b, b + 1)] else [];
    assert Moves[0] == (-1, 0) && Moves[1] == (1, 0) && Moves[2] == (0, -1) && Moves[3] == (0, 1);
    assert MovesFrom(s, p, 1) == up;
    assert MovesFrom(s, p, 2) == up + down;
    assert MovesFrom(s, p, 3) == up + down + left;
    assert MovesFrom(s, p, 4) == up + down + left + right;
  }

  /** The neighbours in their fixed order: the blank moved up, down, left and right, each
      only when its target cell is on the board. */
  lemma SuccessorsInOrder(s: Board)
    requires Shaped(s) && 0 in s
    ensures
      var b := FirstZero(s);
      var (r, c) := CellAt(b);
      Successors(s) ==
        (if r > 0 then [Slide(s, b, b - 3)] else []) +
        (if r < 2 then [Slide(s, b, b + 3)] else []) +
        (if c > 0 then [Slide(s, b, b - 1)] else []) +
        (if c < 2 then [Slide(s, b, b + 1)] else [])
  {
    MovesInOrder(s, CellAt(FirstZero(s)));
  }

  /** Two neighbours with the blank in a corner, three on an edge, four in the centre. */
  lemma SuccessorCount(s: Board)
    requires Shaped(s) && 0 in s
    ensures
      var (r, c) := CellAt(FirstZero(s));
      |Successors(s)| == (if r == 1 && c == 1 then 4 else if r == 1 || c == 1 then 3 else 2)
  {
    SuccessorsInOrder(s);
  }

  /** t is s with the blank at offset i and the tile of the adjacent cell j swapped. */
  ghost predicate SwapsBlank(s: Board, t: Board, i: nat, j: nat) {
    && Shaped(s) && Shaped(t) && i < Cells && j < Cells && Adjacent(i, j)
    && s[i] == 0 && t[i] == s[j] && t[j] == 0
    && forall k :: 0 <= k < Cells && k != i && k != j ==> t[k] == s[k]
  }

  /** A legal move of the puzzle: a tile next to the blank slides into it. */
  ghost predicate IsMove(s: Board, t: Board) {
    exists i: nat, j: nat :: SwapsBlank(s, t, i, j)
  }

  lemma CellOffset(p: Pos)
    requires InGrid(p)
    ensures CellAt(Offset(p)) == p
  {
  }

  /** Every board among the first n moves from the blank at b is the slide of a tile
      next to b. */
  lemma {:induction false} MovesFromSlides(s: Board, b: Pos, n: nat, t: Board)
    requires Shaped(s) && InGrid(b) && n <= |Moves| && t in MovesFrom(s, b, n)
    ensures exists j: nat :: j < Cells && Adjacent(Offset(b), j) && t == Slide(s, Offset(b), j)
  {
    if t in MovesFrom(s, b, n - 1) {
      MovesFromSlides(s, b, n - 1, t);
    } else {
      var q := (b.0 + Moves[n - 1].0, b.1 + Moves[n - 1].1);
      CellOffset(b);
      CellOffset(q);
      assert Adjacent(Offset(b), Offset(q));
    }
  }

  lemma {:induction false} MovesFromGrows(s: Board, b: Pos, m: nat, n: nat)
    requires Shaped(s) && InGrid(b) && m <= n <= |Moves|
    ensures MovesFrom(s, b, m) <= MovesFrom(s, b, n)
    decreases n - m
  {
    if m < n {
      MovesFromGrows(s, b, m, n - 1);
    }
  }

  /** The slide of every tile next to b is among the four moves from b. */
  lemma SlideIsMove(s: Board, b: Pos, q: Pos)
    requires Shaped(s) && InGrid(b) && InGrid(q) && Distance(b, q) == 1
    ensures Slide(s, Offset(b), Offset(q)) in MovesFrom(s, b, |Moves|)
  {
    var m := if q.0 < b.0 then 0 else if q.0 > b.0 then 1 else if q.1 < b.1 then 2 else 3;
    assert q == (b.0 + Moves[m].0, b.1 + Moves[m].1);
    assert Slide(s, Offset(b), Offset(q)) in MovesFrom(s, b, m + 1);
    MovesFromGrows(s, b, m + 1, |Moves|);
  }

  /** Every neighbour is one legal move away: it differs from the board only at the old
      blank, which now holds the moved tile, and at the new blank, which holds 0.  On a
      board of the puzzle proper those are exactly the two cells that change. */
  lemma SuccessorsAreMoves(s: Board, t: Board)
    requires Shaped(s) && 0 in s && t in Successors(s)
    ensures exists j: nat :: SwapsBlank(s, t, FirstZero(s), j)
    ensures IsMove(s, t)
    ensures ValidBoard(s) ==>
      forall k :: 0 <= k < Cells ==> (t[k] != s[k] <==> k == FirstZero(s) || t[k] == 0)
  {
    var b := FirstZero(s);
    MovesFromSlides(s, CellAt(b), |Moves|, t);
    var j: nat :| j < Cells && Adjacent(b, j) && t == Slide(s, b, j);
    SlideCells(s, b, j);
    assert SwapsBlank(s, t, b, j);
    if ValidBoard(s) {
      assert s[j] != s[b];
    }
  }

  /** Conversely, on a board of the puzzle proper every legal move is one of the
      neighbours. */
  lemma MovesAreSuccessors(s: Board, t: Board)
    requires ValidBoard(s) && IsMove(s, t)
    ensures 0 in s && t in Successors(s)
  {
    var i: nat, j: nat :| SwapsBlank(s, t, i, j);
    assert s[FirstZero(s)] == s[i];
    SlideCells(s, i, j);
    assert forall k :: 0 <= k < Cells ==> t[k] == Slide(s, i, j)[k];
    assert t == Slide(s, i, j);
    SlideIsMove(s, CellAt(i), CellAt(j));
  }

  /** Sliding keeps a board of the puzzle proper a board of the puzzle proper. */
  lemma SuccessorsValid(s: Board, t: Board)
    requires ValidBoard(s) && t in Successors(s)
    ensures ValidBoard(t)
  {
    SuccessorsAreMoves(s, t);
    var b := FirstZero(s);
    var j: nat :| SwapsBlank(s, t, b, j);
    forall v | 0 <= v < Cells ensures v in t {
      assert v in s;
      var k :| 0 <= k < |s| && s[k] == v;
      var k' := if k == b then j else if k == j then b else k;
      assert t[k'] == v;
    }
    forall k1, k2 | 0 <= k1 < Cells && 0 <= k2 < Cells && t[k1] == t[k2] ensures k1 == k2 {
      var o1 := if k1 == b then j else if k1 == j then b else k1;
      var o2 := if k2 == b then j else if k2 == j then b else k2;
      assert s[o1] == t[k1] && s[o2] == t[k2];
    }
  }

  // ---------------------------------------------------------------------------
  // The goal table and the heuristic

  /** The table of the cells before offset n, built like the comprehension of
      `__init__`: a later cell with the same tile overwrites an earlier one. */
  function PositionsUpTo(goal: Board, n: nat): map<int, Pos>
    requires Shaped(goal) && n <= Cells
  {
    if n == 0 then map[]
    else PositionsUpTo(goal, n - 1)[goal[n - 1] := CellAt(n - 1)]
  }

  /** `self.goal_positions`: each tile of the goal mapped to its cell. */
  function GoalPositions(goal: Board): map<int, Pos>
    requires Shaped(goal)
  {
    PositionsUpTo(goal, Cells)
  }

  lemma {:induction false} PositionsUpToSpec(goal: Board, n: nat)
    requires Shaped(goal) && n <= Cells
    ensures forall v :: v in PositionsUpTo(goal, n) <==> v in goal[..n]
    ensures forall v :: v in PositionsUpTo(goal, n) ==>
      InGrid(PositionsUpTo(goal, n)[v]) && Offset(PositionsUpTo(goal, n)[v]) < n &&
      goal[Offset(PositionsUpTo(goal, n)[v])] == v
  {
    if n > 0 {
      PositionsUpToSpec(goal, n - 1);
      assert goal[..n] == goal[..n - 1] + [goal[n - 1]];
    }
  }

  /** The goal table holds exactly the goal's tiles, each mapped to a cell holding it;
      when the goal's tiles are distinct, to the only such cell. */
  lemma GoalPositionsSpec(goal: Board)
    requires Shaped(goal)
    ensures forall v :: v in GoalPositions(goal) <==> v in goal
    ensures forall v :: v in GoalPositions(goal) ==>
      InGrid(GoalPositions(goal)[v]) && goal[Offset(GoalPositions(goal)[v])] == v
    ensures ValidBoard(goal) ==> forall k :: 0 <= k < Cells ==> GoalPositions(goal)[goal[k]] == CellAt(k)
  {
    PositionsUpToSpec(goal, Cells);
    assert goal[..Cells] == goal;
    if ValidBoard(goal) {
      forall k | 0 <= k < Cells ensures GoalPositions(goal)[goal[k]] == CellAt(k) {
        var p := GoalPositions(goal)[goal[k]];
        assert goal[Offset(p)] == goal[k];
      }
    }
  }

  /** Every tile of s other than the blank has an entry in the goal table `gp`. */
  ghost predicate Scored(gp: map<int, Pos>, s: Board) {
    forall k :: 0 <= k < |s| && s[k] != 0 ==> s[k] in gp
  }

  /** The Manhattan distance of the tile at offset k from its goal cell; nothing for the
      blank. */
  function TileCost(gp: map<int, Pos>, s: Board, k: nat): nat
    requires Shaped(s) && Scored(gp, s) && k < Cells
  {
    if s[k] == 0 then 0 else Distance(CellAt(k), gp[s[k]])
  }

  /** The cost of the cells before offset n. */
  function CostUpTo(gp: map<int, Pos>, s: Board, n: nat): nat
    requires Shaped(s) && Scored(gp, s) && n <= Cells
  {
    if n == 0 then 0 else CostUpTo(gp, s, n - 1) + TileCost(gp, s, n - 1)
  }

  /** The heuristic: the sum over the tiles other than the blank of their Manhattan
      distance from their goal cells. */
  function Manhattan(gp: map<int, Pos>, s: Board): nat
    requires Shaped(s) && Scored(gp, s)
  {
    CostUpTo(gp, s, Cells)
  }

  /** An instance of the puzzle: `initial_state`, `goal_state` and `goal_positions`. */
  datatype Puzzle = Puzzle(initial: Board, goal: Board, goalPositions: map<int, Pos>)

  /** `manhattan_distance`: adds up, cell by cell in row-major order, the row and column
      distance of every tile other than the blank from its entry in the goal table.  A
      tile without an entry would fail the lookup and is excluded. */
  method ManhattanDistance(puzzle: Puzzle, state: Board) returns (distance: int)
    requires Shaped(state) && Scored(puzzle.goalPositions, state)
    ensures distance >= 0
    ensures distance == Manhattan(puzzle.goalPositions, state)
  {
    distance := 0;
    for r := 0 to Size
      invariant distance == CostUpTo(puzzle.goalPositions, state, 3 * r)
    {
      for c := 0 to Size
        invariant distance == CostUpTo(puzzle.goalPositions, state, 3 * r + c)
      {
        var tile := At(state, r, c);
        assert CellAt(3 * r + c) == (r, c);
        if tile != 0 {
          var (goalRow, goalCol) := puzzle.goalPositions[tile];
          distance := distance + Abs(r - goalRow) + Abs(c - goalCol);
        }
      }
    }
  }

  lemma {:induction false} CostUpToZero(gp: map<int, Pos>, s: Board, n: nat)
    requires Shaped(s) && Scored(gp, s) && n <= Cells
    ensures CostUpTo(gp, s, n) == 0 <==> forall k :: 0 <= k < n ==> TileCost(gp, s, k) == 0
  {
    if n > 0 {
      CostUpToZero(gp, s, n - 1);
    }
  }

  /** With a goal of the puzzle proper and its table, every board of the puzzle proper
      can be scored, and its heuristic is 0 exactly on the goal itself. */
  lemma ManhattanZeroIffGoal(goal: Board, s: Board)
    requires ValidBoard(goal) && ValidBoard(s)
    ensures Scored(GoalPositions(goal), s)
    ensures Manhattan(GoalPositions(goal), s) == 0 <==> s == goal
  {
    var gp := GoalPositions(goal);
    GoalPositionsSpec(goal);
    CostUpToZero(gp, s, Cells);
    if Manhattan(gp, s) == 0 {
      forall k | 0 <= k < Cells && s[k] != 0 ensures goal[k] == s[k] {
        assert TileCost(gp, s, k) == 0;
        var p := gp[s[k]];
        OffsetInjective(p, CellAt(k));
      }
      var z := FirstZero(goal);
      assert s[z] == 0;
      forall k | 0 <= k < Cells ensures s[k] == goal[k] {
        if s[k] == 0 {
          assert s[k] == s[z];
        }
      }
    }
  }

  /** The blank contributes nothing: the goal table's entry for 0 is never consulted. */
  lemma {:induction false} CostIgnoresBlankEntry(gp: map<int, Pos>, s: Board, n: nat, x: Pos)
    requires Shaped(s) && Scored(gp, s) && n <= Cells
    ensures Scored(gp[0 := x], s)
    ensures CostUpTo(gp[0 := x], s, n) == CostUpTo(gp, s, n)
  {
    if n > 0 {
      CostIgnoresBlankEntry(gp, s, n - 1, x);
    }
  }

  lemma ManhattanIgnoresBlank(gp: map<int, Pos>, s: Board, x: Pos)
    requires Shaped(s) && Scored(gp, s)
    ensures Scored(gp[0 := x], s)
    ensures Manhattan(gp[0 := x], s) == Manhattan(gp, s)
  {
    CostIgnoresBlankEntry(gp, s, Cells, x);
  }

  /** Two boards whose tile costs differ only at offsets i and j. */
  lemma {:induction false} CostUpToDiff(gp: map<int, Pos>, s: Board, t: Board, i: nat, j: nat, n: nat)
    requires Shaped(s) && Scored(gp, s) && Shaped(t) && Scored(gp, t) && n <= Cells
    requires i < Cells && j < Cells && i != j
    requires forall k :: 0 <= k < Cells && k != i && k != j ==> TileCost(gp, t, k) == TileCost(gp, s, k)
    ensures CostUpTo(gp, t, n) - CostUpTo(gp, s, n) ==
      (if i < n then TileCost(gp, t, i) - TileCost(gp, s, i) else 0) +
      (if j < n then TileCost(gp, t, j) - TileCost(gp, s, j) else 0)
  {
    if n > 0 {
      CostUpToDiff(gp, s, t, i, j, n - 1);
    }
  }

  /** Moving one step changes the distance to any cell by exactly one. */
  lemma NeighbourDistance(p: Pos, q: Pos, g: Pos)
    requires Distance(p, q) == 1
    ensures Distance(q, g) == Distance(p, g) + 1 || Distance(q, g) == Distance(p, g) - 1
  {
  }

  /** With a goal of the puzzle proper, every board of the puzzle proper can be scored. */
  lemma ValidScored(goal: Board, s: Board)
    requires ValidBoard(goal) && ValidBoard(s)
    ensures Scored(GoalPositions(goal), s)
  {
    GoalPositionsSpec(goal);
  }

  /** One move changes the heuristic by exactly one: between s and t only the tile that
      slides from j to i moves. */
  lemma SwapChangesCostByOne(gp: map<int, Pos>, s: Board, t: Board, i: nat, j: nat)
    requires SwapsBlank(s, t, i, j) && s[j] != 0 && Scored(gp, s) && Scored(gp, t)
    ensures Manhattan(gp, t) == Manhattan(gp, s) + 1 || Manhattan(gp, t) == Manhattan(gp, s) - 1
  {
    CostUpToDiff(gp, s, t, i, j, Cells);
    assert TileCost(gp, t, i) == Distance(CellAt(i), gp[s[j]]);
    assert TileCost(gp, s, j) == Distance(CellAt(j), gp[s[j]]);
    NeighbourDistance(CellAt(j), CellAt(i), gp[s[j]]);
  }

  /** The heuristic is consistent: one move changes it by exactly one, because the one
      tile that moves gets one step nearer its goal cell or one step further away. */
  lemma MoveChangesManhattanByOne(goal: Board, s: Board, t: Board)
    requires ValidBoard(goal) && ValidBoard(s) && t in Successors(s)
    ensures ValidBoard(t) && Scored(GoalPositions(goal), s) && Scored(GoalPositions(goal), t)
    ensures Manhattan(GoalPositions(goal), t) == Manhattan(GoalPositions(goal), s) + 1
         || Manhattan(GoalPositions(goal), t) == Manhattan(GoalPositions(goal), s) - 1
  {
    SuccessorsValid(s, t);
    ValidScored(goal, s);
    ValidScored(goal, t);
    SuccessorsAreMoves(s, t);
    var b := FirstZero(s);
    var j: nat :| SwapsBlank(s, t, b, j);
    assert s[j] != s[b];
    SwapChangesCostByOne(GoalPositions(goal), s, t, b, j);
  }

  // ---------------------------------------------------------------------------
  // The puzzle instance

  /** The default goal holds every tile once. */
  lemma DefaultGoalValid()
    ensures ValidBoard(DefaultGoal)
  {
  }

  /** `EightPuzzle(initial_state_list, goal_state_list)`: the given goal unless it is
      missing or empty, else the default goal, with the goal table of that goal.
      Turning the lists into tuples changes nothing in a model whose boards are values. */
  function NewPuzzle(initial: Board, goal: Option<Board>): (p: Puzzle)
    requires goal.Some? && goal.value != [] ==> Shaped(goal.value)
    ensures p.initial == initial
    ensures p.goal == if goal.Some? && goal.value != [] then goal.value else DefaultGoal
    ensures Shaped(p.goal) && p.goalPositions == GoalPositions(p.goal)
    ensures forall v :: v in p.goalPositions <==> v in p.goal
    ensures forall v :: v in p.goalPositions ==>
      InGrid(p.goalPositions[v]) && p.goal[Offset(p.goalPositions[v])] == v
    ensures (goal.None? || goal == Some([])) ==>
      ValidBoard(p.goal) && forall k :: 0 <= k < Cells ==> p.goalPositions[p.goal[k]] == CellAt(k)
  {
    var g := if goal.Some? && goal.value != [] then goal.value else DefaultGoal;
    GoalPositionsSpec(g);
    DefaultGoalValid();
    Puzzle(initial, g, GoalPositions(g))
  }
}
