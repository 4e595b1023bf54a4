/** The character-grid backtracking of the module-level `isValid` and `solve`: the board
    is an n×n grid of '.' and 'Q' that `solve` writes and restores in place.  The size
    `n`, a process-wide variable in the script, is a parameter here.  The nested
    `isValid` and `solve` of `Solution.solveNQueens` are the same code and use these. */
module NQueensGrid {
  import opened Arithmetic
  import opened NQueens

  type Grid = seq<seq<char>>

  predicate Square(g: Grid, n: nat) {
    |g| == n && forall i :: 0 <= i < n ==> |g[i]| == n
  }

  /** The rows of an n×n board as strings, as `"".join(r) for r in board` produces them. */
  function Snapshot(board: array2<char>): Grid
    reads board
  {
    seq(board.Length0, i requires 0 <= i < board.Length0 reads board =>
      seq(board.Length1, j requires 0 <= j < board.Length1 reads board => board[i, j]))
  }

  /** What `isValid` checks on a grid: no 'Q' above (row, col) in its column, and none on
      the up-left or up-right diagonal through (row, col), the cell itself included. */
  predicate GridValid(g: Grid, n: nat, row: nat, col: nat)
    requires Square(g, n) && row < n && col < n
  {
    && (forall i :: 0 <= i < row ==> g[i][col] != 'Q')
    && (forall i, j :: 0 <= i <= row && 0 <= j <= col && row - i == col - j ==> g[i][j] != 'Q')
    && (forall i, j :: 0 <= i <= row && col <= j < n && row - i == j - col ==> g[i][j] != 'Q')
  }

  /** The grid with a queen written at (row, col). */
  function Place(g: Grid, row: nat, col: nat): Grid
    requires row < |g| && col < |g[row]|
  {
    g[row := g[row][col := 'Q']]
  }

  /** Every board `solve(board, row)` records, in order: the grid itself once all rows are
      filled, otherwise the results of the columns `isValid` accepts in row `row`. */
  function GridSolutions(n: nat, g: Grid, row: nat): seq<Grid>
    requires Square(g, n) && row <= n
    decreases n - row, n + 1
  {
    if row == n then [g] else GridExtend(n, g, row, n)
  }

  function GridExtend(n: nat, g: Grid, row: nat, k: nat): seq<Grid>
    requires Square(g, n) && row < n && k <= n
    decreases n - row, k
  {
    if k == 0 then []
    else GridExtend(n, g, row, k - 1)
         + (if GridValid(g, n, row, k - 1) then GridSolutions(n, Place(g, row, k - 1), row + 1) else [])
  }

  /** `isValid(board, row, col)`, with its three scans. */
  method IsValid(board: array2<char>, n: nat, row: nat, col: nat) returns (ok: bool)
    requires board.Length0 == n && board.Length1 == n && row < n && col < n
    ensures ok == GridValid(Snapshot(board), n, row, col)
  {
    ghost var g := Snapshot(board);
    assert forall i, j :: 0 <= i < n && 0 <= j < n ==> g[i][j] == board[i, j];
    // up: rows 0 .. row-1 of column col
    for i := 0 to row
      invariant forall i' :: 0 <= i' < i ==> g[i'][col] != 'Q'
    {
      if board[i, col] == 'Q' {
        assert g[i][col] == 'Q';
        return false;
      }
    }
    // up-left diagonal, starting at (row, col)
    var i: int, j: int := row, col;
    while i >= 0 && j >= 0
      invariant -1 <= i <= row && row - i == col - j
      invariant forall i', j' :: i < i' <= row && 0 <= j' <= col && row - i' == col - j' ==> g[i'][j'] != 'Q'
      decreases i
    {
      if board[i, j] == 'Q' {
        assert g[i][j] == 'Q';
        return false;
      }
      i, j := i - 1, j - 1;
    }
    // up-right diagonal, starting at (row, col)
    i, j := row, col;
    while i >= 0 && j < n
      invariant -1 <= i <= row && row - i == j - col && j <= n
      invariant forall i', j' :: i < i' <= row && col <= j' < n && row - i' == j' - col ==> g[i'][j'] != 'Q'
      decreases i
    {
      if board[i, j] == 'Q' {
        assert g[i][j] == 'Q';
        return false;
      }
      i, j := i - 1, j + 1;
    }
    return true;
  }

  lemma SameCells(a: Grid, b: Grid, n: nat)
    requires Square(a, n) && Square(b, n)
    requires forall i, j :: 0 <= i < n && 0 <= j < n ==> a[i][j] == b[i][j]
    ensures a == b
  {
    forall i | 0 <= i < n ensures a[i] == b[i] {
      assert forall j :: 0 <= j < n ==> a[i][j] == b[i][j];
    }
  }

  /** The rows from `row` on are still empty. */
  predicate EmptyFrom(g: Grid, n: nat, row: nat)
    requires Square(g, n)
  {
    forall i, j :: row <= i < n && 0 <= j < n ==> g[i][j] == '.'
  }

  /** The board holds exactly the cells of `g`. */
  ghost predicate Shows(board: array2<char>, g: Grid)
    reads board
  {
    && Square(g, board.Length0) && board.Length1 == board.Length0
    && forall i, j :: 0 <= i < board.Length0 && 0 <= j < board.Length1 ==> board[i, j] == g[i][j]
  }

  lemma ShowsSnapshot(board: array2<char>, g: Grid)
    requires Shows(board, g)
    ensures Snapshot(board) == g
  {
    SameCells(Snapshot(board), g, board.Length0);
  }

  /** Writes one cell of the board; `board[row][col] = c` in the source. */
  method Put(board: array2<char>, row: nat, col: nat, c: char, ghost g: Grid)
    requires Shows(board, g) && row < board.Length0 && col < board.Length1
    modifies board
    ensures Shows(board, g[row := g[row][col := c]])
  {
    board[row, col] := c;
  }

  /** `solve(board, row, result)`: appends every board the search finds below the current
      one `g`, in search order, and puts back every queen it placed. */
  method Solve(board: array2<char>, n: nat, row: nat, result: seq<Grid>, ghost g: Grid)
    returns (result': seq<Grid>)
    requires board.Length0 == n && Shows(board, g) && row <= n && EmptyFrom(g, n, row)
    modifies board
    ensures Shows(board, g)
    ensures result' == result + GridSolutions(n, g, row)
    decreases n - row, 1
  {
    if row == n {
      ShowsSnapshot(board, g);
      result' := result + [Snapshot(board)];
      return;
    }
    result' := result;
    for col := 0 to n
      invariant Shows(board, g)
      invariant result' == result + GridExtend(n, g, row, col)
    {
      result' := TryColumn(board, n, row, col, result', g);
    }
  }

  /** One turn of `solve`'s loop: if `isValid` accepts (row, col), place a queen there,
      search below it, and take the queen away again. */
  method TryColumn(board: array2<char>, n: nat, row: nat, col: nat, result: seq<Grid>, ghost g: Grid)
    returns (result': seq<Grid>)
    requires board.Length0 == n && Shows(board, g) && row < n && col < n && EmptyFrom(g, n, row)
    modifies board
    ensures Shows(board, g)
    ensures result' == result + if GridValid(g, n, row, col) then GridSolutions(n, Place(g, row, col), row + 1) else []
    decreases n - row, 0
  {
    ShowsSnapshot(board, g);
    var ok := IsValid(board, n, row, col);
    if ok {
      Put(board, row, col, 'Q', g);
      result' := Solve(board, n, row + 1, result, Place(g, row, col));
      Put(board, row, col, '.', Place(g, row, col));
      SameCells(Place(g, row, col)[row := Place(g, row, col)[row][col := '.']], g, n);
    } else {
      result' := result;
    }
  }

  /** The grid that shows the partial placement `p`: a 'Q' at (i, p[i]) for each of the
      first |p| rows, '.' everywhere else. */
  function GridOf(n: nat, p: seq<int>): (g: Grid)
    requires |p| <= n
    ensures Square(g, n)
    ensures forall i, j :: 0 <= i < n && 0 <= j < n ==> g[i][j] == (if i < |p| && j == p[i] then 'Q' else '.')
  {
    seq(n, i requires 0 <= i < n => RowString(n, if i < |p| then p[i] else -1))
  }

  /** On a grid that shows p, `isValid`'s three scans accept exactly the columns that
      the column-vector test `is_safe` accepts. */
  lemma GridValidIffSafe(n: nat, p: seq<int>, col: nat)
    requires |p| < n && col < n && InRange(n, p)
    ensures Square(GridOf(n, p), n)
    ensures GridValid(GridOf(n, p), n, |p|, col) <==> Safe(p, col)
  {
    var g, row := GridOf(n, p), |p|;
    if Safe(p, col) {
      assert GridValid(g, n, row, col);
    } else {
      var i :| 0 <= i < row && !(p[i] != col && Abs(p[i] - col) != Abs(i - row));
      if p[i] == col {
        assert g[i][col] == 'Q';
      } else if p[i] < col {
        assert g[i][p[i]] == 'Q' && row - i == col - p[i];
      } else {
        assert g[i][p[i]] == 'Q' && row - i == p[i] - col;
      }
    }
  }

  lemma PlaceGridOf(n: nat, p: seq<int>, col: nat)
    requires |p| < n && col < n
    ensures Square(GridOf(n, p), n)
    ensures Place(GridOf(n, p), |p|, col) == GridOf(n, p + [col])
  {
    var a, b := Place(GridOf(n, p), |p|, col), GridOf(n, p + [col]);
    forall i | 0 <= i < n ensures a[i] == b[i] {
      if i == |p| {
        assert forall j :: 0 <= j < n ==> a[i][j] == b[i][j];
      }
    }
  }

  /** The grid search and the column search agree: below the grid that shows p, `solve`
      records exactly the drawings of the column vectors `backtrack` records below p. */
  lemma {:induction false} GridSolutionsMatch(n: nat, p: seq<int>)
    requires |p| <= n && InRange(n, p)
    ensures Square(GridOf(n, p), n)
    ensures GridSolutions(n, GridOf(n, p), |p|) == RenderAll(n, Solutions(n, p))
    decreases n - |p|, n + 1
  {
    if |p| == n {
      assert GridOf(n, p) == Render(n, p);
    } else {
      GridExtendMatch(n, p, n);
    }
  }

  lemma {:induction false} GridExtendMatch(n: nat, p: seq<int>, k: nat)
    requires |p| < n && k <= n && InRange(n, p)
    ensures Square(GridOf(n, p), n)
    ensures GridExtend(n, GridOf(n, p), |p|, k) == RenderAll(n, Extend(n, p, k))
    decreases n - |p|, k
  {
    var g := GridOf(n, p);
    if k > 0 {
      var c := k - 1;
      GridExtendMatch(n, p, c);
      GridValidIffSafe(n, p, c);
      var tail := if Safe(p, c) then Solutions(n, p + [c]) else [];
      var gridTail := if GridValid(g, n, |p|, c) then GridSolutions(n, Place(g, |p|, c), |p| + 1) else [];
      assert Extend(n, p, k) == Extend(n, p, c) + tail;
      assert GridExtend(n, g, |p|, k) == GridExtend(n, g, |p|, c) + gridTail;
      if Safe(p, c) {
        PlaceGridOf(n, p, c);
        GridSolutionsMatch(n, p + [c]);
      }
      assert gridTail == RenderAll(n, tail);
      RenderAllAppend(n, Extend(n, p, c), tail);
    }
  }
}
