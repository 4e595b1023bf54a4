/** `solve_n_queens` of the column-vector program: the board is an array where
    `board[row]` is the column of the queen in that row, or -1 while the row is empty.
    The nested helpers `is_safe`, `backtrack` and `create_board` become methods that
    receive `n` and the shared `board` as parameters; the solution list they append to
    is passed in and handed back. */
module NQueensColumns {
  import opened Arithmetic
  import opened NQueens

  /** `is_safe`: scans rows 0 .. row-1 for a queen in column `col` or on a diagonal with (row, col). */
  method IsSafe(board: array<int>, row: nat, col: int) returns (safe: bool)
    requires row <= board.Length
    ensures safe <==> forall i :: 0 <= i < row ==> board[i] != col && Abs(board[i] - col) != Abs(i - row)
    ensures safe == Safe(board[..row], col)
  {
    for i := 0 to row
      invariant forall i' :: 0 <= i' < i ==> board[i'] != col && Abs(board[i'] - col) != Abs(i' - row)
    {
      if board[i] == col {
        return false;
      }
      if Abs(board[i] - col) == Abs(i - row) {
        return false;
      }
    }
    return true;
  }

  /** `create_board`: draws the queens as n strings; each starts as n dots and gets
      its 'Q' at the queen's column. */
  method CreateBoard(board: array<int>, n: nat) returns (rows: seq<string>)
    requires board.Length == n && InRange(n, board[..])
    ensures |rows| == n
    ensures forall i :: 0 <= i < n ==> |rows[i]| == n
    ensures forall i, j :: 0 <= i < n && 0 <= j < n ==> (rows[i][j] == 'Q' <==> j == board[i])
    ensures rows == Render(n, board[..])
  {
    rows := [];
    for i := 0 to n
      invariant rows == Render(n, board[..i])
    {
      var row := new char[n](_ => '.');
      row[board[i]] := 'Q';
      assert row[..] == RowString(n, board[i]);
      rows := rows + [row[..]];
      assert board[..i + 1] == board[..i] + [board[i]];
    }
    assert board[..n] == board[..];
    RenderShape(n, board[..]);
  }

  /** `backtrack`: records, in search order, every solution extending the queens in
      rows 0 .. row-1, and leaves the board as it found it. */
  method Backtrack(board: array<int>, n: nat, row: nat, result: seq<seq<string>>)
    returns (result': seq<seq<string>>)
    requires board.Length == n && row <= n
    requires InRange(n, board[..row])
    requires forall i :: row <= i < n ==> board[i] == -1
    modifies board
    ensures board[..] == old(board[..])
    ensures result' == result + RenderAll(n, Solutions(n, old(board[..row])))
    decreases n - row, 1
  {
    ghost var prefix := board[..row];
    if row == n {
      assert board[..] == prefix;
      var rendered := CreateBoard(board, n);
      result' := result + [rendered];
      return;
    }
    result' := result;
    for col := 0 to n
      invariant board[..] == old(board[..])
      invariant result' == result + RenderAll(n, Extend(n, prefix, col))
    {
      result' := TryColumn(board, n, row, col, result');
      RenderAllAppend(n, Extend(n, prefix, col), if Safe(prefix, col) then Solutions(n, prefix + [col]) else []);
    }
  }

  /** One turn of `backtrack`'s loop: if `is_safe` accepts the column, put the queen
      there, search the rows below, and clear the row again. */
  method TryColumn(board: array<int>, n: nat, row: nat, col: nat, result: seq<seq<string>>)
    returns (result': seq<seq<string>>)
    requires board.Length == n && row < n && col < n
    requires InRange(n, board[..row])
    requires forall i :: row <= i < n ==> board[i] == -1
    modifies board
    ensures board[..] == old(board[..])
    ensures result' == result + RenderAll(n, if Safe(old(board[..row]), col) then Solutions(n, old(board[..row]) + [col]) else [])
    decreases n - row, 0
  {
    ghost var start := board[..];
    ghost var prefix := board[..row];
    var safe := IsSafe(board, row, col);
    if safe {
      board[row] := col;
      assert board[..row + 1] == prefix + [col];
      result' := Backtrack(board, n, row + 1, result);
      board[row] := -1;
      assert board[..] == start;
    } else {
      result' := result;
    }
  }

  /** `solve_n_queens(n)`: the rendered solutions of the n-queens problem in search
      order.  A negative n gives no rows to try and no row equal to n, hence []. */
  method SolveNQueens(n: int) returns (result: seq<seq<string>>)
    ensures n < 0 ==> result == []
    ensures n >= 0 ==> result == RenderAll(n, Solutions(n, []))
    ensures n == 0 ==> result == [[]]
  {
    if n < 0 {
      return [];
    }
    var board := new int[n](_ => -1);
    assert board[..0] == [];
    result := Backtrack(board, n, 0, []);
    EnumerationCorrect(n);
  }
}
