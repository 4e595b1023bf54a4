/** `Solution.solveNQueens`: builds an n×n board of '.', runs the grid search from row 0
    and returns the boards it recorded.  Its nested `isValid` and `solve` are the same
    code as the module-level ones and are `NQueensGrid.IsValid` and `NQueensGrid.Solve`. */
module NQueensSolution {
  import opened NQueens
  import opened NQueensGrid

  /** The rendered solutions in search order, which is exactly the list the column-vector
      program returns: every complete non-attacking placement once, in ascending
      lexicographic order of its columns.  A negative n gives an empty board, no column
      to try and no row equal to n, hence []. */
  method SolveNQueens(n: int) returns (result: seq<seq<string>>)
    ensures n < 0 ==> result == []
    ensures n >= 0 ==> result == RenderAll(n, Solutions(n, []))
    ensures n == 0 ==> result == [[]]
  {
    if n < 0 {
      return [];
    }
    var board := new char[n, n]((i, j) => '.');
    assert Shows(board, GridOf(n, []));
    result := Solve(board, n, 0, [], GridOf(n, []));
    GridSolutionsMatch(n, []);
    EnumerationCorrect(n);
  }
}
