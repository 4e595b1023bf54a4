/** The N-Queens problem as values: a placement is a column vector `p`, where `p[i]`
    is the column of the queen standing in row `i`.  `Solutions` is the enumeration
    that all three backtracking programs perform (columns tried in ascending order,
    row by row), and the lemmas here say what that enumeration delivers. */
module NQueens {
  import opened Arithmetic

  /** A queen at row `|p|`, column `col` is attacked by none of the queens in `p`:
      no earlier row holds the same column, and none lies on a shared diagonal. */
  predicate Safe(p: seq<int>, col: int) {
    forall i :: 0 <= i < |p| ==> p[i] != col && Abs(p[i] - col) != Abs(i - |p|)
  }

  predicate InRange(n: int, p: seq<int>) {
    forall i :: 0 <= i < |p| ==> 0 <= p[i] < n
  }

  /** No two queens share a column or a diagonal (rows are distinct by construction). */
  predicate NonAttacking(p: seq<int>) {
    forall i, j :: 0 <= i < j < |p| ==> p[i] != p[j] && Abs(p[i] - p[j]) != j - i
  }

  /** A complete solution of the n-queens problem: one queen per row, on the board, none attacked. */
  predicate IsPlacement(n: nat, p: seq<int>) {
    |p| == n && InRange(n, p) && NonAttacking(p)
  }

  /** Every complete placement reachable from the partial placement `p` by the
      backtracking search, in the order the search records them. */
  function Solutions(n: nat, p: seq<int>): seq<seq<int>>
    requires |p| <= n
    decreases n - |p|, n + 1
  {
    if |p| == n then [p] else Extend(n, p, n)
  }

  /** The part of the search below `p` that tries the columns `0 .. k-1` in row `|p|`. */
  function Extend(n: nat, p: seq<int>, k: nat): seq<seq<int>>
    requires |p| < n && k <= n
    decreases n - |p|, k
  {
    if k == 0 then []
    else Extend(n, p, k - 1) + (if Safe(p, k - 1) then Solutions(n, p + [k - 1]) else [])
  }

  /** `a` comes strictly before `b` in lexicographic order. */
  predicate LexLess(a: seq<int>, b: seq<int>) {
    exists k :: 0 <= k < |a| && k < |b| && a[..k] == b[..k] && a[k] < b[k]
  }

  predicate StrictlySorted(xs: seq<seq<int>>) {
    forall i, j :: 0 <= i < j < |xs| ==> LexLess(xs[i], xs[j])
  }

  lemma SafeExtends(n: nat, p: seq<int>, c: int)
    requires InRange(n, p) && NonAttacking(p) && Safe(p, c) && 0 <= c < n
    ensures InRange(n, p + [c]) && NonAttacking(p + [c])
  {
    var q := p + [c];
    forall i, j | 0 <= i < j < |q| ensures q[i] != q[j] && Abs(q[i] - q[j]) != j - i {
      if j == |p| {
        assert q[i] == p[i] && q[j] == c;
        assert Abs(i - |p|) == j - i;
      }
    }
  }

  /** Every element of `Solutions(n, p)` is a full-length extension of `p`. */
  lemma {:induction false} SolutionsShape(n: nat, p: seq<int>, s: seq<int>)
    requires |p| <= n && s in Solutions(n, p)
    ensures |s| == n && p <= s
    decreases n - |p|, n + 1
  {
    if |p| < n {
      ExtendShape(n, p, n, s);
    }
  }

  lemma {:induction false} ExtendShape(n: nat, p: seq<int>, k: nat, s: seq<int>)
    requires |p| < n && k <= n && s in Extend(n, p, k)
    ensures |s| == n && p <= s && s[|p|] < k
    decreases n - |p|, k
  {
    if k > 0 {
      if s in Extend(n, p, k - 1) {
        ExtendShape(n, p, k - 1, s);
      } else {
        SolutionsShape(n, p + [k - 1], s);
        assert s[|p|] == (p + [k - 1])[|p|];
      }
    }
  }

  /** Soundness: starting from a partial placement without attacks, everything the
      search records is a complete placement without attacks. */
  lemma {:induction false} SolutionsSound(n: nat, p: seq<int>, s: seq<int>)
    requires |p| <= n && InRange(n, p) && NonAttacking(p)
    requires s in Solutions(n, p)
    ensures IsPlacement(n, s) && p <= s
    decreases n - |p|, n + 1
  {
    if |p| < n {
      ExtendSound(n, p, n, s);
    }
  }

  lemma {:induction false} ExtendSound(n: nat, p: seq<int>, k: nat, s: seq<int>)
    requires |p| < n && k <= n && InRange(n, p) && NonAttacking(p)
    requires s in Extend(n, p, k)
    ensures IsPlacement(n, s) && p <= s
    decreases n - |p|, k
  {
    if k > 0 {
      if s in Extend(n, p, k - 1) {
        ExtendSound(n, p, k - 1, s);
      } else {
        ColumnSound(n, p, k - 1, s);
      }
    }
  }

  /** A solution found with the queen of row `|p|` in column c, which `Safe` accepted. */
  lemma {:induction false} ColumnSound(n: nat, p: seq<int>, c: nat, s: seq<int>)
    requires |p| < n && c < n && InRange(n, p) && NonAttacking(p)
    requires Safe(p, c) && s in Solutions(n, p + [c])
    ensures IsPlacement(n, s) && p <= s
    decreases n - |p|, 0
  {
    SafeExtends(n, p, c);
    SolutionsSound(n, p + [c], s);
    assert p <= p + [c] <= s;
  }

  /** Completeness: every complete placement without attacks that extends `p` is recorded. */
  lemma {:induction false} SolutionsComplete(n: nat, p: seq<int>, s: seq<int>)
    requires |p| <= n && IsPlacement(n, s) && p <= s
    ensures s in Solutions(n, p)
    decreases n - |p|, n + 1
  {
    if |p| == n {
      assert s == p;
    } else {
      ExtendComplete(n, p, n, s);
    }
  }

  lemma {:induction false} ExtendComplete(n: nat, p: seq<int>, k: nat, s: seq<int>)
    requires |p| < n && k <= n && IsPlacement(n, s) && p <= s && s[|p|] < k
    ensures s in Extend(n, p, k)
    decreases n - |p|, k
  {
    var c := s[|p|];
    if c < k - 1 {
      ExtendComplete(n, p, k - 1, s);
    } else {
      forall i | 0 <= i < |p| ensures p[i] != c && Abs(p[i] - c) != Abs(i - |p|) {
        assert p[i] == s[i];
      }
      assert s[..|p| + 1] == p + [c];
      assert p + [c] <= s;
      SolutionsComplete(n, p + [c], s);
    }
  }

  lemma SharedPrefixLess(p: seq<int>, a: seq<int>, b: seq<int>)
    requires p <= a && p <= b && |p| < |a| && |p| < |b| && a[|p|] < b[|p|]
    ensures LexLess(a, b)
  {
    assert a[..|p|] == p == b[..|p|];
  }

  /** Order: the search records its solutions in strictly increasing lexicographic
      order of their column vectors, so in particular never twice. */
  lemma {:induction false} SolutionsSorted(n: nat, p: seq<int>)
    requires |p| <= n
    ensures StrictlySorted(Solutions(n, p))
    decreases n - |p|, n + 1
  {
    if |p| < n {
      ExtendSorted(n, p, n);
    }
  }

  lemma {:induction false} ExtendSorted(n: nat, p: seq<int>, k: nat)
    requires |p| < n && k <= n
    ensures StrictlySorted(Extend(n, p, k))
    decreases n - |p|, k
  {
    if k > 0 {
      ExtendSorted(n, p, k - 1);
      if Safe(p, k - 1) {
        SolutionsSorted(n, p + [k - 1]);
        ColumnsInOrder(n, p, k - 1);
        SortedConcat(Extend(n, p, k - 1), Solutions(n, p + [k - 1]));
      } else {
        assert Extend(n, p, k) == Extend(n, p, k - 1) + [];
      }
    }
  }

  /** The solutions with the queen of row `|p|` left of column c come before those with
      it in column c. */
  lemma ColumnsInOrder(n: nat, p: seq<int>, c: nat)
    requires |p| < n && c < n
    ensures forall a, b :: a in Extend(n, p, c) && b in Solutions(n, p + [c]) ==> LexLess(a, b)
  {
    forall a, b | a in Extend(n, p, c) && b in Solutions(n, p + [c]) ensures LexLess(a, b) {
      ExtendShape(n, p, c, a);
      SolutionsShape(n, p + [c], b);
      assert p <= b && b[|p|] == (p + [c])[|p|];
      SharedPrefixLess(p, a, b);
    }
  }

  lemma SortedConcat(xs: seq<seq<int>>, ys: seq<seq<int>>)
    requires StrictlySorted(xs) && StrictlySorted(ys)
    requires forall a, b :: a in xs && b in ys ==> LexLess(a, b)
    ensures StrictlySorted(xs + ys)
  {
    var zs := xs + ys;
    forall i, j | 0 <= i < j < |zs| ensures LexLess(zs[i], zs[j]) {
      if j < |xs| {
        assert zs[i] == xs[i] && zs[j] == xs[j];
      } else if i >= |xs| {
        assert zs[i] == ys[i - |xs|] && zs[j] == ys[j - |xs|];
      } else {
        assert zs[i] == xs[i] && zs[j] == ys[j - |xs|];
      }
    }
  }

  lemma LexLessIrreflexive(a: seq<int>, b: seq<int>)
    requires LexLess(a, b)
    ensures a != b
  {
  }

  /** What the enumeration from the empty board delivers: exactly the complete
      non-attacking placements, in strictly ascending lexicographic order, without
      repetition.  For n = 0 that is the single empty placement. */
  lemma EnumerationCorrect(n: nat)
    ensures forall s :: s in Solutions(n, []) ==> IsPlacement(n, s)
    ensures forall s :: IsPlacement(n, s) ==> s in Solutions(n, [])
    ensures StrictlySorted(Solutions(n, []))
    ensures forall i, j :: 0 <= i < j < |Solutions(n, [])| ==> Solutions(n, [])[i] != Solutions(n, [])[j]
    ensures n == 0 ==> Solutions(n, []) == [[]]
  {
    forall s | s in Solutions(n, []) ensures IsPlacement(n, s) {
      SolutionsSound(n, [], s);
    }
    forall s | IsPlacement(n, s) ensures s in Solutions(n, []) {
      SolutionsComplete(n, [], s);
    }
    SolutionsSorted(n, []);
    var xs := Solutions(n, []);
    forall i, j | 0 <= i < j < |xs| ensures xs[i] != xs[j] {
      LexLessIrreflexive(xs[i], xs[j]);
    }
  }

  /** One rendered row: n characters, 'Q' at column `c` and '.' everywhere else. */
  function RowString(n: nat, c: int): string {
    seq(n, j => if j == c then 'Q' else '.')
  }

  /** A placement drawn as the strings the programs record, one per row. */
  function Render(n: nat, p: seq<int>): seq<string> {
    seq(|p|, i requires 0 <= i < |p| => RowString(n, p[i]))
  }

  function RenderAll(n: nat, ps: seq<seq<int>>): seq<seq<string>> {
    seq(|ps|, i requires 0 <= i < |ps| => Render(n, ps[i]))
  }

  lemma RenderAllAppend(n: nat, a: seq<seq<int>>, b: seq<seq<int>>)
    ensures RenderAll(n, a + b) == RenderAll(n, a) + RenderAll(n, b)
  {
    assert forall i :: 0 <= i < |a + b| ==> RenderAll(n, a + b)[i] == (RenderAll(n, a) + RenderAll(n, b))[i];
  }

  /** A drawn placement has one string per row, each n characters long with its only
      'Q' in the queen's column; so distinct placements on the board draw differently. */
  lemma RenderShape(n: nat, p: seq<int>)
    requires InRange(n, p)
    ensures |Render(n, p)| == |p|
    ensures forall i :: 0 <= i < |p| ==> |Render(n, p)[i]| == n
    ensures forall i, j :: 0 <= i < |p| && 0 <= j < n ==> (Render(n, p)[i][j] == 'Q' <==> j == p[i])
    ensures forall q :: |q| == |p| && InRange(n, q) && Render(n, q) == Render(n, p) ==> q == p
  {
    forall q | |q| == |p| && InRange(n, q) && Render(n, q) == Render(n, p) ensures q == p {
      forall i | 0 <= i < |p| ensures q[i] == p[i] {
        assert Render(n, q)[i][q[i]] == 'Q';
      }
    }
  }
}
