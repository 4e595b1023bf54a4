/** What the three solvers of puzzle/1.py share: the result they report, chains of
    legal moves, the neighbours a visited set lets through, and the finite space of
    boards their searches stay in. */
module SearchSpace {
  import opened EightPuzzle

  /** The dictionary a solver returns: the boards after each move (the initial board
      excluded), their number and the number of frontier entries taken out.  The
      elapsed time is not modelled. */
  datatype SearchResult = SearchResult(path: seq<Board>, steps: nat, nodesExplored: nat)

  /** b is one of the neighbours of a. */
  predicate Step(a: Board, b: Board) {
    Shaped(a) && 0 in a && b in Successors(a)
  }
  /** b is a neighbour of one of the first m boards of a search trace. */
  ghost predicate HasParent(trace: seq<Board>, m: nat, b: Board) {
    exists j :: 0 <= j < m && j < |trace| && Step(trace[j], b)
  }

  /** Every board of a search trace after the first is a neighbour of one before it. */
  ghost predicate Descends(trace: seq<Board>) {
    forall i :: 0 < i < |trace| ==> HasParent(trace, i, trace[i])
  }

  /** A parent among the first m boards stays one when the trace grows and the bound
      widens. */
  lemma ParentWiden(trace: seq<Board>, m: nat, b: Board, trace': seq<Board>, m': nat)
    requires HasParent(trace, m, b) && trace <= trace' && m <= m'
    ensures HasParent(trace', m', b)
  {
    var j :| 0 <= j < m && j < |trace| && Step(trace[j], b);
    assert trace'[j] == trace[j];
  }

  /** Neighbours of the last board of a trace have a parent in it. */
  lemma ChildrenHaveParent(trace: seq<Board>, xs: seq<Board>)
    requires |trace| > 0 && forall x :: x in xs ==> Step(trace[|trace| - 1], x)
    ensures forall x :: x in xs ==> HasParent(trace, |trace|, x)
  {
  }

  /** Appending a board with a parent in the trace keeps the trace descending. */
  lemma DescendsExtend(trace: seq<Board>, b: Board, trace': seq<Board>)
    requires Descends(trace) && (trace != [] ==> HasParent(trace, |trace|, b)) && trace' == trace + [b]
    ensures Descends(trace')
  {
    forall i | 0 < i < |trace'| ensures HasParent(trace', i, trace'[i]) {
      if i < |trace| {
        ParentWiden(trace, i, trace[i], trace', i);
      } else {
        ParentWiden(trace, |trace|, b, trace', i);
      }
    }
  }


  /** Each board of the path is a neighbour of the one before it, the first one of start. */
  predicate IsChain(start: Board, path: seq<Board>)
    decreases |path|
  {
    |path| == 0 || (Step(start, path[0]) && IsChain(path[0], path[1..]))
  }

  /** The board a path ends on. */
  function Last(start: Board, path: seq<Board>): Board {
    if |path| == 0 then start else path[|path| - 1]
  }

  /** A path one move longer is still a chain, and ends on the new board. */
  lemma {:induction false} ChainExtend(start: Board, path: seq<Board>, b: Board)
    requires IsChain(start, path) && Step(Last(start, path), b)
    ensures IsChain(start, path + [b]) && Last(start, path + [b]) == b
    decreases |path|
  {
    if |path| > 0 {
      assert (path + [b])[1..] == path[1..] + [b];
      ChainExtend(path[0], path[1..], b);
    }
  }

  /** `r` is a solution of the puzzle: a chain of moves from the initial board that ends
      on the goal, and its step count is its length. */
  ghost predicate Solves(puzzle: Puzzle, r: SearchResult) {
    IsChain(puzzle.initial, r.path) && Last(puzzle.initial, r.path) == puzzle.goal && r.steps == |r.path|
  }

  /** No chain of moves leads from the initial board to the goal. */
  ghost predicate Unsolvable(puzzle: Puzzle) {
    forall path :: IsChain(puzzle.initial, path) ==> Last(puzzle.initial, path) != puzzle.goal
  }

  /** Every neighbour of a member of C is in C. */
  ghost predicate Closed(C: set<Board>) {
    forall a, b :: a in C && Step(a, b) ==> b in C
  }

  /** A chain that starts in a closed set never leaves it. */
  lemma {:induction false} ChainStaysInClosed(C: set<Board>, start: Board, path: seq<Board>)
    requires Closed(C) && start in C && IsChain(start, path)
    ensures Last(start, path) in C
    decreases |path|
  {
    if |path| > 0 {
      ChainStaysInClosed(C, path[0], path[1..]);
      if |path| > 1 {
        assert Last(path[0], path[1..]) == Last(start, path);
      }
    }
  }

  /** A closed set that holds the initial board but not the goal shows that the goal
      cannot be reached. */
  lemma ClosedSetSeparates(puzzle: Puzzle, C: set<Board>)
    requires Closed(C) && puzzle.initial in C && puzzle.goal !in C
    ensures Unsolvable(puzzle)
  {
    forall path | IsChain(puzzle.initial, path) ensures Last(puzzle.initial, path) != puzzle.goal {
      ChainStaysInClosed(C, puzzle.initial, path);
    }
  }

  // ---------------------------------------------------------------------------
  // The neighbours a visited set lets through

  /** The neighbours in `ns` that `if neighbor not in visited` lets through, in order:
      those not seen before, each the first time it occurs. */
  function Fresh(ns: seq<Board>, seen: set<Board>): seq<Board> {
    if ns == [] then []
    else
      var init, x := ns[..|ns| - 1], ns[|ns| - 1];
      Fresh(init, seen) + (if x in seen || x in init then [] else [x])
  }

  predicate NoDuplicates<T(==)>(xs: seq<T>) {
    forall i, j :: 0 <= i < j < |xs| ==> xs[i] != xs[j]
  }

  /** The members of a sequence. */
  ghost function Elements<T>(xs: seq<T>): set<T> {
    set x | x in xs
  }

  /** One more neighbour looked at: it is let through exactly when it is neither seen
      nor among the neighbours before it, and it joins those looked at. */
  lemma FreshStep(ns: seq<Board>, seen: set<Board>, k: nat)
    requires k < |ns|
    ensures Fresh(ns[..k + 1], seen)
         == Fresh(ns[..k], seen) + (if ns[k] in seen + Elements(ns[..k]) then [] else [ns[k]])
    ensures Elements(ns[..k + 1]) == Elements(ns[..k]) + {ns[k]}
  {
    var pre := ns[..k + 1];
    assert pre[..|pre| - 1] == ns[..k];
    assert pre == ns[..k] + [ns[k]];
  }

  /** The fresh neighbours are, without repetition, exactly the neighbours not seen. */
  lemma {:induction false} FreshSpec(ns: seq<Board>, seen: set<Board>)
    ensures NoDuplicates(Fresh(ns, seen))
    ensures forall x :: x in Fresh(ns, seen) <==> x in ns && x !in seen
  {
    if ns != [] {
      var init, x := ns[..|ns| - 1], ns[|ns| - 1];
      FreshSpec(init, seen);
      assert ns == init + [x];
    }
  }

  // ---------------------------------------------------------------------------
  // The finite space the searches stay in

  /** The tiles of a board. */
  ghost function Tiles(s: Board): set<int> {
    set k | 0 <= k < |s| :: s[k]
  }

  /** Where a search from `initial` towards `goal` can be: a board whose tiles are
      tiles of the initial board and which has a blank unless it is the goal itself. */
  ghost predicate InSpace(initial: Board, goal: Board, s: Board) {
    Shaped(s) && Tiles(s) <= Tiles(initial) && (s != goal ==> 0 in s)
  }

  /** A neighbour keeps the tiles of its board. */
  lemma StepKeepsTiles(a: Board, b: Board)
    requires Step(a, b)
    ensures Shaped(b) && 0 in b && Tiles(b) <= Tiles(a)
    ensures forall k :: 0 <= k < |b| && b[k] != 0 ==> exists j :: 0 <= j < |a| && a[j] == b[k]
  {
    SuccessorsAreMoves(a, b);
    var i := FirstZero(a);
    var j: nat :| SwapsBlank(a, b, i, j);
    assert b[j] == 0;
    forall v | v in Tiles(b) ensures v in Tiles(a) {
      var k :| 0 <= k < |b| && b[k] == v;
      if k == i {
        assert a[j] == v;
      } else if k == j {
        assert a[i] == v;
      } else {
        assert a[k] == v;
      }
    }
    forall k | 0 <= k < |b| && b[k] != 0 ensures exists j' :: 0 <= j' < |a| && a[j'] == b[k] {
      assert b[k] in Tiles(a);
    }
  }

  lemma StepStaysInSpace(initial: Board, goal: Board, a: Board, b: Board)
    requires InSpace(initial, goal, a) && Step(a, b)
    ensures InSpace(initial, goal, b)
  {
    StepKeepsTiles(a, b);
  }

  /** A neighbour of a board that the goal table can score can be scored too. */
  lemma StepKeepsScored(gp: map<int, Pos>, a: Board, b: Board)
    requires Step(a, b) && Scored(gp, a)
    ensures Scored(gp, b)
  {
    StepKeepsTiles(a, b);
  }

  /** The heuristic the searches store with a board: its Manhattan distance, for a board
      the goal table can score (the only boards the searches meet). */
  ghost function Heuristic(puzzle: Puzzle, s: Board): nat {
    if Shaped(s) && Scored(puzzle.goalPositions, s) then Manhattan(puzzle.goalPositions, s) else 0
  }

  /** All sequences of length n over the tiles V. */
  ghost function Words(V: set<int>, n: nat): set<seq<int>> {
    if n == 0 then {[]} else set x, w | x in V && w in Words(V, n - 1) :: [x] + w
  }

  lemma {:induction false} InWords(V: set<int>, s: seq<int>)
    requires forall k :: 0 <= k < |s| ==> s[k] in V
    ensures s in Words(V, |s|)
    decreases |s|
  {
    if |s| > 0 {
      InWords(V, s[1..]);
      var x, w := s[0], s[1..];
      assert x in V && w in Words(V, |s| - 1);
      assert s == [x] + w;
      assert [x] + w in Words(V, |s|);
    }
  }

  /** The boards a search from `initial` can visit: finitely many. */
  ghost function Universe(initial: Board): set<Board> {
    Words(Tiles(initial), Cells)
  }

  lemma InUniverse(initial: Board, goal: Board, s: Board)
    requires InSpace(initial, goal, s)
    ensures s in Universe(initial)
  {
    forall k | 0 <= k < |s| ensures s[k] in Tiles(initial) {
      assert s[k] in Tiles(s);
    }
    InWords(Tiles(initial), s);
  }

  lemma SubsetNotLarger<T>(X: set<T>, Y: set<T>)
    requires X <= Y
    ensures |X| <= |Y|
  {
    var D := Y - X;
    assert X + D == Y;
    assert X * D == {};
  }

  /** Adding x to the part of U already seen leaves less of U unseen. */
  lemma UnseenShrinks<T>(U: set<T>, A: set<T>, B: set<T>, x: T)
    requires A <= B <= U && x in B && x !in A
    ensures |U - B| < |U - A|
  {
    assert U - B <= (U - A) - {x};
    SubsetNotLarger(U - B, (U - A) - {x});
  }

  // ---------------------------------------------------------------------------
  // What the searches keep of the boards they have seen

  /** The visited set is the set of boards ever queued, each queued once, all in the
      search space. */
  ghost predicate Recorded(puzzle: Puzzle, visited: set<Board>, enqueued: seq<Board>) {
    && NoDuplicates(enqueued)
    && visited == Elements(enqueued)
    && (forall s :: s in visited ==> InSpace(puzzle.initial, puzzle.goal, s))
    && visited <= Universe(puzzle.initial)
  }

  /** Recording the fresh neighbours of a visited board keeps the visited set the set of
      boards ever queued, each once, all in the search space. */
  lemma RecordedGrows(puzzle: Puzzle, current: Board, visited: set<Board>, enqueued: seq<Board>,
                      neighbors: seq<Board>, news: seq<Board>, visited': set<Board>, enqueued': seq<Board>)
    requires Recorded(puzzle, visited, enqueued)
    requires current in visited && Shaped(current) && 0 in current && neighbors == Successors(current)
    requires NoDuplicates(news) && forall x :: x in news <==> x in neighbors && x !in visited
    requires visited' == visited + Elements(neighbors) && enqueued' == enqueued + news
    ensures Recorded(puzzle, visited', enqueued')
  {
    forall i, j | 0 <= i < j < |enqueued'| ensures enqueued'[i] != enqueued'[j] {
      if j >= |enqueued| && i < |enqueued| {
        assert enqueued'[j] in news;
        assert enqueued'[i] in Elements(enqueued);
      } else if i >= |enqueued| {
        assert enqueued'[i] == news[i - |enqueued|] && enqueued'[j] == news[j - |enqueued|];
      }
    }
    forall s | s in visited' ensures InSpace(puzzle.initial, puzzle.goal, s) && s in Universe(puzzle.initial) {
      if s !in visited {
        StepStaysInSpace(puzzle.initial, puzzle.goal, current, s);
        InUniverse(puzzle.initial, puzzle.goal, s);
      }
    }
  }

  /** The measure of the loop goes down: a fresh neighbour is a newly visited member of
      the finite space; with none the queue lost its front. */
  lemma Progress(U: set<Board>, visited: set<Board>, visited': set<Board>, news: seq<Board>,
                 len': nat, len: nat)
    requires visited <= visited' <= U
    requires forall x :: x in news ==> x in visited' && x !in visited
    requires news == [] ==> visited' == visited && len' < len
    ensures |U - visited'| < |U - visited| || (visited' == visited && len' < len)
  {
    if news != [] {
      UnseenShrinks(U, visited, visited', news[0]);
    }
  }

  /** `heapq.heappop`: takes out an entry of least key.  Which of several entries with
      the least key comes out is not modelled. */
  method PopMin<E>(frontier: seq<E>, key: E -> int) returns (e: E, rest: seq<E>, ghost i: nat)
    requires frontier != []
    ensures i < |frontier| && e == frontier[i] && rest == frontier[..i] + frontier[i + 1..]
    ensures forall j :: 0 <= j < |frontier| ==> key(e) <= key(frontier[j])
    ensures multiset(rest) + multiset{e} == multiset(frontier)
  {
    ghost var least := MinIndex(frontier, key);
    var k :| 0 <= k < |frontier| && forall j :: 0 <= j < |frontier| ==> key(frontier[k]) <= key(frontier[j]);
    e, rest, i := frontier[k], frontier[..k] + frontier[k + 1..], k;
    RemoveAt(frontier, k);
  }

  lemma RemoveAt<E>(xs: seq<E>, k: nat)
    requires k < |xs|
    ensures multiset(xs[..k] + xs[k + 1..]) + multiset{xs[k]} == multiset(xs)
  {
    assert xs == xs[..k] + [xs[k]] + xs[k + 1..];
  }

  /** An index of an entry of least key, as witness that one exists. */
  ghost function MinIndex<E>(xs: seq<E>, key: E -> int): (k: nat)
    requires xs != []
    ensures k < |xs| && forall j :: 0 <= j < |xs| ==> key(xs[k]) <= key(xs[j])
  {
    if |xs| == 1 then 0
    else
      var k := MinIndex(xs[..|xs| - 1], key);
      if key(xs[|xs| - 1]) < key(xs[k]) then |xs| - 1 else k
  }

  /** A board not yet listed keeps the list free of repetitions. */
  lemma NoDuplicatesAppend<T>(xs: seq<T>, x: T)
    requires NoDuplicates(xs) && x !in xs
    ensures NoDuplicates(xs + [x])
  {
    forall j, k | 0 <= j < k < |xs + [x]| ensures (xs + [x])[j] != (xs + [x])[k] {
      if k == |xs| {
        assert (xs + [x])[j] == xs[j];
      }
    }
  }

  // ---------------------------------------------------------------------------
  // The heuristic along chains

  /** The Manhattan heuristic never overestimates: a chain from a board of the puzzle
      proper to the goal is at least as long as the board's heuristic. */
  lemma {:induction false} ManhattanAdmissible(goal: Board, s: Board, path: seq<Board>)
    requires ValidBoard(goal) && ValidBoard(s) && IsChain(s, path) && Last(s, path) == goal
    ensures Scored(GoalPositions(goal), s)
    ensures Manhattan(GoalPositions(goal), s) <= |path|
    decreases |path|
  {
    ManhattanZeroIffGoal(goal, s);
    if |path| > 0 {
      var t := path[0];
      MoveChangesManhattanByOne(goal, s, t);
      if |path| > 1 {
        assert Last(t, path[1..]) == Last(s, path);
      }
      ManhattanAdmissible(goal, t, path[1..]);
    }
  }
}
