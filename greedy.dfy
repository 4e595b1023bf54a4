/** `HeuristicSearch.solve` of puzzle/1.py: greedy best-first search.  The frontier
    holds (heuristic, board, path) entries and the entry of least heuristic is expanded
    next; a board is put on the frontier at most once. */
module HeuristicSearch {
  import opened Wrappers
  import opened EightPuzzle
  import opened SearchSpace

  type Entry = (int, Board, seq<Board>)

  function Priority(e: Entry): int {
    e.0
  }

  /** The frontier entries for new boards: each with its heuristic and the path extended by it. */
  ghost function Pushed(puzzle: Puzzle, path: seq<Board>, xs: seq<Board>): (es: seq<Entry>)
    ensures |es| == |xs|
    ensures forall i :: 0 <= i < |xs| ==> es[i] == (Heuristic(puzzle, xs[i]), xs[i], path + [xs[i]])
  {
    seq(|xs|, i requires 0 <= i < |xs| => (Heuristic(puzzle, xs[i]), xs[i], path + [xs[i]]))
  }

  lemma PushedAppend(puzzle: Puzzle, path: seq<Board>, xs: seq<Board>, ys: seq<Board>)
    ensures Pushed(puzzle, path, xs + ys) == Pushed(puzzle, path, xs) + Pushed(puzzle, path, ys)
  {
  }

  /** The boards of the frontier entries. */
  function Boards(frontier: seq<Entry>): (bs: seq<Board>)
    ensures |bs| == |frontier| && forall i :: 0 <= i < |frontier| ==> bs[i] == frontier[i].1
  {
    seq(|frontier|, i requires 0 <= i < |frontier| => frontier[i].1)
  }

  /** The loop over `get_neighbors(current_state)`: every neighbour not yet visited is
      marked visited, scored and pushed with the path extended by it. */
  method PushFresh(puzzle: Puzzle, current: Board, neighbors: seq<Board>, path: seq<Board>,
                   frontier: seq<Entry>, visited: set<Board>, ghost enqueued: seq<Board>)
    returns (frontier': seq<Entry>, visited': set<Board>, ghost enqueued': seq<Board>)
    requires Shaped(current) && 0 in current && Scored(puzzle.goalPositions, current)
    requires neighbors == Successors(current)
    ensures frontier' == frontier + Pushed(puzzle, path, Fresh(neighbors, visited))
    ensures visited' == visited + Elements(neighbors)
    ensures enqueued' == enqueued + Fresh(neighbors, visited)
  {
    frontier', visited', enqueued' := frontier, visited, enqueued;
    for k := 0 to |neighbors|
      invariant frontier' == frontier + Pushed(puzzle, path, Fresh(neighbors[..k], visited))
      invariant visited' == visited + Elements(neighbors[..k])
      invariant enqueued' == enqueued + Fresh(neighbors[..k], visited)
    {
      var neighbor := neighbors[k];
      FreshStep(neighbors, visited, k);
      if neighbor !in visited' {
        visited' := visited' + {neighbor};
        StepKeepsTiles(current, neighbor);
        StepKeepsScored(puzzle.goalPositions, current, neighbor);
        var h := ManhattanDistance(puzzle, neighbor);
        var newPath := path + [neighbor];
        PushedAppend(puzzle, path, Fresh(neighbors[..k], visited), [neighbor]);
        frontier' := frontier' + [(h, neighbor, newPath)];
        enqueued' := enqueued' + [neighbor];
      }
    }
    assert neighbors[..|neighbors|] == neighbors;
  }

  /** Every frontier entry carries its board's heuristic and a chain of moves from the
      initial board to that board. */
  ghost predicate Entries(puzzle: Puzzle, frontier: seq<Entry>) {
    forall i :: 0 <= i < |frontier| ==>
      && Shaped(frontier[i].1) && Scored(puzzle.goalPositions, frontier[i].1)
      && frontier[i].0 == Heuristic(puzzle, frontier[i].1)
      && IsChain(puzzle.initial, frontier[i].2) && Last(puzzle.initial, frontier[i].2) == frontier[i].1
  }

  /** Every board ever pushed has been expanded or is still on the frontier, and not both. */
  ghost predicate Tallied(puzzle: Puzzle, frontier: seq<Entry>, expanded: seq<Board>, enqueued: seq<Board>) {
    && multiset(expanded) + multiset(Boards(frontier)) == multiset(enqueued)
    && NoDuplicates(expanded)
    && |enqueued| > 0 && enqueued[0] == puzzle.initial
    && (|expanded| == 0 ==> |frontier| == 1 && frontier[0].1 == puzzle.initial && frontier[0].2 == [])
    && (|expanded| > 0 ==> expanded[0] == puzzle.initial)
  }

  /** The expanded boards were not the goal, and their neighbours are visited. */
  ghost predicate Expanded(puzzle: Puzzle, visited: set<Board>, expanded: seq<Board>) {
    && (forall i :: 0 <= i < |expanded| ==> expanded[i] != puzzle.goal)
    && (forall i, t :: 0 <= i < |expanded| && Step(expanded[i], t) ==> t in visited)
  }

  /** Every board pushed after the initial one is a neighbour of one of the first m
      boards taken off the frontier. */
  ghost predicate Parents(expanded: seq<Board>, m: nat, enqueued: seq<Board>) {
    forall i :: 0 < i < |enqueued| ==> HasParent(expanded, m, enqueued[i])
  }

  ghost predicate Invariant(puzzle: Puzzle, frontier: seq<Entry>, visited: set<Board>,
                            expanded: seq<Board>, enqueued: seq<Board>)
  {
    && Entries(puzzle, frontier)
    && Tallied(puzzle, frontier, expanded, enqueued)
    && Recorded(puzzle, visited, enqueued)
    && Expanded(puzzle, visited, expanded)
    && Parents(expanded, |expanded|, enqueued)
    && Descends(expanded)
  }

  lemma Initially(puzzle: Puzzle, h: int)
    requires Shaped(puzzle.initial) && (puzzle.initial != puzzle.goal ==> 0 in puzzle.initial)
    requires Scored(puzzle.goalPositions, puzzle.initial) && h == Manhattan(puzzle.goalPositions, puzzle.initial)
    ensures Invariant(puzzle, [(h, puzzle.initial, [])], {puzzle.initial}, [], [puzzle.initial])
  {
    assert Elements([puzzle.initial]) == {puzzle.initial};
    assert Boards([(h, puzzle.initial, [])]) == [puzzle.initial];
    InUniverse(puzzle.initial, puzzle.goal, puzzle.initial);
  }

  lemma CountOne<T>(xs: seq<T>, x: T)
    requires NoDuplicates(xs)
    ensures multiset(xs)[x] <= 1
  {
    if xs != [] {
      assert xs == [xs[0]] + xs[1..];
      CountOne(xs[1..], x);
      if xs[0] == x {
        assert x !in xs[1..];
      }
    }
  }

  /** What the entry taken off the frontier is. */
  lemma Popped(puzzle: Puzzle, frontier: seq<Entry>, visited: set<Board>, expanded: seq<Board>,
               enqueued: seq<Board>, i: nat, rest: seq<Entry>)
    requires Invariant(puzzle, frontier, visited, expanded, enqueued)
    requires i < |frontier| && rest == frontier[..i] + frontier[i + 1..]
    ensures IsChain(puzzle.initial, frontier[i].2) && Last(puzzle.initial, frontier[i].2) == frontier[i].1
    ensures Shaped(frontier[i].1) && Scored(puzzle.goalPositions, frontier[i].1)
    ensures frontier[i].1 != puzzle.goal ==> 0 in frontier[i].1
    ensures frontier[i].1 in visited && frontier[i].1 !in expanded
    ensures multiset(Boards(rest)) + multiset{frontier[i].1} == multiset(Boards(frontier))
    ensures puzzle.initial == puzzle.goal ==> expanded == [] && frontier[i].2 == []
    ensures expanded == [] ==> frontier[i].1 == puzzle.initial
    ensures expanded != [] ==> HasParent(expanded, |expanded|, frontier[i].1)
  {
    var b := frontier[i].1;
    BoardsRemove(frontier, i, rest);
    assert b in multiset(enqueued) by {
      assert b in multiset(Boards(frontier));
    }
    CountOne(enqueued, b);
    assert b in Elements(enqueued);
    if expanded != [] {
      var k :| 0 <= k < |enqueued| && enqueued[k] == b;
      assert k != 0 by {
        assert expanded[0] == puzzle.initial == enqueued[0];
      }
    }
  }

  /** Taking a board off the frontier: it descends from the boards taken off before it,
      and the boards pushed so far keep their parents. */
  lemma PopParents(expanded: seq<Board>, enqueued: seq<Board>, b: Board, expanded': seq<Board>)
    requires Parents(expanded, |expanded|, enqueued) && Descends(expanded)
    requires expanded != [] ==> HasParent(expanded, |expanded|, b)
    requires expanded' == expanded + [b]
    ensures Parents(expanded', |expanded|, enqueued) && Descends(expanded')
  {
    forall i | 0 < i < |enqueued| ensures HasParent(expanded', |expanded|, enqueued[i]) {
      ParentWiden(expanded, |expanded|, enqueued[i], expanded', |expanded|);
    }
    DescendsExtend(expanded, b, expanded');
  }

  /** Pushing neighbours of the last board taken off: they have it as parent. */
  lemma PushParents(expanded: seq<Board>, m: nat, enqueued: seq<Board>, news: seq<Board>, enqueued': seq<Board>)
    requires Parents(expanded, m, enqueued) && 0 < |expanded| && m + 1 == |expanded|
    requires forall x :: x in news ==> Step(expanded[m], x)
    requires enqueued' == enqueued + news
    ensures Parents(expanded, |expanded|, enqueued')
  {
    forall i | 0 < i < |enqueued'| ensures HasParent(expanded, |expanded|, enqueued'[i]) {
      if i < |enqueued| {
        assert HasParent(expanded, m, enqueued[i]);
        assert enqueued'[i] == enqueued[i];
      } else {
        assert enqueued'[i] in news;
        assert Step(expanded[m], enqueued'[i]);
      }
    }
  }

  /** The first m boards taken off were expanded: each board pushed after the initial
      one is a neighbour of one of them, and each of their neighbours has been pushed. */
  ghost predicate Explored(expanded: seq<Board>, m: nat, enqueued: seq<Board>) {
    && Parents(expanded, m, enqueued)
    && forall j, t :: 0 <= j < m && j < |expanded| && Step(expanded[j], t) ==> t in enqueued
  }

  lemma Closure(puzzle: Puzzle, frontier: seq<Entry>, visited: set<Board>, expanded: seq<Board>,
                enqueued: seq<Board>, expanded': seq<Board>, m: nat)
    requires Invariant(puzzle, frontier, visited, expanded, enqueued)
    requires expanded <= expanded' && m == |expanded|
    ensures Explored(expanded', m, enqueued)
  {
    forall i | 0 < i < |enqueued| ensures HasParent(expanded', m, enqueued[i]) {
      assert HasParent(expanded, m, enqueued[i]);
      var j :| 0 <= j < m && j < |expanded| && Step(expanded[j], enqueued[i]);
      assert expanded'[j] == expanded[j];
    }
    forall j, t | 0 <= j < m && j < |expanded'| && Step(expanded'[j], t) ensures t in enqueued {
      assert expanded'[j] == expanded[j];
      assert t in Elements(enqueued);
    }
  }

  lemma BoardsAppend(xs: seq<Entry>, ys: seq<Entry>)
    ensures Boards(xs + ys) == Boards(xs) + Boards(ys)
  {
  }

  /** Taking entry i off the frontier takes its board off the boards of the frontier. */
  lemma BoardsRemove(frontier: seq<Entry>, i: nat, rest: seq<Entry>)
    requires i < |frontier| && rest == frontier[..i] + frontier[i + 1..]
    ensures multiset(Boards(rest)) + multiset{frontier[i].1} == multiset(Boards(frontier))
  {
    assert frontier == frontier[..i] + [frontier[i]] + frontier[i + 1..];
    BoardsAppend(frontier[..i] + [frontier[i]], frontier[i + 1..]);
    BoardsAppend(frontier[..i], [frontier[i]]);
    BoardsAppend(frontier[..i], frontier[i + 1..]);
  }

  /** The invariant survives one expansion of the entry taken off the frontier, and
      either more of the finite space is visited or the frontier is shorter. */
  lemma Expand(puzzle: Puzzle, frontier: seq<Entry>, visited: set<Board>, expanded: seq<Board>,
               enqueued: seq<Board>, i: nat, rest: seq<Entry>, neighbors: seq<Board>,
               frontier': seq<Entry>, visited': set<Board>, enqueued': seq<Board>)
    requires Invariant(puzzle, frontier, visited, expanded, enqueued)
    requires i < |frontier| && rest == frontier[..i] + frontier[i + 1..]
    requires frontier[i].1 != puzzle.goal && Shaped(frontier[i].1) && 0 in frontier[i].1
    requires neighbors == Successors(frontier[i].1)
    requires frontier' == rest + Pushed(puzzle, frontier[i].2, Fresh(neighbors, visited))
    requires visited' == visited + Elements(neighbors)
    requires enqueued' == enqueued + Fresh(neighbors, visited)
    ensures Invariant(puzzle, frontier', visited', expanded + [frontier[i].1], enqueued')
    ensures |Universe(puzzle.initial) - visited'| < |Universe(puzzle.initial) - visited|
         || (visited' == visited && |frontier'| < |frontier|)
  {
    var (_, current, path) := frontier[i];
    Popped(puzzle, frontier, visited, expanded, enqueued, i, rest);
    var news := Fresh(neighbors, visited);
    FreshSpec(neighbors, visited);
    ExpandEntries(puzzle, frontier, i, rest, news, frontier');
    ExpandTallied(puzzle, frontier, expanded, enqueued, i, rest, news, frontier', enqueued');
    RecordedGrows(puzzle, current, visited, enqueued, neighbors, news, visited', enqueued');
    ExpandExpanded(puzzle, current, visited, expanded, neighbors, visited');
    PopParents(expanded, enqueued, current, expanded + [current]);
    PushParents(expanded + [current], |expanded|, enqueued, news, enqueued');
    if news == [] {
      assert visited' == visited;
    }
    Progress(Universe(puzzle.initial), visited, visited', news, |frontier'|, |frontier|);
  }

  lemma ExpandEntries(puzzle: Puzzle, frontier: seq<Entry>, i: nat, rest: seq<Entry>,
                      news: seq<Board>, frontier': seq<Entry>)
    requires Entries(puzzle, frontier) && i < |frontier| && rest == frontier[..i] + frontier[i + 1..]
    requires forall x :: x in news ==> Step(frontier[i].1, x)
    requires frontier' == rest + Pushed(puzzle, frontier[i].2, news)
    ensures Entries(puzzle, frontier')
  {
    var (_, current, path) := frontier[i];
    assert IsChain(puzzle.initial, path) && Last(puzzle.initial, path) == current;
    forall j | 0 <= j < |frontier'|
      ensures Shaped(frontier'[j].1) && Scored(puzzle.goalPositions, frontier'[j].1)
      ensures frontier'[j].0 == Heuristic(puzzle, frontier'[j].1)
      ensures IsChain(puzzle.initial, frontier'[j].2) && Last(puzzle.initial, frontier'[j].2) == frontier'[j].1
    {
      if j < i {
        assert frontier'[j] == frontier[j];
      } else if j < |rest| {
        assert frontier'[j] == frontier[j + 1];
      } else {
        var x := news[j - |rest|];
        assert frontier'[j] == (Heuristic(puzzle, x), x, path + [x]);
        StepKeepsTiles(current, x);
        StepKeepsScored(puzzle.goalPositions, current, x);
        ChainExtend(puzzle.initial, path, x);
      }
    }
  }

  lemma ExpandTallied(puzzle: Puzzle, frontier: seq<Entry>, expanded: seq<Board>, enqueued: seq<Board>,
                      i: nat, rest: seq<Entry>, news: seq<Board>, frontier': seq<Entry>, enqueued': seq<Board>)
    requires Tallied(puzzle, frontier, expanded, enqueued)
    requires i < |frontier| && rest == frontier[..i] + frontier[i + 1..] && frontier[i].1 !in expanded
    requires multiset(Boards(rest)) + multiset{frontier[i].1} == multiset(Boards(frontier))
    requires frontier' == rest + Pushed(puzzle, frontier[i].2, news)
    requires enqueued' == enqueued + news
    ensures Tallied(puzzle, frontier', expanded + [frontier[i].1], enqueued')
  {
    var b := frontier[i].1;
    var pushed := Pushed(puzzle, frontier[i].2, news);
    assert Boards(pushed) == news;
    BoardsAppend(rest, pushed);
    assert multiset(Boards(frontier')) == multiset(Boards(rest)) + multiset(news);
    assert multiset(expanded + [b]) == multiset(expanded) + multiset{b};
    NoDuplicatesAppend(expanded, b);
  }

  lemma ExpandExpanded(puzzle: Puzzle, current: Board, visited: set<Board>, expanded: seq<Board>,
                       neighbors: seq<Board>, visited': set<Board>)
    requires Expanded(puzzle, visited, expanded) && current != puzzle.goal
    requires Shaped(current) && 0 in current && neighbors == Successors(current)
    requires visited' == visited + Elements(neighbors)
    ensures Expanded(puzzle, visited', expanded + [current])
  {
    var expanded' := expanded + [current];
    forall j, t | 0 <= j < |expanded'| && Step(expanded'[j], t) ensures t in visited' {
      if j < |expanded| {
        assert expanded'[j] == expanded[j];
      }
    }
  }

  /** The goal taken off the frontier: its path solves the puzzle, and it is the first
      goal expanded. */
  lemma Found(puzzle: Puzzle, frontier: seq<Entry>, visited: set<Board>, expanded: seq<Board>,
              enqueued: seq<Board>, i: nat, rest: seq<Entry>)
    requires Invariant(puzzle, frontier, visited, expanded, enqueued)
    requires i < |frontier| && rest == frontier[..i] + frontier[i + 1..] && frontier[i].1 == puzzle.goal
    ensures Solves(puzzle, SearchResult(frontier[i].2, |frontier[i].2|, |expanded| + 1))
    ensures NoDuplicates(expanded + [puzzle.goal])
    ensures forall j :: 0 <= j < |expanded| + 1 ==> (expanded + [puzzle.goal])[j] in enqueued
    ensures puzzle.initial == puzzle.goal ==> expanded == [] && frontier[i].2 == []
  {
    Popped(puzzle, frontier, visited, expanded, enqueued, i, rest);
    NoDuplicatesAppend(expanded, puzzle.goal);
    assert puzzle.goal in Elements(enqueued);
    forall j | 0 <= j < |expanded| ensures expanded[j] in enqueued {
      assert expanded[j] in multiset(enqueued);
    }
  }

  /** An exhausted frontier: every board ever pushed was expanded and none of it was the
      goal, so the visited set separates the goal from the initial board. */
  lemma Exhausted(puzzle: Puzzle, visited: set<Board>, expanded: seq<Board>, enqueued: seq<Board>)
    requires Invariant(puzzle, [], visited, expanded, enqueued)
    ensures Unsolvable(puzzle)
    ensures forall i :: 0 <= i < |expanded| ==> expanded[i] in enqueued
  {
    assert Boards([]) == [];
    assert multiset(expanded) == multiset(enqueued);
    forall x | x in visited ensures x in expanded {
      assert x in Elements(enqueued);
      assert x in multiset(enqueued);
    }
    forall i | 0 <= i < |expanded| ensures expanded[i] in enqueued {
      assert expanded[i] in multiset(expanded);
    }
    forall a, t | a in visited && Step(a, t) ensures t in visited {
      var i :| 0 <= i < |expanded| && expanded[i] == a;
    }
    assert puzzle.initial in Elements(enqueued);
    ClosedSetSeparates(puzzle, visited);
  }

  // ---------------------------------------------------------------------------
  // The search as a sequence of turns of its loop

  /** The state of the loop between turns: the frontier, the visited set, and the number
      of entries taken off so far. */
  datatype LoopState = LoopState(frontier: seq<Entry>, visited: set<Board>, explored: nat)

  /** The state before the first turn: the initial board alone on the frontier with its
      heuristic and the empty path, and marked visited. */
  ghost function Start(puzzle: Puzzle): LoopState {
    LoopState([(Heuristic(puzzle, puzzle.initial), puzzle.initial, [])], {puzzle.initial}, 0)
  }

  /** Entry i has the least heuristic on the frontier. */
  ghost predicate LeastAt(frontier: seq<Entry>, i: nat) {
    i < |frontier| && forall j :: 0 <= j < |frontier| ==> frontier[i].0 <= frontier[j].0
  }

  /** A turn that does not end the search, taking entry i, one of least heuristic, off:
      it is counted; its board is not the goal; its neighbours not yet visited are pushed
      with their heuristic and the path extended by them; and all its neighbours become
      visited. */
  ghost predicate TurnAt(puzzle: Puzzle, s: LoopState, i: nat, s': LoopState) {
    && LeastAt(s.frontier, i)
    && var (_, current, path) := s.frontier[i];
       && current != puzzle.goal && Shaped(current) && 0 in current
       && var ns := Successors(current);
          s' == LoopState(s.frontier[..i] + s.frontier[i + 1..] + Pushed(puzzle, path, Fresh(ns, s.visited)),
                          s.visited + Elements(ns), s.explored + 1)
  }

  /** A turn from s to s', taking off some entry of least heuristic. */
  ghost predicate Turn(puzzle: Puzzle, s: LoopState, s': LoopState) {
    exists i: nat :: TurnAt(puzzle, s, i, s')
  }

  /** run[k] is the state after k turns. */
  ghost predicate Run(puzzle: Puzzle, run: seq<LoopState>) {
    && |run| > 0 && run[0] == Start(puzzle)
    && forall k :: 0 <= k < |run| - 1 ==> Turn(puzzle, run[k], run[k + 1])
  }

  /** run is a run whose last state has this frontier, this visited set and this count. */
  ghost predicate Trail(puzzle: Puzzle, run: seq<LoopState>, frontier: seq<Entry>, visited: set<Board>, n: nat) {
    Run(puzzle, run) && run[|run| - 1] == LoopState(frontier, visited, n)
  }

  /** The turn that ends the search in state s: an entry of least heuristic that holds
      the goal comes off, and r reports its path and nodes explored counting it. */
  ghost predicate Finish(puzzle: Puzzle, s: LoopState, r: SearchResult) {
    exists i: nat :: && LeastAt(s.frontier, i) && s.frontier[i].1 == puzzle.goal
                && r == SearchResult(s.frontier[i].2, |s.frontier[i].2|, s.explored + 1)
  }

  /** The search ends with r: a run, and then the turn that ends it with r. */
  ghost predicate Ended(puzzle: Puzzle, run: seq<LoopState>, r: SearchResult) {
    Run(puzzle, run) && Finish(puzzle, run[|run| - 1], r)
  }

  /** The search stops with nothing found: the run empties the frontier. */
  ghost predicate Exhausts(puzzle: Puzzle, run: seq<LoopState>) {
    Run(puzzle, run) && run[|run| - 1].frontier == []
  }

  /** Every turn counts the entry it takes off: after k turns nodes explored is k. */
  lemma {:induction false} RunCounts(puzzle: Puzzle, run: seq<LoopState>, k: nat)
    requires Run(puzzle, run) && k < |run|
    ensures run[k].explored == k
  {
    if k > 0 {
      RunCounts(puzzle, run, k - 1);
      assert Turn(puzzle, run[k - 1], run[k]);
    }
  }

  /** A search that ends with r reports as nodes explored every entry taken off the
      frontier, the goal's included. */
  lemma EndedCounts(puzzle: Puzzle, run: seq<LoopState>, r: SearchResult)
    requires Ended(puzzle, run, r)
    ensures r.nodesExplored == run[|run| - 1].explored + 1 == |run|
  {
    RunCounts(puzzle, run, |run| - 1);
  }

  /** Every entry taken off has a heuristic no greater than any entry left on the
      frontier: after a turn, the entries that were on the frontier and stayed have a
      heuristic at least that of the entry taken off. */
  lemma TurnTakesLeast(puzzle: Puzzle, s: LoopState, i: nat, s': LoopState, j: nat)
    requires TurnAt(puzzle, s, i, s') && j < |s.frontier| - 1
    ensures s.frontier[i].0 <= s'.frontier[j].0
  {
    var rest := s.frontier[..i] + s.frontier[i + 1..];
    assert s'.frontier[j] == rest[j];
    if j < i {
      assert rest[j] == s.frontier[j];
    } else {
      assert rest[j] == s.frontier[j + 1];
    }
  }

  lemma StartTrail(puzzle: Puzzle, h: int)
    requires Shaped(puzzle.initial) && Scored(puzzle.goalPositions, puzzle.initial)
    requires h == Manhattan(puzzle.goalPositions, puzzle.initial)
    ensures Trail(puzzle, [Start(puzzle)], [(h, puzzle.initial, [])], {puzzle.initial}, 0)
  {
  }

  /** An entry whose priority is no more than any entry's has the least heuristic. */
  lemma LeastPopped(frontier: seq<Entry>, i: nat)
    requires i < |frontier| && forall j :: 0 <= j < |frontier| ==> Priority(frontier[i]) <= Priority(frontier[j])
    ensures LeastAt(frontier, i)
  {
  }

  /** Expanding an entry of least heuristic, which is not the goal, is a turn. */
  lemma TurnTaken(puzzle: Puzzle, run: seq<LoopState>, frontier: seq<Entry>, visited: set<Board>, n: nat,
                  i: nat, frontier': seq<Entry>, visited': set<Board>, n': nat)
    requires Trail(puzzle, run, frontier, visited, n) && LeastAt(frontier, i) && n' == n + 1
    requires frontier[i].1 != puzzle.goal && Shaped(frontier[i].1) && 0 in frontier[i].1
    requires frontier' == frontier[..i] + frontier[i + 1..]
                          + Pushed(puzzle, frontier[i].2, Fresh(Successors(frontier[i].1), visited))
    requires visited' == visited + Elements(Successors(frontier[i].1))
    ensures Trail(puzzle, run + [LoopState(frontier', visited', n')], frontier', visited', n')
  {
    var run' := run + [LoopState(frontier', visited', n')];
    assert TurnAt(puzzle, run[|run| - 1], i, LoopState(frontier', visited', n'));
    forall k | 0 <= k < |run'| - 1 ensures Turn(puzzle, run'[k], run'[k + 1]) {
      if k < |run| - 1 {
        assert run'[k] == run[k] && run'[k + 1] == run[k + 1];
      }
    }
  }

  /** Taking off an entry of least heuristic that holds the goal ends the search with
      its path. */
  lemma Finished(puzzle: Puzzle, run: seq<LoopState>, frontier: seq<Entry>, visited: set<Board>, n: nat,
                 i: nat, r: SearchResult)
    requires Trail(puzzle, run, frontier, visited, n) && LeastAt(frontier, i) && frontier[i].1 == puzzle.goal
    requires r == SearchResult(frontier[i].2, |frontier[i].2|, n + 1)
    ensures Ended(puzzle, run, r)
  {
    assert LeastAt(run[|run| - 1].frontier, i);
  }

  /** A run whose frontier is empty stops the search. */
  lemma Exhaust(puzzle: Puzzle, run: seq<LoopState>, visited: set<Board>, n: nat)
    requires Trail(puzzle, run, [], visited, n)
    ensures Exhausts(puzzle, run)
  {
  }

  // ---------------------------------------------------------------------------
  // The search loop

  /** What holds before each turn of the loop: the invariant over the frontier, the
      visited set and the traces, nodes explored counting the boards taken off, and the
      run of turns so far ending in the current state. */
  ghost predicate Loop(puzzle: Puzzle, frontier: seq<Entry>, visited: set<Board>, n: nat,
                       expanded: seq<Board>, enqueued: seq<Board>, run: seq<LoopState>)
  {
    && Invariant(puzzle, frontier, visited, expanded, enqueued)
    && n == |expanded|
    && Trail(puzzle, run, frontier, visited, n)
  }

  /** What a returned result r promises: its path is a chain of moves to the goal and
      steps is its length; nodes explored is the number of boards taken off, the last
      being the goal and none before it; those before it were expanded; and the run of
      turns ends with r. */
  ghost predicate Succeeds(puzzle: Puzzle, r: SearchResult, expanded: seq<Board>, enqueued: seq<Board>,
                           run: seq<LoopState>)
  {
    && Solves(puzzle, r)
    && r.nodesExplored == |expanded| > 0 && expanded[|expanded| - 1] == puzzle.goal
    && (forall i :: 0 <= i < |expanded| - 1 ==> expanded[i] != puzzle.goal)
    && Explored(expanded, |expanded| - 1, enqueued)
    && Ended(puzzle, run, r)
  }

  /** What a search that finds nothing promises: no chain reaches the goal, every board
      taken off was expanded, and the run of turns empties the frontier. */
  ghost predicate Fails(puzzle: Puzzle, expanded: seq<Board>, enqueued: seq<Board>, run: seq<LoopState>) {
    Unsolvable(puzzle) && Explored(expanded, |expanded|, enqueued) && Exhausts(puzzle, run)
  }

  /** The traces of boards taken off and pushed: both start at the initial board, the
      pushes hold each board once, every board taken off was pushed and is taken off
      once, and every board taken off after the first neighbours an earlier one. */
  ghost predicate Traced(puzzle: Puzzle, expanded: seq<Board>, enqueued: seq<Board>) {
    && |enqueued| > 0 && enqueued[0] == puzzle.initial && NoDuplicates(enqueued)
    && NoDuplicates(expanded) && (forall i :: 0 <= i < |expanded| ==> expanded[i] in enqueued)
    && |expanded| > 0 && expanded[0] == puzzle.initial && Descends(expanded)
  }

  lemma Begin(puzzle: Puzzle, h: int)
    requires Shaped(puzzle.initial) && (puzzle.initial != puzzle.goal ==> 0 in puzzle.initial)
    requires Scored(puzzle.goalPositions, puzzle.initial) && h == Manhattan(puzzle.goalPositions, puzzle.initial)
    ensures Loop(puzzle, [(h, puzzle.initial, [])], {puzzle.initial}, 0, [], [puzzle.initial], [Start(puzzle)])
  {
    Initially(puzzle, h);
    StartTrail(puzzle, h);
  }

  /** Expanding an entry of least heuristic, which is not the goal, keeps what holds
      before each turn. */
  lemma Advance(puzzle: Puzzle, frontier: seq<Entry>, visited: set<Board>, n: nat, expanded: seq<Board>,
                enqueued: seq<Board>, run: seq<LoopState>, i: nat,
                frontier': seq<Entry>, visited': set<Board>, n': nat, enqueued': seq<Board>)
    requires Loop(puzzle, frontier, visited, n, expanded, enqueued, run) && LeastAt(frontier, i) && n' == n + 1
    requires frontier[i].1 != puzzle.goal && Shaped(frontier[i].1) && 0 in frontier[i].1
    requires frontier' == frontier[..i] + frontier[i + 1..]
                          + Pushed(puzzle, frontier[i].2, Fresh(Successors(frontier[i].1), visited))
    requires visited' == visited + Elements(Successors(frontier[i].1))
    requires Invariant(puzzle, frontier', visited', expanded + [frontier[i].1], enqueued')
    ensures Loop(puzzle, frontier', visited', n', expanded + [frontier[i].1], enqueued',
                 run + [LoopState(frontier', visited', n')])
  {
    TurnTaken(puzzle, run, frontier, visited, n, i, frontier', visited', n');
  }

  /** Taking off an entry of least heuristic that holds the goal returns a result that
      succeeds. */
  lemma Succeed(puzzle: Puzzle, frontier: seq<Entry>, visited: set<Board>, n: nat, expanded: seq<Board>,
                enqueued: seq<Board>, run: seq<LoopState>, i: nat, r: SearchResult)
    requires Loop(puzzle, frontier, visited, n, expanded, enqueued, run) && LeastAt(frontier, i)
    requires frontier[i].1 == puzzle.goal
    requires r == SearchResult(frontier[i].2, |frontier[i].2|, n + 1)
    ensures Succeeds(puzzle, r, expanded + [puzzle.goal], enqueued, run)
    ensures Traced(puzzle, expanded + [puzzle.goal], enqueued)
    ensures puzzle.initial == puzzle.goal ==> r == SearchResult([], 0, 1)
  {
    var rest := frontier[..i] + frontier[i + 1..];
    Found(puzzle, frontier, visited, expanded, enqueued, i, rest);
    Popped(puzzle, frontier, visited, expanded, enqueued, i, rest);
    var expanded' := expanded + [puzzle.goal];
    PopParents(expanded, enqueued, puzzle.goal, expanded');
    Closure(puzzle, frontier, visited, expanded, enqueued, expanded', |expanded|);
    Finished(puzzle, run, frontier, visited, n, i, r);
  }

  /** A loop that empties the frontier ends in a search that fails. */
  lemma Fail(puzzle: Puzzle, visited: set<Board>, n: nat, expanded: seq<Board>, enqueued: seq<Board>,
             run: seq<LoopState>)
    requires Loop(puzzle, [], visited, n, expanded, enqueued, run)
    ensures Fails(puzzle, expanded, enqueued, run)
    ensures Traced(puzzle, expanded, enqueued)
    ensures puzzle.initial != puzzle.goal
  {
    Exhausted(puzzle, visited, expanded, enqueued);
    Closure(puzzle, [], visited, expanded, enqueued, expanded, |expanded|);
    Exhaust(puzzle, run, visited, n);
  }

  /** One expansion of the entry `entry`, one of least heuristic, taken off the frontier
      at index i: its fresh neighbours are visited and pushed onto the rest of the
      frontier.  This is one turn of the loop: what holds before each turn still holds,
      with the run extended by it. */
  method ExpandEntry(puzzle: Puzzle, frontier: seq<Entry>, visited: set<Board>, ghost n: nat,
                     ghost expanded: seq<Board>, ghost enqueued: seq<Board>, ghost run: seq<LoopState>,
                     ghost i: nat, entry: Entry, rest: seq<Entry>, ghost n': nat)
    returns (frontier': seq<Entry>, visited': set<Board>, ghost enqueued': seq<Board>)
    requires Loop(puzzle, frontier, visited, n, expanded, enqueued, run) && n' == n + 1
    requires LeastAt(frontier, i) && entry == frontier[i] && rest == frontier[..i] + frontier[i + 1..]
    requires entry.1 != puzzle.goal
    ensures Shaped(entry.1) && 0 in entry.1
    ensures frontier' == rest + Pushed(puzzle, entry.2, Fresh(Successors(entry.1), visited))
    ensures visited' == visited + Elements(Successors(entry.1))
    ensures Loop(puzzle, frontier', visited', n', expanded + [entry.1], enqueued',
                 run + [LoopState(frontier', visited', n')])
    ensures |Universe(puzzle.initial) - visited'| < |Universe(puzzle.initial) - visited|
         || (visited' == visited && |frontier'| < |frontier|)
  {
    Popped(puzzle, frontier, visited, expanded, enqueued, i, rest);
    var (_, current, path) := entry;
    var neighbors := GetNeighbors(current);
    frontier', visited', enqueued' := PushFresh(puzzle, current, neighbors, path, rest, visited, enqueued);
    Expand(puzzle, frontier, visited, expanded, enqueued, i, rest, neighbors, frontier', visited', enqueued');
    Advance(puzzle, frontier, visited, n, expanded, enqueued, run, i, frontier', visited', n', enqueued');
  }

  /** One turn of the loop: takes an entry of least heuristic off the frontier and
      counts it; reports it if it is the goal; otherwise pushes its unvisited neighbours
      with their heuristics.  A turn that does not report keeps what holds before each
      turn, extends the run by one turn, and visits more of the finite space or
      shortens the frontier. */
  method TakeTurn(puzzle: Puzzle, frontier: seq<Entry>, visited: set<Board>, nodesExplored: nat,
                  ghost expanded: seq<Board>, ghost enqueued: seq<Board>, ghost run: seq<LoopState>)
    returns (found: Option<SearchResult>, frontier': seq<Entry>, visited': set<Board>, nodesExplored': nat,
             ghost expanded': seq<Board>, ghost enqueued': seq<Board>)
    requires frontier != [] && Loop(puzzle, frontier, visited, nodesExplored, expanded, enqueued, run)
    ensures nodesExplored' == nodesExplored + 1
    ensures found.Some? ==> Succeeds(puzzle, found.value, expanded', enqueued', run)
    ensures found.Some? ==> Traced(puzzle, expanded', enqueued')
    ensures found.Some? && puzzle.initial == puzzle.goal ==> found.value == SearchResult([], 0, 1)
    ensures found.None? ==> Loop(puzzle, frontier', visited', nodesExplored', expanded', enqueued',
                                 run + [LoopState(frontier', visited', nodesExplored')])
    ensures found.None? ==>
              (|| |Universe(puzzle.initial) - visited'| < |Universe(puzzle.initial) - visited|
               || (visited' == visited && |frontier'| < |frontier|))
  {
    var entry, rest;
    ghost var i;
    entry, rest, i := PopMin(frontier, Priority);
    LeastPopped(frontier, i);
    var (_, current, path) := entry;
    nodesExplored' := nodesExplored + 1;

    if current == puzzle.goal {
      found := Some(SearchResult(path, |path|, nodesExplored'));
      Succeed(puzzle, frontier, visited, nodesExplored, expanded, enqueued, run, i, found.value);
      frontier', visited', expanded', enqueued' := rest, visited, expanded + [current], enqueued;
      return;
    }

    found := None;
    frontier', visited', enqueued' :=
      ExpandEntry(puzzle, frontier, visited, nodesExplored, expanded, enqueued, run, i, entry, rest, nodesExplored');
    expanded' := expanded + [current];
  }

  /** Greedy best-first search: takes an entry of least heuristic off the frontier,
      reports it if it is the goal, and otherwise pushes its unvisited neighbours with
      their heuristics.  Every board must be one the goal table can score, as the
      heuristic looks up each tile.  `expanded` lists the boards taken off, `enqueued`
      the boards ever pushed, and `run` the states between turns. */
  method Solve(puzzle: Puzzle)
    returns (r: Option<SearchResult>, ghost expanded: seq<Board>, ghost enqueued: seq<Board>,
             ghost run: seq<LoopState>)
    requires Shaped(puzzle.initial) && (puzzle.initial != puzzle.goal ==> 0 in puzzle.initial)
    requires Scored(puzzle.goalPositions, puzzle.initial)
    ensures r.Some? ==> Succeeds(puzzle, r.value, expanded, enqueued, run)
    ensures r.None? ==> Fails(puzzle, expanded, enqueued, run)
    ensures puzzle.initial == puzzle.goal ==> r == Some(SearchResult([], 0, 1))
    ensures Traced(puzzle, expanded, enqueued)
  {
    var hInitial := ManhattanDistance(puzzle, puzzle.initial);
    var frontier: seq<Entry> := [(hInitial, puzzle.initial, [])];
    var visited := {puzzle.initial};
    var nodesExplored: nat := 0;
    expanded, enqueued, run := [], [puzzle.initial], [Start(puzzle)];
    Begin(puzzle, hInitial);

    while frontier != []
      invariant Loop(puzzle, frontier, visited, nodesExplored, expanded, enqueued, run)
      decreases |Universe(puzzle.initial) - visited|, |frontier|
    {
      var found;
      found, frontier, visited, nodesExplored, expanded, enqueued :=
        TakeTurn(puzzle, frontier, visited, nodesExplored, expanded, enqueued, run);
      if found.Some? {
        r := found;
        return;
      }
      run := run + [LoopState(frontier, visited, nodesExplored)];
    }
    Fail(puzzle, visited, nodesExplored, expanded, enqueued, run);
    r := None;
  }
}
