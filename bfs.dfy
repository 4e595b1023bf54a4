/** `BruteForceSearch.solve` of puzzle/1.py: breadth-first search with a FIFO queue of
    (board, path) entries and a set of the boards ever enqueued. */
module BruteForceSearch {
  import opened Wrappers
  import opened EightPuzzle
  import opened SearchSpace

  type Entry = (Board, seq<Board>)

  /** The queue entries for new boards: each with the path extended by it. */
  function Extensions(path: seq<Board>, xs: seq<Board>): (es: seq<Entry>)
    ensures |es| == |xs|
    ensures forall i :: 0 <= i < |xs| ==> es[i] == (xs[i], path + [xs[i]])
  {
    seq(|xs|, i requires 0 <= i < |xs| => (xs[i], path + [xs[i]]))
  }

  lemma ExtensionsAppend(path: seq<Board>, xs: seq<Board>, ys: seq<Board>)
    ensures Extensions(path, xs + ys) == Extensions(path, xs) + Extensions(path, ys)
  {
  }

  /** The loop over `get_neighbors(current_state)`: every neighbour not yet visited is
      marked visited and appended to the queue with the path extended by it.
      `enqueued` records, in order, every board ever put on the queue. */
  method EnqueueFresh(neighbors: seq<Board>, path: seq<Board>, queue: seq<Entry>,
                      visited: set<Board>, ghost enqueued: seq<Board>)
    returns (queue': seq<Entry>, visited': set<Board>, ghost enqueued': seq<Board>)
    ensures queue' == queue + Extensions(path, Fresh(neighbors, visited))
    ensures visited' == visited + Elements(neighbors)
    ensures enqueued' == enqueued + Fresh(neighbors, visited)
  {
    queue', visited', enqueued' := queue, visited, enqueued;
    for k := 0 to |neighbors|
      invariant queue' == queue + Extensions(path, Fresh(neighbors[..k], visited))
      invariant visited' == visited + Elements(neighbors[..k])
      invariant enqueued' == enqueued + Fresh(neighbors[..k], visited)
    {
      var neighbor := neighbors[k];
      FreshStep(neighbors, visited, k);
      ghost var added := if neighbor !in visited' then [neighbor] else [];
      ExtensionsAppend(path, Fresh(neighbors[..k], visited), added);
      if neighbor !in visited' {
        visited' := visited' + {neighbor};
        var newPath := path + [neighbor];
        queue' := queue' + [(neighbor, newPath)];
        enqueued' := enqueued' + [neighbor];
      }
    }
    assert neighbors[..|neighbors|] == neighbors;
  }

  /** The queue lines up with `enqueued`: the first `nodesExplored` boards queued have
      been taken off, the rest are the queue in order, and the initial entry comes first. */
  ghost predicate Lined(puzzle: Puzzle, queue: seq<Entry>, nodesExplored: nat, enqueued: seq<Board>) {
    && |enqueued| == nodesExplored + |queue| && |enqueued| > 0 && enqueued[0] == puzzle.initial
    && (forall i :: 0 <= i < |queue| ==> queue[i].0 == enqueued[nodesExplored + i])
    && (nodesExplored == 0 ==> |queue| > 0 && queue[0].1 == [])
  }

  /** Every queued path is a chain of moves from the initial board to its entry's board. */
  ghost predicate Chains(initial: Board, queue: seq<Entry>) {
    forall i :: 0 <= i < |queue| ==> IsChain(initial, queue[i].1) && Last(initial, queue[i].1) == queue[i].0
  }

  /** The boards taken off the queue were not the goal, and their neighbours are visited. */
  ghost predicate Expanded(puzzle: Puzzle, visited: set<Board>, nodesExplored: nat, enqueued: seq<Board>)
    requires nodesExplored <= |enqueued|
  {
    && (forall i :: 0 <= i < nodesExplored ==> enqueued[i] != puzzle.goal)
    && (forall i, t :: 0 <= i < nodesExplored && Step(enqueued[i], t) ==> t in visited)
  }

  /** Every board queued after the initial one is a neighbour of a board queued before
      it and among the first n taken off the queue. */
  ghost predicate Parents(enqueued: seq<Board>, n: nat) {
    forall i :: 0 < i < |enqueued| ==> QueuedAfter(enqueued, n, i)
  }

  /** The board queued at index i is a neighbour of one queued before it and among the
      first n taken off the queue. */
  ghost predicate QueuedAfter(enqueued: seq<Board>, n: nat, i: nat)
    requires i < |enqueued|
  {
    exists j :: 0 <= j < i && j < n && Step(enqueued[j], enqueued[i])
  }

  /** What holds of the queue, the visited set and the count before each turn of the loop. */
  ghost predicate Invariant(puzzle: Puzzle, queue: seq<Entry>, visited: set<Board>,
                            nodesExplored: nat, enqueued: seq<Board>)
  {
    && Lined(puzzle, queue, nodesExplored, enqueued)
    && Chains(puzzle.initial, queue)
    && Recorded(puzzle, visited, enqueued)
    && Expanded(puzzle, visited, nodesExplored, enqueued)
    && Parents(enqueued, nodesExplored)
  }

  lemma Initially(puzzle: Puzzle)
    requires Shaped(puzzle.initial) && (puzzle.initial != puzzle.goal ==> 0 in puzzle.initial)
    ensures Invariant(puzzle, [(puzzle.initial, [])], {puzzle.initial}, 0, [puzzle.initial])
  {
    assert Elements([puzzle.initial]) == {puzzle.initial};
    InUniverse(puzzle.initial, puzzle.goal, puzzle.initial);
  }

  /** What the entry at the front of the queue is. */
  lemma Front(puzzle: Puzzle, queue: seq<Entry>, visited: set<Board>, nodesExplored: nat, enqueued: seq<Board>)
    requires Invariant(puzzle, queue, visited, nodesExplored, enqueued) && queue != []
    ensures IsChain(puzzle.initial, queue[0].1) && Last(puzzle.initial, queue[0].1) == queue[0].0
    ensures enqueued[nodesExplored] == queue[0].0
    ensures forall i :: 0 <= i < nodesExplored ==> enqueued[i] != puzzle.goal
    ensures queue[0].0 in visited && InSpace(puzzle.initial, puzzle.goal, queue[0].0)
    ensures puzzle.initial == puzzle.goal ==> nodesExplored == 0 && queue[0] == (puzzle.initial, [])
  {
    assert queue[0].0 in Elements(enqueued);
  }

  /** The invariant survives one expansion of the entry at the front of the queue, and
      either more of the finite space is visited or the queue is shorter. */
  lemma Expand(puzzle: Puzzle, queue: seq<Entry>, visited: set<Board>, nodesExplored: nat,
               enqueued: seq<Board>, neighbors: seq<Board>,
               queue': seq<Entry>, visited': set<Board>, nodesExplored': nat, enqueued': seq<Board>)
    requires Invariant(puzzle, queue, visited, nodesExplored, enqueued) && queue != []
    requires nodesExplored' == nodesExplored + 1
    requires queue[0].0 != puzzle.goal && Shaped(queue[0].0) && 0 in queue[0].0
    requires neighbors == Successors(queue[0].0)
    requires queue' == queue[1..] + Extensions(queue[0].1, Fresh(neighbors, visited))
    requires visited' == visited + Elements(neighbors)
    requires enqueued' == enqueued + Fresh(neighbors, visited)
    ensures Invariant(puzzle, queue', visited', nodesExplored', enqueued')
    ensures |Universe(puzzle.initial) - visited'| < |Universe(puzzle.initial) - visited|
         || (visited' == visited && |queue'| < |queue|)
  {
    var current := queue[0].0;
    Front(puzzle, queue, visited, nodesExplored, enqueued);
    var news := Fresh(neighbors, visited);
    FreshSpec(neighbors, visited);
    ExpandLined(puzzle, queue, nodesExplored, enqueued, news, queue', enqueued');
    ExpandChains(puzzle.initial, queue, news, queue');
    RecordedGrows(puzzle, current, visited, enqueued, neighbors, news, visited', enqueued');
    ExpandExpanded(puzzle, current, visited, nodesExplored, enqueued, neighbors, visited', enqueued');
    ExpandParents(enqueued, nodesExplored, news, nodesExplored', enqueued');
    if news == [] {
      assert visited' == visited;
    }
    Progress(Universe(puzzle.initial), visited, visited', news, |queue'|, |queue|);
  }

  lemma ExpandLined(puzzle: Puzzle, queue: seq<Entry>, nodesExplored: nat, enqueued: seq<Board>,
                    news: seq<Board>, queue': seq<Entry>, enqueued': seq<Board>)
    requires Lined(puzzle, queue, nodesExplored, enqueued) && queue != []
    requires queue' == queue[1..] + Extensions(queue[0].1, news)
    requires enqueued' == enqueued + news
    ensures Lined(puzzle, queue', nodesExplored + 1, enqueued')
  {
    forall i | 0 <= i < |queue'| ensures queue'[i].0 == enqueued'[nodesExplored + 1 + i] {
      if i < |queue| - 1 {
        assert queue'[i] == queue[i + 1];
      } else {
        assert queue'[i].0 == news[i - (|queue| - 1)];
      }
    }
  }

  lemma ExpandChains(initial: Board, queue: seq<Entry>, news: seq<Board>, queue': seq<Entry>)
    requires Chains(initial, queue) && queue != []
    requires forall x :: x in news ==> Step(queue[0].0, x)
    requires queue' == queue[1..] + Extensions(queue[0].1, news)
    ensures Chains(initial, queue')
  {
    var (current, path) := queue[0];
    assert IsChain(initial, path) && Last(initial, path) == current;
    forall i | 0 <= i < |queue'|
      ensures IsChain(initial, queue'[i].1) && Last(initial, queue'[i].1) == queue'[i].0
    {
      if i < |queue| - 1 {
        assert queue'[i] == queue[i + 1];
      } else {
        var x := news[i - (|queue| - 1)];
        assert queue'[i] == (x, path + [x]);
        ChainExtend(initial, path, x);
      }
    }
  }

  lemma ExpandParents(enqueued: seq<Board>, n: nat, news: seq<Board>, n': nat, enqueued': seq<Board>)
    requires Parents(enqueued, n) && n < |enqueued| && n' == n + 1
    requires forall x :: x in news ==> Step(enqueued[n], x)
    requires enqueued' == enqueued + news
    ensures Parents(enqueued', n')
  {
    forall i | 0 < i < |enqueued'| ensures QueuedAfter(enqueued', n', i) {
      if i < |enqueued| {
        assert QueuedAfter(enqueued, n, i);
        var j :| 0 <= j < i && j < n && Step(enqueued[j], enqueued[i]);
        assert enqueued'[j] == enqueued[j] && enqueued'[i] == enqueued[i];
      } else {
        assert enqueued'[i] in news && enqueued'[n] == enqueued[n];
        assert Step(enqueued'[n], enqueued'[i]);
      }
    }
  }

  /** The first m boards taken off the queue were expanded: every other board queued
      is a neighbour of one queued before it and among them, and each of their
      neighbours has been queued. */
  ghost predicate Explored(enqueued: seq<Board>, m: nat) {
    && Parents(enqueued, m)
    && forall j, t :: 0 <= j < m && j < |enqueued| && Step(enqueued[j], t) ==> t in enqueued
  }

  lemma Closure(puzzle: Puzzle, queue: seq<Entry>, visited: set<Board>, nodesExplored: nat, enqueued: seq<Board>, m: nat)
    requires Invariant(puzzle, queue, visited, nodesExplored, enqueued) && m == nodesExplored
    ensures Explored(enqueued, m)
  {
    forall j, t | 0 <= j < m && j < |enqueued| && Step(enqueued[j], t) ensures t in enqueued {
      assert t in Elements(enqueued);
    }
  }

  lemma ExpandExpanded(puzzle: Puzzle, current: Board, visited: set<Board>, nodesExplored: nat,
                       enqueued: seq<Board>, neighbors: seq<Board>, visited': set<Board>, enqueued': seq<Board>)
    requires nodesExplored < |enqueued| && Expanded(puzzle, visited, nodesExplored, enqueued)
    requires enqueued[nodesExplored] == current && current != puzzle.goal
    requires Shaped(current) && 0 in current && neighbors == Successors(current)
    requires visited' == visited + Elements(neighbors) && enqueued <= enqueued'
    ensures Expanded(puzzle, visited', nodesExplored + 1, enqueued')
  {
    forall i, t | 0 <= i < nodesExplored + 1 && Step(enqueued'[i], t) ensures t in visited' {
      assert enqueued'[i] == enqueued[i];
    }
  }

  /** An exhausted queue: everything ever queued was expanded and none of it was the
      goal, so the visited set separates the goal from the initial board. */
  lemma Exhausted(puzzle: Puzzle, visited: set<Board>, nodesExplored: nat, enqueued: seq<Board>)
    requires Invariant(puzzle, [], visited, nodesExplored, enqueued)
    ensures Unsolvable(puzzle)
  {
    forall a, t | a in visited && Step(a, t) ensures t in visited {
      var i :| 0 <= i < |enqueued| && enqueued[i] == a;
    }
    ClosedSetSeparates(puzzle, visited);
  }

  // ---------------------------------------------------------------------------
  // The search as a sequence of turns of its loop

  /** The state of the loop between turns: the queue, the visited set, and the number of
      entries taken off so far. */
  datatype LoopState = LoopState(queue: seq<Entry>, visited: set<Board>, explored: nat)

  /** The state before the first turn: the initial board alone on the queue with the
      empty path, and marked visited. */
  ghost function Start(puzzle: Puzzle): LoopState {
    LoopState([(puzzle.initial, [])], {puzzle.initial}, 0)
  }

  /** A turn that does not end the search: the oldest entry comes off and is counted; its
      board is not the goal, its neighbours not yet visited join the back of the queue,
      each with the path extended by it, and all its neighbours become visited. */
  ghost predicate Turn(puzzle: Puzzle, s: LoopState, s': LoopState) {
    && s.queue != []
    && var (current, path) := s.queue[0];
       && current != puzzle.goal && Shaped(current) && 0 in current
       && var ns := Successors(current);
          s' == LoopState(s.queue[1..] + Extensions(path, Fresh(ns, s.visited)), s.visited + Elements(ns), s.explored + 1)
  }

  /** run[k] is the state after k turns. */
  ghost predicate Run(puzzle: Puzzle, run: seq<LoopState>) {
    && |run| > 0 && run[0] == Start(puzzle)
    && forall k :: 0 <= k < |run| - 1 ==> Turn(puzzle, run[k], run[k + 1])
  }

  /** run is a run whose last state has this queue, this visited set and this count. */
  ghost predicate Trail(puzzle: Puzzle, run: seq<LoopState>, queue: seq<Entry>, visited: set<Board>, n: nat) {
    Run(puzzle, run) && run[|run| - 1] == LoopState(queue, visited, n)
  }

  /** The search ends with r: after the run, the oldest entry holds the goal, and r
      reports its path and nodes explored counting it. */
  ghost predicate Ended(puzzle: Puzzle, run: seq<LoopState>, r: SearchResult) {
    && Run(puzzle, run)
    && var s := run[|run| - 1];
       s.queue != [] && s.queue[0].0 == puzzle.goal && r == SearchResult(s.queue[0].1, |s.queue[0].1|, s.explored + 1)
  }

  /** The search stops with nothing found: the run empties the queue. */
  ghost predicate Exhausts(puzzle: Puzzle, run: seq<LoopState>) {
    Run(puzzle, run) && run[|run| - 1].queue == []
  }

  /** Every turn counts the entry it takes off: after k turns nodes explored is k. */
  lemma {:induction false} RunCounts(puzzle: Puzzle, run: seq<LoopState>, k: nat)
    requires Run(puzzle, run) && k < |run|
    ensures run[k].explored == k
  {
    if k > 0 {
      RunCounts(puzzle, run, k - 1);
      assert Turn(puzzle, run[k - 1], run[k]);
    }
  }

  /** A search that ends with r reports as nodes explored every entry taken off the
      queue, the goal's included. */
  lemma EndedCounts(puzzle: Puzzle, run: seq<LoopState>, r: SearchResult)
    requires Ended(puzzle, run, r)
    ensures r.nodesExplored == |run|
  {
    RunCounts(puzzle, run, |run| - 1);
  }

  /** Two runs from the same puzzle agree turn by turn: breadth-first search has no
      choice to make, so its result and count are fixed by the puzzle. */
  lemma {:induction false} RunsAgree(puzzle: Puzzle, run: seq<LoopState>, run': seq<LoopState>, k: nat)
    requires Run(puzzle, run) && Run(puzzle, run') && k < |run| && k < |run'|
    ensures run[k] == run'[k]
  {
    if k > 0 {
      RunsAgree(puzzle, run, run', k - 1);
      assert Turn(puzzle, run[k - 1], run[k]) && Turn(puzzle, run'[k - 1], run'[k]);
    }
  }

  /** No turn is taken from a state whose oldest entry holds the goal. */
  lemma GoalStops(puzzle: Puzzle, run: seq<LoopState>, k: nat)
    requires Run(puzzle, run) && k < |run| - 1
    ensures run[k].queue != [] && run[k].queue[0].0 != puzzle.goal
  {
    assert Turn(puzzle, run[k], run[k + 1]);
  }

  /** Both searches that end report the same result. */
  lemma EndedUnique(puzzle: Puzzle, run: seq<LoopState>, r: SearchResult, run': seq<LoopState>, r': SearchResult)
    requires Ended(puzzle, run, r) && Ended(puzzle, run', r')
    ensures r == r'
    decreases |run|
  {
    if |run| < |run'| {
      RunsAgree(puzzle, run, run', |run| - 1);
      GoalStops(puzzle, run', |run| - 1);
    } else if |run'| < |run| {
      EndedUnique(puzzle, run', r', run, r);
    } else {
      RunsAgree(puzzle, run, run', |run| - 1);
    }
  }

  lemma StartTrail(puzzle: Puzzle)
    ensures Trail(puzzle, [Start(puzzle)], [(puzzle.initial, [])], {puzzle.initial}, 0)
  {
  }

  /** Expanding the oldest entry, which is not the goal, is a turn. */
  lemma TurnTaken(puzzle: Puzzle, run: seq<LoopState>, queue: seq<Entry>, visited: set<Board>, n: nat,
                  neighbors: seq<Board>, queue': seq<Entry>, visited': set<Board>, n': nat)
    requires Trail(puzzle, run, queue, visited, n) && queue != [] && n' == n + 1
    requires queue[0].0 != puzzle.goal && Shaped(queue[0].0) && 0 in queue[0].0
    requires neighbors == Successors(queue[0].0)
    requires queue' == queue[1..] + Extensions(queue[0].1, Fresh(neighbors, visited))
    requires visited' == visited + Elements(neighbors)
    ensures Trail(puzzle, run + [LoopState(queue', visited', n')], queue', visited', n')
  {
    var run' := run + [LoopState(queue', visited', n')];
    forall k | 0 <= k < |run'| - 1 ensures Turn(puzzle, run'[k], run'[k + 1]) {
      if k < |run| - 1 {
        assert run'[k] == run[k] && run'[k + 1] == run[k + 1];
      }
    }
  }

  /** Taking off the oldest entry when it holds the goal ends the search with its path. */
  lemma Finished(puzzle: Puzzle, run: seq<LoopState>, queue: seq<Entry>, visited: set<Board>, n: nat,
                 r: SearchResult)
    requires Trail(puzzle, run, queue, visited, n) && queue != [] && queue[0].0 == puzzle.goal
    requires r == SearchResult(queue[0].1, |queue[0].1|, n + 1)
    ensures Ended(puzzle, run, r)
  {
  }

  /** A run whose queue is empty stops the search. */
  lemma Exhaust(puzzle: Puzzle, run: seq<LoopState>, visited: set<Board>, n: nat)
    requires Trail(puzzle, run, [], visited, n)
    ensures Exhausts(puzzle, run)
  {
  }

  // ---------------------------------------------------------------------------
  // The search loop

  /** What holds before each turn of the loop: the invariant over the queue, the visited
      set and the count, and the run of turns so far ending in the current state. */
  ghost predicate Loop(puzzle: Puzzle, queue: seq<Entry>, visited: set<Board>, n: nat,
                       enqueued: seq<Board>, run: seq<LoopState>)
  {
    Invariant(puzzle, queue, visited, n, enqueued) && Trail(puzzle, run, queue, visited, n)
  }

  /** What a returned result r promises: its path is a chain of moves to the goal and
      steps is its length; nodes explored counts the boards taken off the queue, the last
      being the goal's first appearance in the trace of queued boards; those before it
      were expanded; and the run of turns ends with r. */
  ghost predicate Succeeds(puzzle: Puzzle, r: SearchResult, enqueued: seq<Board>, run: seq<LoopState>) {
    && Solves(puzzle, r)
    && 1 <= r.nodesExplored <= |enqueued| && enqueued[r.nodesExplored - 1] == puzzle.goal
    && (forall i :: 0 <= i < r.nodesExplored - 1 ==> enqueued[i] != puzzle.goal)
    && Explored(enqueued, r.nodesExplored - 1)
    && Ended(puzzle, run, r)
  }

  /** What a search that finds nothing promises: no chain reaches the goal, every board
      queued was expanded, and the run of turns empties the queue. */
  ghost predicate Fails(puzzle: Puzzle, enqueued: seq<Board>, run: seq<LoopState>) {
    Unsolvable(puzzle) && Explored(enqueued, |enqueued|) && Exhausts(puzzle, run)
  }

  /** The board of the oldest entry has nine cells, and a blank unless it is the goal. */
  lemma Head(puzzle: Puzzle, queue: seq<Entry>, visited: set<Board>, n: nat, enqueued: seq<Board>,
             run: seq<LoopState>)
    requires Loop(puzzle, queue, visited, n, enqueued, run) && queue != []
    ensures Shaped(queue[0].0) && (queue[0].0 != puzzle.goal ==> 0 in queue[0].0)
  {
    Front(puzzle, queue, visited, n, enqueued);
  }

  lemma Begin(puzzle: Puzzle)
    requires Shaped(puzzle.initial) && (puzzle.initial != puzzle.goal ==> 0 in puzzle.initial)
    ensures Loop(puzzle, [(puzzle.initial, [])], {puzzle.initial}, 0, [puzzle.initial], [Start(puzzle)])
  {
    Initially(puzzle);
    StartTrail(puzzle);
  }

  /** Expanding the oldest entry, which is not the goal, keeps what holds before each
      turn, and either more of the finite space is visited or the queue is shorter. */
  lemma Advance(puzzle: Puzzle, queue: seq<Entry>, visited: set<Board>, n: nat, enqueued: seq<Board>,
                run: seq<LoopState>, neighbors: seq<Board>,
                queue': seq<Entry>, visited': set<Board>, n': nat, enqueued': seq<Board>)
    requires Loop(puzzle, queue, visited, n, enqueued, run) && queue != [] && n' == n + 1
    requires queue[0].0 != puzzle.goal && Shaped(queue[0].0) && 0 in queue[0].0
    requires neighbors == Successors(queue[0].0)
    requires queue' == queue[1..] + Extensions(queue[0].1, Fresh(neighbors, visited))
    requires visited' == visited + Elements(neighbors)
    requires enqueued' == enqueued + Fresh(neighbors, visited)
    ensures Loop(puzzle, queue', visited', n', enqueued', run + [LoopState(queue', visited', n')])
    ensures |Universe(puzzle.initial) - visited'| < |Universe(puzzle.initial) - visited|
         || (visited' == visited && |queue'| < |queue|)
  {
    Expand(puzzle, queue, visited, n, enqueued, neighbors, queue', visited', n', enqueued');
    TurnTaken(puzzle, run, queue, visited, n, neighbors, queue', visited', n');
  }

  /** Taking off the oldest entry when it holds the goal returns a result that succeeds. */
  lemma Succeed(puzzle: Puzzle, queue: seq<Entry>, visited: set<Board>, n: nat, enqueued: seq<Board>,
                run: seq<LoopState>, r: SearchResult)
    requires Loop(puzzle, queue, visited, n, enqueued, run) && queue != [] && queue[0].0 == puzzle.goal
    requires r == SearchResult(queue[0].1, |queue[0].1|, n + 1)
    ensures Succeeds(puzzle, r, enqueued, run)
    ensures |enqueued| > 0 && enqueued[0] == puzzle.initial && NoDuplicates(enqueued)
    ensures puzzle.initial == puzzle.goal ==> r == SearchResult([], 0, 1)
  {
    Front(puzzle, queue, visited, n, enqueued);
    Closure(puzzle, queue, visited, n, enqueued, n);
    Finished(puzzle, run, queue, visited, n, r);
  }

  /** A loop that empties the queue ends in a search that fails. */
  lemma Fail(puzzle: Puzzle, visited: set<Board>, n: nat, enqueued: seq<Board>, run: seq<LoopState>)
    requires Loop(puzzle, [], visited, n, enqueued, run)
    ensures Fails(puzzle, enqueued, run)
    ensures |enqueued| > 0 && enqueued[0] == puzzle.initial && NoDuplicates(enqueued)
    ensures puzzle.initial != puzzle.goal
  {
    Exhausted(puzzle, visited, n, enqueued);
    Closure(puzzle, [], visited, n, enqueued, |enqueued|);
    Exhaust(puzzle, run, visited, n);
  }

  /** BFS: takes the oldest entry off the queue, reports it if it is the goal, and
      otherwise queues its unvisited neighbours.  The source follows the path of an
      initial board without a blank only when that board is the goal; the goal table
      is not used.  `enqueued` lists the boards ever queued, and `run` the states
      between turns. */
  method Solve(puzzle: Puzzle) returns (r: Option<SearchResult>, ghost enqueued: seq<Board>, ghost run: seq<LoopState>)
    requires Shaped(puzzle.initial) && (puzzle.initial != puzzle.goal ==> 0 in puzzle.initial)
    ensures r.Some? ==> Succeeds(puzzle, r.value, enqueued, run)
    ensures r.None? ==> Fails(puzzle, enqueued, run)
    ensures puzzle.initial == puzzle.goal ==> r == Some(SearchResult([], 0, 1))
    ensures |enqueued| > 0 && enqueued[0] == puzzle.initial && NoDuplicates(enqueued)
  {
    var queue: seq<Entry> := [(puzzle.initial, [])];
    var visited := {puzzle.initial};
    var nodesExplored: nat := 0;
    enqueued, run := [puzzle.initial], [Start(puzzle)];
    Begin(puzzle);

    while queue != []
      invariant Loop(puzzle, queue, visited, nodesExplored, enqueued, run)
      decreases |Universe(puzzle.initial) - visited|, |queue|
    {
      Head(puzzle, queue, visited, nodesExplored, enqueued, run);
      ghost var (queue0, visited0, enqueued0) := (queue, visited, enqueued);
      var (current, path) := queue[0];
      queue := queue[1..];
      nodesExplored := nodesExplored + 1;

      if current == puzzle.goal {
        r := Some(SearchResult(path, |path|, nodesExplored));
        Succeed(puzzle, queue0, visited0, nodesExplored - 1, enqueued, run, r.value);
        return;
      }

      var neighbors := GetNeighbors(current);
      queue, visited, enqueued := EnqueueFresh(neighbors, path, queue, visited, enqueued);
      Advance(puzzle, queue0, visited0, nodesExplored - 1, enqueued0, run, neighbors, queue, visited, nodesExplored, enqueued);
      run := run + [LoopState(queue, visited, nodesExplored)];
    }
    Fail(puzzle, visited, nodesExplored, enqueued, run);
    r := None;
  }
}
