/** `AStarSearch.solve` of puzzle/1.py: A* search.  The frontier holds (f, g, board,
    path) entries with f = g + heuristic, the entry of least f is taken next, and
    `visited` maps each board seen to the least g found for it so far.  An entry whose g
    is above that is stale: it is counted and skipped. */
module AStarSearch {
  import opened Wrappers
  import opened EightPuzzle
  import opened SearchSpace

  type Entry = (int, nat, Board, seq<Board>)

  function Priority(e: Entry): int {
    e.0
  }

  // ---------------------------------------------------------------------------
  // The loop over the neighbours

  /** What the loop over the neighbours does to `visited` when the expanded board has
      cost g, and which neighbours it pushes, in order: a neighbour not in the map, or
      reached more cheaply than recorded, gets cost g + 1 and is pushed. */
  function Relax(ns: seq<Board>, visited: map<Board, nat>, g: nat): (map<Board, nat>, seq<Board>) {
    if ns == [] then (visited, [])
    else
      var (v, pushed) := Relax(ns[..|ns| - 1], visited, g);
      var x := ns[|ns| - 1];
      if x !in v || g + 1 < v[x] then (v[x := g + 1], pushed + [x]) else (v, pushed)
  }

  lemma RelaxStep(ns: seq<Board>, visited: map<Board, nat>, g: nat, k: nat)
    requires k < |ns|
    ensures Relax(ns[..k + 1], visited, g)
         == var (v, pushed) := Relax(ns[..k], visited, g);
            if ns[k] !in v || g + 1 < v[ns[k]] then (v[ns[k] := g + 1], pushed + [ns[k]]) else (v, pushed)
  {
    assert ns[..k + 1][..k] == ns[..k];
  }

  /** `visited` is only ever lowered, and strictly: the boards of the new map are the old
      ones and the neighbours; a recorded cost never goes up; a cost that changes, or a
      board that is new, gets g + 1; the pushed neighbours are, once each, exactly the
      neighbours that were new or reached more cheaply, and nothing else changes. */
  lemma {:induction false} RelaxSpec(ns: seq<Board>, visited: map<Board, nat>, g: nat)
    ensures var (v, pushed) := Relax(ns, visited, g);
      && (forall x :: x in v <==> x in visited || x in ns)
      && (forall x :: x in visited ==> v[x] <= visited[x])
      && (forall x :: x in pushed <==> x in ns && (x !in visited || g + 1 < visited[x]))
      && (forall x :: x in pushed ==> v[x] == g + 1)
      && (forall x :: x in v && x !in pushed ==> x in visited && v[x] == visited[x])
      && NoDuplicates(pushed)
      && (pushed == [] ==> v == visited)
  {
    if ns != [] {
      var init, x := ns[..|ns| - 1], ns[|ns| - 1];
      RelaxSpec(init, visited, g);
      assert ns == init + [x];
      var (v, pushed) := Relax(init, visited, g);
      if x !in v || g + 1 < v[x] {
        NoDuplicatesAppend(pushed, x);
      }
    }
  }

  /** Costs stay below the number of boards in the map, when the expanded board's does. */
  lemma {:induction false} RelaxBound(ns: seq<Board>, visited: map<Board, nat>, g: nat)
    requires g < |visited.Keys| && forall x :: x in visited ==> visited[x] < |visited.Keys|
    ensures var (v, _) := Relax(ns, visited, g);
      |visited.Keys| <= |v.Keys| && forall x :: x in v ==> v[x] < |v.Keys|
  {
    if ns != [] {
      var init, x := ns[..|ns| - 1], ns[|ns| - 1];
      RelaxBound(init, visited, g);
      var (v, pushed) := Relax(init, visited, g);
      if x !in v {
        assert v[x := g + 1].Keys == v.Keys + {x};
      } else {
        assert v[x := g + 1].Keys == v.Keys;
      }
    }
  }

  // ---------------------------------------------------------------------------
  // The potential that bounds the search

  /** What a board adds to the potential: its recorded cost, or the bound B when it has
      none yet. */
  ghost function Cost(v: map<Board, nat>, B: nat, x: Board): nat {
    if x in v then v[x] else B
  }

  /** The sum of the costs of the boards in S. */
  ghost function Potential(S: set<Board>, v: map<Board, nat>, B: nat): nat
    decreases S
  {
    if S == {} then 0 else var x :| x in S; Cost(v, B, x) + Potential(S - {x}, v, B)
  }

  lemma {:induction false} PotentialSplit(S: set<Board>, v: map<Board, nat>, B: nat, y: Board)
    requires y in S
    ensures Potential(S, v, B) == Cost(v, B, y) + Potential(S - {y}, v, B)
    decreases S
  {
    var x :| x in S && Potential(S, v, B) == Cost(v, B, x) + Potential(S - {x}, v, B);
    if x != y {
      PotentialSplit(S - {x}, v, B, y);
      PotentialSplit(S - {y}, v, B, x);
      assert S - {x} - {y} == S - {y} - {x};
    }
  }

  lemma {:induction false} PotentialAgree(S: set<Board>, v: map<Board, nat>, w: map<Board, nat>, B: nat)
    requires forall x :: x in S ==> Cost(v, B, x) == Cost(w, B, x)
    ensures Potential(S, v, B) == Potential(S, w, B)
    decreases S
  {
    if S != {} {
      var y :| y in S;
      PotentialSplit(S, v, B, y);
      PotentialSplit(S, w, B, y);
      PotentialAgree(S - {y}, v, w, B);
    }
  }

  /** Lowering one board's cost lowers the potential by as much. */
  lemma PotentialLower(S: set<Board>, v: map<Board, nat>, B: nat, x: Board, a: nat)
    requires x in S && a < Cost(v, B, x)
    ensures Potential(S, v[x := a], B) + (Cost(v, B, x) - a) == Potential(S, v, B)
  {
    PotentialSplit(S, v, B, x);
    PotentialSplit(S, v[x := a], B, x);
    PotentialAgree(S - {x}, v, v[x := a], B);
  }

  /** Every pushed neighbour lowers the potential of the finite space by at least one. */
  lemma {:induction false} RelaxDecreases(U: set<Board>, ns: seq<Board>, visited: map<Board, nat>, g: nat)
    requires visited.Keys <= U && (forall x :: x in ns ==> x in U) && g < |visited.Keys|
    ensures var (v, pushed) := Relax(ns, visited, g);
      Potential(U, v, |U|) + |pushed| <= Potential(U, visited, |U|)
  {
    if ns != [] {
      var init, x := ns[..|ns| - 1], ns[|ns| - 1];
      RelaxDecreases(U, init, visited, g);
      RelaxSpec(init, visited, g);
      var (v, pushed) := Relax(init, visited, g);
      if x !in v {
        assert v.Keys + {x} <= U;
        SubsetNotLarger(v.Keys + {x}, U);
        SubsetNotLarger(visited.Keys, v.Keys);
        PotentialLower(U, v, |U|, x, g + 1);
      } else if g + 1 < v[x] {
        PotentialLower(U, v, |U|, x, g + 1);
      }
    }
  }

  // ---------------------------------------------------------------------------
  // The search

  /** The frontier entries for the pushed neighbours: f = g + heuristic, and the path
      extended by the neighbour. */
  ghost function Pushed(puzzle: Puzzle, g: nat, path: seq<Board>, xs: seq<Board>): (es: seq<Entry>)
    ensures |es| == |xs|
    ensures forall i :: 0 <= i < |xs| ==> es[i] == (g + Heuristic(puzzle, xs[i]), g, xs[i], path + [xs[i]])
  {
    seq(|xs|, i requires 0 <= i < |xs| => (g + Heuristic(puzzle, xs[i]), g, xs[i], path + [xs[i]]))
  }

  /** The boards of the frontier entries. */
  function Boards(frontier: seq<Entry>): (bs: seq<Board>)
    ensures |bs| == |frontier| && forall i :: 0 <= i < |frontier| ==> bs[i] == frontier[i].2
  {
    seq(|frontier|, i requires 0 <= i < |frontier| => frontier[i].2)
  }

  lemma BoardsAppend(xs: seq<Entry>, ys: seq<Entry>)
    ensures Boards(xs + ys) == Boards(xs) + Boards(ys)
  {
  }

  /** Taking entry i off the frontier takes its board off the boards of the frontier. */
  lemma BoardsRemove(frontier: seq<Entry>, i: nat, rest: seq<Entry>)
    requires i < |frontier| && rest == frontier[..i] + frontier[i + 1..]
    ensures multiset(Boards(rest)) + multiset{frontier[i].2} == multiset(Boards(frontier))
  {
    var front, back, x := frontier[..i], frontier[i + 1..], frontier[i].2;
    assert frontier == front + [frontier[i]] + back;
    BoardsAppend(front + [frontier[i]], back);
    BoardsAppend(front, [frontier[i]]);
    BoardsAppend(front, back);
    assert Boards([frontier[i]]) == [x];
    assert Boards(frontier) == Boards(front) + [x] + Boards(back);
    assert multiset(Boards(frontier)) == multiset(Boards(front)) + multiset{x} + multiset(Boards(back));
    assert multiset(Boards(rest)) == multiset(Boards(front)) + multiset(Boards(back));
  }

  /** Every neighbour of a popped board was popped too. */
  ghost predicate ClosedTrace(popped: seq<Board>) {
    forall j, t :: 0 <= j < |popped| && Step(popped[j], t) ==> t in popped
  }

  /** `pushes` lists the board of every entry ever pushed, the initial one first: each
      later one is a neighbour of a board popped, and each push is either popped, stale
      or not, or still on the frontier, as many times as it was pushed. */
  ghost predicate Tally(puzzle: Puzzle, frontier: seq<Entry>, popped: seq<Board>, pushes: seq<Board>) {
    && |pushes| > 0 && pushes[0] == puzzle.initial
    && (forall k :: 0 < k < |pushes| ==> HasParent(popped, |popped|, pushes[k]))
    && multiset(popped) + multiset(Boards(frontier)) == multiset(pushes)
  }

  /** What the tally says once the search stops: the pushes start at the initial board,
      each later one is a neighbour of a board popped, and every pop was pushed. */
  ghost predicate Accounted(puzzle: Puzzle, popped: seq<Board>, pushes: seq<Board>) {
    && |pushes| > 0 && pushes[0] == puzzle.initial
    && (forall k :: 0 < k < |pushes| ==> HasParent(popped, |popped|, pushes[k]))
    && multiset(popped) <= multiset(pushes)
  }

  /** Popping the entry at index i, stale or expanded, and pushing entries for xs, its
      neighbours, keeps the tally. */
  lemma TallyStep(puzzle: Puzzle, frontier: seq<Entry>, popped: seq<Board>, pushes: seq<Board>, i: nat,
                  rest: seq<Entry>, g: nat, path: seq<Board>, xs: seq<Board>,
                  frontier': seq<Entry>, popped': seq<Board>, pushes': seq<Board>)
    requires Tally(puzzle, frontier, popped, pushes)
    requires i < |frontier| && rest == frontier[..i] + frontier[i + 1..]
    requires forall x :: x in xs ==> Step(frontier[i].2, x)
    requires frontier' == rest + Pushed(puzzle, g, path, xs)
    requires popped' == popped + [frontier[i].2] && pushes' == pushes + xs
    ensures Tally(puzzle, frontier', popped', pushes')
  {
    forall k | 0 < k < |pushes'| ensures HasParent(popped', |popped'|, pushes'[k]) {
      if k < |pushes| {
        assert pushes'[k] == pushes[k];
        ParentWiden(popped, |popped|, pushes[k], popped', |popped'|);
      } else {
        assert pushes'[k] in xs && popped'[|popped|] == frontier[i].2;
      }
    }
    BoardsRemove(frontier, i, rest);
    BoardsAppend(rest, Pushed(puzzle, g, path, xs));
    assert Boards(Pushed(puzzle, g, path, xs)) == xs;
    assert multiset(popped') == multiset(popped) + multiset{frontier[i].2};
  }

  /** An expansion pushes entries for the neighbours relaxed: the tally counts them. */
  lemma ExpandTally(puzzle: Puzzle, frontier: seq<Entry>, popped: seq<Board>, pushes: seq<Board>, i: nat,
                    rest: seq<Entry>, neighbors: seq<Board>, visited: map<Board, nat>,
                    frontier': seq<Entry>, visited': map<Board, nat>, pushed: seq<Board>,
                    popped': seq<Board>, pushes': seq<Board>)
    requires Tally(puzzle, frontier, popped, pushes)
    requires i < |frontier| && rest == frontier[..i] + frontier[i + 1..]
    requires forall x :: x in neighbors ==> Step(frontier[i].2, x)
    requires (visited', pushed) == Relax(neighbors, visited, frontier[i].1)
    requires frontier' == rest + Pushed(puzzle, frontier[i].1 + 1, frontier[i].3, pushed)
    requires popped' == popped + [frontier[i].2] && pushes' == pushes + pushed
    ensures Tally(puzzle, frontier', popped', pushes')
  {
    RelaxSpec(neighbors, visited, frontier[i].1);
    TallyStep(puzzle, frontier, popped, pushes, i, rest, frontier[i].1 + 1, frontier[i].3, pushed,
              frontier', popped', pushes');
  }

  /** A stale entry is popped and dropped: the tally keeps it among the pops. */
  lemma StaleTally(puzzle: Puzzle, frontier: seq<Entry>, popped: seq<Board>, pushes: seq<Board>, i: nat,
                   rest: seq<Entry>, popped': seq<Board>)
    requires Tally(puzzle, frontier, popped, pushes)
    requires i < |frontier| && rest == frontier[..i] + frontier[i + 1..] && popped' == popped + [frontier[i].2]
    ensures Tally(puzzle, rest, popped', pushes)
  {
    assert rest + Pushed(puzzle, 0, [], []) == rest && pushes + [] == pushes;
    TallyStep(puzzle, frontier, popped, pushes, i, rest, 0, [], [], rest, popped', pushes);
  }

  /** The goal is popped: every pop, the goal's included, was pushed, and every push
      after the first is a neighbour of a board popped. */
  lemma FoundTally(puzzle: Puzzle, frontier: seq<Entry>, popped: seq<Board>, pushes: seq<Board>, i: nat,
                   rest: seq<Entry>, popped': seq<Board>)
    requires Tally(puzzle, frontier, popped, pushes)
    requires i < |frontier| && rest == frontier[..i] + frontier[i + 1..] && popped' == popped + [frontier[i].2]
    ensures Accounted(puzzle, popped', pushes)
  {
    StaleTally(puzzle, frontier, popped, pushes, i, rest, popped');
    TallyCounts(puzzle, rest, popped', pushes);
  }

  /** Every pop was pushed; once the frontier is empty, every push was popped. */
  lemma TallyCounts(puzzle: Puzzle, frontier: seq<Entry>, popped: seq<Board>, pushes: seq<Board>)
    requires Tally(puzzle, frontier, popped, pushes)
    ensures Accounted(puzzle, popped, pushes)
    ensures frontier == [] ==> multiset(popped) == multiset(pushes)
  {
    if frontier == [] {
      assert Boards(frontier) == [];
    }
  }

  /** The loop over `get_neighbors(current_state)` with `new_g_val = g_val + 1`: a
      neighbour not in `visited`, or reached more cheaply, gets the new cost and is
      pushed with its f cost and the path extended by it.  `pushed` lists them. */
  method RelaxNeighbors(puzzle: Puzzle, current: Board, neighbors: seq<Board>, g: nat, path: seq<Board>,
                        frontier: seq<Entry>, visited: map<Board, nat>)
    returns (frontier': seq<Entry>, visited': map<Board, nat>, ghost pushed: seq<Board>)
    requires Shaped(current) && 0 in current && Scored(puzzle.goalPositions, current)
    requires neighbors == Successors(current)
    ensures visited' == Relax(neighbors, visited, g).0
    ensures frontier' == frontier + Pushed(puzzle, g + 1, path, Relax(neighbors, visited, g).1)
    ensures pushed == Relax(neighbors, visited, g).1
  {
    frontier', visited', pushed := frontier, visited, [];
    for k := 0 to |neighbors|
      invariant (visited', pushed) == Relax(neighbors[..k], visited, g)
      invariant frontier' == frontier + Pushed(puzzle, g + 1, path, pushed)
    {
      var neighbor := neighbors[k];
      RelaxStep(neighbors, visited, g, k);
      var newG := g + 1;
      if neighbor !in visited' || newG < visited'[neighbor] {
        visited' := visited'[neighbor := newG];
        StepKeepsTiles(current, neighbor);
        StepKeepsScored(puzzle.goalPositions, current, neighbor);
        var h := ManhattanDistance(puzzle, neighbor);
        var newPath := path + [neighbor];
        ghost var before := Pushed(puzzle, g + 1, path, pushed);
        pushed := pushed + [neighbor];
        assert Pushed(puzzle, g + 1, path, pushed) == before + [(newG + h, newG, neighbor, newPath)];
        frontier' := frontier' + [(newG + h, newG, neighbor, newPath)];
      }
    }
    assert neighbors[..|neighbors|] == neighbors;
  }

  /** Every frontier entry: its board is in `visited` at a cost no higher than the
      entry's g, which is the length of its path, a chain of moves from the initial
      board; f is g plus the board's heuristic; g is below the number of boards seen. */
  ghost predicate Entries(puzzle: Puzzle, frontier: seq<Entry>, visited: map<Board, nat>) {
    forall i :: 0 <= i < |frontier| ==>
      && frontier[i].2 in visited && visited[frontier[i].2] <= frontier[i].1 < |visited.Keys|
      && frontier[i].1 == |frontier[i].3|
      && IsChain(puzzle.initial, frontier[i].3) && Last(puzzle.initial, frontier[i].3) == frontier[i].2
      && Shaped(frontier[i].2) && Scored(puzzle.goalPositions, frontier[i].2)
      && frontier[i].0 == frontier[i].1 + Heuristic(puzzle, frontier[i].2)
  }

  /** The boards seen are boards of the search space, with costs below their number. */
  ghost predicate Seen(puzzle: Puzzle, visited: map<Board, nat>) {
    && puzzle.initial in visited
    && visited.Keys <= Universe(puzzle.initial)
    && forall x :: x in visited ==> InSpace(puzzle.initial, puzzle.goal, x) && visited[x] < |visited.Keys|
  }

  /** Every board seen has been expanded, or still has an entry at its recorded cost. */
  ghost predicate Covered(frontier: seq<Entry>, visited: map<Board, nat>, expanded: set<Board>) {
    forall x :: x in visited ==>
      x in expanded || exists j :: 0 <= j < |frontier| && frontier[j].2 == x && frontier[j].1 == visited[x]
  }

  /** The expanded boards were not the goal, and their neighbours have been seen. */
  ghost predicate Expanded(puzzle: Puzzle, visited: map<Board, nat>, expanded: set<Board>) {
    forall x :: x in expanded ==> x != puzzle.goal && x in visited && forall t :: Step(x, t) ==> t in visited
  }

  /** The boards taken off so far: the first is the initial board, each later one a
      neighbour of one taken off before it, and, once one has been taken off, every board
      on the frontier is a neighbour of one of them. */
  ghost predicate Lineage(puzzle: Puzzle, frontier: seq<Entry>, popped: seq<Board>) {
    && (popped != [] ==> popped[0] == puzzle.initial)
    && Descends(popped)
    && (popped != [] ==> forall k :: 0 <= k < |frontier| ==> HasParent(popped, |popped|, frontier[k].2))
  }

  /** The lineage of the boards taken off; all were seen, and the expanded boards are
      among them. */
  ghost predicate Trace(puzzle: Puzzle, frontier: seq<Entry>, visited: map<Board, nat>,
                        expanded: set<Board>, popped: seq<Board>)
  {
    && Lineage(puzzle, frontier, popped)
    && (forall x :: x in popped ==> x in visited)
    && (forall x :: x in expanded ==> x in popped)
  }

  ghost predicate Invariant(puzzle: Puzzle, frontier: seq<Entry>, visited: map<Board, nat>,
                            expanded: set<Board>, popped: seq<Board>)
  {
    && Entries(puzzle, frontier, visited)
    && Seen(puzzle, visited)
    && Covered(frontier, visited, expanded)
    && Expanded(puzzle, visited, expanded)
    && Trace(puzzle, frontier, visited, expanded, popped)
    && (popped == [] ==> |frontier| == 1 && frontier[0].1 == 0 && frontier[0].2 == puzzle.initial
                         && frontier[0].3 == [] && visited == map[puzzle.initial := 0])
    && (puzzle.initial == puzzle.goal ==> popped == [])
  }

  lemma Initially(puzzle: Puzzle, h: int)
    requires Shaped(puzzle.initial) && (puzzle.initial != puzzle.goal ==> 0 in puzzle.initial)
    requires Scored(puzzle.goalPositions, puzzle.initial) && h == Manhattan(puzzle.goalPositions, puzzle.initial)
    ensures Invariant(puzzle, [(h, 0, puzzle.initial, [])], map[puzzle.initial := 0], {}, [])
  {
    var visited := map[puzzle.initial := 0];
    assert visited.Keys == {puzzle.initial};
    InUniverse(puzzle.initial, puzzle.goal, puzzle.initial);
    var frontier: seq<Entry> := [(h, 0, puzzle.initial, [])];
    assert frontier[0].2 == puzzle.initial && frontier[0].1 == visited[puzzle.initial];
  }

  lemma NeighborsAreSteps(current: Board, neighbors: seq<Board>)
    requires Shaped(current) && 0 in current && neighbors == Successors(current)
    ensures forall x :: x in neighbors <==> Step(current, x)
  {
  }

  /** What the entry taken off the frontier is. */
  lemma Popped(puzzle: Puzzle, frontier: seq<Entry>, visited: map<Board, nat>, expanded: set<Board>,
               popped: seq<Board>, i: nat)
    requires Invariant(puzzle, frontier, visited, expanded, popped) && i < |frontier|
    ensures IsChain(puzzle.initial, frontier[i].3) && Last(puzzle.initial, frontier[i].3) == frontier[i].2
    ensures frontier[i].1 == |frontier[i].3|
    ensures Shaped(frontier[i].2) && Scored(puzzle.goalPositions, frontier[i].2)
    ensures frontier[i].2 != puzzle.goal ==> 0 in frontier[i].2
    ensures frontier[i].2 in visited && visited[frontier[i].2] <= frontier[i].1
    ensures popped == [] ==> frontier[i].1 == 0 && frontier[i].2 == puzzle.initial && frontier[i].3 == [] && visited[puzzle.initial] == 0
  {
    assert InSpace(puzzle.initial, puzzle.goal, frontier[i].2);
  }

  /** The popped board was seen, at a cost no higher than its entry's. */
  lemma PoppedSeen(puzzle: Puzzle, frontier: seq<Entry>, visited: map<Board, nat>, expanded: set<Board>,
                   popped: seq<Board>, i: nat)
    requires Invariant(puzzle, frontier, visited, expanded, popped) && i < |frontier|
    ensures frontier[i].2 in visited && visited[frontier[i].2] <= frontier[i].1
  {
    Popped(puzzle, frontier, visited, expanded, popped, i);
  }

  /** A stale entry is dropped: every board seen keeps a live entry or was expanded. */
  lemma Stale(puzzle: Puzzle, frontier: seq<Entry>, visited: map<Board, nat>, expanded: set<Board>,
              popped: seq<Board>, i: nat, rest: seq<Entry>)
    requires Invariant(puzzle, frontier, visited, expanded, popped)
    requires i < |frontier| && rest == frontier[..i] + frontier[i + 1..]
    requires frontier[i].2 in visited && frontier[i].1 > visited[frontier[i].2]
    ensures Invariant(puzzle, rest, visited, expanded, popped + [frontier[i].2])
  {
    EntriesRemove(puzzle, frontier, visited, i, rest);
    CoveredRemove(frontier, visited, expanded, i, rest);
    Popped(puzzle, frontier, visited, expanded, popped, i);
    StaleTrace(puzzle, frontier, visited, expanded, popped, i, rest, popped + [frontier[i].2]);
  }

  lemma StaleTrace(puzzle: Puzzle, frontier: seq<Entry>, visited: map<Board, nat>, expanded: set<Board>,
                   popped: seq<Board>, i: nat, rest: seq<Entry>, popped': seq<Board>)
    requires Trace(puzzle, frontier, visited, expanded, popped) && popped != []
    requires i < |frontier| && rest == frontier[..i] + frontier[i + 1..] && frontier[i].2 in visited
    requires popped' == popped + [frontier[i].2]
    ensures Trace(puzzle, rest, visited, expanded, popped')
  {
    PopTrace(puzzle, frontier, popped, i, popped');
    TraceRemove(frontier, i, rest, popped');
  }

  /** Taking the entry at index i off the frontier: the trace with its board still
      starts at the initial board and descends, and what remains on the frontier has a
      parent in it. */
  lemma PopTrace(puzzle: Puzzle, frontier: seq<Entry>, popped: seq<Board>, i: nat, popped': seq<Board>)
    requires Lineage(puzzle, frontier, popped) && i < |frontier|
    requires popped == [] ==> frontier[i].2 == puzzle.initial
    requires popped' == popped + [frontier[i].2]
    ensures popped'[0] == puzzle.initial && Descends(popped')
    ensures popped != [] ==> forall k :: 0 <= k < |frontier| ==> HasParent(popped', |popped'|, frontier[k].2)
  {
    DescendsExtend(popped, frontier[i].2, popped');
    if popped != [] {
      forall k | 0 <= k < |frontier| ensures HasParent(popped', |popped'|, frontier[k].2) {
        ParentWiden(popped, |popped|, frontier[k].2, popped', |popped'|);
      }
    }
  }

  lemma TraceRemove(frontier: seq<Entry>, i: nat, rest: seq<Entry>, popped': seq<Board>)
    requires i < |frontier| && rest == frontier[..i] + frontier[i + 1..]
    requires forall k :: 0 <= k < |frontier| ==> HasParent(popped', |popped'|, frontier[k].2)
    ensures forall k :: 0 <= k < |rest| ==> HasParent(popped', |popped'|, rest[k].2)
  {
    forall k | 0 <= k < |rest| ensures rest[k] == frontier[if k < i then k else k + 1] {
    }
  }

  lemma EntriesRemove(puzzle: Puzzle, frontier: seq<Entry>, visited: map<Board, nat>, i: nat, rest: seq<Entry>)
    requires Entries(puzzle, frontier, visited)
    requires i < |frontier| && rest == frontier[..i] + frontier[i + 1..]
    ensures Entries(puzzle, rest, visited)
  {
    forall j | 0 <= j < |rest| ensures rest[j] == frontier[if j < i then j else j + 1] {
    }
  }

  lemma CoveredRemove(frontier: seq<Entry>, visited: map<Board, nat>, expanded: set<Board>, i: nat, rest: seq<Entry>)
    requires Covered(frontier, visited, expanded)
    requires i < |frontier| && rest == frontier[..i] + frontier[i + 1..]
    requires frontier[i].2 in visited && frontier[i].1 > visited[frontier[i].2]
    ensures Covered(rest, visited, expanded)
  {
    forall x | x in visited && x !in expanded
      ensures exists j :: 0 <= j < |rest| && rest[j].2 == x && rest[j].1 == visited[x]
    {
      var j :| 0 <= j < |frontier| && frontier[j].2 == x && frontier[j].1 == visited[x];
      assert j != i;
      var j' := if j < i then j else j - 1;
      assert rest[j'] == frontier[j];
    }
  }

  /** The goal taken off the frontier: its path solves the puzzle, and the pops, the
      goal's included, still start at the initial board, descend and were all pushed. */
  lemma Found(puzzle: Puzzle, frontier: seq<Entry>, visited: map<Board, nat>, expanded: set<Board>,
              popped: seq<Board>, pushes: seq<Board>, i: nat, rest: seq<Entry>, popped': seq<Board>)
    requires Invariant(puzzle, frontier, visited, expanded, popped) && Tally(puzzle, frontier, popped, pushes)
    requires i < |frontier| && rest == frontier[..i] + frontier[i + 1..] && frontier[i].2 == puzzle.goal
    requires popped' == popped + [frontier[i].2]
    ensures Solves(puzzle, SearchResult(frontier[i].3, |frontier[i].3|, |popped'|))
    ensures puzzle.initial == puzzle.goal ==> popped == [] && frontier[i].3 == []
    ensures popped'[0] == puzzle.initial && Descends(popped') && Accounted(puzzle, popped', pushes)
  {
    Popped(puzzle, frontier, visited, expanded, popped, i);
    PopTrace(puzzle, frontier, popped, i, popped');
    FoundTally(puzzle, frontier, popped, pushes, i, rest, popped');
  }

  /** The state in which the loop expands the entry at index i at its recorded cost:
      the neighbours are those of its board, relaxed into `visited'` and pushed onto
      what is left of the frontier. */
  ghost predicate Expansion(puzzle: Puzzle, frontier: seq<Entry>, visited: map<Board, nat>, expanded: set<Board>,
                            popped: seq<Board>, i: nat, rest: seq<Entry>, neighbors: seq<Board>,
                            frontier': seq<Entry>, visited': map<Board, nat>, pushed: seq<Board>)
  {
    && Invariant(puzzle, frontier, visited, expanded, popped)
    && i < |frontier| && rest == frontier[..i] + frontier[i + 1..]
    && frontier[i].2 in visited && frontier[i].1 == visited[frontier[i].2]
    && frontier[i].2 != puzzle.goal && Shaped(frontier[i].2) && 0 in frontier[i].2
    && (forall x :: x in neighbors <==> Step(frontier[i].2, x))
    && (visited', pushed) == Relax(neighbors, visited, frontier[i].1)
    && frontier' == rest + Pushed(puzzle, frontier[i].1 + 1, frontier[i].3, pushed)
  }

  /** The invariant survives one expansion, and the potential of the finite space goes
      down or nothing was pushed and the frontier is shorter. */
  lemma Expand(puzzle: Puzzle, frontier: seq<Entry>, visited: map<Board, nat>, expanded: set<Board>,
               popped: seq<Board>, i: nat, rest: seq<Entry>, neighbors: seq<Board>,
               frontier': seq<Entry>, visited': map<Board, nat>, pushed: seq<Board>)
    requires Expansion(puzzle, frontier, visited, expanded, popped, i, rest, neighbors, frontier', visited', pushed)
    ensures Invariant(puzzle, frontier', visited', expanded + {frontier[i].2}, popped + [frontier[i].2])
    ensures Potential(Universe(puzzle.initial), visited', |Universe(puzzle.initial)|)
              < Potential(Universe(puzzle.initial), visited, |Universe(puzzle.initial)|)
         || (visited' == visited && |frontier'| < |frontier|)
  {
    ExpandStart(puzzle, frontier, visited, expanded, popped, i, rest, neighbors, frontier', visited', pushed);
    ExpandEntriesStep(puzzle, frontier, visited, expanded, popped, i, rest, neighbors, frontier', visited', pushed);
    ExpandSeenStep(puzzle, frontier, visited, expanded, popped, i, rest, neighbors, frontier', visited', pushed);
    ExpandCoveredStep(puzzle, frontier, visited, expanded, popped, i, rest, neighbors, frontier', visited', pushed);
    ExpandExpandedStep(puzzle, frontier, visited, expanded, popped, i, rest, neighbors, frontier', visited', pushed);
    ExpandProgress(puzzle, frontier, visited, expanded, popped, i, rest, neighbors, frontier', visited', pushed);
    ExpandTraceStep(puzzle, frontier, visited, expanded, popped, i, rest, neighbors, frontier', visited', pushed,
                    popped + [frontier[i].2]);
  }

  lemma ExpandTraceStep(puzzle: Puzzle, frontier: seq<Entry>, visited: map<Board, nat>, expanded: set<Board>,
                        popped: seq<Board>, i: nat, rest: seq<Entry>, neighbors: seq<Board>,
                        frontier': seq<Entry>, visited': map<Board, nat>, pushed: seq<Board>, popped': seq<Board>)
    requires Expansion(puzzle, frontier, visited, expanded, popped, i, rest, neighbors, frontier', visited', pushed)
    requires popped' == popped + [frontier[i].2]
    ensures Trace(puzzle, frontier', visited', expanded + {frontier[i].2}, popped')
  {
    RelaxSpec(neighbors, visited, frontier[i].1);
    Popped(puzzle, frontier, visited, expanded, popped, i);
    assert popped == [] ==> rest == [];
    TraceStep(puzzle, frontier, visited, expanded, popped, i, rest, frontier', visited', pushed, popped');
  }

  /** Expanding the entry at index i: its board joins the pops, and the entries pushed
      for its neighbours have it as parent. */
  lemma TraceStep(puzzle: Puzzle, frontier: seq<Entry>, visited: map<Board, nat>, expanded: set<Board>,
                  popped: seq<Board>, i: nat, rest: seq<Entry>,
                  frontier': seq<Entry>, visited': map<Board, nat>, pushed: seq<Board>, popped': seq<Board>)
    requires Trace(puzzle, frontier, visited, expanded, popped)
    requires i < |frontier| && rest == frontier[..i] + frontier[i + 1..] && frontier[i].2 in visited
    requires popped == [] ==> frontier[i].2 == puzzle.initial && rest == []
    requires forall x :: x in visited ==> x in visited'
    requires forall x :: x in pushed ==> Step(frontier[i].2, x)
    requires frontier' == rest + Pushed(puzzle, frontier[i].1 + 1, frontier[i].3, pushed)
    requires popped' == popped + [frontier[i].2]
    ensures Trace(puzzle, frontier', visited', expanded + {frontier[i].2}, popped')
  {
    assert popped'[|popped'| - 1] == frontier[i].2;
    ChildrenHaveParent(popped', pushed);
    TraceFrontier(puzzle, frontier, popped, i, rest, frontier', pushed, popped');
    TraceMembers(popped, visited, expanded, frontier[i].2, visited', popped');
  }

  lemma TraceFrontier(puzzle: Puzzle, frontier: seq<Entry>, popped: seq<Board>, i: nat, rest: seq<Entry>,
                      frontier': seq<Entry>, pushed: seq<Board>, popped': seq<Board>)
    requires Lineage(puzzle, frontier, popped)
    requires i < |frontier| && rest == frontier[..i] + frontier[i + 1..]
    requires popped == [] ==> frontier[i].2 == puzzle.initial && rest == []
    requires forall x :: x in pushed ==> HasParent(popped', |popped'|, x)
    requires frontier' == rest + Pushed(puzzle, frontier[i].1 + 1, frontier[i].3, pushed)
    requires popped' == popped + [frontier[i].2]
    ensures Lineage(puzzle, frontier', popped')
  {
    PopTrace(puzzle, frontier, popped, i, popped');
    if popped != [] {
      TraceRemove(frontier, i, rest, popped');
    }
    PushedHaveParent(puzzle, popped', rest, frontier[i].1 + 1, frontier[i].3, pushed, frontier');
  }

  lemma TraceMembers(popped: seq<Board>, visited: map<Board, nat>, expanded: set<Board>, b: Board,
                     visited': map<Board, nat>, popped': seq<Board>)
    requires (forall x :: x in popped ==> x in visited) && (forall x :: x in expanded ==> x in popped)
    requires b in visited && (forall x :: x in visited ==> x in visited') && popped' == popped + [b]
    ensures forall x :: x in popped' ==> x in visited'
    ensures forall x :: x in expanded + {b} ==> x in popped'
  {
    forall x | x in popped' ensures x in visited' {
      assert x in popped || x == b;
    }
  }

  /** Entries pushed for neighbours of the last board popped have it as parent. */
  lemma PushedHaveParent(puzzle: Puzzle, popped': seq<Board>, rest: seq<Entry>, g: nat, path: seq<Board>,
                         pushed: seq<Board>, frontier': seq<Entry>)
    requires |popped'| > 0
    requires forall k :: 0 <= k < |rest| ==> HasParent(popped', |popped'|, rest[k].2)
    requires forall x :: x in pushed ==> HasParent(popped', |popped'|, x)
    requires frontier' == rest + Pushed(puzzle, g, path, pushed)
    ensures forall k :: 0 <= k < |frontier'| ==> HasParent(popped', |popped'|, frontier'[k].2)
  {
    forall k | 0 <= k < |frontier'| ensures HasParent(popped', |popped'|, frontier'[k].2) {
      if k < |rest| {
        assert frontier'[k] == rest[k];
      } else {
        assert frontier'[k] == Pushed(puzzle, g, path, pushed)[k - |rest|];
        assert frontier'[k].2 in pushed;
      }
    }
  }

  lemma ExpandStart(puzzle: Puzzle, frontier: seq<Entry>, visited: map<Board, nat>, expanded: set<Board>,
                    popped: seq<Board>, i: nat, rest: seq<Entry>, neighbors: seq<Board>,
                    frontier': seq<Entry>, visited': map<Board, nat>, pushed: seq<Board>)
    requires Expansion(puzzle, frontier, visited, expanded, popped, i, rest, neighbors, frontier', visited', pushed)
    ensures puzzle.initial != puzzle.goal
  {
    Popped(puzzle, frontier, visited, expanded, popped, i);
  }

  lemma ExpandEntriesStep(puzzle: Puzzle, frontier: seq<Entry>, visited: map<Board, nat>, expanded: set<Board>,
                          popped: seq<Board>, i: nat, rest: seq<Entry>, neighbors: seq<Board>,
                          frontier': seq<Entry>, visited': map<Board, nat>, pushed: seq<Board>)
    requires Expansion(puzzle, frontier, visited, expanded, popped, i, rest, neighbors, frontier', visited', pushed)
    ensures Entries(puzzle, frontier', visited')
  {
    var g := frontier[i].1;
    RelaxSpec(neighbors, visited, g);
    RelaxBound(neighbors, visited, g);
    ExpandEntries(puzzle, frontier, visited, i, rest, pushed, frontier', visited');
  }

  lemma ExpandSeenStep(puzzle: Puzzle, frontier: seq<Entry>, visited: map<Board, nat>, expanded: set<Board>,
                       popped: seq<Board>, i: nat, rest: seq<Entry>, neighbors: seq<Board>,
                       frontier': seq<Entry>, visited': map<Board, nat>, pushed: seq<Board>)
    requires Expansion(puzzle, frontier, visited, expanded, popped, i, rest, neighbors, frontier', visited', pushed)
    ensures Seen(puzzle, visited')
  {
    var g := frontier[i].1;
    RelaxSpec(neighbors, visited, g);
    RelaxBound(neighbors, visited, g);
    ExpandSeen(puzzle, frontier[i].2, visited, neighbors, visited');
  }

  lemma ExpandCoveredStep(puzzle: Puzzle, frontier: seq<Entry>, visited: map<Board, nat>, expanded: set<Board>,
                          popped: seq<Board>, i: nat, rest: seq<Entry>, neighbors: seq<Board>,
                          frontier': seq<Entry>, visited': map<Board, nat>, pushed: seq<Board>)
    requires Expansion(puzzle, frontier, visited, expanded, popped, i, rest, neighbors, frontier', visited', pushed)
    ensures Covered(frontier', visited', expanded + {frontier[i].2})
  {
    ExpandCovered(puzzle, frontier, visited, expanded, i, rest, neighbors, pushed, frontier', visited');
  }

  lemma ExpandExpandedStep(puzzle: Puzzle, frontier: seq<Entry>, visited: map<Board, nat>, expanded: set<Board>,
                           popped: seq<Board>, i: nat, rest: seq<Entry>, neighbors: seq<Board>,
                           frontier': seq<Entry>, visited': map<Board, nat>, pushed: seq<Board>)
    requires Expansion(puzzle, frontier, visited, expanded, popped, i, rest, neighbors, frontier', visited', pushed)
    ensures Expanded(puzzle, visited', expanded + {frontier[i].2})
  {
    RelaxSpec(neighbors, visited, frontier[i].1);
    ExpandExpanded(puzzle, frontier[i].2, visited, expanded, neighbors, visited');
  }

  lemma ExpandProgress(puzzle: Puzzle, frontier: seq<Entry>, visited: map<Board, nat>, expanded: set<Board>,
                       popped: seq<Board>, i: nat, rest: seq<Entry>, neighbors: seq<Board>,
                       frontier': seq<Entry>, visited': map<Board, nat>, pushed: seq<Board>)
    requires Expansion(puzzle, frontier, visited, expanded, popped, i, rest, neighbors, frontier', visited', pushed)
    ensures Potential(Universe(puzzle.initial), visited', |Universe(puzzle.initial)|)
              < Potential(Universe(puzzle.initial), visited, |Universe(puzzle.initial)|)
         || (visited' == visited && |frontier'| < |frontier|)
  {
    var current, g := frontier[i].2, frontier[i].1;
    var U := Universe(puzzle.initial);
    RelaxSpec(neighbors, visited, g);
    forall x | x in neighbors ensures x in U {
      assert InSpace(puzzle.initial, puzzle.goal, current);
      StepStaysInSpace(puzzle.initial, puzzle.goal, current, x);
      InUniverse(puzzle.initial, puzzle.goal, x);
    }
    RelaxDecreases(U, neighbors, visited, g);
  }

  lemma ExpandSeen(puzzle: Puzzle, current: Board, visited: map<Board, nat>, neighbors: seq<Board>,
                   visited': map<Board, nat>)
    requires Seen(puzzle, visited) && current in visited
    requires forall x :: x in neighbors ==> Step(current, x)
    requires forall x :: x in visited' <==> x in visited || x in neighbors
    requires forall x :: x in visited' ==> visited'[x] < |visited'.Keys|
    ensures Seen(puzzle, visited')
  {
    forall x | x in visited' ensures InSpace(puzzle.initial, puzzle.goal, x) && x in Universe(puzzle.initial) {
      if x !in visited {
        StepStaysInSpace(puzzle.initial, puzzle.goal, current, x);
        InUniverse(puzzle.initial, puzzle.goal, x);
      }
    }
  }

  lemma ExpandEntries(puzzle: Puzzle, frontier: seq<Entry>, visited: map<Board, nat>, i: nat,
                      rest: seq<Entry>, pushed: seq<Board>, frontier': seq<Entry>, visited': map<Board, nat>)
    requires Entries(puzzle, frontier, visited) && i < |frontier| && rest == frontier[..i] + frontier[i + 1..]
    requires forall x :: x in pushed ==> Step(frontier[i].2, x)
    requires frontier' == rest + Pushed(puzzle, frontier[i].1 + 1, frontier[i].3, pushed)
    requires forall x :: x in visited ==> x in visited' && visited'[x] <= visited[x]
    requires forall x :: x in pushed ==> x in visited' && visited'[x] == frontier[i].1 + 1
    requires forall x :: x in visited' ==> visited'[x] < |visited'.Keys|
    requires |visited.Keys| <= |visited'.Keys|
    ensures Entries(puzzle, frontier', visited')
  {
    var (_, g, current, path) := frontier[i];
    assert IsChain(puzzle.initial, path) && Last(puzzle.initial, path) == current;
    forall j | 0 <= j < |frontier'|
      ensures frontier'[j].2 in visited' && visited'[frontier'[j].2] <= frontier'[j].1 < |visited'.Keys|
      ensures frontier'[j].1 == |frontier'[j].3|
      ensures IsChain(puzzle.initial, frontier'[j].3) && Last(puzzle.initial, frontier'[j].3) == frontier'[j].2
      ensures Shaped(frontier'[j].2) && Scored(puzzle.goalPositions, frontier'[j].2)
      ensures frontier'[j].0 == frontier'[j].1 + Heuristic(puzzle, frontier'[j].2)
    {
      if j < i {
        assert frontier'[j] == frontier[j];
      } else if j < |rest| {
        assert frontier'[j] == frontier[j + 1];
      } else {
        var x := pushed[j - |rest|];
        assert frontier'[j] == (g + 1 + Heuristic(puzzle, x), g + 1, x, path + [x]);
        StepKeepsTiles(current, x);
        StepKeepsScored(puzzle.goalPositions, current, x);
        ChainExtend(puzzle.initial, path, x);
      }
    }
  }

  lemma ExpandCovered(puzzle: Puzzle, frontier: seq<Entry>, visited: map<Board, nat>, expanded: set<Board>, i: nat,
                      rest: seq<Entry>, neighbors: seq<Board>, pushed: seq<Board>, frontier': seq<Entry>,
                      visited': map<Board, nat>)
    requires Covered(frontier, visited, expanded) && i < |frontier| && rest == frontier[..i] + frontier[i + 1..]
    requires (visited', pushed) == Relax(neighbors, visited, frontier[i].1)
    requires frontier' == rest + Pushed(puzzle, frontier[i].1 + 1, frontier[i].3, pushed)
    ensures Covered(frontier', visited', expanded + {frontier[i].2})
  {
    RelaxSpec(neighbors, visited, frontier[i].1);
    forall x | x in visited' && x !in expanded + {frontier[i].2}
      ensures exists j :: 0 <= j < |frontier'| && frontier'[j].2 == x && frontier'[j].1 == visited'[x]
    {
      if x in pushed {
        var k :| 0 <= k < |pushed| && pushed[k] == x;
        assert frontier'[|rest| + k] == Pushed(puzzle, frontier[i].1 + 1, frontier[i].3, pushed)[k];
      } else {
        var j :| 0 <= j < |frontier| && frontier[j].2 == x && frontier[j].1 == visited[x];
        assert j != i;
        var j' := if j < i then j else j - 1;
        assert rest[j'] == frontier[j];
        assert frontier'[j'] == rest[j'];
      }
    }
  }

  lemma ExpandExpanded(puzzle: Puzzle, current: Board, visited: map<Board, nat>, expanded: set<Board>,
                       neighbors: seq<Board>, visited': map<Board, nat>)
    requires Expanded(puzzle, visited, expanded) && current != puzzle.goal && current in visited
    requires forall t :: Step(current, t) ==> t in neighbors
    requires forall x :: x in visited' <==> x in visited || x in neighbors
    ensures Expanded(puzzle, visited', expanded + {current})
  {
  }

  /** An exhausted frontier: every board seen was expanded and none was the goal, so the
      boards seen separate the goal from the initial board; the pops start at the initial
      board, descend, are closed under moves and are exactly the pushes. */
  lemma Exhausted(puzzle: Puzzle, visited: map<Board, nat>, expanded: set<Board>, popped: seq<Board>,
                  pushes: seq<Board>)
    requires Invariant(puzzle, [], visited, expanded, popped) && Tally(puzzle, [], popped, pushes)
    ensures Unsolvable(puzzle)
    ensures |popped| > 0 && popped[0] == puzzle.initial && Descends(popped)
    ensures ClosedTrace(popped)
    ensures Accounted(puzzle, popped, pushes) && multiset(popped) == multiset(pushes)
  {
    PopsClosed(puzzle, visited, expanded, popped);
    TallyCounts(puzzle, [], popped, pushes);
    var C := visited.Keys;
    forall a, t | a in C && Step(a, t) ensures t in C {
      assert a in expanded;
    }
    ClosedSetSeparates(puzzle, C);
  }

  /** An exhausted frontier: every neighbour of a board taken off was itself taken off. */
  lemma PopsClosed(puzzle: Puzzle, visited: map<Board, nat>, expanded: set<Board>, popped: seq<Board>)
    requires Invariant(puzzle, [], visited, expanded, popped)
    ensures popped != []
    ensures forall j, t :: 0 <= j < |popped| && Step(popped[j], t) ==> t in popped
  {
    forall j, t | 0 <= j < |popped| && Step(popped[j], t) ensures t in popped {
      assert popped[j] in popped;
      assert popped[j] in expanded;
    }
  }

  /** One expansion of the entry `entry`, at index i of the frontier and at its
      recorded cost: its neighbours are relaxed into `visited` and pushed onto the rest
      of the frontier. */
  method ExpandEntry(puzzle: Puzzle, frontier: seq<Entry>, visited: map<Board, nat>, ghost expanded: set<Board>,
                     ghost popped: seq<Board>, ghost pushes: seq<Board>, ghost run: seq<LoopState>, ghost n: nat,
                     ghost i: nat, entry: Entry, rest: seq<Entry>)
    returns (frontier': seq<Entry>, visited': map<Board, nat>, ghost pushes': seq<Board>)
    requires Invariant(puzzle, frontier, visited, expanded, popped) && Tally(puzzle, frontier, popped, pushes)
    requires Trail(puzzle, run, popped, frontier, visited, n) && LeastAt(frontier, i)
    requires i < |frontier| && entry == frontier[i] && rest == frontier[..i] + frontier[i + 1..]
    requires entry.2 in visited && entry.1 == visited[entry.2] && entry.2 != puzzle.goal
    ensures Invariant(puzzle, frontier', visited', expanded + {entry.2}, popped + [entry.2])
    ensures Tally(puzzle, frontier', popped + [entry.2], pushes')
    ensures Potential(Universe(puzzle.initial), visited', |Universe(puzzle.initial)|)
              < Potential(Universe(puzzle.initial), visited, |Universe(puzzle.initial)|)
         || (visited' == visited && |frontier'| < |frontier|)
    ensures Trail(puzzle, run + [LoopState(frontier', visited', n + 1)], popped + [entry.2], frontier', visited', n + 1)
  {
    Popped(puzzle, frontier, visited, expanded, popped, i);
    var (_, gVal, current, path) := entry;
    var neighbors := GetNeighbors(current);
    NeighborsAreSteps(current, neighbors);
    ghost var pushed;
    frontier', visited', pushed := RelaxNeighbors(puzzle, current, neighbors, gVal, path, rest, visited);
    assert Expansion(puzzle, frontier, visited, expanded, popped, i, rest, neighbors, frontier', visited', pushed);
    Expand(puzzle, frontier, visited, expanded, popped, i, rest, neighbors, frontier', visited', pushed);
    pushes' := pushes + pushed;
    ExpandTally(puzzle, frontier, popped, pushes, i, rest, neighbors, visited, frontier', visited', pushed,
                popped + [entry.2], pushes');
    ExpandTurn(puzzle, run, popped, frontier, visited, n, i, rest, frontier', visited');
  }

  // ---------------------------------------------------------------------------
  // The search as a sequence of turns of its loop

  /** The state of the loop between turns: the frontier, the recorded costs, and the
      number of entries taken off so far. */
  datatype LoopState = LoopState(frontier: seq<Entry>, visited: map<Board, nat>, explored: nat)

  /** The state before the first turn: the initial board alone on the frontier, at g = 0. */
  ghost function Start(puzzle: Puzzle): LoopState {
    LoopState([(Heuristic(puzzle, puzzle.initial), 0, puzzle.initial, [])], map[puzzle.initial := 0], 0)
  }

  /** Entry i has the least f on the frontier. */
  ghost predicate LeastAt(frontier: seq<Entry>, i: nat) {
    i < |frontier| && forall j :: 0 <= j < |frontier| ==> frontier[i].0 <= frontier[j].0
  }

  /** Before the first turn, the run holds the start state alone. */
  lemma StartTrail(puzzle: Puzzle, h: int)
    requires Shaped(puzzle.initial) && Scored(puzzle.goalPositions, puzzle.initial)
    requires h == Manhattan(puzzle.goalPositions, puzzle.initial)
    ensures Trail(puzzle, [LoopState([(0 + h, 0, puzzle.initial, [])], map[puzzle.initial := 0], 0)], [],
                  [(0 + h, 0, puzzle.initial, [])], map[puzzle.initial := 0], 0)
  {
  }

  /** An entry whose priority is no more than any entry's has the least f. */
  lemma LeastPopped(frontier: seq<Entry>, i: nat)
    requires i < |frontier| && forall j :: 0 <= j < |frontier| ==> Priority(frontier[i]) <= Priority(frontier[j])
    ensures LeastAt(frontier, i)
  {
  }

  /** Expanding entry e, the rest of the frontier being rest: the neighbours of its board
      are relaxed at its g, and those pushed join the frontier with g + 1 and the path
      extended by them. */
  ghost predicate Expands(puzzle: Puzzle, e: Entry, rest: seq<Entry>, visited: map<Board, nat>,
                          frontier': seq<Entry>, visited': map<Board, nat>)
  {
    && Shaped(e.2) && 0 in e.2
    && var (v, pushed) := Relax(Successors(e.2), visited, e.1);
       visited' == v && frontier' == rest + Pushed(puzzle, e.1 + 1, e.3, pushed)
  }

  /** A turn that does not end the search, taking entry i, one of least f, off: nodes
      explored goes up by one whether the entry is stale or not; a stale entry is
      dropped, and a live one, which is not the goal, is expanded. */
  ghost predicate TurnAt(puzzle: Puzzle, s: LoopState, i: nat, s': LoopState) {
    && LeastAt(s.frontier, i)
    && s.frontier[i].2 in s.visited
    && s'.explored == s.explored + 1
    && var rest := s.frontier[..i] + s.frontier[i + 1..];
       if s.frontier[i].1 > s.visited[s.frontier[i].2] then s'.frontier == rest && s'.visited == s.visited
       else s.frontier[i].2 != puzzle.goal && Expands(puzzle, s.frontier[i], rest, s.visited, s'.frontier, s'.visited)
  }

  /** A turn from s to s' that takes an entry for board b off. */
  ghost predicate Turn(puzzle: Puzzle, s: LoopState, b: Board, s': LoopState) {
    exists i: nat :: TurnAt(puzzle, s, i, s') && s.frontier[i].2 == b
  }

  /** run[k] is the state after k turns, and turn k takes popped[k] off. */
  ghost predicate Run(puzzle: Puzzle, run: seq<LoopState>, popped: seq<Board>) {
    && |run| == |popped| + 1 && run[0] == Start(puzzle)
    && forall k :: 0 <= k < |popped| ==> Turn(puzzle, run[k], popped[k], run[k + 1])
  }

  /** run is a run whose last state has this frontier, these costs and this count. */
  ghost predicate Trail(puzzle: Puzzle, run: seq<LoopState>, popped: seq<Board>, frontier: seq<Entry>,
                        visited: map<Board, nat>, n: nat)
  {
    Run(puzzle, run, popped) && run[|run| - 1] == LoopState(frontier, visited, n)
  }

  /** The turn that ends the search in state s: an entry of least f that is live and holds
      the goal comes off, and r reports its path and nodes explored counting it. */
  ghost predicate Finish(puzzle: Puzzle, s: LoopState, r: SearchResult) {
    exists i: nat :: && LeastAt(s.frontier, i) && s.frontier[i].2 == puzzle.goal
                && puzzle.goal in s.visited && s.frontier[i].1 <= s.visited[puzzle.goal]
                && r == SearchResult(s.frontier[i].3, |s.frontier[i].3|, s.explored + 1)
  }

  /** The search ends with r: the turns before the last pop form a run, and the last
      pop, of the goal, ends it with r. */
  ghost predicate Ended(puzzle: Puzzle, run: seq<LoopState>, popped: seq<Board>, r: SearchResult) {
    |popped| > 0 && Run(puzzle, run, popped[..|popped| - 1]) && Finish(puzzle, run[|run| - 1], r)
  }

  /** The search stops with nothing found: the pops form a run whose frontier is empty. */
  ghost predicate Exhausts(puzzle: Puzzle, run: seq<LoopState>, popped: seq<Board>) {
    Run(puzzle, run, popped) && run[|run| - 1].frontier == []
  }

  /** Every turn counts the entry it takes off, stale or not: after k turns nodes explored
      is k. */
  lemma {:induction false} RunCounts(puzzle: Puzzle, run: seq<LoopState>, popped: seq<Board>, k: nat)
    requires Run(puzzle, run, popped) && k < |run|
    ensures run[k].explored == k
  {
    if k > 0 {
      RunCounts(puzzle, run, popped, k - 1);
      assert Turn(puzzle, run[k - 1], popped[k - 1], run[k]);
    }
  }

  /** A search that ends with r reports as nodes explored every entry taken off, stale or
      live, the goal's included. */
  lemma EndedCounts(puzzle: Puzzle, run: seq<LoopState>, popped: seq<Board>, r: SearchResult)
    requires Ended(puzzle, run, popped, r)
    ensures r.nodesExplored == |popped| == |run|
  {
    RunCounts(puzzle, run, popped[..|popped| - 1], |run| - 1);
  }

  lemma RunExtend(puzzle: Puzzle, run: seq<LoopState>, popped: seq<Board>, i: nat, s': LoopState)
    requires Run(puzzle, run, popped) && TurnAt(puzzle, run[|run| - 1], i, s')
    ensures Run(puzzle, run + [s'], popped + [run[|run| - 1].frontier[i].2])
  {
    var run', popped' := run + [s'], popped + [run[|run| - 1].frontier[i].2];
    forall k | 0 <= k < |popped'|
      ensures Turn(puzzle, run'[k], popped'[k], run'[k + 1])
    {
      if k < |popped| {
        assert run'[k] == run[k] && run'[k + 1] == run[k + 1] && popped'[k] == popped[k];
      } else {
        assert run'[k] == run[|run| - 1] && run'[k + 1] == s';
      }
    }
  }

  /** Dropping a stale entry of least f is a turn. */
  lemma StaleTurn(puzzle: Puzzle, run: seq<LoopState>, popped: seq<Board>, frontier: seq<Entry>,
                  visited: map<Board, nat>, n: nat, i: nat, rest: seq<Entry>)
    requires Trail(puzzle, run, popped, frontier, visited, n)
    requires LeastAt(frontier, i) && rest == frontier[..i] + frontier[i + 1..]
    requires frontier[i].2 in visited && frontier[i].1 > visited[frontier[i].2]
    ensures Trail(puzzle, run + [LoopState(rest, visited, n + 1)], popped + [frontier[i].2], rest, visited, n + 1)
  {
    RunExtend(puzzle, run, popped, i, LoopState(rest, visited, n + 1));
  }

  /** Expanding a live non-goal entry of least f is a turn. */
  lemma ExpandTurn(puzzle: Puzzle, run: seq<LoopState>, popped: seq<Board>, frontier: seq<Entry>,
                   visited: map<Board, nat>, n: nat, i: nat, rest: seq<Entry>,
                   frontier': seq<Entry>, visited': map<Board, nat>)
    requires Trail(puzzle, run, popped, frontier, visited, n)
    requires LeastAt(frontier, i) && rest == frontier[..i] + frontier[i + 1..]
    requires frontier[i].2 in visited && frontier[i].1 <= visited[frontier[i].2] && frontier[i].2 != puzzle.goal
    requires Expands(puzzle, frontier[i], rest, visited, frontier', visited')
    ensures Trail(puzzle, run + [LoopState(frontier', visited', n + 1)], popped + [frontier[i].2], frontier', visited', n + 1)
  {
    RunExtend(puzzle, run, popped, i, LoopState(frontier', visited', n + 1));
  }

  /** Taking off a live goal entry of least f ends the search with its path. */
  lemma FinishTurn(puzzle: Puzzle, run: seq<LoopState>, popped: seq<Board>, frontier: seq<Entry>,
                   visited: map<Board, nat>, n: nat, i: nat, r: SearchResult)
    requires Trail(puzzle, run, popped, frontier, visited, n)
    requires LeastAt(frontier, i) && frontier[i].2 == puzzle.goal
    requires puzzle.goal in visited && frontier[i].1 <= visited[puzzle.goal]
    requires r == SearchResult(frontier[i].3, |frontier[i].3|, n + 1)
    ensures Ended(puzzle, run, popped + [puzzle.goal], r)
  {
    assert (popped + [puzzle.goal])[..|popped|] == popped;
    assert LeastAt(run[|run| - 1].frontier, i);
  }

  /** A run whose frontier is empty stops the search. */
  lemma Exhaust(puzzle: Puzzle, run: seq<LoopState>, popped: seq<Board>, visited: map<Board, nat>, n: nat)
    requires Trail(puzzle, run, popped, [], visited, n)
    ensures Exhausts(puzzle, run, popped)
  {
  }

  // ---------------------------------------------------------------------------
  // The search loop

  /** What holds before each turn of the loop: the invariant over the frontier and the
      costs, nodes explored counting the pops, the tally of pushes against pops, and the
      run of turns so far ending in the current state. */
  ghost predicate Loop(puzzle: Puzzle, frontier: seq<Entry>, visited: map<Board, nat>, n: nat,
                       expanded: set<Board>, popped: seq<Board>, pushes: seq<Board>, run: seq<LoopState>)
  {
    && Invariant(puzzle, frontier, visited, expanded, popped)
    && n == |popped|
    && Tally(puzzle, frontier, popped, pushes)
    && Trail(puzzle, run, popped, frontier, visited, n)
  }

  /** What a returned result r promises: its path is a chain to the goal and steps is its
      length; the pops start at the initial board, each later one neighbours an earlier
      one, and the last is the goal; nodes explored is the number of pops, and the turns
      before the last one form a run that the last ends with r; and a goal equal to the
      initial board is found at once. */
  ghost predicate Succeeds(puzzle: Puzzle, r: SearchResult, popped: seq<Board>, run: seq<LoopState>) {
    && Solves(puzzle, r)
    && r.nodesExplored == |popped| > 0 && popped[0] == puzzle.initial && popped[|popped| - 1] == puzzle.goal
    && Descends(popped)
    && Ended(puzzle, run, popped, r)
    && (puzzle.initial == puzzle.goal ==> r == SearchResult([], 0, 1))
  }

  /** What a search that finds nothing promises: no chain reaches the goal; the pops start
      at the initial board, each later one neighbours an earlier one, and every neighbour
      of a pop was popped; and the pops form a run that empties the frontier. */
  ghost predicate Fails(puzzle: Puzzle, popped: seq<Board>, run: seq<LoopState>) {
    && Unsolvable(puzzle) && puzzle.initial != puzzle.goal
    && |popped| > 0 && popped[0] == puzzle.initial && Descends(popped)
    && ClosedTrace(popped)
    && Exhausts(puzzle, run, popped)
  }

  /** Before the first turn: the initial board alone on the frontier at g = 0 and f = its
      heuristic, recorded at cost 0, nothing popped, one push, and the run at its start. */
  lemma Begin(puzzle: Puzzle, h: int)
    requires Shaped(puzzle.initial) && (puzzle.initial != puzzle.goal ==> 0 in puzzle.initial)
    requires Scored(puzzle.goalPositions, puzzle.initial) && h == Manhattan(puzzle.goalPositions, puzzle.initial)
    ensures Loop(puzzle, [(0 + h, 0, puzzle.initial, [])], map[puzzle.initial := 0], 0, {}, [], [puzzle.initial],
                 [LoopState([(0 + h, 0, puzzle.initial, [])], map[puzzle.initial := 0], 0)])
  {
    Initially(puzzle, h);
    var frontier: seq<Entry> := [(0 + h, 0, puzzle.initial, [])];
    assert Boards(frontier) == [puzzle.initial];
    StartTrail(puzzle, h);
  }

  /** A turn that drops a stale entry of least f keeps what holds before each turn. */
  lemma StaleLoop(puzzle: Puzzle, frontier: seq<Entry>, visited: map<Board, nat>, n: nat, expanded: set<Board>,
                  popped: seq<Board>, pushes: seq<Board>, run: seq<LoopState>, i: nat, rest: seq<Entry>)
    requires Loop(puzzle, frontier, visited, n, expanded, popped, pushes, run)
    requires LeastAt(frontier, i) && rest == frontier[..i] + frontier[i + 1..]
    requires frontier[i].2 in visited && frontier[i].1 > visited[frontier[i].2]
    ensures Loop(puzzle, rest, visited, n + 1, expanded, popped + [frontier[i].2], pushes,
                 run + [LoopState(rest, visited, n + 1)])
  {
    Stale(puzzle, frontier, visited, expanded, popped, i, rest);
    StaleTally(puzzle, frontier, popped, pushes, i, rest, popped + [frontier[i].2]);
    StaleTurn(puzzle, run, popped, frontier, visited, n, i, rest);
  }

  /** A turn that takes off a live goal entry of least f returns a result that succeeds. */
  lemma Succeed(puzzle: Puzzle, frontier: seq<Entry>, visited: map<Board, nat>, n: nat, expanded: set<Board>,
                popped: seq<Board>, pushes: seq<Board>, run: seq<LoopState>, i: nat, rest: seq<Entry>,
                r: SearchResult)
    requires Loop(puzzle, frontier, visited, n, expanded, popped, pushes, run)
    requires LeastAt(frontier, i) && rest == frontier[..i] + frontier[i + 1..] && frontier[i].2 == puzzle.goal
    requires puzzle.goal in visited && frontier[i].1 <= visited[puzzle.goal]
    requires r == SearchResult(frontier[i].3, |frontier[i].3|, n + 1)
    ensures Succeeds(puzzle, r, popped + [puzzle.goal], run)
  {
    Found(puzzle, frontier, visited, expanded, popped, pushes, i, rest, popped + [frontier[i].2]);
    FinishTurn(puzzle, run, popped, frontier, visited, n, i, r);
  }

  /** A loop that empties the frontier ends in a search that fails. */
  lemma Fail(puzzle: Puzzle, visited: map<Board, nat>, n: nat, expanded: set<Board>, popped: seq<Board>,
             pushes: seq<Board>, run: seq<LoopState>)
    requires Loop(puzzle, [], visited, n, expanded, popped, pushes, run)
    ensures Fails(puzzle, popped, run)
  {
    Exhausted(puzzle, visited, expanded, popped, pushes);
    Exhaust(puzzle, run, popped, visited, n);
    assert IsChain(puzzle.initial, []);
  }

  /** One turn of the loop: takes an entry of least f off the frontier and counts it;
      drops it if a cheaper path to its board is known; reports it if it is the goal;
      otherwise relaxes its neighbours.  A turn that does not report keeps what holds
      before each turn and lowers the potential, or keeps `visited` and shortens the
      frontier. */
  method TakeTurn(puzzle: Puzzle, frontier: seq<Entry>, visited: map<Board, nat>, nodesExplored: nat,
                  ghost expanded: set<Board>, ghost popped: seq<Board>, ghost pushes: seq<Board>,
                  ghost run: seq<LoopState>)
    returns (found: Option<SearchResult>, frontier': seq<Entry>, visited': map<Board, nat>, nodesExplored': nat,
             ghost expanded': set<Board>, ghost popped': seq<Board>, ghost pushes': seq<Board>,
             ghost run': seq<LoopState>)
    requires frontier != [] && Loop(puzzle, frontier, visited, nodesExplored, expanded, popped, pushes, run)
    ensures found.Some? ==> Succeeds(puzzle, found.value, popped', run')
    ensures found.None? ==> Loop(puzzle, frontier', visited', nodesExplored', expanded', popped', pushes', run')
    ensures found.None? ==>
              nodesExplored' == nodesExplored + 1 && run' == run + [LoopState(frontier', visited', nodesExplored')]
    ensures found.None? ==>
              (|| Potential(Universe(puzzle.initial), visited', |Universe(puzzle.initial)|)
                    < Potential(Universe(puzzle.initial), visited, |Universe(puzzle.initial)|)
               || (visited' == visited && |frontier'| < |frontier|))
  {
    var entry, rest;
    ghost var i;
    entry, rest, i := PopMin(frontier, Priority);
    LeastPopped(frontier, i);
    PoppedSeen(puzzle, frontier, visited, expanded, popped, i);
    var (_, gVal, current, path) := entry;
    nodesExplored' := nodesExplored + 1;

    if gVal > visited[current] {
      StaleLoop(puzzle, frontier, visited, nodesExplored, expanded, popped, pushes, run, i, rest);
      found, frontier', visited' := None, rest, visited;
      expanded', popped', pushes', run' := expanded, popped + [current], pushes, run + [LoopState(rest, visited, nodesExplored')];
      return;
    }

    if current == puzzle.goal {
      found := Some(SearchResult(path, |path|, nodesExplored'));
      Succeed(puzzle, frontier, visited, nodesExplored, expanded, popped, pushes, run, i, rest, found.value);
      frontier', visited' := rest, visited;
      expanded', popped', pushes', run' := expanded, popped + [current], pushes, run;
      return;
    }

    found := None;
    frontier', visited', pushes' :=
      ExpandEntry(puzzle, frontier, visited, expanded, popped, pushes, run, nodesExplored, i, entry, rest);
    expanded', popped', run' := expanded + {current}, popped + [current], run + [LoopState(frontier', visited', nodesExplored')];
  }

  /** A* search: takes an entry of least f off the frontier and counts it, stale or not,
      until it reports the goal or the frontier runs out.  Every board must be one the
      goal table can score, as the heuristic looks up each tile.  `popped` lists the
      boards taken off, and `run` the states between turns. */
  method Solve(puzzle: Puzzle)
    returns (r: Option<SearchResult>, ghost popped: seq<Board>, ghost run: seq<LoopState>)
    requires Shaped(puzzle.initial) && (puzzle.initial != puzzle.goal ==> 0 in puzzle.initial)
    requires Scored(puzzle.goalPositions, puzzle.initial)
    ensures r.Some? ==> Succeeds(puzzle, r.value, popped, run)
    ensures r.None? ==> Fails(puzzle, popped, run)
    ensures puzzle.initial == puzzle.goal ==> r == Some(SearchResult([], 0, 1))
  {
    var hCost := ManhattanDistance(puzzle, puzzle.initial);
    var fCost := 0 + hCost;
    var frontier: seq<Entry> := [(fCost, 0, puzzle.initial, [])];
    var visited: map<Board, nat> := map[puzzle.initial := 0];
    var nodesExplored: nat := 0;
    ghost var expanded: set<Board> := {};
    ghost var pushes := [puzzle.initial];
    popped, run := [], [LoopState(frontier, visited, 0)];
    Begin(puzzle, hCost);

    while frontier != []
      invariant Loop(puzzle, frontier, visited, nodesExplored, expanded, popped, pushes, run)
      decreases Potential(Universe(puzzle.initial), visited, |Universe(puzzle.initial)|), |frontier|
    {
      var found;
      found, frontier, visited, nodesExplored, expanded, popped, pushes, run :=
        TakeTurn(puzzle, frontier, visited, nodesExplored, expanded, popped, pushes, run);
      if found.Some? {
        r := found;
        return;
      }
    }
    Fail(puzzle, visited, nodesExplored, expanded, popped, pushes, run);
    r := None;
  }
}
