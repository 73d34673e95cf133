/**
 * The 8-puzzle case base of CBR.py: board states, the tile-by-tile
 * similarity count, successor generation, the breadth-first search with a
 * visit limit, and the exact-match test of the case-based search.
 */
module Puzzle {
  import opened Errors

  /** A Python value held in a board cell: a number, or a string such as "blank". */
  datatype Tile = Int(n: int) | Str(s: string)

  /** A board: the nine cells row by row (a Python list, so of any length). */
  type State = seq<Tile>

  /** The blank cell, written 0. */
  const Blank: Tile := Int(0)

  /** makeState's replacement of "blank" by 0. */
  function Blanked(t: Tile): Tile {
    if t == Str("blank") then Blank else t
  }

  /** makeState(nw, ..., se): the nine cells in reading order, each "blank" turned into 0. */
  method MakeState(nw: Tile, n: Tile, ne: Tile, w: Tile, c: Tile, e: Tile, sw: Tile, s: Tile, se: Tile)
    returns (state: State)
    ensures |state| == 9
    ensures forall i :: 0 <= i < 9 ==> state[i] == Blanked([nw, n, ne, w, c, e, sw, s, se][i])
    ensures forall i :: 0 <= i < 9 ==> state[i] != Str("blank")
  {
    var args := [nw, n, ne, w, c, e, sw, s, se];
    state := args;
    for i := 0 to |state|
      invariant |state| == 9
      invariant forall j :: 0 <= j < i ==> state[j] == Blanked(args[j])
      invariant forall j :: i <= j < 9 ==> state[j] == args[j]
    {
      if state[i] == Str("blank") {
        state := state[i := Blank];
      }
    }
  }

  /** testProcedure: a state is the goal exactly when the two lists are equal. */
  function TestProcedure(state: State, goal: State): (r: bool)
    ensures r <==> state == goal
  {
    state == goal
  }

  // ----- check_similarity -----

  /** The number of positions below n where the two lists agree. */
  function MatchCount(a: State, b: State, n: nat): nat
    requires n <= |a| && n <= |b|
  {
    if n == 0 then 0 else MatchCount(a, b, n - 1) + (if a[n - 1] == b[n - 1] then 1 else 0)
  }

  /**
   * check_similarity(a, b): the agreeing positions among the first |b|; a
   * list a shorter than b runs off its end (IndexError).
   */
  method CheckSimilarity(a: State, b: State) returns (r: Result<nat>)
    ensures |a| < |b| ==> r == Err(IndexOutOfBounds)
    ensures |a| >= |b| ==> r == Ok(MatchCount(a, b, |b|))
  {
    var count := 0;
    for i := 0 to |b|
      invariant i <= |a| && count == MatchCount(a, b, i)
    {
      if i >= |a| {
        return Err(IndexOutOfBounds);
      }
      if a[i] == b[i] {
        count := count + 1;
      }
    }
    r := Ok(count);
  }

  /** The count never exceeds the number of positions compared. */
  lemma {:induction false} MatchCountBound(a: State, b: State, n: nat)
    requires n <= |a| && n <= |b|
    ensures MatchCount(a, b, n) <= n
  {
    if n > 0 {
      MatchCountBound(a, b, n - 1);
    }
  }

  /** Every position agrees exactly when the first n cells of the two lists are equal. */
  lemma {:induction false} MatchCountFull(a: State, b: State, n: nat)
    requires n <= |a| && n <= |b|
    ensures MatchCount(a, b, n) == n <==> a[..n] == b[..n]
  {
    if n > 0 {
      MatchCountFull(a, b, n - 1);
      MatchCountBound(a, b, n - 1);
      if a[..n] == b[..n] {
        assert a[..n - 1] == a[..n][..n - 1] && b[..n - 1] == b[..n][..n - 1];
        assert a[n - 1] == a[..n][n - 1] && b[n - 1] == b[..n][n - 1];
      }
      if MatchCount(a, b, n) == n {
        assert a[..n] == a[..n - 1] + [a[n - 1]] && b[..n] == b[..n - 1] + [b[n - 1]];
      }
    }
  }

  // ----- expandProcedure -----

  /** The blank position: the last index below n holding 0, and 0 when there is none. */
  function BlankIn(s: State, n: nat): (b: nat)
    requires n <= |s|
    ensures b == 0 || (b < n && s[b] == Blank)
  {
    if n == 0 then 0 else if s[n - 1] == Blank then n - 1 else BlankIn(s, n - 1)
  }

  function BlankPos(s: State): nat {
    BlankIn(s, |s|)
  }

  /** No cell after the blank position holds 0. */
  lemma {:induction false} BlankIsLast(s: State, n: nat, j: nat)
    requires n <= |s| && BlankIn(s, n) < j < n
    ensures s[j] != Blank
  {
    if s[n - 1] != Blank {
      if j < n - 1 {
        BlankIsLast(s, n - 1, j);
      }
    }
  }

  /** The blank-position loop of expandProcedure. */
  method FindBlank(s: State) returns (b: nat)
    ensures b == BlankPos(s)
  {
    b := 0;
    for i := 0 to |s|
      invariant b == BlankIn(s, i)
    {
      if s[i] == Blank {
        b := i;
      }
    }
  }

  /** The neighbours expandProcedure tries, in its order: right, left, up, down. */
  function Moves(b: int): (r: seq<int>)
    ensures forall p :: p in r <==>
      (p == b + 1 && b % 3 != 2) || (p == b - 1 && b % 3 != 0) || (p == b - 3 && b > 2) || (p == b + 3 && b < 6)
  {
    (if b % 3 != 2 then [b + 1] else [])
    + (if b % 3 != 0 then [b - 1] else [])
    + (if b > 2 then [b - 3] else [])
    + (if b < 6 then [b + 3] else [])
  }

  /** On the board every neighbour is a cell, and there are two to four of them. */
  lemma MovesOnBoard(b: int)
    requires 0 <= b <= 8
    ensures 2 <= |Moves(b)| <= 4
    ensures forall k :: 0 <= k < |Moves(b)| ==> 0 <= Moves(b)[k] <= 8 && Moves(b)[k] != b
    ensures b == 4 ==> |Moves(b)| == 4
    ensures b in {0, 2, 6, 8} ==> |Moves(b)| == 2
  {
  }

  /** The appends of expandProcedure that collect the neighbours. */
  method Adjacent(b: nat) returns (adjacent: seq<int>)
    ensures adjacent == Moves(b)
  {
    adjacent := [];
    if b % 3 != 2 {
      adjacent := adjacent + [b + 1];
    }
    if b % 3 != 0 {
      adjacent := adjacent + [b - 1];
    }
    if b > 2 {
      adjacent := adjacent + [b - 3];
    }
    if b < 6 {
      adjacent := adjacent + [b + 3];
    }
  }

  /** The state with cells i and j exchanged. */
  function Swap(s: State, i: nat, j: nat): (r: State)
    requires i < |s| && j < |s|
    ensures |r| == |s| && r[i] == s[j] && r[j] == s[i]
    ensures forall k :: 0 <= k < |s| && k != i && k != j ==> r[k] == s[k]
  {
    s[i := s[j]][j := s[i]]
  }

  /** A swap is a permutation of the cells. */
  lemma SwapPermutes(s: State, i: nat, j: nat)
    requires i < |s| && j < |s|
    ensures multiset(Swap(s, i, j)) == multiset(s)
  {
    var t := s[i := s[j]];
    assert multiset(t) == multiset(s) - multiset{s[i]} + multiset{s[j]};
    assert multiset(t[j := s[i]]) == multiset(t) - multiset{t[j]} + multiset{s[i]};
  }

  /** The successors expandProcedure builds from the moves tried: a copy swapped for each on-board move. */
  function Successors(s: State, b: nat, moves: seq<int>): Result<seq<State>>
    decreases |moves|
  {
    if moves == [] then Ok([])
    else
      var rest :- Successors(s, b, moves[..|moves| - 1]);
      var p := moves[|moves| - 1];
      if 0 <= p <= 8 then
        if b < |s| && p < |s| then Ok(rest + [Swap(s, b, p)]) else Err(IndexOutOfBounds)
      else Ok(rest)
  }

  /** expandProcedure(state), as a specification. */
  function Expanded(s: State): Result<seq<State>> {
    Successors(s, BlankPos(s), Moves(BlankPos(s)))
  }

  /** expandProcedure(state): copies the state for each neighbour and swaps the blank into it. */
  method Expand(state: State) returns (r: Result<seq<State>>)
    ensures r == Expanded(state)
  {
    var b := FindBlank(state);
    var adjacent := Adjacent(b);
    var successors: seq<State> := [];
    for k := 0 to |adjacent|
      invariant Successors(state, b, adjacent[..k]) == Ok(successors)
    {
      assert adjacent[..k + 1][..k] == adjacent[..k];
      var pos := adjacent[k];
      if 0 <= pos <= 8 {
        if b >= |state| || pos >= |state| {
          SuccessorsAbort(state, b, adjacent, k + 1);
          return Err(IndexOutOfBounds);
        }
        var succ := CopySwap(state, b, pos);
        successors := successors + [succ];
      }
    }
    assert adjacent[..|adjacent|] == adjacent;
    r := Ok(successors);
  }

  /** succ = list(state) followed by the exchange of cells b and pos in succ. */
  method CopySwap(state: State, b: nat, pos: nat) returns (succ: State)
    requires b < |state| && pos < |state|
    ensures succ == Swap(state, b, pos)
  {
    var cells := new Tile[|state|](i requires 0 <= i < |state| => state[i]);
    var temp := cells[b];
    cells[b] := cells[pos];
    cells[pos] := temp;
    succ := cells[..];
  }

  /** A failure on a prefix of the moves is the failure of all of them. */
  lemma {:induction false} SuccessorsAbort(s: State, b: nat, moves: seq<int>, n: nat)
    requires n <= |moves| && Successors(s, b, moves[..n]).Err?
    ensures Successors(s, b, moves) == Successors(s, b, moves[..n])
    decreases |moves| - n
  {
    if n < |moves| {
      assert moves[..n + 1][..n] == moves[..n];
      SuccessorsAbort(s, b, moves, n + 1);
    } else {
      assert moves[..n] == moves;
    }
  }

  /** With on-board moves and a cell at b, there is one successor per move: the state swapped at b and that move. */
  lemma {:induction false} SuccessorsShape(s: State, b: nat, moves: seq<int>)
    requires b < |s| && forall k :: 0 <= k < |moves| ==> 0 <= moves[k] < |s| && moves[k] <= 8
    ensures Successors(s, b, moves).Ok?
    ensures |Successors(s, b, moves).value| == |moves|
    ensures forall k :: 0 <= k < |moves| ==> Successors(s, b, moves).value[k] == Swap(s, b, moves[k])
    decreases |moves|
  {
    if moves != [] {
      SuccessorsShape(s, b, moves[..|moves| - 1]);
    }
  }

  /**
   * On a nine-cell board the expansion never fails and gives two to four
   * successors, each the board with the blank exchanged for one neighbour
   * and so a permutation of its cells.
   */
  lemma ExpandOnBoard(s: State)
    requires |s| == 9
    ensures Expanded(s).Ok?
    ensures 2 <= |Expanded(s).value| <= 4 && |Expanded(s).value| == |Moves(BlankPos(s))|
    ensures BlankPos(s) < 9 && forall k :: 0 <= k < |Moves(BlankPos(s))| ==> 0 <= Moves(BlankPos(s))[k] < 9
    ensures forall k :: 0 <= k < |Expanded(s).value| ==>
      && Expanded(s).value[k] == Swap(s, BlankPos(s), Moves(BlankPos(s))[k])
      && multiset(Expanded(s).value[k]) == multiset(s)
  {
    var b := BlankPos(s);
    assert b < 9;
    MovesOnBoard(b);
    SuccessorsShape(s, b, Moves(b));
    forall k | 0 <= k < |Expanded(s).value|
      ensures multiset(Expanded(s).value[k]) == multiset(s)
    {
      SwapPermutes(s, b, Moves(b)[k]);
    }
  }

  /** When the board has a blank, every successor holds it at the neighbour it moved to. */
  lemma BlankMoves(s: State, k: nat)
    requires |s| == 9 && Blank in s && k < |Moves(BlankPos(s))|
    ensures Expanded(s).Ok? && |Expanded(s).value| == |Moves(BlankPos(s))|
    ensures BlankPos(s) < 9 && 0 <= Moves(BlankPos(s))[k] < 9 && |Expanded(s).value[k]| == 9
    ensures var p := Moves(BlankPos(s))[k];
            Expanded(s).value[k][p] == Blank && Expanded(s).value[k][BlankPos(s)] == s[p]
  {
    var b := BlankPos(s);
    ExpandOnBoard(s);
    var i :| 0 <= i < |s| && s[i] == Blank;
    if b != i && b < i {
      BlankIsLast(s, |s|, i);
    }
    assert s[b] == Blank;
  }

  // ----- uninformedSearch -----

  /** How uninformedSearch ends: what it prints, and the path it hands to outputProcedure. */
  datatype Search =
    | NoSolution
    | LimitReached
    | FoundFirst(state: State)                // the first state of the queue is the goal
    | Found(runs: nat, path: seq<State>)      // the goal was visited as the runs-th node

  /** No state occurs twice. */
  ghost predicate Distinct(v: seq<State>) {
    forall i, j :: 0 <= i < j < |v| ==> v[i] != v[j]
  }

  /** Each state of the path after the first is a successor (an expandProcedure result) of the one before it. */
  ghost predicate Legal(p: seq<State>) {
    forall i :: 0 <= i < |p| - 1 ==> Expanded(p[i]).Ok? && p[i + 1] in Expanded(p[i]).value
  }

  /** p is a legal path from start to s. */
  ghost predicate PathTo(start: State, p: seq<State>, s: State) {
    p != [] && p[0] == start && p[|p| - 1] == s && Legal(p)
  }

  /** Each queued state is reached along the legal path queued with it, which starts at the initial state. */
  ghost predicate Aligned(start: State, q: seq<State>, paths: seq<seq<State>>) {
    |paths| == |q| && forall k :: 0 <= k < |q| ==> PathTo(start, paths[k], q[k])
  }

  /** Every state of queue has been visited or is still queued. */
  ghost predicate Reached(queue: seq<State>, seen: seq<State>, q: seq<State>) {
    forall s :: s in queue ==> s in seen || s in q
  }

  /** Every state of done was expanded, and each of its successors is in known or still queued. */
  ghost predicate ExpandedWithin(done: seq<State>, known: seq<State>, q: seq<State>) {
    forall v :: v in done ==> Expanded(v).Ok? && forall s :: s in Expanded(v).value ==> s in known || s in q
  }

  /**
   * uninformedSearch(queue, goal, limit, numRuns): breadth first from the
   * queue; a state is expanded only when first visited, and each such visit
   * uses up one unit of the limit.
   */
  method UninformedSearch(queue: seq<State>, goal: State, limit: int, numRuns: nat)
    returns (r: Result<Search>, ghost visited: seq<State>)
    requires limit >= 0
    ensures Distinct(visited) && |visited| <= limit
    ensures queue == [] ==> r == Ok(NoSolution)
    ensures queue != [] && queue[0] == goal ==> r == Ok(FoundFirst(queue[0]))
    ensures queue != [] && queue[0] != goal && limit == 0 ==> r == Ok(LimitReached)
    ensures r == Ok(LimitReached) ==> limit == 0 || |visited| == limit
    ensures r.Ok? && r.value.Found? ==>
      && r.value.runs == numRuns + |visited|
      && visited != [] && visited[|visited| - 1] == goal
      && goal !in visited[..|visited| - 1]
    ensures |queue| == 1 && r.Ok? && r.value.Found? ==> PathTo(queue[0], r.value.path, goal)
    ensures r == Ok(NoSolution) && queue != [] ==>
      && (forall s :: s in queue ==> s in visited)
      && (forall v :: v in visited ==> Expanded(v).Ok? && forall s :: s in Expanded(v).value ==> s in visited)
    ensures r.Err? ==>
      (|queue| > 1 && r.error == IndexOutOfBounds) || (visited != [] && Expanded(visited[|visited| - 1]) == Err(r.error))
  {
    visited := [];
    if queue == [] {
      return Ok(NoSolution), visited;
    }
    if TestProcedure(queue[0], goal) {
      return Ok(FoundFirst(queue[0])), visited;
    }
    if limit == 0 {
      return Ok(LimitReached), visited;
    }
    var paths: seq<seq<State>> := [queue];
    var q := queue;
    var lim, runs := limit, numRuns;
    var seen: seq<State> := [];
    while |q| > 0
      invariant Distinct(seen) && goal !in seen
      invariant lim == limit - |seen| && lim > 0
      invariant runs == numRuns + |seen|
      invariant |queue| == 1 ==> Aligned(queue[0], q, paths)
      invariant |queue| == 1 || |q| > |paths|
      invariant Reached(queue, seen, q) && ExpandedWithin(seen, seen, q)
      decreases lim, |q|
    {
      var n := q[0];
      if paths == [] {
        return Err(IndexOutOfBounds), seen;
      }
      var tempPath := paths[0];
      if |queue| == 1 {
        AlignedPop(queue[0], q, paths);
      }
      ghost var qBefore := q;
      q := q[1..];
      paths := paths[1..];
      PopKeepsReached(queue, seen, qBefore, n);
      if n !in seen {
        ghost var before := seen;
        seen := seen + [n];
        lim := lim - 1;
        runs := runs + 1;
        if TestProcedure(n, goal) {
          assert seen[..|seen| - 1] == before;
          return Ok(Found(runs, tempPath)), seen;
        }
        if lim == 0 {
          return Ok(LimitReached), seen;
        }
        var successors := Expand(n);
        if successors.Err? {
          return Err(successors.error), seen;
        }
        ghost var q0, paths0 := q, paths;
        paths := Extend(paths, tempPath, successors.value);
        q := q + successors.value;
        ExpandKeepsWithin(queue, before, q0, n, successors.value);
        if |queue| == 1 {
          AlignedExtend(queue[0], q0, paths0, tempPath, n, successors.value, paths);
        }
      }
    }
    r, visited := Ok(NoSolution), seen;
  }

  /** Popping n off the queue: whatever only the queue held is now n, about to be visited. */
  lemma PopKeepsReached(queue: seq<State>, seen: seq<State>, q: seq<State>, n: State)
    requires q != [] && q[0] == n
    requires Reached(queue, seen, q) && ExpandedWithin(seen, seen, q)
    ensures n !in seen ==> Reached(queue, seen + [n], q[1..]) && ExpandedWithin(seen, seen + [n], q[1..])
    ensures n in seen ==> Reached(queue, seen, q[1..]) && ExpandedWithin(seen, seen, q[1..])
  {
    assert forall s :: s in q ==> s == n || s in q[1..] by {
      assert q == [n] + q[1..];
    }
  }

  /** Expanding the newly visited n and queuing its successors keeps every visited state expanded within. */
  lemma ExpandKeepsWithin(queue: seq<State>, before: seq<State>, q: seq<State>, n: State, successors: seq<State>)
    requires Reached(queue, before + [n], q) && ExpandedWithin(before, before + [n], q)
    requires Expanded(n) == Ok(successors)
    ensures Reached(queue, before + [n], q + successors) && ExpandedWithin(before + [n], before + [n], q + successors)
  {
  }

  /** Taking the front of both queues keeps them aligned, and the front path leads to the front state. */
  lemma AlignedPop(start: State, q: seq<State>, paths: seq<seq<State>>)
    requires Aligned(start, q, paths) && q != []
    ensures Aligned(start, q[1..], paths[1..])
    ensures PathTo(start, paths[0], q[0])
  {
    forall k | 0 <= k < |q| - 1
      ensures PathTo(start, paths[1..][k], q[1..][k])
    {
      assert paths[1..][k] == paths[k + 1] && q[1..][k] == q[k + 1];
    }
  }

  /** Queuing each successor with the path to it extended by that successor keeps the queues aligned. */
  lemma AlignedExtend(start: State, q: seq<State>, paths: seq<seq<State>>, tempPath: seq<State>, n: State,
                      successors: seq<State>, extended: seq<seq<State>>)
    requires Aligned(start, q, paths)
    requires PathTo(start, tempPath, n)
    requires Expanded(n) == Ok(successors)
    requires |extended| == |paths| + |successors| && extended[..|paths|] == paths
    requires forall k :: 0 <= k < |successors| ==> extended[|paths| + k] == tempPath + [successors[k]]
    ensures Aligned(start, q + successors, extended)
  {
    forall k | 0 <= k < |q| + |successors|
      ensures PathTo(start, extended[k], (q + successors)[k])
    {
      if k < |q| {
        assert extended[k] == extended[..|paths|][k];
      } else {
        assert extended[k] == tempPath + [successors[k - |q|]];
        LegalSnoc(tempPath, n, successors, successors[k - |q|]);
      }
    }
  }

  /** A legal path ending at n stays legal when one of n's successors is appended. */
  lemma LegalSnoc(path: seq<State>, n: State, successors: seq<State>, next: State)
    requires path != [] && path[|path| - 1] == n && Legal(path)
    requires Expanded(n) == Ok(successors) && next in successors
    ensures Legal(path + [next])
  {
    var p := path + [next];
    forall i | 0 <= i < |p| - 1
      ensures Expanded(p[i]).Ok? && p[i + 1] in Expanded(p[i]).value
    {
      if i < |path| - 1 {
        assert p[i] == path[i] && p[i + 1] == path[i + 1];
      } else {
        assert p[i] == n && p[i + 1] == next;
      }
    }
  }

  /** The path-queue appends of uninformedSearch: tempPath extended by each successor in turn. */
  method Extend(paths: seq<seq<State>>, tempPath: seq<State>, successors: seq<State>) returns (r: seq<seq<State>>)
    ensures |r| == |paths| + |successors| && r[..|paths|] == paths
    ensures forall k :: 0 <= k < |successors| ==> r[|paths| + k] == tempPath + [successors[k]]
  {
    r := paths;
    for k := 0 to |successors|
      invariant |r| == |paths| + k && r[..|paths|] == paths
      invariant forall j :: 0 <= j < k ==> r[|paths| + j] == tempPath + [successors[j]]
    {
      r := r + [tempPath + [successors[k]]];
    }
  }

  // ----- the exact-match test of testCaseBasedSearch -----

  /** An entry of the case base: an initial state, a goal state and the paths found between them. */
  datatype Case = Case(initial: State, goal: State, paths: seq<seq<State>>)

  /** Both similarity indexes of the entry equal 9. */
  ghost predicate Exact(initial: State, goal: State, c: Case)
    requires |initial| >= |c.initial| && |goal| >= |c.goal|
  {
    MatchCount(initial, c.initial, |c.initial|) == 9 && MatchCount(goal, c.goal, |c.goal|) == 9
  }

  /** Every entry can be compared with the input without running off the input's end. */
  ghost predicate Comparable(initial: State, goal: State, base: seq<Case>) {
    forall i :: 0 <= i < |base| ==> |initial| >= |base[i].initial| && |goal| >= |base[i].goal|
  }

  /**
   * The first two loops of testCaseBasedSearch: every entry's two similarity
   * indexes are computed, then the first entry where both are 9 is the
   * exact match.
   */
  method FindExactMatch(initial: State, goal: State, base: seq<Case>) returns (r: Result<Option<nat>>)
    ensures r.Ok? <==> Comparable(initial, goal, base)
    ensures r.Ok? && r.value.Some? ==>
      && r.value.value < |base| && Exact(initial, goal, base[r.value.value])
      && forall j :: 0 <= j < r.value.value ==> !Exact(initial, goal, base[j])
    ensures r.Ok? && r.value.None? ==> forall j :: 0 <= j < |base| ==> !Exact(initial, goal, base[j])
  {
    var indexes: seq<(nat, nat)> := [];
    for i := 0 to |base|
      invariant |indexes| == i && Comparable(initial, goal, base[..i])
      invariant forall j :: 0 <= j < i ==>
        indexes[j] == (MatchCount(initial, base[j].initial, |base[j].initial|), MatchCount(goal, base[j].goal, |base[j].goal|))
    {
      var si := CheckSimilarity(initial, base[i].initial);
      var sg := CheckSimilarity(goal, base[i].goal);
      if si.Err? || sg.Err? {
        assert !(|initial| >= |base[i].initial| && |goal| >= |base[i].goal|);
        return Err(IndexOutOfBounds);
      }
      assert base[..i + 1][i] == base[i];
      indexes := indexes + [(si.value, sg.value)];
    }
    assert base[..|base|] == base;
    for i := 0 to |indexes|
      invariant forall j :: 0 <= j < i ==> !Exact(initial, goal, base[j])
    {
      if indexes[i].0 == 9 && indexes[i].1 == 9 {
        return Ok(Some(i));
      }
    }
    r := Ok(None);
  }

  /** On nine-cell boards an exact match is the very same pair of states. */
  lemma ExactIsEqual(initial: State, goal: State, c: Case)
    requires |initial| == |goal| == |c.initial| == |c.goal| == 9
    ensures Exact(initial, goal, c) <==> initial == c.initial && goal == c.goal
  {
    MatchCountFull(initial, c.initial, 9);
    MatchCountFull(goal, c.goal, 9);
    assert initial[..9] == initial && c.initial[..9] == c.initial;
    assert goal[..9] == goal && c.goal[..9] == c.goal;
  }
}
