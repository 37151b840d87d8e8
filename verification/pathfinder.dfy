/**
 * The AI snake's breadth-first search over the 4-connected grid.
 *
 * `Search` is the queue-driven search as a function: it pops the front entry,
 * returns its path when the entry's cell is the goal, and otherwise appends one
 * entry for every neighbour (in the order Up, Down, Left, Right) that is not yet
 * visited, lies inside the grid, is not an obstacle and is not a cell of the
 * searching snake. `BfsPath` runs the same search with a mutable queue and
 * visited set. The lemmas show that a returned path is a shortest walk, the
 * first of the shortest walks in Up, Down, Left, Right order, and that no path
 * is returned only when the goal cannot be reached at all.
 */
module Pathfinder {
  import opened Wrappers
  import opened Grid

  /** What the search may step on: the grid, the obstacles and the searching snake's body. */
  datatype Maze = Maze(g: Dims, obstacles: set<Cell>, body: seq<Cell>)
  {
    /** A cell the search may enter. */
    predicate Open(c: Cell)
    {
      g.Contains(c) && c !in obstacles && c !in body
    }
  }

  /** `b` is one unit step away from `a`. */
  predicate Adjacent(a: Cell, b: Cell)
  {
    || (a.y == b.y && (b.x == a.x + 1 || b.x == a.x - 1))
    || (a.x == b.x && (b.y == a.y + 1 || b.y == a.y - 1))
  }

  /** The direction leading from `a` to an adjacent `b`. */
  function DirectionTo(a: Cell, b: Cell): (d: Direction)
    ensures Adjacent(a, b) ==> Step(a, d) == b
  {
    if b == Step(a, Up) then Up
    else if b == Step(a, Down) then Down
    else if b == Step(a, Left) then Left
    else Right
  }

  lemma {:induction false} StepIsAdjacent(c: Cell, d: Direction)
    ensures Adjacent(c, Step(c, d))
    ensures DirectionTo(c, Step(c, d)) == d
  {
  }

  /** The position of a direction in the expansion order. */
  function Rank(d: Direction): (k: nat)
    ensures k < |Directions| && Directions[k] == d
  {
    match d
    case Up => 0
    case Down => 1
    case Left => 2
    case Right => 3
  }

  /** A walk the search could take: unit steps, every cell after the first open. */
  predicate IsWalk(m: Maze, p: seq<Cell>)
  {
    && |p| > 0
    && (forall i :: 0 <= i < |p| - 1 ==> Adjacent(p[i], p[i + 1]))
    && (forall i :: 1 <= i < |p| ==> m.Open(p[i]))
  }

  /** `p` is a walk from `a` to `b`. */
  predicate Leads(m: Maze, p: seq<Cell>, a: Cell, b: Cell)
  {
    IsWalk(m, p) && p[0] == a && p[|p| - 1] == b
  }

  ghost predicate Reachable(m: Maze, a: Cell, b: Cell)
  {
    exists p :: Leads(m, p, a, b)
  }

  /**
   * The directions taken by a walk, read as a base-4 numeral with
   * Up = 0, Down = 1, Left = 2, Right = 3. Among walks of one length,
   * a smaller key is a walk that comes first in the expansion order.
   */
  function Key(p: seq<Cell>): nat
  {
    if |p| <= 1 then 0
    else 4 * Key(p[..|p| - 1]) + Rank(DirectionTo(p[|p| - 2], p[|p| - 1]))
  }

  /** Breadth-first order on walks: shorter first, then by key. */
  predicate Precedes(p: seq<Cell>, q: seq<Cell>)
  {
    |p| < |q| || (|p| == |q| && Key(p) <= Key(q))
  }

  /** `p` leads from `a` to `b` and precedes every other such walk. */
  ghost predicate Best(m: Maze, p: seq<Cell>, a: Cell, b: Cell)
  {
    Leads(m, p, a, b) && forall q :: Leads(m, q, a, b) ==> Precedes(p, q)
  }

  /** A queue entry: a discovered cell and the path that discovered it. */
  datatype Entry = Entry(cell: Cell, path: seq<Cell>)

  /**
   * The inner loop over the directions: one new entry for each neighbour of
   * `from` that is open and not yet visited, in the order of `dirs`.
   */
  function Expand(m: Maze, from: Entry, dirs: seq<Direction>, visited: set<Cell>)
    : (res: (seq<Entry>, set<Cell>))
    ensures visited <= res.1
    ensures res.1 - visited <= AllCells(m.g)
    ensures res.0 == [] <==> res.1 == visited
  {
    if dirs == [] then ([], visited)
    else
      var next := Step(from.cell, dirs[0]);
      if next !in visited && m.Open(next) then
        var rest := Expand(m, from, dirs[1..], visited + {next});
        ([Entry(next, from.path + [next])] + rest.0, rest.1)
      else
        Expand(m, from, dirs[1..], visited)
  }

  /** The search loop, from a given queue and visited set. */
  function Search(m: Maze, goal: Cell, queue: seq<Entry>, visited: set<Cell>): Option<seq<Cell>>
    decreases AllCells(m.g) - visited, |queue|
  {
    if queue == [] then None
    else if queue[0].cell == goal then Some(queue[0].path)
    else
      var step := Expand(m, queue[0], Directions, visited);
      var found := step.0;
      var seen := step.1;
      assert found != [] ==> AllCells(m.g) - seen < AllCells(m.g) - visited by {
        if found != [] {
          var c :| c in seen && c !in visited;
          assert c in AllCells(m.g) - visited;
        }
      }
      Search(m, goal, queue[1..] + found, seen)
  }

  /** The search from `start`: one entry holding the one-cell path, `start` visited. */
  function FindPath(m: Maze, start: Cell, goal: Cell): (r: Option<seq<Cell>>)
    ensures r.Some? <==> Reachable(m, start, goal)
    ensures r.Some? ==> Best(m, r.value, start, goal) && Distinct(r.value)
  {
    InitialInv(m, start, goal);
    SearchCorrect(m, start, goal, [Entry(start, [start])], {start});
    Search(m, goal, [Entry(start, [start])], {start})
  }

  /**
   * The search with a mutable queue and visited set: pop the front entry,
   * return its path at the goal, otherwise append the open, unvisited
   * neighbours in the order Up, Down, Left, Right.
   */
  method BfsPath(m: Maze, start: Cell, goal: Cell) returns (r: Option<seq<Cell>>)
    ensures r == FindPath(m, start, goal)
    ensures r.Some? <==> Reachable(m, start, goal)
    ensures r.Some? ==> Best(m, r.value, start, goal) && Distinct(r.value)
  {
    var queue := [Entry(start, [start])];
    var visited := {start};
    while queue != []
      invariant Search(m, goal, queue, visited) == FindPath(m, start, goal)
      decreases AllCells(m.g) - visited, |queue|
    {
      ghost var queue0, visited0 := queue, visited;
      var front := queue[0];
      queue := queue[1..];
      if front.cell == goal {
        return Some(front.path);
      }
      ghost var rest := queue;
      for k := 0 to |Directions|
        invariant
          var later := Expand(m, front, Directions[k..], visited);
          var all := Expand(m, front, Directions, visited0);
          rest + all.0 == queue + later.0 && all.1 == later.1
      {
        assert Directions[k..][1..] == Directions[k + 1..];
        var next := Step(front.cell, Directions[k]);
        if next !in visited && m.Open(next) {
          visited := visited + {next};
          queue := queue + [Entry(next, front.path + [next])];
        }
      }
      assert Directions[|Directions|..] == [];
      assert queue == queue0[1..] + Expand(m, front, Directions, visited0).0;
      assert Search(m, goal, queue0, visited0) == Search(m, goal, queue, visited);
      if visited != visited0 {
        var c :| c in visited && c !in visited0;
        assert c in AllCells(m.g) - visited0;
      }
    }
    return None;
  }

  /**
   * Tie-breaking: on an empty 3 by 3 grid, from the corner (0, 0) to the centre
   * there are two shortest walks; the one going Down first is returned, since
   * Down is expanded before Right.
   */
  lemma {:induction false} DownBeforeRight()
    ensures
      var m := Maze(Dims(3, 3), {}, [Cell(0, 0)]);
      FindPath(m, Cell(0, 0), Cell(1, 1)) == Some([Cell(0, 0), Cell(0, 1), Cell(1, 1)])
  {
    var m := Maze(Dims(3, 3), {}, [Cell(0, 0)]);
    var w := [Cell(0, 0), Cell(0, 1), Cell(1, 1)];
    assert Leads(m, w, Cell(0, 0), Cell(1, 1));
    var r := FindPath(m, Cell(0, 0), Cell(1, 1));
    assert r.Some?;
    var p := r.value;
    assert Precedes(p, w);
    assert |p| != 1 && |p| != 2 by {
      if |p| == 2 {
        assert Adjacent(p[0], p[1]);
      }
    }
    assert |p| == 3;
    KeyOfThree(w);
    KeyOfThree(p);
    assert Adjacent(p[0], p[1]) && Adjacent(p[1], p[2]);
    assert p[1] == Cell(1, 0) || p[1] == Cell(0, 1);
    if p[1] == Cell(1, 0) {
      assert false;
    }
    assert p == w;
  }

  lemma {:induction false} KeyOfThree(p: seq<Cell>)
    requires |p| == 3
    ensures Key(p) == 4 * Rank(DirectionTo(p[0], p[1])) + Rank(DirectionTo(p[1], p[2]))
  {
    var q := p[..2];
    assert q[..1] == [p[0]];
    assert Key(q) == Rank(DirectionTo(p[0], p[1]));
    assert p[..|p| - 1] == q;
  }

  // ---------------------------------------------------------------------------
  // Correctness of the search: the breadth-first invariant and its preservation
  // ---------------------------------------------------------------------------

  /** The cells currently waiting in the queue. */
  function Cells(q: seq<Entry>): set<Cell>
  {
    set i | 0 <= i < |q| :: q[i].cell
  }

  /** Every open neighbour of `c` has been visited. */
  predicate Closed(m: Maze, visited: set<Cell>, c: Cell)
  {
    forall d :: m.Open(Step(c, d)) ==> Step(c, d) in visited
  }

  /** An entry whose path is the breadth-first best walk to its cell, with every cell visited. */
  ghost predicate EntryOk(m: Maze, start: Cell, visited: set<Cell>, e: Entry)
  {
    && Best(m, e.path, start, e.cell)
    && Distinct(e.path)
    && (forall k :: 0 <= k < |e.path| ==> e.path[k] in visited)
  }

  /** Queue path lengths span two consecutive levels at most, each level in key order. */
  predicate Layered(q: seq<Entry>)
  {
    forall i, j :: 0 <= i < j < |q| ==>
      && |q[i].path| <= |q[j].path| <= |q[i].path| + 1
      && (|q[i].path| == |q[j].path| ==> Key(q[i].path) < Key(q[j].path))
  }

  /**
   * Entries one level below the front come before every child the front entry
   * may still produce past its first `bound` directions.
   */
  predicate Pending(q: seq<Entry>, bound: int)
  {
    q != [] ==>
      forall j :: 0 <= j < |q| && |q[j].path| == |q[0].path| + 1 ==>
        Key(q[j].path) < 4 * Key(q[0].path) + bound
  }

  /** The breadth-first invariant of the search loop. */
  ghost predicate Inv(m: Maze, start: Cell, goal: Cell, q: seq<Entry>, visited: set<Cell>, bound: int)
  {
    && start in visited
    && (forall i :: 0 <= i < |q| ==> EntryOk(m, start, visited, q[i]))
    && Layered(q)
    && Pending(q, bound)
    && (forall c :: c in visited ==> c in Cells(q) || Closed(m, visited, c))
    && (goal in visited ==> goal in Cells(q))
  }

  lemma {:induction false} InitialInv(m: Maze, start: Cell, goal: Cell)
    ensures Inv(m, start, goal, [Entry(start, [start])], {start}, 0)
  {
    var e := Entry(start, [start]);
    assert Cells([e]) == {start};
    forall p | Leads(m, p, start, start)
      ensures Precedes(e.path, p)
    {
    }
  }

  /** A walk that starts inside `visited` and ends outside it crosses the border somewhere. */
  lemma {:induction false} ExitIndex(visited: set<Cell>, p: seq<Cell>) returns (i: nat)
    requires |p| > 0 && p[0] in visited && p[|p| - 1] !in visited
    ensures 1 <= i < |p| && p[i - 1] in visited && p[i] !in visited
    decreases |p|
  {
    if p[1] !in visited {
      i := 1;
    } else {
      var j := ExitIndex(visited, p[1..]);
      i := j + 1;
    }
  }

  lemma {:induction false} WalkPrefix(m: Maze, p: seq<Cell>, n: int)
    requires IsWalk(m, p) && 1 <= n <= |p|
    ensures IsWalk(m, p[..n])
  {
  }

  lemma {:induction false} WalkExtend(m: Maze, p: seq<Cell>, c: Cell)
    requires IsWalk(m, p) && Adjacent(p[|p| - 1], c) && m.Open(c)
    ensures IsWalk(m, p + [c])
    ensures Key(p + [c]) == 4 * Key(p) + Rank(DirectionTo(p[|p| - 1], c))
  {
    assert (p + [c])[..|p|] == p;
  }

  /** A cell not yet visited lies at least one level beyond the front of the queue. */
  lemma {:induction false} FrontierBound(m: Maze, start: Cell, goal: Cell, q: seq<Entry>, visited: set<Cell>, bound: int,
                      u: Cell, p: seq<Cell>)
    requires Inv(m, start, goal, q, visited, bound) && q != []
    requires u !in visited && Leads(m, p, start, u)
    ensures |p| >= |q[0].path| + 1
  {
    var i := ExitIndex(visited, p);
    var a, b := p[i - 1], p[i];
    assert Step(a, DirectionTo(a, b)) == b;
    assert !Closed(m, visited, a);
    assert a in Cells(q);
    var j :| 0 <= j < |q| && q[j].cell == a;
    WalkPrefix(m, p, i);
    assert Leads(m, p[..i], start, a);
    assert EntryOk(m, start, visited, q[j]);
    assert Precedes(q[j].path, p[..i]);
    if j > 0 {
      assert |q[0].path| <= |q[j].path|;
    }
  }

  /** The entry appended for a new neighbour is the best walk to it. */
  lemma {:induction false} NewEntryBest(m: Maze, start: Cell, goal: Cell, q: seq<Entry>, visited: set<Cell>, i: int)
    requires Inv(m, start, goal, q, visited, i) && q != [] && 0 <= i < 4
    requires Step(q[0].cell, Directions[i]) !in visited && m.Open(Step(q[0].cell, Directions[i]))
    ensures Best(m, q[0].path + [Step(q[0].cell, Directions[i])], start, Step(q[0].cell, Directions[i]))
  {
    var n := Step(q[0].cell, Directions[i]);
    assert EntryOk(m, start, visited, q[0]);
    StepIsAdjacent(q[0].cell, Directions[i]);
    WalkExtend(m, q[0].path, n);
    forall p | Leads(m, p, start, n)
      ensures Precedes(q[0].path + [n], p)
    {
      NewEntryPrecedes(m, start, goal, q, visited, i, p);
    }
  }

  /** Any walk to a newly found neighbour comes no earlier than the front's path extended by one step. */
  lemma {:induction false} NewEntryPrecedes(m: Maze, start: Cell, goal: Cell, q: seq<Entry>, visited: set<Cell>,
                                            i: int, p: seq<Cell>)
    requires Inv(m, start, goal, q, visited, i) && q != [] && 0 <= i < 4
    requires Step(q[0].cell, Directions[i]) !in visited && m.Open(Step(q[0].cell, Directions[i]))
    requires Leads(m, p, start, Step(q[0].cell, Directions[i]))
    ensures Precedes(q[0].path + [Step(q[0].cell, Directions[i])], p)
  {
    var c := q[0].cell;
    var n := Step(c, Directions[i]);
    var len := |q[0].path|;
    FrontierBound(m, start, goal, q, visited, i, n, p);
    if |p| == len + 1 {
      assert IsWalk(m, q[0].path) by {
        assert EntryOk(m, start, visited, q[0]);
      }
      StepIsAdjacent(c, Directions[i]);
      WalkExtend(m, q[0].path, n);
      var a := p[len - 1];
      var prefix := p[..len];
      WalkPrefix(m, p, len);
      assert p == prefix + [n];
      WalkExtend(m, prefix, n);
      LevelPredecessor(m, start, goal, q, visited, i, prefix, a, n);
    }
  }

  /**
   * A walk on the front's level that ends next to an unvisited open cell comes
   * no earlier than the front's path, and ties only when it ends at the front.
   */
  lemma {:induction false} LevelPredecessor(m: Maze, start: Cell, goal: Cell, q: seq<Entry>, visited: set<Cell>,
                                            bound: int, prefix: seq<Cell>, a: Cell, n: Cell)
    requires Inv(m, start, goal, q, visited, bound) && q != []
    requires Leads(m, prefix, start, a) && |prefix| == |q[0].path|
    requires n !in visited && m.Open(n) && Adjacent(a, n)
    ensures Key(q[0].path) <= Key(prefix)
    ensures Key(q[0].path) == Key(prefix) ==> a == q[0].cell
  {
    if a !in visited {
      FrontierBound(m, start, goal, q, visited, bound, a, prefix);
      assert false;
    }
    var j := QueuedNeighbour(m, start, goal, q, visited, bound, a, n);
    assert Precedes(q[j].path, prefix) by {
      assert EntryOk(m, start, visited, q[j]);
    }
    if j > 0 {
      assert |q[0].path| <= |q[j].path|;
      assert Key(q[0].path) < Key(q[j].path);
    }
  }

  /** A visited cell with an open, unvisited neighbour is still waiting in the queue. */
  lemma {:induction false} QueuedNeighbour(m: Maze, start: Cell, goal: Cell, q: seq<Entry>, visited: set<Cell>,
                                           bound: int, a: Cell, n: Cell) returns (j: nat)
    requires Inv(m, start, goal, q, visited, bound)
    requires a in visited && n !in visited && m.Open(n) && Adjacent(a, n)
    ensures j < |q| && q[j].cell == a
  {
    assert Step(a, DirectionTo(a, n)) == n;
    assert !Closed(m, visited, a);
    assert a in Cells(q);
    j :| 0 <= j < |q| && q[j].cell == a;
  }

  /** Appending the entry for an open, unvisited neighbour keeps the invariant. */
  lemma {:induction false} AppendKeepsInv(m: Maze, start: Cell, goal: Cell, q: seq<Entry>, visited: set<Cell>, i: int)
    requires Inv(m, start, goal, q, visited, i) && q != [] && 0 <= i < 4
    requires Step(q[0].cell, Directions[i]) !in visited && m.Open(Step(q[0].cell, Directions[i]))
    ensures
      var n := Step(q[0].cell, Directions[i]);
      Inv(m, start, goal, q + [Entry(n, q[0].path + [n])], visited + {n}, i + 1)
  {
    var n := Step(q[0].cell, Directions[i]);
    var e := Entry(n, q[0].path + [n]);
    NewEntryOk(m, start, goal, q, visited, i);
    AppendEntries(m, start, q, visited, e);
    AppendOrder(q, i, e);
    AppendCells(q, e);
    AppendClosure(m, q, visited, e);
  }

  /** The entry for a newly found neighbour of the front entry is sound. */
  lemma {:induction false} NewEntryOk(m: Maze, start: Cell, goal: Cell, q: seq<Entry>, visited: set<Cell>, i: int)
    requires Inv(m, start, goal, q, visited, i) && q != [] && 0 <= i < 4
    requires Step(q[0].cell, Directions[i]) !in visited && m.Open(Step(q[0].cell, Directions[i]))
    ensures
      var n := Step(q[0].cell, Directions[i]);
      && EntryOk(m, start, visited + {n}, Entry(n, q[0].path + [n]))
      && |q[0].path + [n]| == |q[0].path| + 1
      && Key(q[0].path + [n]) == 4 * Key(q[0].path) + i
  {
    var c := q[0].cell;
    var n := Step(c, Directions[i]);
    assert EntryOk(m, start, visited, q[0]);
    NewEntryBest(m, start, goal, q, visited, i);
    StepIsAdjacent(c, Directions[i]);
    WalkExtend(m, q[0].path, n);
  }

  lemma {:induction false} AppendEntries(m: Maze, start: Cell, q: seq<Entry>, visited: set<Cell>, e: Entry)
    requires forall k :: 0 <= k < |q| ==> EntryOk(m, start, visited, q[k])
    requires EntryOk(m, start, visited + {e.cell}, e)
    ensures forall k :: 0 <= k < |q + [e]| ==> EntryOk(m, start, visited + {e.cell}, (q + [e])[k])
  {
    forall k | 0 <= k < |q + [e]|
      ensures EntryOk(m, start, visited + {e.cell}, (q + [e])[k])
    {
      if k < |q| {
        assert (q + [e])[k] == q[k];
        assert EntryOk(m, start, visited, q[k]);
      }
    }
  }

  lemma {:induction false} AppendOrder(q: seq<Entry>, i: int, e: Entry)
    requires Layered(q) && Pending(q, i) && q != []
    requires |e.path| == |q[0].path| + 1 && Key(e.path) == 4 * Key(q[0].path) + i
    ensures Layered(q + [e]) && Pending(q + [e], i + 1)
  {
    var q' := q + [e];
    forall a, b | 0 <= a < b < |q'|
      ensures |q'[a].path| <= |q'[b].path| <= |q'[a].path| + 1
      ensures |q'[a].path| == |q'[b].path| ==> Key(q'[a].path) < Key(q'[b].path)
    {
      if b == |q| {
        if a > 0 {
          assert |q[0].path| <= |q[a].path| <= |q[0].path| + 1;
        }
      }
    }
  }

  lemma {:induction false} AppendCells(q: seq<Entry>, e: Entry)
    ensures Cells(q + [e]) == Cells(q) + {e.cell}
  {
    var q' := q + [e];
    assert q'[|q|].cell == e.cell;
    forall x | x in Cells(q)
      ensures x in Cells(q')
    {
      var k :| 0 <= k < |q| && q[k].cell == x;
      assert q'[k].cell == x;
    }
  }

  lemma {:induction false} AppendClosure(m: Maze, q: seq<Entry>, visited: set<Cell>, e: Entry)
    requires forall c :: c in visited ==> c in Cells(q) || Closed(m, visited, c)
    requires Cells(q + [e]) == Cells(q) + {e.cell}
    ensures forall c :: c in visited + {e.cell} ==> c in Cells(q + [e]) || Closed(m, visited + {e.cell}, c)
  {
    forall x | x in visited + {e.cell}
      ensures x in Cells(q + [e]) || Closed(m, visited + {e.cell}, x)
    {
      if x != e.cell && x !in Cells(q) {
        assert Closed(m, visited, x);
      }
    }
  }

  /** Expanding the front entry keeps the invariant and visits all its open neighbours. */
  lemma {:induction false} ExpandKeepsInv(m: Maze, start: Cell, goal: Cell, q: seq<Entry>,
                                          visited: set<Cell>, i: int)
    requires Inv(m, start, goal, q, visited, i) && q != [] && 0 <= i <= 4
    ensures
      var r := Expand(m, q[0], Directions[i..], visited);
      && Inv(m, start, goal, q + r.0, r.1, 4)
      && forall k :: i <= k < 4 && m.Open(Step(q[0].cell, Directions[k])) ==> Step(q[0].cell, Directions[k]) in r.1
    decreases 4 - i, 1
  {
    if i == 4 {
      assert Directions[i..] == [];
      assert q + [] == q;
    } else {
      var n := Step(q[0].cell, Directions[i]);
      if n !in visited && m.Open(n) {
        ExpandFound(m, start, goal, q, visited, i);
      } else {
        ExpandSkipped(m, start, goal, q, visited, i);
      }
    }
  }

  lemma {:induction false} ExpandFound(m: Maze, start: Cell, goal: Cell, q: seq<Entry>,
                                       visited: set<Cell>, i: int)
    requires Inv(m, start, goal, q, visited, i) && q != [] && 0 <= i < 4
    requires Step(q[0].cell, Directions[i]) !in visited && m.Open(Step(q[0].cell, Directions[i]))
    ensures
      var r := Expand(m, q[0], Directions[i..], visited);
      && Inv(m, start, goal, q + r.0, r.1, 4)
      && forall k :: i <= k < 4 && m.Open(Step(q[0].cell, Directions[k])) ==> Step(q[0].cell, Directions[k]) in r.1
    decreases 4 - i, 0
  {
    var n := Step(q[0].cell, Directions[i]);
    var e := Entry(n, q[0].path + [n]);
    AppendKeepsInv(m, start, goal, q, visited, i);
    assert (q + [e])[0] == q[0];
    ExpandKeepsInv(m, start, goal, q + [e], visited + {n}, i + 1);
    ExpandFoundStep(m, q, visited, i);
  }

  /** Unrolling one direction of `Expand` that finds a new cell. */
  lemma {:induction false} ExpandFoundStep(m: Maze, q: seq<Entry>, visited: set<Cell>, i: int)
    requires q != [] && 0 <= i < 4
    requires Step(q[0].cell, Directions[i]) !in visited && m.Open(Step(q[0].cell, Directions[i]))
    ensures
      var n := Step(q[0].cell, Directions[i]);
      var rest := Expand(m, q[0], Directions[i + 1..], visited + {n});
      var r := Expand(m, q[0], Directions[i..], visited);
      && q + r.0 == (q + [Entry(n, q[0].path + [n])]) + rest.0
      && r.1 == rest.1
      && n in rest.1
  {
    var n := Step(q[0].cell, Directions[i]);
    var e := Entry(n, q[0].path + [n]);
    assert Directions[i..][0] == Directions[i];
    assert Directions[i..][1..] == Directions[i + 1..];
    var rest := Expand(m, q[0], Directions[i + 1..], visited + {n});
    var r := Expand(m, q[0], Directions[i..], visited);
    assert r == ([e] + rest.0, rest.1);
    assert q + r.0 == (q + [e]) + rest.0;
  }

  lemma {:induction false} ExpandSkipped(m: Maze, start: Cell, goal: Cell, q: seq<Entry>,
                                         visited: set<Cell>, i: int)
    requires Inv(m, start, goal, q, visited, i) && q != [] && 0 <= i < 4
    requires !(Step(q[0].cell, Directions[i]) !in visited && m.Open(Step(q[0].cell, Directions[i])))
    ensures
      var r := Expand(m, q[0], Directions[i..], visited);
      && Inv(m, start, goal, q + r.0, r.1, 4)
      && forall k :: i <= k < 4 && m.Open(Step(q[0].cell, Directions[k])) ==> Step(q[0].cell, Directions[k]) in r.1
    decreases 4 - i, 0
  {
    assert Directions[i..][0] == Directions[i];
    assert Directions[i..][1..] == Directions[i + 1..];
    assert Pending(q, i + 1);
    ExpandKeepsInv(m, start, goal, q, visited, i + 1);
  }

  /** Popping a front entry whose neighbours are all visited keeps the invariant. */
  lemma {:induction false} PopKeepsInv(m: Maze, start: Cell, goal: Cell, q: seq<Entry>, visited: set<Cell>)
    requires Inv(m, start, goal, q, visited, 4) && q != []
    requires q[0].cell != goal && Closed(m, visited, q[0].cell)
    ensures Inv(m, start, goal, q[1..], visited, 0)
  {
    var q' := q[1..];
    forall k | 0 <= k < |q'|
      ensures EntryOk(m, start, visited, q'[k])
    {
      assert q'[k] == q[k + 1];
    }
    if q' != [] {
      forall j | 0 <= j < |q'| && |q'[j].path| == |q'[0].path| + 1
        ensures Key(q'[j].path) < 4 * Key(q'[0].path)
      {
        assert q'[j] == q[j + 1] && q'[0] == q[1];
      }
    }
    forall x | x in visited
      ensures x in Cells(q') || Closed(m, visited, x)
    {
      if x in Cells(q) && x != q[0].cell {
        var j :| 0 <= j < |q| && q[j].cell == x;
        assert q'[j - 1].cell == x;
      }
    }
    if goal in visited {
      var j :| 0 <= j < |q| && q[j].cell == goal;
      assert q'[j - 1].cell == goal;
    }
  }

  /** When every visited cell is closed, no walk from `start` leaves the visited set. */
  lemma {:induction false} ClosedTrap(m: Maze, visited: set<Cell>, start: Cell, p: seq<Cell>, b: Cell)
    requires start in visited && forall c :: c in visited ==> Closed(m, visited, c)
    requires Leads(m, p, start, b)
    ensures b in visited
    decreases |p|
  {
    if |p| > 1 {
      var a := p[|p| - 2];
      WalkPrefix(m, p, |p| - 1);
      ClosedTrap(m, visited, start, p[..|p| - 1], a);
      assert Step(a, DirectionTo(a, b)) == b;
    }
  }

  lemma {:induction false} SearchCorrect(m: Maze, start: Cell, goal: Cell, q: seq<Entry>, visited: set<Cell>)
    requires Inv(m, start, goal, q, visited, 0)
    ensures
      var r := Search(m, goal, q, visited);
      && (r.Some? ==> Best(m, r.value, start, goal) && Distinct(r.value))
      && (r.None? ==> !Reachable(m, start, goal))
    decreases AllCells(m.g) - visited, |q|
  {
    if q == [] {
      assert goal !in visited;
      if Reachable(m, start, goal) {
        var p :| Leads(m, p, start, goal);
        ClosedTrap(m, visited, start, p, goal);
      }
    } else if q[0].cell == goal {
      assert EntryOk(m, start, visited, q[0]);
    } else {
      var step := Expand(m, q[0], Directions, visited);
      SearchStep(m, start, goal, q, visited);
      if step.0 != [] {
        var x :| x in step.1 && x !in visited;
        assert x in AllCells(m.g) - visited;
      }
      SearchCorrect(m, start, goal, q[1..] + step.0, step.1);
    }
  }

  /** One turn of the search loop, off the goal, keeps the invariant. */
  lemma {:induction false} SearchStep(m: Maze, start: Cell, goal: Cell, q: seq<Entry>, visited: set<Cell>)
    requires Inv(m, start, goal, q, visited, 0) && q != [] && q[0].cell != goal
    ensures
      var step := Expand(m, q[0], Directions, visited);
      Inv(m, start, goal, q[1..] + step.0, step.1, 0)
  {
    var step := Expand(m, q[0], Directions, visited);
    assert Directions[0..] == Directions;
    ExpandKeepsInv(m, start, goal, q, visited, 0);
    AllDirectionsClosed(m, q[0].cell, step.1);
    PopAppend(q, step.0);
    PopKeepsInv(m, start, goal, q + step.0, step.1);
  }

  lemma {:induction false} AllDirectionsClosed(m: Maze, c: Cell, seen: set<Cell>)
    requires forall k :: 0 <= k < 4 && m.Open(Step(c, Directions[k])) ==> Step(c, Directions[k]) in seen
    ensures Closed(m, seen, c)
  {
    forall d | m.Open(Step(c, d))
      ensures Step(c, d) in seen
    {
      assert Directions[Rank(d)] == d;
    }
  }

  lemma {:induction false} PopAppend(q: seq<Entry>, found: seq<Entry>)
    requires q != []
    ensures (q + found)[0] == q[0] && (q + found)[1..] == q[1..] + found
  {
  }

}
