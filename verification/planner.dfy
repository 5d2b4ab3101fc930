/** `planificar_ruta`: breadth-first search over the 4-neighbour grid that
    avoids obstacles. Both goal-based collectors carry the same copy of it. */
module Planner {
  import opened Grid

  /** What the search consults: the grid size (`es_valido`) and the obstacle
      set (`hay_obstaculo`). */
  datatype Terrain = Terrain(width: int, height: int, obstacles: set<Cell>)

  /** A cell the search may enter. */
  predicate Passable(t: Terrain, c: Cell) {
    InBounds(t.width, t.height, c) && c !in t.obstacles
  }

  /** The cell reached by replaying the moves `p` from `start`. */
  function EndOf(start: Cell, p: seq<Direction>): Cell
    decreases |p|
  {
    if p == [] then start else Step(EndOf(start, p[..|p| - 1]), p[|p| - 1])
  }

  /** Every cell entered while replaying `p` is passable. The start cell itself
      is not checked, exactly as the search never checks it. */
  ghost predicate PathOk(t: Terrain, start: Cell, p: seq<Direction>)
    decreases |p|
  {
    p == [] || (PathOk(t, start, p[..|p| - 1]) && Passable(t, EndOf(start, p)))
  }

  ghost predicate IsPath(t: Terrain, start: Cell, p: seq<Direction>, goal: Cell) {
    PathOk(t, start, p) && EndOf(start, p) == goal
  }

  ghost predicate Reachable(t: Terrain, start: Cell, goal: Cell) {
    exists p :: IsPath(t, start, p, goal)
  }

  /** `p` leads from `start` to `goal` and no obstacle-avoiding path is shorter. */
  ghost predicate Shortest(t: Terrain, start: Cell, p: seq<Direction>, goal: Cell) {
    IsPath(t, start, p, goal) && forall q :: IsPath(t, start, q, goal) ==> |p| <= |q|
  }

  /** A queue element `(x, y, camino)`. */
  datatype Entry = Entry(cell: Cell, path: seq<Direction>)

  ghost function QueueCells(queue: seq<Entry>): set<Cell> {
    set i | 0 <= i < |queue| :: queue[i].cell
  }

  /** Every passable neighbour of `c` has been discovered. */
  ghost predicate Expanded(t: Terrain, visited: set<Cell>, c: Cell) {
    forall d :: Passable(t, Step(c, d)) ==> Step(c, d) in visited
  }

  lemma {:induction false} PrefixOk(t: Terrain, start: Cell, p: seq<Direction>, i: nat)
    requires PathOk(t, start, p)
    requires i <= |p|
    ensures PathOk(t, start, p[..i])
    decreases |p|
  {
    if i < |p| {
      assert p[..|p| - 1][..i] == p[..i];
      PrefixOk(t, start, p[..|p| - 1], i);
    } else {
      assert p[..i] == p;
    }
  }

  /** A path that leaves the discovered region must leave it through a cell
      that is still open (queued or being expanded): every other discovered
      cell has all its passable neighbours discovered. */
  lemma {:induction false} Frontier(t: Terrain, start: Cell, visited: set<Cell>, open: set<Cell>,
                                    q: seq<Direction>)
    requires start in visited
    requires forall c :: c in visited && c !in open ==> Expanded(t, visited, c)
    requires PathOk(t, start, q) && EndOf(start, q) !in visited
    ensures exists i :: 0 <= i < |q| && EndOf(start, q[..i]) in open && PathOk(t, start, q[..i])
    decreases |q|
  {
    var q' := q[..|q| - 1];
    var c' := EndOf(start, q');
    if c' in visited {
      assert Step(c', q[|q| - 1]) == EndOf(start, q);
      assert !Expanded(t, visited, c');
      PrefixOk(t, start, q, |q| - 1);
    } else {
      Frontier(t, start, visited, open, q');
      var i :| 0 <= i < |q'| && EndOf(start, q'[..i]) in open && PathOk(t, start, q'[..i]);
      assert q'[..i] == q[..i];
    }
  }

  /** With nothing left open, the discovered region is closed under passable
      steps, so it holds every reachable cell. */
  lemma {:induction false} ClosedRegion(t: Terrain, start: Cell, visited: set<Cell>, q: seq<Direction>)
    requires start in visited
    requires forall c :: c in visited ==> Expanded(t, visited, c)
    requires PathOk(t, start, q)
    ensures EndOf(start, q) in visited
    decreases |q|
  {
    if q != [] {
      var q' := q[..|q| - 1];
      ClosedRegion(t, start, visited, q');
      assert Step(EndOf(start, q'), q[|q| - 1]) == EndOf(start, q);
    }
  }

  lemma ShrinkingRest(box: set<Cell>, a: set<Cell>, b: set<Cell>)
    requires a < b <= box
    ensures |box - b| < |box - a|
  {
    var n :| n in b && n !in a;
    var small, large := box - b, box - a;
    var rest := large - (small + {n});
    assert large == (small + {n}) + rest;
    assert (small + {n}) * rest == {};
    assert |small + {n}| == |small| + 1;
  }

  lemma QueueCellsPop(queue: seq<Entry>)
    requires queue != []
    ensures QueueCells(queue) == {queue[0].cell} + QueueCells(queue[1..])
  {
    forall c | c in QueueCells(queue) ensures c in {queue[0].cell} + QueueCells(queue[1..]) {
      var i :| 0 <= i < |queue| && queue[i].cell == c;
      if i > 0 { assert queue[1..][i - 1].cell == c; }
    }
    forall c | c in QueueCells(queue[1..]) ensures c in QueueCells(queue) {
      var i :| 0 <= i < |queue[1..]| && queue[1..][i].cell == c;
      assert queue[i + 1].cell == c;
    }
  }

  lemma QueueCellsPush(queue: seq<Entry>, e: Entry)
    ensures QueueCells(queue + [e]) == QueueCells(queue) + {e.cell}
  {
    var q := queue + [e];
    assert q[|queue|].cell == e.cell;
    forall c | c in QueueCells(queue) ensures c in QueueCells(q) {
      var i :| 0 <= i < |queue| && queue[i].cell == c;
      assert q[i].cell == c;
    }
  }

  /** What the search knows about every discovered cell: it is recorded with
      the length of the path that discovered it, queued entries carry real
      paths, and no path to a discovered cell is shorter than its record. */
  ghost predicate Discovered(t: Terrain, start: Cell, queue: seq<Entry>, visited: set<Cell>,
                             dist: map<Cell, nat>, box: set<Cell>)
  {
    && start in visited && visited == dist.Keys && visited <= box
    && (forall i :: 0 <= i < |queue| ==>
          queue[i].cell in visited && dist[queue[i].cell] == |queue[i].path| &&
          IsPath(t, start, queue[i].path, queue[i].cell))
    && (forall c, q :: c in visited && IsPath(t, start, q, c) ==> dist[c] <= |q|)
  }

  /** Queued path lengths are sorted and lie in [lo, hi]. */
  ghost predicate Layered(queue: seq<Entry>, lo: nat, hi: nat) {
    && (forall i, j :: 0 <= i <= j < |queue| ==> |queue[i].path| <= |queue[j].path|)
    && (forall i :: 0 <= i < |queue| ==> lo <= |queue[i].path| <= hi)
  }

  /** A cell discovered while expanding a cell at BFS level `level` has no
      path shorter than `level + 1`: such a path would have to leave the
      discovered region through an open cell, and open cells sit at level
      `level` or deeper. */
  lemma NewCellIsShortest(t: Terrain, start: Cell, visited: set<Cell>, open: set<Cell>,
                          dist: map<Cell, nat>, level: nat, n: Cell)
    requires start in visited && visited == dist.Keys && open <= visited
    requires forall c :: c in visited && c !in open ==> Expanded(t, visited, c)
    requires forall c :: c in open ==> level <= dist[c]
    requires forall c, q :: c in visited && IsPath(t, start, q, c) ==> dist[c] <= |q|
    requires n !in visited
    ensures forall q :: IsPath(t, start, q, n) ==> level + 1 <= |q|
  {
    forall q | IsPath(t, start, q, n) ensures level + 1 <= |q| {
      if |q| <= level {
        Frontier(t, start, visited, open, q);
        var i :| 0 <= i < |q| && EndOf(start, q[..i]) in open && PathOk(t, start, q[..i]);
        var c := EndOf(start, q[..i]);
        assert IsPath(t, start, q[..i], c);
      }
    }
  }

  /** The state of the search while the entry `e` (already dequeued) has its
      neighbours tried. */
  ghost predicate Expanding(t: Terrain, start: Cell, target: Cell, box: set<Cell>, e: Entry,
                            queue: seq<Entry>, visited: set<Cell>, dist: map<Cell, nat>)
  {
    && Discovered(t, start, queue, visited, dist, box)
    && (forall d :: InBounds(t.width, t.height, Step(e.cell, d)) ==> Step(e.cell, d) in box)
    && e.cell in visited && dist[e.cell] == |e.path| && IsPath(t, start, e.path, e.cell)
    && Layered(queue, |e.path|, |e.path| + 1)
    && (forall c :: c in visited && c !in QueueCells(queue) && c != e.cell ==>
          Expanded(t, visited, c))
    && (target in visited ==> target in QueueCells(queue))
  }

  lemma ExpandedGrows(t: Terrain, visited: set<Cell>, visited': set<Cell>, c: Cell)
    requires visited <= visited' && Expanded(t, visited, c)
    ensures Expanded(t, visited', c)
  {}

  /** Enqueueing a newly discovered neighbour `n` of `e.cell` at level
      `|e.path| + 1` keeps what is known about discovered cells. */
  lemma EnqueueDiscovered(t: Terrain, start: Cell, target: Cell, box: set<Cell>, e: Entry,
                          d: Direction, queue: seq<Entry>, visited: set<Cell>, dist: map<Cell, nat>)
    requires Expanding(t, start, target, box, e, queue, visited, dist)
    requires Passable(t, Step(e.cell, d)) && Step(e.cell, d) !in visited
    ensures Discovered(t, start, queue + [Entry(Step(e.cell, d), e.path + [d])],
                       visited + {Step(e.cell, d)}, dist[Step(e.cell, d) := |e.path| + 1], box)
  {
    var n, p := Step(e.cell, d), e.path + [d];
    var queue', visited', dist' := queue + [Entry(n, p)], visited + {n}, dist[n := |p|];
    assert p[..|p| - 1] == e.path;
    assert IsPath(t, start, p, n);
    forall i | 0 <= i < |queue'|
      ensures queue'[i].cell in visited' && dist'[queue'[i].cell] == |queue'[i].path|
      ensures IsPath(t, start, queue'[i].path, queue'[i].cell)
    {
      if i < |queue| {
        assert queue'[i] == queue[i] && queue[i].cell != n;
      }
    }
    EnqueueShortest(t, start, target, box, e, d, queue, visited, dist);
  }

  /** No path to the new neighbour is shorter than the one it is queued with. */
  lemma EnqueueShortest(t: Terrain, start: Cell, target: Cell, box: set<Cell>, e: Entry,
                        d: Direction, queue: seq<Entry>, visited: set<Cell>, dist: map<Cell, nat>)
    requires Expanding(t, start, target, box, e, queue, visited, dist)
    requires Passable(t, Step(e.cell, d)) && Step(e.cell, d) !in visited
    ensures forall c, q :: c in visited + {Step(e.cell, d)} && IsPath(t, start, q, c) ==>
              dist[Step(e.cell, d) := |e.path| + 1][c] <= |q|
  {
    var n := Step(e.cell, d);
    var open := QueueCells(queue) + {e.cell};
    forall c | c in open ensures |e.path| <= dist[c] {
      if c != e.cell {
        var i :| 0 <= i < |queue| && queue[i].cell == c;
      }
    }
    NewCellIsShortest(t, start, visited, open, dist, |e.path|, n);
  }

  /** ... and the rest of the expanding state. */
  lemma EnqueueKeeps(t: Terrain, start: Cell, target: Cell, box: set<Cell>, e: Entry, d: Direction,
                     queue: seq<Entry>, visited: set<Cell>, dist: map<Cell, nat>)
    requires Expanding(t, start, target, box, e, queue, visited, dist)
    requires Passable(t, Step(e.cell, d)) && Step(e.cell, d) !in visited
    ensures Expanding(t, start, target, box, e, queue + [Entry(Step(e.cell, d), e.path + [d])],
                      visited + {Step(e.cell, d)}, dist[Step(e.cell, d) := |e.path| + 1])
  {
    var n, p := Step(e.cell, d), e.path + [d];
    var queue', visited' := queue + [Entry(n, p)], visited + {n};
    EnqueueDiscovered(t, start, target, box, e, d, queue, visited, dist);
    QueueCellsPush(queue, Entry(n, p));
    LayeredPush(queue, Entry(n, p), |e.path|, |e.path| + 1);
    forall c | c in visited' && c !in QueueCells(queue') && c != e.cell
      ensures Expanded(t, visited', c)
    {
      ExpandedGrows(t, visited, visited', c);
    }
  }

  /** Appending an entry at the deepest level keeps the queue layered. */
  lemma LayeredPush(queue: seq<Entry>, x: Entry, lo: nat, hi: nat)
    requires Layered(queue, lo, hi) && |x.path| == hi && lo <= hi
    ensures Layered(queue + [x], lo, hi)
  {
    var q := queue + [x];
    forall i, j | 0 <= i <= j < |q| ensures |q[i].path| <= |q[j].path| {
      if j == |queue| {
        assert q[j] == x;
        if i < |queue| { assert q[i] == queue[i]; }
      } else {
        assert q[i] == queue[i] && q[j] == queue[j];
      }
    }
  }

  /** One iteration of the neighbour loop: try the move `d` from the entry
      `e` being expanded, and enqueue the neighbour if it is in bounds,
      unvisited and not an obstacle. */
  method Visit(t: Terrain, start: Cell, target: Cell, ghost box: set<Cell>, e: Entry, d: Direction,
               queue: seq<Entry>, visited: set<Cell>, ghost dist: map<Cell, nat>)
    returns (queue': seq<Entry>, visited': set<Cell>, ghost dist': map<Cell, nat>)
    requires Expanding(t, start, target, box, e, queue, visited, dist)
    ensures Expanding(t, start, target, box, e, queue', visited', dist')
    ensures visited <= visited'
    ensures visited' == visited ==> queue' == queue
    ensures Passable(t, Step(e.cell, d)) ==> Step(e.cell, d) in visited'
  {
    var n := Step(e.cell, d);
    if InBounds(t.width, t.height, n) && n !in visited && n !in t.obstacles {
      EnqueueKeeps(t, start, target, box, e, d, queue, visited, dist);
      queue' := queue + [Entry(n, e.path + [d])];
      visited' := visited + {n};
      dist' := dist[n := |e.path| + 1];
    } else {
      queue', visited', dist' := queue, visited, dist;
    }
  }

  lemma AllDirections(d: Direction)
    ensures d in {Up, Down, Left, Right}
  {}

  /** The body of the `for dx, dy, direccion in ...` loop, run over its four
      fixed moves in order. Afterwards `e.cell` is fully expanded. */
  method ExpandCell(t: Terrain, start: Cell, target: Cell, ghost box: set<Cell>, e: Entry,
                    queue: seq<Entry>, visited: set<Cell>, ghost dist: map<Cell, nat>)
    returns (queue': seq<Entry>, visited': set<Cell>, ghost dist': map<Cell, nat>)
    requires Expanding(t, start, target, box, e, queue, visited, dist)
    ensures Expanding(t, start, target, box, e, queue', visited', dist')
    ensures visited <= visited'
    ensures visited' == visited ==> queue' == queue
    ensures Expanded(t, visited', e.cell)
  {
    queue', visited', dist' := queue, visited, dist;
    var k := 0;
    while k < 4
      invariant 0 <= k <= 4
      invariant Expanding(t, start, target, box, e, queue', visited', dist')
      invariant visited <= visited'
      invariant visited' == visited ==> queue' == queue
      invariant Tried(t, e.cell, visited', k)
    {
      ghost var before := visited';
      queue', visited', dist' := Visit(t, start, target, box, e, Directions[k], queue', visited', dist');
      TriedGrows(t, e.cell, before, visited', k);
      k := k + 1;
    }
    AllFourTried(t, e.cell, visited');
  }

  /** The first `k` listed moves from `c` have been tried. */
  ghost predicate Tried(t: Terrain, c: Cell, visited: set<Cell>, k: nat) {
    forall j :: 0 <= j < k && j < 4 && Passable(t, Step(c, Directions[j])) ==>
      Step(c, Directions[j]) in visited
  }

  lemma TriedGrows(t: Terrain, c: Cell, visited: set<Cell>, visited': set<Cell>, k: nat)
    requires k < 4 && Tried(t, c, visited, k) && visited <= visited'
    requires Passable(t, Step(c, Directions[k])) ==> Step(c, Directions[k]) in visited'
    ensures Tried(t, c, visited', k + 1)
  {}

  /** Trying the four listed moves tries every move. */
  lemma AllFourTried(t: Terrain, c: Cell, visited: set<Cell>)
    requires Tried(t, c, visited, 4)
    ensures Expanded(t, visited, c)
  {
    forall d | Passable(t, Step(c, d)) ensures Step(c, d) in visited {
      AllDirections(d);
      assert d == Directions[0] || d == Directions[1] || d == Directions[2] || d == Directions[3];
    }
  }

  /** The invariant of the search loop. */
  ghost predicate Searching(t: Terrain, start: Cell, target: Cell, box: set<Cell>,
                            queue: seq<Entry>, visited: set<Cell>, dist: map<Cell, nat>)
  {
    && Discovered(t, start, queue, visited, dist, box)
    && (queue != [] ==> Layered(queue, |queue[0].path|, |queue[0].path| + 1))
    && (forall c :: c in visited && c !in QueueCells(queue) ==> Expanded(t, visited, c))
    && (target in visited ==> target in QueueCells(queue))
  }

  /** Just after dequeuing `e`, the search is in the expanding state. */
  lemma DequeueKeeps(t: Terrain, start: Cell, target: Cell, box: set<Cell>,
                     queue: seq<Entry>, visited: set<Cell>, dist: map<Cell, nat>)
    requires Searching(t, start, target, box, queue, visited, dist)
    requires box == AllCells(t.width, t.height) + {start}
    requires queue != [] && queue[0].cell != target
    ensures Expanding(t, start, target, box, queue[0], queue[1..], visited, dist)
  {
    QueueCellsPop(queue);
    assert Discovered(t, start, queue[1..], visited, dist, box) by {
      assert forall i :: 0 <= i < |queue[1..]| ==> queue[1..][i] == queue[i + 1];
    }
  }

  /** After expanding `e`, the outer loop's invariant holds again. */
  lemma ExpandedKeeps(t: Terrain, start: Cell, target: Cell, box: set<Cell>, e: Entry,
                      queue: seq<Entry>, visited: set<Cell>, dist: map<Cell, nat>)
    requires Expanding(t, start, target, box, e, queue, visited, dist)
    requires Expanded(t, visited, e.cell)
    ensures Searching(t, start, target, box, queue, visited, dist)
  {}

  /** One round of the search loop: dequeue the head entry, which is not the
      target, and try its neighbours. The search keeps its invariant and
      gets closer to exhausting the grid. */
  method SearchStep(t: Terrain, start: Cell, target: Cell, ghost box: set<Cell>,
                    queue: seq<Entry>, visited: set<Cell>, ghost dist: map<Cell, nat>)
    returns (queue': seq<Entry>, visited': set<Cell>, ghost dist': map<Cell, nat>)
    requires Searching(t, start, target, box, queue, visited, dist)
    requires box == AllCells(t.width, t.height) + {start}
    requires queue != [] && queue[0].cell != target
    ensures Searching(t, start, target, box, queue', visited', dist')
    ensures visited <= visited' <= box
    ensures |box - visited'| < |box - visited| || (visited' == visited && |queue'| < |queue|)
  {
    var e := queue[0];
    DequeueKeeps(t, start, target, box, queue, visited, dist);
    queue', visited', dist' := ExpandCell(t, start, target, box, e, queue[1..], visited, dist);
    ExpandedKeeps(t, start, target, box, e, queue', visited', dist');
    if visited' != visited {
      ShrinkingRest(box, visited, visited');
    }
  }

  /** `planificar_ruta(objetivo)` from `start`: the queue holds `(cell, path)`
      entries, cells are marked visited when enqueued, and the neighbours of
      each dequeued cell are tried up, down, left, right. */
  method Plan(t: Terrain, start: Cell, goal: Option<Cell>) returns (path: seq<Direction>)
    ensures goal.None? ==> path == []
    ensures goal == Some(start) ==> path == []
    ensures goal.Some? && Reachable(t, start, goal.value) ==> Shortest(t, start, path, goal.value)
    ensures goal.Some? && !Reachable(t, start, goal.value) ==> path == []
  {
    if goal.None? {
      return [];
    }
    var target := goal.value;
    ghost var box := AllCells(t.width, t.height) + {start};
    var queue := [Entry(start, [])];
    var visited := {start};
    ghost var dist: map<Cell, nat> := map[start := 0];
    assert QueueCells(queue) == {start} by { assert queue[0].cell == start; }
    while queue != []
      invariant Searching(t, start, target, box, queue, visited, dist)
      decreases |box - visited|, |queue|
    {
      if queue[0].cell == target {
        HeadIsShortest(t, start, queue, visited, dist, box);
        return queue[0].path;
      }
      queue, visited, dist := SearchStep(t, start, target, box, queue, visited, dist);
    }
    NothingLeft(t, start, target, box, visited, dist);
    return [];
  }

  /** The entry at the head of the queue carries a shortest path. */
  lemma HeadIsShortest(t: Terrain, start: Cell, queue: seq<Entry>, visited: set<Cell>,
                       dist: map<Cell, nat>, box: set<Cell>)
    requires Discovered(t, start, queue, visited, dist, box) && queue != []
    ensures Shortest(t, start, queue[0].path, queue[0].cell)
  {}

  /** A search that has expanded everything it discovered without meeting
      the target proves the target unreachable. */
  lemma NothingLeft(t: Terrain, start: Cell, target: Cell, box: set<Cell>, visited: set<Cell>,
                    dist: map<Cell, nat>)
    requires Searching(t, start, target, box, [], visited, dist)
    ensures !Reachable(t, start, target)
  {
    assert target !in visited;
    forall q | IsPath(t, start, q, target) ensures false {
      ClosedRegion(t, start, visited, q);
    }
  }

  // ---------------------------------------------------------------------
  // Open grids
  // ---------------------------------------------------------------------

  /** No path is shorter than the Manhattan distance it covers. */
  lemma {:induction false} PathCoversDistance(start: Cell, p: seq<Direction>)
    ensures Dist(start, EndOf(start, p)) <= |p|
    decreases |p|
  {
    if p != [] {
      PathCoversDistance(start, p[..|p| - 1]);
    }
  }

  /** An L-shaped route from `start` to `goal`: the x leg, then the y leg. */
  function Walk(start: Cell, goal: Cell): (p: seq<Direction>)
    ensures |p| == Dist(start, goal)
    ensures EndOf(start, p) == goal
    decreases Dist(start, goal)
  {
    if goal == start then []
    else
      var (prev, d) :=
        if goal.y > start.y then (Cell(goal.x, goal.y - 1), Down)
        else if goal.y < start.y then (Cell(goal.x, goal.y + 1), Up)
        else if goal.x > start.x then (Cell(goal.x - 1, goal.y), Right)
        else (Cell(goal.x + 1, goal.y), Left);
      var w := Walk(start, prev);
      assert (w + [d])[..|w|] == w;
      w + [d]
  }

  /** On a grid without obstacles the L-shaped route stays on the grid. */
  lemma {:induction false} WalkOk(t: Terrain, start: Cell, goal: Cell)
    requires t.obstacles == {}
    requires InBounds(t.width, t.height, start) && InBounds(t.width, t.height, goal)
    ensures IsPath(t, start, Walk(start, goal), goal)
    decreases Dist(start, goal)
  {
    if goal != start {
      var p := Walk(start, goal);
      var w := p[..|p| - 1];
      var prev := EndOf(start, w);
      assert w == Walk(start, prev) && |w| == Dist(start, prev);
      WalkOk(t, start, prev);
    }
  }

  /** Without obstacles, every in-bounds goal is reachable and a shortest
      path is exactly as long as the Manhattan distance. */
  lemma OpenGridShortest(t: Terrain, start: Cell, goal: Cell, p: seq<Direction>)
    requires t.obstacles == {}
    requires InBounds(t.width, t.height, start) && InBounds(t.width, t.height, goal)
    ensures Reachable(t, start, goal)
    ensures Shortest(t, start, p, goal) <==> IsPath(t, start, p, goal) && |p| == Dist(start, goal)
  {
    WalkOk(t, start, goal);
    forall q | IsPath(t, start, q, goal) ensures Dist(start, goal) <= |q| {
      PathCoversDistance(start, q);
    }
  }
}
