/** Cells, directions and the small geometric vocabulary shared by every
    agent script: Manhattan distance, bounds, clamped moves, and the one
    canonical iteration order used wherever the scripts iterate a Python
    set. (A dict lists its keys in insertion order; the collectors' food
    dict carries that order as `Fields.Field.order`.) */
module Grid {

  /** The scripts use Python's `None` for "no goal". */
  datatype Option<T> = None | Some(value: T)

  /** A grid coordinate `(x, y)`; `y` grows downwards. */
  datatype Cell = Cell(x: int, y: int)

  /** The four moves, in the order the scripts list them:
      arriba, abajo, izquierda, derecha. */
  datatype Direction = Up | Down | Left | Right

  const Directions: seq<Direction> := [Up, Down, Left, Right]

  /** What a cleaning agent decides: clean here, move, or stay put. */
  datatype Action = Clean | Go(dir: Direction) | Stay

  function Abs(n: int): nat { if n < 0 then -n else n }

  /** Manhattan distance |dx| + |dy|. */
  function Dist(a: Cell, b: Cell): nat { Abs(a.x - b.x) + Abs(a.y - b.y) }

  /** `es_valido`: the cell lies in [0, width) x [0, height). */
  predicate InBounds(width: int, height: int, c: Cell) {
    0 <= c.x < width && 0 <= c.y < height
  }

  /** The neighbour one unit away in direction `d`. */
  function Step(c: Cell, d: Direction): (n: Cell)
    ensures Dist(c, n) == 1
  {
    match d
    case Up => Cell(c.x, c.y - 1)
    case Down => Cell(c.x, c.y + 1)
    case Left => Cell(c.x - 1, c.y)
    case Right => Cell(c.x + 1, c.y)
  }

  /** Every in-bounds cell. */
  function AllCells(width: int, height: int): (s: set<Cell>)
    ensures forall c :: c in s <==> InBounds(width, height, c)
  {
    set x: int, y: int | 0 <= x < width && 0 <= y < height :: Cell(x, y)
  }

  /** `mover_agente` (and the collector's `actuar`): each direction is guarded
      by a comparison against the border; anything that is not a move, and a
      move across the border, leaves the cell unchanged. */
  function ClampedMove(width: int, height: int, c: Cell, a: Action): (r: Cell)
    ensures InBounds(width, height, c) ==> InBounds(width, height, r)
    ensures Dist(c, r) <= 1
    ensures !a.Go? ==> r == c
    ensures a.Go? ==> r == c || r == Step(c, a.dir)
    ensures a.Go? && InBounds(width, height, c) ==>
              (r == Step(c, a.dir) <==> InBounds(width, height, Step(c, a.dir)))
  {
    match a
    case Go(Up) => if c.y > 0 then Cell(c.x, c.y - 1) else c
    case Go(Down) => if c.y < height - 1 then Cell(c.x, c.y + 1) else c
    case Go(Left) => if c.x > 0 then Cell(c.x - 1, c.y) else c
    case Go(Right) => if c.x < width - 1 then Cell(c.x + 1, c.y) else c
    case _ => c
  }

  // ---------------------------------------------------------------------
  // Canonical order. Python iterates a set in an order that the language
  // does not fix; the model uses the lexicographic order on (x, y)
  // instead, which is also the order numpy's `argmax` scans a
  // `(width, height)` array in. Dict key order is insertion order and is
  // carried by `Fields.Field.order`.
  // ---------------------------------------------------------------------

  predicate CellLe(a: Cell, b: Cell) { a.x < b.x || (a.x == b.x && a.y <= b.y) }

  predicate CellLt(a: Cell, b: Cell) { CellLe(a, b) && a != b }

  ghost predicate IsLeast(m: Cell, s: set<Cell>) {
    m in s && forall c :: c in s ==> CellLe(m, c)
  }

  lemma {:induction false} LeastExists(s: set<Cell>)
    requires s != {}
    ensures exists m :: IsLeast(m, s)
    decreases |s|
  {
    var e :| e in s;
    if s == {e} {
      assert IsLeast(e, s);
    } else {
      LeastExists(s - {e});
      var m' :| IsLeast(m', s - {e});
      if CellLe(e, m') {
        forall c | c in s ensures CellLe(e, c) {
          if c != e { assert CellLe(m', c); }
        }
        assert IsLeast(e, s);
      } else {
        assert IsLeast(m', s);
      }
    }
  }

  /** The lexicographically smallest cell of a non-empty set. */
  function LexMin(s: set<Cell>): (m: Cell)
    requires s != {}
    ensures m in s
    ensures forall c :: c in s ==> CellLe(m, c)
  {
    LeastExists(s);
    var m :| m in s && forall c :: c in s ==> CellLe(m, c); m
  }

  ghost predicate StrictlySorted(xs: seq<Cell>) {
    forall i, j :: 0 <= i < j < |xs| ==> CellLt(xs[i], xs[j])
  }

  /** The cells of `s` listed once each, in canonical order: the model of
      iterating a Python set of coordinates. */
  function Enumerate(s: set<Cell>): (xs: seq<Cell>)
    ensures forall c :: c in xs <==> c in s
    ensures |xs| == |s|
    ensures StrictlySorted(xs)
    decreases |s|
  {
    if s == {} then []
    else
      var m := LexMin(s);
      [m] + Enumerate(s - {m})
  }

  /** Python's `min(cands, key=Manhattan distance to origin)`: the FIRST
      element of minimal distance. */
  function NearestIn(cands: seq<Cell>, origin: Cell): (r: Cell)
    requires cands != []
    ensures r in cands
    ensures forall c :: c in cands ==> Dist(origin, r) <= Dist(origin, c)
    ensures exists i :: 0 <= i < |cands| && cands[i] == r &&
              forall j :: 0 <= j < i ==> Dist(origin, r) < Dist(origin, cands[j])
  {
    if |cands| == 1 then cands[0]
    else
      var rest := NearestIn(cands[1..], origin);
      NearestInCons(cands, origin, rest);
      if Dist(origin, cands[0]) <= Dist(origin, rest) then cands[0] else rest
  }

  /** The step of `NearestIn`: the head wins ties against the tail's winner. */
  lemma NearestInCons(cands: seq<Cell>, origin: Cell, rest: Cell)
    requires |cands| > 1 && rest in cands[1..]
    requires forall c :: c in cands[1..] ==> Dist(origin, rest) <= Dist(origin, c)
    requires exists i :: 0 <= i < |cands| - 1 && cands[1..][i] == rest &&
               forall j :: 0 <= j < i ==> Dist(origin, rest) < Dist(origin, cands[1..][j])
    ensures forall c :: c in cands ==> c == cands[0] || c in cands[1..]
    ensures Dist(origin, rest) < Dist(origin, cands[0]) ==>
              exists i :: 0 <= i < |cands| && cands[i] == rest &&
                forall j :: 0 <= j < i ==> Dist(origin, rest) < Dist(origin, cands[j])
  {
    var i :| 0 <= i < |cands| - 1 && cands[1..][i] == rest &&
             forall j :: 0 <= j < i ==> Dist(origin, rest) < Dist(origin, cands[1..][j]);
    if Dist(origin, rest) < Dist(origin, cands[0]) {
      assert cands[i + 1] == rest;
      forall j | 0 <= j < i + 1 ensures Dist(origin, rest) < Dist(origin, cands[j]) {
        if j > 0 { assert cands[j] == cands[1..][j - 1]; }
      }
    }
  }

  /** `min` over a set of candidates listed in canonical order: a cell of
      minimal distance, ties going to the lexicographically smallest. */
  function Nearest(s: set<Cell>, origin: Cell): (r: Cell)
    requires s != {}
    ensures r in s
    ensures forall c :: c in s ==> Dist(origin, r) <= Dist(origin, c)
    ensures forall c :: c in s && Dist(origin, c) == Dist(origin, r) ==> CellLe(r, c)
  {
    var r := NearestIn(Enumerate(s), origin);
    FirstNearestIsLexLeast(Enumerate(s), origin, r);
    r
  }

  lemma FirstNearestIsLexLeast(xs: seq<Cell>, origin: Cell, r: Cell)
    requires StrictlySorted(xs)
    requires exists i :: 0 <= i < |xs| && xs[i] == r &&
               forall j :: 0 <= j < i ==> Dist(origin, r) < Dist(origin, xs[j])
    ensures forall c :: c in xs && Dist(origin, c) == Dist(origin, r) ==> CellLe(r, c)
  {
    var i :| 0 <= i < |xs| && xs[i] == r &&
             forall j :: 0 <= j < i ==> Dist(origin, r) < Dist(origin, xs[j]);
    forall c | c in xs && Dist(origin, c) == Dist(origin, r) ensures CellLe(r, c) {
      var k :| 0 <= k < |xs| && xs[k] == c;
      if k > i { assert CellLt(xs[i], xs[k]); }
    }
  }

  /** A listing that holds each cell at most once. */
  ghost predicate NoRepeats(xs: seq<Cell>) {
    forall i, j :: 0 <= i < j < |xs| ==> xs[i] != xs[j]
  }

  /** Putting a new cell in front of a listing without repeats. */
  lemma ConsNoRepeats(x: Cell, xs: seq<Cell>)
    requires x !in xs && NoRepeats(xs)
    ensures NoRepeats([x] + xs)
  {
    var ys := [x] + xs;
    forall i, j | 0 <= i < j < |ys| ensures ys[i] != ys[j] {
      assert ys[j] == xs[j - 1];
      if i > 0 {
        assert ys[i] == xs[i - 1];
      }
    }
  }

  /** The tail of a listing without repeats has none, and lacks the head. */
  lemma TailNoRepeats(xs: seq<Cell>)
    requires xs != [] && NoRepeats(xs)
    ensures xs[0] !in xs[1..] && NoRepeats(xs[1..])
  {
    forall i, j | 0 <= i < j < |xs| - 1 ensures xs[1..][i] != xs[1..][j] {
      assert xs[1..][i] == xs[i + 1] && xs[1..][j] == xs[j + 1];
    }
  }

  /** Filtering a listing by distance: the cells of `cells`, in order, that
      lie within Manhattan distance `radius` of `origin`. */
  function WithinRadius(cells: seq<Cell>, origin: Cell, radius: int): (r: seq<Cell>)
    ensures forall c :: c in r <==> c in cells && Dist(origin, c) <= radius
    ensures StrictlySorted(cells) ==> StrictlySorted(r)
    ensures NoRepeats(cells) ==> NoRepeats(r)
    ensures |r| <= |cells|
  {
    if cells == [] then []
    else
      var rest := WithinRadius(cells[1..], origin, radius);
      assert forall c :: c in cells <==> c == cells[0] || c in cells[1..];
      assert StrictlySorted(cells) ==> forall c :: c in rest ==> CellLt(cells[0], c) by {
        if StrictlySorted(cells) {
          forall c | c in rest ensures CellLt(cells[0], c) {
            var k :| 0 <= k < |cells[1..]| && cells[1..][k] == c;
            assert cells[k + 1] == c;
          }
        }
      }
      assert NoRepeats(cells) ==> NoRepeats([cells[0]] + rest) by {
        if NoRepeats(cells) {
          TailNoRepeats(cells);
          ConsNoRepeats(cells[0], rest);
        }
      }
      if Dist(origin, cells[0]) <= radius then [cells[0]] + rest else rest
  }

  /** Filtering keeps the listing's order: filtering two listings in turn is
      filtering their concatenation. With the one-cell case, which the
      membership and length clauses fix, this determines the result. */
  lemma {:induction false} WithinRadiusAppend(a: seq<Cell>, b: seq<Cell>, origin: Cell, radius: int)
    ensures WithinRadius(a + b, origin, radius) == WithinRadius(a, origin, radius) + WithinRadius(b, origin, radius)
    decreases |a|
  {
    if a != [] {
      assert (a + b)[1..] == a[1..] + b;
      WithinRadiusAppend(a[1..], b, origin, radius);
    } else {
      assert a + b == b;
    }
  }

  // ---------------------------------------------------------------------
  // Totals of valued cells (food values, dirt values).
  // ---------------------------------------------------------------------

  /** The sum of the values of a map, added up in canonical key order. */
  function Sum(m: map<Cell, nat>): nat
    decreases |m.Keys|
  {
    if m.Keys == {} then 0
    else
      var c := LexMin(m.Keys);
      assert (m - {c}).Keys == m.Keys - {c};
      m[c] + Sum(m - {c})
  }

  /** The sum does not depend on the order: removing any key takes exactly
      its value off the total. */
  lemma {:induction false} SumRemove(m: map<Cell, nat>, c: Cell)
    requires c in m
    ensures Sum(m) == m[c] + Sum(m - {c})
    decreases |m.Keys|
  {
    var c0 := LexMin(m.Keys);
    assert (m - {c0}).Keys == m.Keys - {c0};
    if c != c0 {
      var rest := m - {c};
      assert rest.Keys == m.Keys - {c};
      assert |rest.Keys| < |m.Keys|;
      SumRemove(m - {c0}, c);
      assert LexMin(rest.Keys) == c0 by {
        var l := LexMin(rest.Keys);
        assert CellLe(l, c0) && CellLe(c0, l);
      }
      assert (rest - {c0}).Keys == rest.Keys - {c0};
      assert rest - {c0} == (m - {c0}) - {c};
    }
  }
}
