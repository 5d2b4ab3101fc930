/** `EntornoRecoleccion`, the world of the two goal-based collectors: a grid
    with valued food and obstacles. */
module Fields {
  import opened Grid
  import opened Planner

  /** `comida` maps a cell to its value and `obstaculos` is a set of cells.
      A Python dict also remembers the order its keys were inserted in,
      which is the order `comida.keys()` lists them: `order`. */
  datatype Field = Field(width: int, height: int, food: map<Cell, nat>, order: seq<Cell>,
                         obstacles: set<Cell>)

  /** `order` lists the food cells, each once, as a dict's keys are. */
  ghost predicate Listed(f: Field) {
    (forall c :: c in f.order <==> c in f.food) && NoRepeats(f.order)
  }

  /** What the planner consults of a field. */
  function TerrainOf(f: Field): (t: Terrain)
    ensures forall c :: Passable(t, c) <==> InBounds(f.width, f.height, c) && c !in f.obstacles
  {
    Terrain(f.width, f.height, f.obstacles)
  }

  /** The map's generation guarantees of the heat-map collector: food and
      obstacles on the grid, on different cells, food worth 1 to 3, and the
      key order of a dict. */
  ghost predicate Generated(f: Field) {
    && (forall c :: c in f.food ==> InBounds(f.width, f.height, c) && 1 <= f.food[c] <= 3)
    && (forall c :: c in f.obstacles ==> InBounds(f.width, f.height, c) && c !in f.food)
    && Listed(f)
  }

  /** `obtener_comida_visible(x, y, radio)`: the food cells within Manhattan
      distance `radius`, in the dict's key order. The field is not changed. */
  function Visible(f: Field, origin: Cell, radius: int): (r: seq<Cell>)
    ensures forall c :: c in r <==> c in f.order && Dist(origin, c) <= radius
    ensures Listed(f) ==> NoRepeats(r) && forall c :: c in r <==> c in f.food && Dist(origin, c) <= radius
  {
    WithinRadius(f.order, origin, radius)
  }

  /** Deleting a key from a dict: the listing without `c`, other keys kept
      in their order. */
  function Drop(xs: seq<Cell>, c: Cell): (r: seq<Cell>)
    ensures forall x :: x in r <==> x in xs && x != c
    ensures NoRepeats(xs) ==> NoRepeats(r)
    ensures c !in xs ==> r == xs
  {
    if xs == [] then []
    else
      var rest := Drop(xs[1..], c);
      assert forall x :: x in xs <==> x == xs[0] || x in xs[1..];
      assert NoRepeats(xs) ==> NoRepeats([xs[0]] + rest) by {
        if NoRepeats(xs) {
          TailNoRepeats(xs);
          ConsNoRepeats(xs[0], rest);
        }
      }
      assert c !in xs ==> [xs[0]] + rest == xs by {
        if c !in xs {
          assert xs == [xs[0]] + xs[1..];
        }
      }
      if xs[0] == c then rest else [xs[0]] + rest
  }

  /** Deletion keeps the other keys in their order: deleting from two
      listings in turn is deleting from their concatenation. */
  lemma {:induction false} DropAppend(a: seq<Cell>, b: seq<Cell>, c: Cell)
    ensures Drop(a + b, c) == Drop(a, c) + Drop(b, c)
    decreases |a|
  {
    if a == [] {
      assert a + b == b;
    } else if a[0] == c {
      assert (a + b)[0] == c && (a + b)[1..] == a[1..] + b;
      DropAppend(a[1..], b, c);
      assert Drop(a + b, c) == Drop(a[1..] + b, c);
    } else {
      assert (a + b)[0] == a[0] && (a + b)[1..] == a[1..] + b;
      DropAppend(a[1..], b, c);
      assert Drop(a + b, c) == [a[0]] + Drop(a[1..] + b, c);
    }
  }

  /** `recolectar_comida(x, y)`: remove the cell's food and hand back its
      value, or 0 when there is none. Only that cell changes. The plain
      collector's copy discards the value. */
  function Take(f: Field, c: Cell): (r: (nat, Field))
    ensures c in f.food ==> r.0 == f.food[c] && r.1 == f.(food := f.food - {c}, order := Drop(f.order, c))
    ensures c !in f.food ==> r.0 == 0 && r.1 == f
    ensures r.1.food == f.food - {c} && r.1.obstacles == f.obstacles
    ensures r.1.width == f.width && r.1.height == f.height
    ensures r.0 + Sum(r.1.food) == Sum(f.food)
    ensures Listed(f) ==> Listed(r.1)
  {
    if c in f.food then
      SumRemove(f.food, c);
      (f.food[c], f.(food := f.food - {c}, order := Drop(f.order, c)))
    else (0, f)
  }

  /** Taking twice from the same cell yields nothing the second time. */
  lemma TakeOnce(f: Field, c: Cell)
    ensures Take(Take(f, c).1, c) == (0, Take(f, c).1)
  {}

  /** Taking keeps the generation guarantees, and on a generated field it
      yields a value of 1 to 3 exactly when the cell held food. */
  lemma TakeKeepsGenerated(f: Field, c: Cell)
    requires Generated(f)
    ensures Generated(Take(f, c).1)
    ensures Take(f, c).0 > 0 <==> c in f.food
    ensures c in f.food ==> 1 <= Take(f, c).0 <= 3
  {}
}
