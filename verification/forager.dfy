/** `AgenteRecolector` of the plain goal-based collector: perceive visible
    food, follow or make a BFS plan to the nearest, move, eat, spend energy. */
module Forager {
  import opened Grid
  import opened Planner
  import opened Fields

  /** `percibir` looks this far (`radio=5`). */
  const Sight: int := 5

  /** Energy gained per food eaten. */
  const Meal: int := 20

  /** Position, `energia`, `comida_recolectada` and the pending `plan`. */
  datatype Forager = Forager(pos: Cell, energy: int, collected: nat, plan: seq<Direction>)

  /** `decidir(comida_visible)`, with `rnd` the direction `random.choice`
      would draw: follow the pending plan; with no plan, plan a route to the
      nearest visible food; with still no plan, wander. */
  method Decide(f: Field, me: Forager, visible: seq<Cell>, rnd: Direction)
    returns (d: Direction, me': Forager)
    ensures me'.pos == me.pos && me'.energy == me.energy && me'.collected == me.collected
    ensures me.plan != [] ==> d == me.plan[0] && me'.plan == me.plan[1..]
    ensures me.plan == [] && visible == [] ==> d == rnd && me'.plan == []
    ensures me.plan == [] && visible != [] ==>
              var g := NearestIn(visible, me.pos);
              && (g != me.pos && Reachable(TerrainOf(f), me.pos, g) ==>
                    Shortest(TerrainOf(f), me.pos, [d] + me'.plan, g))
              && (g == me.pos || !Reachable(TerrainOf(f), me.pos, g) ==>
                    d == rnd && me'.plan == [])
  {
    var plan := me.plan;
    if plan == [] && visible != [] {
      var g := NearestIn(visible, me.pos);
      plan := Plan(TerrainOf(f), me.pos, Some(g));
    }
    if plan != [] {
      d, me' := plan[0], me.(plan := plan[1..]);
      assert [d] + me'.plan == plan;
    } else {
      d, me' := rnd, me.(plan := []);
    }
  }

  /** `actuar(accion)`: the border-guarded move, which does not look at
      obstacles; then, if the new cell holds food, eat it (one more item,
      `Meal` more energy, plan dropped); energy always drops by one. */
  function Act(f: Field, me: Forager, d: Direction): (r: (Field, Forager))
    ensures r.1.pos == ClampedMove(f.width, f.height, me.pos, Go(d))
    ensures r.0 == Take(f, r.1.pos).1 && r.0.food == f.food - {r.1.pos}
    ensures r.1.pos in f.food ==>
              r.1.collected == me.collected + 1 && r.1.energy == me.energy + Meal - 1 &&
              r.1.plan == []
    ensures r.1.pos !in f.food ==>
              r.1.collected == me.collected && r.1.energy == me.energy - 1 && r.1.plan == me.plan
  {
    var p := ClampedMove(f.width, f.height, me.pos, Go(d));
    var moved := me.(pos := p);
    var (f', fed) :=
      if p in f.food then (Take(f, p).1, moved.(collected := moved.collected + 1,
                                                  energy := moved.energy + Meal, plan := []))
      else (f, moved);
    (f', fed.(energy := fed.energy - 1))
  }

  /** `update()`: with energy left, perceive, decide and act; otherwise do
      nothing. */
  method Update(f: Field, me: Forager, rnd: Direction) returns (f': Field, me': Forager)
    ensures me.energy <= 0 ==> f' == f && me' == me
    ensures me.energy > 0 ==>
              && Dist(me.pos, me'.pos) <= 1
              && (InBounds(f.width, f.height, me.pos) ==> InBounds(f.width, f.height, me'.pos))
              && f'.food.Keys <= f.food.Keys && f'.obstacles == f.obstacles
              && me'.collected + |f'.food.Keys| == me.collected + |f.food.Keys|
              && me'.energy == me.energy - 1 + (if me'.collected > me.collected then Meal else 0)
    ensures Listed(f) ==> Listed(f')
  {
    if me.energy <= 0 {
      return f, me;
    }
    var visible := Visible(f, me.pos, Sight);
    var d, decided := Decide(f, me, visible, rnd);
    var r := Act(f, decided, d);
    f', me' := r.0, r.1;
    if me'.pos in f.food {
      assert f'.food.Keys == f.food.Keys - {me'.pos};
    } else {
      assert f'.food == f.food;
    }
  }

  /** The collector ignores obstacles when it moves: whenever the drawn or
      planned neighbour is on the grid, it steps there, obstacle or not. */
  lemma EntersObstacles(f: Field, me: Forager, d: Direction)
    requires InBounds(f.width, f.height, me.pos) && InBounds(f.width, f.height, Step(me.pos, d))
    requires Step(me.pos, d) in f.obstacles
    ensures Act(f, me, d).1.pos == Step(me.pos, d)
    ensures Act(f, me, d).1.pos in f.obstacles
  {}
}
