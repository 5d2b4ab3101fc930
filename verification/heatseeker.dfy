/** `AgenteRecolector` of the heat-map collector: like the plain collector,
    but it remembers where it has seen food (`mapa_comida`), heads for the
    hottest cell when it sees none, respects obstacles when it moves, and
    scores the value of what it eats. */
module HeatSeeker {
  import opened Grid
  import opened Planner
  import opened Fields

  const Sight: int := 5
  const Meal: int := 20

  /** `mapa_comida` is a `(width, height)` array of counts: here a map whose
      keys are the grid's cells. */
  type Heat = map<Cell, nat>

  /** Position, `energia`, `puntos_recolectados`, `plan` and the heat map. */
  datatype Seeker = Seeker(pos: Cell, energy: int, points: nat, plan: seq<Direction>, heat: Heat)

  /** The heat map covers exactly the grid. */
  ghost predicate Covers(f: Field, heat: Heat) {
    heat.Keys == AllCells(f.width, f.height)
  }

  // ---------------------------------------------------------------------
  // The heat map
  // ---------------------------------------------------------------------

  /** `mapa_comida[cx, cy] += 1` for each listed cell, in order. */
  function Reinforce(heat: Heat, cells: seq<Cell>): (r: Heat)
    requires forall c :: c in cells ==> c in heat
    ensures r.Keys == heat.Keys
    ensures forall c :: c in heat ==> r[c] == heat[c] + multiset(cells)[c]
    decreases |cells|
  {
    if cells == [] then heat
    else
      var c := cells[0];
      assert cells == [c] + cells[1..];
      Reinforce(heat[c := heat[c] + 1], cells[1..])
  }

  /** `np.max(mapa_comida)`. */
  function Peak(heat: Heat): (m: nat)
    requires heat.Keys != {}
    ensures exists c :: c in heat && heat[c] == m
    ensures forall c :: c in heat ==> heat[c] <= m
    decreases |heat.Keys|
  {
    var c := LexMin(heat.Keys);
    var rest := heat - {c};
    assert rest.Keys == heat.Keys - {c};
    if rest.Keys == {} then
      assert heat.Keys == {c};
      heat[c]
    else
      var p := Peak(rest);
      assert forall c' :: c' in heat ==> c' == c || c' in rest;
      if heat[c] >= p then heat[c] else p
  }

  /** `np.unravel_index(np.argmax(mapa_comida), shape)`: the first cell of
      maximal heat in row-major order of the `(width, height)` array, which
      is the lexicographic order on `(x, y)`. */
  function Hottest(heat: Heat): (c: Cell)
    requires heat.Keys != {}
    ensures c in heat && heat[c] == Peak(heat)
    ensures forall c' :: c' in heat ==> heat[c'] <= heat[c]
    ensures forall c' :: c' in heat && heat[c'] == heat[c] ==> CellLe(c, c')
  {
    var m := Peak(heat);
    var best := set c | c in heat && heat[c] == m;
    var w :| w in heat && heat[w] == m;
    assert w in best;
    LexMin(best)
  }

  // ---------------------------------------------------------------------
  // The cycle
  // ---------------------------------------------------------------------

  /** `percibir()`: the visible food, each cell of which heats up by one. */
  function Perceive(f: Field, s: Seeker): (r: (seq<Cell>, Seeker))
    requires Generated(f) && Covers(f, s.heat)
    ensures forall c :: c in r.0 <==> c in f.food && Dist(s.pos, c) <= Sight
    ensures r.1 == s.(heat := r.1.heat) && r.1.heat.Keys == s.heat.Keys
    ensures forall c :: c in s.heat ==>
              r.1.heat[c] == if c in r.0 then s.heat[c] + 1 else s.heat[c]
  {
    var visible := Visible(f, s.pos, Sight);
    DistinctCount(visible);
    (visible, s.(heat := Reinforce(s.heat, visible)))
  }

  /** A listing without repeats counts each of its cells once. */
  lemma {:induction false} DistinctCount(xs: seq<Cell>)
    requires NoRepeats(xs)
    ensures forall c :: multiset(xs)[c] == if c in xs then 1 else 0
    decreases |xs|
  {
    if xs != [] {
      assert xs == [xs[0]] + xs[1..];
      TailNoRepeats(xs);
      DistinctCount(xs[1..]);
    }
  }

  /** The situation in which the collector falls back on its memory: no
      pending plan, and no route to the nearest visible food. */
  ghost predicate FallsBack(f: Field, s: Seeker, visible: seq<Cell>) {
    s.plan == [] &&
    (visible == [] || NearestIn(visible, s.pos) == s.pos ||
     !Reachable(TerrainOf(f), s.pos, NearestIn(visible, s.pos)))
  }

  /** `decidir(comida_visible)`, with `rnd` the direction `random.choice`
      would draw. */
  method Decide(f: Field, s: Seeker, visible: seq<Cell>, rnd: Direction)
    returns (d: Direction, s': Seeker)
    requires s.heat.Keys != {}
    ensures s'.pos == s.pos && s'.energy == s.energy && s'.points == s.points
    ensures s'.heat.Keys == s.heat.Keys
    // A pending plan is followed, nothing else changes.
    ensures s.plan != [] ==> d == s.plan[0] && s' == s.(plan := s.plan[1..])
    // Otherwise the nearest visible food, when there is a route to it.
    ensures s.plan == [] && visible != [] && NearestIn(visible, s.pos) != s.pos &&
            Reachable(TerrainOf(f), s.pos, NearestIn(visible, s.pos)) ==>
              Shortest(TerrainOf(f), s.pos, [d] + s'.plan, NearestIn(visible, s.pos)) &&
              s'.heat == s.heat
    // Otherwise memory, when some cell is warm: standing on the hottest
    // cell cools it and wanders; else a route to it is followed if any.
    ensures FallsBack(f, s, visible) && Peak(s.heat) > 0 && Hottest(s.heat) == s.pos ==>
              d == rnd && s'.plan == [] && s'.heat == s.heat[s.pos := 0]
    ensures FallsBack(f, s, visible) && Peak(s.heat) > 0 && Hottest(s.heat) != s.pos &&
            Reachable(TerrainOf(f), s.pos, Hottest(s.heat)) ==>
              Shortest(TerrainOf(f), s.pos, [d] + s'.plan, Hottest(s.heat)) && s'.heat == s.heat
    // Otherwise a random step.
    ensures FallsBack(f, s, visible) &&
            (Peak(s.heat) == 0 ||
             (Hottest(s.heat) != s.pos && !Reachable(TerrainOf(f), s.pos, Hottest(s.heat)))) ==>
              d == rnd && s'.plan == [] && s'.heat == s.heat
  {
    if s.plan != [] {
      return s.plan[0], s.(plan := s.plan[1..]);
    }
    var t := TerrainOf(f);
    if visible != [] {
      var plan := Plan(t, s.pos, Some(NearestIn(visible, s.pos)));
      if plan != [] {
        d, s' := plan[0], s.(plan := plan[1..]);
        assert [d] + s'.plan == plan;
        return;
      }
    }
    s' := s;
    if Peak(s.heat) > 0 {
      var g := Hottest(s.heat);
      if g == s.pos {
        s' := s.(heat := s.heat[s.pos := 0]);
      } else {
        var plan := Plan(t, s.pos, Some(g));
        if plan != [] {
          d, s' := plan[0], s.(plan := plan[1..]);
          assert [d] + s'.plan == plan;
          return;
        }
      }
    }
    d := rnd;
  }

  /** `actuar(accion)`: move only onto an in-bounds cell free of obstacles;
      take whatever food is there; if it was worth something, score it,
      gain energy, drop the plan and cool the cell; energy drops by one. */
  function Act(f: Field, s: Seeker, d: Direction): (r: (Field, Seeker))
    ensures var n := Step(s.pos, d);
            r.1.pos == if InBounds(f.width, f.height, n) && n !in f.obstacles then n else s.pos
    ensures r.0 == Take(f, r.1.pos).1 && r.0.food == f.food - {r.1.pos}
    ensures r.1.points + Sum(r.0.food) == s.points + Sum(f.food)
    ensures r.1.points > s.points ==>
              r.1.energy == s.energy + Meal - 1 && r.1.plan == [] &&
              r.1.heat == s.heat[r.1.pos := 0]
    ensures r.1.points == s.points ==>
              r.1.energy == s.energy - 1 && r.1.plan == s.plan && r.1.heat == s.heat
  {
    var n := Step(s.pos, d);
    var p := if InBounds(f.width, f.height, n) && n !in f.obstacles then n else s.pos;
    var (value, f') := Take(f, p);
    var fed := if value > 0 then
                 s.(pos := p, points := s.points + value, energy := s.energy + Meal, plan := [],
                    heat := s.heat[p := 0])
               else s.(pos := p);
    (f', fed.(energy := fed.energy - 1))
  }

  /** The generation guarantees and a grid-covering heat map, with the
      collector on a free in-bounds cell. */
  ghost predicate Sound(f: Field, s: Seeker) {
    Generated(f) && Covers(f, s.heat) && InBounds(f.width, f.height, s.pos) &&
    s.pos !in f.obstacles
  }

  /** Acting keeps the collector sound: it never steps off the grid or onto
      an obstacle, and food only disappears. */
  lemma ActSound(f: Field, s: Seeker, d: Direction)
    requires Sound(f, s)
    ensures Sound(Act(f, s, d).0, Act(f, s, d).1)
    ensures Act(f, s, d).1.heat.Keys == s.heat.Keys
    ensures Act(f, s, d).0.food.Keys <= f.food.Keys
    ensures Act(f, s, d).0.obstacles == f.obstacles
  {
    var r := Act(f, s, d);
    TakeKeepsGenerated(f, r.1.pos);
    assert r.1.pos in s.heat;
  }

  /** Over one cycle each heat entry is kept, raised by one, or reset. */
  lemma HeatSteps(h0: Heat, h1: Heat, h2: Heat, h3: Heat, visible: seq<Cell>, p: Cell, p': Cell)
    requires h1.Keys == h0.Keys
    requires forall c :: c in h0 ==> h1[c] == if c in visible then h0[c] + 1 else h0[c]
    requires h2 == h1 || h2 == h1[p := 0]
    requires h3 == h2 || h3 == h2[p' := 0]
    ensures forall c :: c in h0 ==> c in h3 && (h3[c] == h0[c] || h3[c] == h0[c] + 1 || h3[c] == 0)
  {}

  /** `update()`: with energy left, perceive, decide and act. */
  method Update(f: Field, s: Seeker, rnd: Direction) returns (f': Field, s': Seeker)
    requires Sound(f, s)
    ensures s.energy <= 0 ==> f' == f && s' == s
    ensures Sound(f', s') && s'.heat.Keys == s.heat.Keys
    ensures f'.obstacles == f.obstacles && f'.food.Keys <= f.food.Keys
    ensures s'.points + Sum(f'.food) == s.points + Sum(f.food)
    ensures forall c :: c in s.heat ==>
              s'.heat[c] == s.heat[c] || s'.heat[c] == s.heat[c] + 1 || s'.heat[c] == 0
  {
    if s.energy <= 0 {
      return f, s;
    }
    var (visible, s1) := Perceive(f, s);
    assert s.pos in s.heat;
    var d, s2 := Decide(f, s1, visible, rnd);
    assert s2.heat.Keys == s.heat.Keys && s2.pos == s.pos;
    ActSound(f, s2, d);
    var r := Act(f, s2, d);
    f', s' := r.0, r.1;
    HeatSteps(s.heat, s1.heat, s2.heat, s'.heat, visible, s.pos, s'.pos);
  }
}
