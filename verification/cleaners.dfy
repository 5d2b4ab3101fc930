/** `SimpleLimpiezaAgente` in its four versions: memoryless with set dirt,
    with memory and set dirt, with memory and valued dirt, and with memory,
    valued dirt and obstacles. Each cycle is perceive, decide, then act
    (clean or `mover_agente`); random draws are parameters. */
module Cleaners {
  import opened Grid
  import opened Rooms

  /** Position, score (`suciedad_limpiada` or `puntos_limpieza`) and the
      memory `visitados` (unused by the memoryless version). */
  datatype Cleaner = Cleaner(pos: Cell, score: nat, visited: set<Cell>)

  // ---------------------------------------------------------------------
  // Memory and valued dirt, with or without obstacles
  // ---------------------------------------------------------------------

  /** `decidir_y_actuar` of the valued versions: remember the current cell;
      clean on a positive reading; otherwise draw (with `k`) among the move
      options, or stay (`"quieto"`) when no neighbour is free. `avoid` is
      the obstacle set, empty for the version without obstacles. */
  function DecideValued(width: int, height: int, avoid: set<Cell>, me: Cleaner, percept: nat, k: nat)
    : (r: (Action, Cleaner))
    ensures r.1 == me.(visited := me.visited + {me.pos})
    ensures r.0 == Clean <==> percept > 0
    ensures r.0 == Stay <==> percept == 0 && forall d :: !Free(width, height, avoid, Step(me.pos, d))
    ensures r.0.Go? ==> Free(width, height, avoid, Step(me.pos, r.0.dir))
    ensures r.0.Go? && HasFresh(width, height, avoid, me.pos, r.1.visited) ==>
              Step(me.pos, r.0.dir) !in r.1.visited
  {
    var visited := me.visited + {me.pos};
    if percept > 0 then (Clean, me.(visited := visited))
    else
      var options := Options(width, height, avoid, me.pos, visited);
      if options == [] then (Stay, me.(visited := visited))
      else (Go(Pick(options, k)), me.(visited := visited))
  }

  /** One simulation step of a valued version: read `valor_suciedad` here,
      decide, then clean (scoring the value) or move. The version with
      obstacles passes `room.obstacles` as `avoid`; the one without passes
      the empty set. */
  function ValuedStep(room: Room, avoid: set<Cell>, me: Cleaner, k: nat): (r: (Room, Cleaner))
    ensures r.1.visited == me.visited + {me.pos}
    ensures r.0 == room.(dirt := r.0.dirt) && r.0.dirt.Keys <= room.dirt.Keys
    ensures r.1.score == me.score + DirtValue(room, me.pos)
    ensures r.1.score + Sum(r.0.dirt) == me.score + Sum(room.dirt)
    ensures DirtValue(room, me.pos) > 0 ==> r.1.pos == me.pos && r.0.dirt == room.dirt - {me.pos}
    ensures Dist(me.pos, r.1.pos) <= 1
    ensures Free(room.width, room.height, avoid, me.pos) ==>
              Free(room.width, room.height, avoid, r.1.pos)
  {
    var percept := DirtValue(room, me.pos);
    var (a, decided) := DecideValued(room.width, room.height, avoid, me, percept, k);
    match a
    case Clean =>
      var (value, room') := Scrub(room, decided.pos);
      (room', if value > 0 then decided.(score := decided.score + value) else decided)
    case Go(_) =>
      (room, decided.(pos := ClampedMove(room.width, room.height, decided.pos, a)))
    case Stay => (room, decided)
  }

  /** Over a step of the version with obstacles, a generated room stays
      generated and an agent on a free cell stays on one. */
  lemma ValuedStepSound(room: Room, me: Cleaner, k: nat)
    requires Generated(room) && Free(room.width, room.height, room.obstacles, me.pos)
    ensures Generated(ValuedStep(room, room.obstacles, me, k).0)
    ensures Free(room.width, room.height, room.obstacles, ValuedStep(room, room.obstacles, me, k).1.pos)
  {
    ScrubKeepsGenerated(room, me.pos);
  }

  /** Over a step of the valued version without obstacles, a generated
      room stays generated, the agent stays on the grid, and it scores
      exactly when it stood on dirt. */
  lemma FinalStepSound(room: Room, me: Cleaner, k: nat)
    requires Generated(room) && room.obstacles == {}
    requires InBounds(room.width, room.height, me.pos)
    ensures Generated(ValuedStep(room, {}, me, k).0)
    ensures InBounds(room.width, room.height, ValuedStep(room, {}, me, k).1.pos)
    ensures ValuedStep(room, {}, me, k).1.score > me.score <==> me.pos in room.dirt
  {
    ScrubKeepsGenerated(room, me.pos);
  }

  // ---------------------------------------------------------------------
  // Memory and set dirt (`agenteReactivoMemoria`)
  // ---------------------------------------------------------------------

  /** The memory version's draw is only defined when it has something to
      draw from: `random.choice` on an empty list raises, which happens on a
      clean cell with no in-bounds neighbour (a 1 x 1 grid). */
  predicate CanDecide(fl: Floor, me: Cleaner, percept: bool) {
    percept || Options(fl.width, fl.height, {}, me.pos, me.visited + {me.pos}) != []
  }

  /** The draw fails exactly on a one-cell grid: anywhere else a clean
      cell has an in-bounds neighbour. */
  lemma CanDecideExactly(fl: Floor, me: Cleaner)
    requires InBounds(fl.width, fl.height, me.pos)
    ensures CanDecide(fl, me, false) <==> fl.width > 1 || fl.height > 1
  {
    var p := me.pos;
    if fl.width > 1 {
      var d := if p.x > 0 then Left else Right;
      assert Free(fl.width, fl.height, {}, Step(p, d));
    } else if fl.height > 1 {
      var d := if p.y > 0 then Up else Down;
      assert Free(fl.width, fl.height, {}, Step(p, d));
    } else {
      forall d ensures !Free(fl.width, fl.height, {}, Step(p, d)) {}
    }
  }

  /** `decidir_y_actuar` of the memory version: remember the current cell;
      clean on a dirty reading; otherwise draw (with `k`) among the in-bounds
      neighbours, preferring unvisited ones. It never stays. */
  function DecideMemory(fl: Floor, me: Cleaner, percept: bool, k: nat): (r: (Action, Cleaner))
    requires CanDecide(fl, me, percept)
    ensures r.1 == me.(visited := me.visited + {me.pos})
    ensures r.0 == Clean <==> percept
    ensures !percept ==> r.0.Go? && InBounds(fl.width, fl.height, Step(me.pos, r.0.dir))
    ensures !percept && HasFresh(fl.width, fl.height, {}, me.pos, r.1.visited) ==>
              Step(me.pos, r.0.dir) !in r.1.visited
  {
    var visited := me.visited + {me.pos};
    if percept then (Clean, me.(visited := visited))
    else (Go(Pick(Options(fl.width, fl.height, {}, me.pos, visited), k)), me.(visited := visited))
  }

  /** One simulation step of the memory version. */
  function MemoryStep(fl: Floor, me: Cleaner, k: nat): (r: (Floor, Cleaner))
    requires CanDecide(fl, me, me.pos in fl.dirt)
    ensures r.1.visited == me.visited + {me.pos}
    ensures r.0 == fl.(dirt := r.0.dirt) && r.0.dirt <= fl.dirt
    ensures r.1.score == me.score + (if me.pos in fl.dirt then 1 else 0)
    ensures r.1.score + |r.0.dirt| == me.score + |fl.dirt|
    ensures Dist(me.pos, r.1.pos) <= 1
    ensures InBounds(fl.width, fl.height, me.pos) ==>
              InBounds(fl.width, fl.height, r.1.pos) && (me.pos !in fl.dirt ==> r.1.pos != me.pos)
  {
    var (a, decided) := DecideMemory(fl, me, me.pos in fl.dirt, k);
    match a
    case Clean =>
      var (ok, fl') := Wipe(fl, decided.pos);
      (fl', if ok then decided.(score := decided.score + 1) else decided)
    case Go(_) => (fl, decided.(pos := ClampedMove(fl.width, fl.height, decided.pos, a)))
    case Stay => (fl, decided)
  }

  // ---------------------------------------------------------------------
  // The memoryless version (`agenteReactivo`)
  // ---------------------------------------------------------------------

  /** `decidir_y_actuar(percepcion)`: clean when dirty, otherwise the drawn
      direction. */
  function DecideSimple(percept: bool, rnd: Direction): (a: Action)
    ensures a != Stay
    ensures a == Clean <==> percept
  {
    if percept then Clean else Go(rnd)
  }

  /** One iteration of the step loop: perceive, decide, then clean (counting
      a success) or move. */
  function SimpleStep(fl: Floor, me: Cleaner, rnd: Direction): (r: (Floor, Cleaner))
    ensures r.0 == fl.(dirt := r.0.dirt) && r.0.dirt <= fl.dirt
    ensures r.1.score + |r.0.dirt| == me.score + |fl.dirt|
    ensures r.1.visited == me.visited
    ensures me.pos in fl.dirt ==> r.1.pos == me.pos && r.0.dirt == fl.dirt - {me.pos}
    ensures me.pos !in fl.dirt ==> r.1.pos == ClampedMove(fl.width, fl.height, me.pos, Go(rnd))
    ensures InBounds(fl.width, fl.height, me.pos) ==> InBounds(fl.width, fl.height, r.1.pos)
  {
    var a := DecideSimple(me.pos in fl.dirt, rnd);
    if a == Clean then
      var (ok, fl') := Wipe(fl, me.pos);
      (fl', if ok then me.(score := me.score + 1) else me)
    else (fl, me.(pos := ClampedMove(fl.width, fl.height, me.pos, a)))
  }

  /** The state after running the loop body once per listed draw. */
  function Simulate(fl: Floor, me: Cleaner, moves: seq<Direction>): (r: (Floor, Cleaner))
    decreases |moves|
  {
    if moves == [] then (fl, me)
    else
      var prev := Simulate(fl, me, moves[..|moves| - 1]);
      SimpleStep(prev.0, prev.1, moves[|moves| - 1])
  }

  /** `simular_limpieza(pasos)` with `|moves|` steps, `moves[i]` being the
      direction drawn at step `i`: the loop stops right after the step that
      leaves the room clean. The count plus the remaining dirt never changes. */
  method Run(fl: Floor, me: Cleaner, moves: seq<Direction>) returns (fl': Floor, me': Cleaner, steps: nat)
    ensures steps <= |moves| && (moves != [] ==> 1 <= steps)
    ensures (fl', me') == Simulate(fl, me, moves[..steps])
    ensures steps < |moves| ==> fl'.dirt == {}
    ensures forall k :: 1 <= k < steps ==> Simulate(fl, me, moves[..k]).0.dirt != {}
    ensures me'.score + |fl'.dirt| == me.score + |fl.dirt|
    ensures InBounds(fl.width, fl.height, me.pos) ==> InBounds(fl.width, fl.height, me'.pos)
  {
    fl', me', steps := fl, me, 0;
    assert moves[..0] == [];
    while steps < |moves|
      invariant steps <= |moves|
      invariant (fl', me') == Simulate(fl, me, moves[..steps])
      invariant forall k :: 1 <= k <= steps ==> Simulate(fl, me, moves[..k]).0.dirt != {}
      invariant me'.score + |fl'.dirt| == me.score + |fl.dirt|
      invariant fl'.width == fl.width && fl'.height == fl.height
      invariant InBounds(fl.width, fl.height, me.pos) ==> InBounds(fl.width, fl.height, me'.pos)
    {
      assert moves[..steps + 1][..steps] == moves[..steps];
      var r := SimpleStep(fl', me', moves[steps]);
      fl', me' := r.0, r.1;
      steps := steps + 1;
      if fl'.dirt == {} {
        break;
      }
    }
  }
}
