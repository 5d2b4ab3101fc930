/** The rooms of the four reactive cleaning agents (`EntornoGrid`) and the
    move-candidate filter their memory-based variants share. */
module Rooms {
  import opened Grid

  /** A room with valued dirt (`suciedad` a dict) and obstacle cells. The
      valued variant without obstacles has an empty obstacle set; the kind
      of obstacle (wall or tree) only matters for display. */
  datatype Room = Room(width: int, height: int, dirt: map<Cell, nat>, obstacles: set<Cell>)

  /** A room whose dirt is a plain set of cells (`suciedad` a set). */
  datatype Floor = Floor(width: int, height: int, dirt: set<Cell>)

  // ---------------------------------------------------------------------
  // Dirt as a set
  // ---------------------------------------------------------------------

  /** `limpiar(x, y)` on a set: succeeds, removing the cell, exactly when it
      is dirty; nothing else changes. */
  function Wipe(fl: Floor, c: Cell): (r: (bool, Floor))
    ensures r.0 <==> c in fl.dirt
    ensures r.1 == fl.(dirt := fl.dirt - {c})
    ensures |r.1.dirt| + (if r.0 then 1 else 0) == |fl.dirt|
  {
    if c in fl.dirt then (true, fl.(dirt := fl.dirt - {c})) else (false, fl)
  }

  /** Wiping the same cell twice: the second wipe fails and changes nothing. */
  lemma WipeOnce(fl: Floor, c: Cell)
    ensures Wipe(Wipe(fl, c).1, c) == (false, Wipe(fl, c).1)
  {}

  // ---------------------------------------------------------------------
  // Dirt with values
  // ---------------------------------------------------------------------

  /** `valor_suciedad(x, y)`: `suciedad.get((x, y), 0)`. */
  function DirtValue(room: Room, c: Cell): nat {
    if c in room.dirt then room.dirt[c] else 0
  }

  /** `limpiar(x, y)` on a dict: remove the cell and hand back the value
      `valor_suciedad` reported for it; the value leaves the room's total. */
  function Scrub(room: Room, c: Cell): (r: (nat, Room))
    ensures r.0 == DirtValue(room, c)
    ensures r.1 == room.(dirt := room.dirt - {c})
    ensures r.0 + Sum(r.1.dirt) == Sum(room.dirt)
  {
    if c in room.dirt then
      SumRemove(room.dirt, c);
      (room.dirt[c], room.(dirt := room.dirt - {c}))
    else (0, room)
  }

  /** Scrubbing the same cell twice yields nothing the second time. */
  lemma ScrubOnce(room: Room, c: Cell)
    ensures Scrub(Scrub(room, c).1, c) == (0, Scrub(room, c).1)
  {}

  /** What the generator guarantees: distinct dirt cells on the grid worth 1
      to 3, and distinct obstacles on the grid, none on dirt. */
  ghost predicate Generated(room: Room) {
    && (forall c :: c in room.dirt ==> InBounds(room.width, room.height, c) && 1 <= room.dirt[c] <= 3)
    && (forall c :: c in room.obstacles ==> InBounds(room.width, room.height, c) && c !in room.dirt)
  }

  /** In a generated room a cell reads as dirty exactly when it holds dirt,
      and scrubbing keeps the room generated. */
  lemma ScrubKeepsGenerated(room: Room, c: Cell)
    requires Generated(room)
    ensures DirtValue(room, c) > 0 <==> c in room.dirt
    ensures Generated(Scrub(room, c).1)
  {}

  // ---------------------------------------------------------------------
  // Move candidates
  // ---------------------------------------------------------------------

  /** A cell the agent may step onto: `es_valido` and not `hay_obstaculo`. */
  predicate Free(width: int, height: int, obstacles: set<Cell>, c: Cell) {
    InBounds(width, height, c) && c !in obstacles
  }

  /** The directions of `ds`, in order, whose neighbour is free. */
  function KeepFree(width: int, height: int, obstacles: set<Cell>, pos: Cell, ds: seq<Direction>)
    : (r: seq<Direction>)
    ensures forall d :: d in r <==> d in ds && Free(width, height, obstacles, Step(pos, d))
  {
    if ds == [] then []
    else
      assert forall d :: d in ds <==> d == ds[0] || d in ds[1..];
      (if Free(width, height, obstacles, Step(pos, ds[0])) then [ds[0]] else []) +
      KeepFree(width, height, obstacles, pos, ds[1..])
  }

  /** The directions of `ds`, in order, whose neighbour is not remembered. */
  function KeepUnvisited(pos: Cell, visited: set<Cell>, ds: seq<Direction>): (r: seq<Direction>)
    ensures forall d :: d in r <==> d in ds && Step(pos, d) !in visited
  {
    if ds == [] then []
    else
      assert forall d :: d in ds <==> d == ds[0] || d in ds[1..];
      (if Step(pos, ds[0]) !in visited then [ds[0]] else []) + KeepUnvisited(pos, visited, ds[1..])
  }

  /** Some free neighbour has not been visited yet. */
  ghost predicate HasFresh(width: int, height: int, obstacles: set<Cell>, pos: Cell, visited: set<Cell>) {
    exists d :: Free(width, height, obstacles, Step(pos, d)) && Step(pos, d) !in visited
  }

  lemma EveryDirection()
    ensures forall d :: d in Directions
  {
    forall d ensures d in Directions {
      match d
      case Up => assert Directions[0] == Up;
      case Down => assert Directions[1] == Down;
      case Left => assert Directions[2] == Left;
      case Right => assert Directions[3] == Right;
    }
  }

  /** What `random.choice` draws from: the free neighbours not yet visited
      (`no_visitados`) when there are any, else all free neighbours
      (`movimientos_validos`), listed up, down, left, right. */
  function Options(width: int, height: int, obstacles: set<Cell>, pos: Cell, visited: set<Cell>)
    : (ds: seq<Direction>)
    ensures forall d :: d in ds <==>
              Free(width, height, obstacles, Step(pos, d)) &&
              (HasFresh(width, height, obstacles, pos, visited) ==> Step(pos, d) !in visited)
    ensures ds == [] <==> forall d :: !Free(width, height, obstacles, Step(pos, d))
  {
    var valid := KeepFree(width, height, obstacles, pos, Directions);
    var unseen := KeepUnvisited(pos, visited, valid);
    EveryDirection();
    assert unseen != [] ==> unseen[0] in unseen;
    assert unseen != [] <==> HasFresh(width, height, obstacles, pos, visited);
    if unseen != [] then unseen else valid
  }

  /** `random.choice(options)` with the draw `k` as a parameter. */
  function Pick(options: seq<Direction>, k: nat): (d: Direction)
    requires options != []
    ensures d in options
  {
    options[k % |options|]
  }

  /** Every option can be drawn. */
  lemma PickCovers(options: seq<Direction>, d: Direction)
    requires d in options
    ensures exists k: nat :: Pick(options, k) == d
  {
    var i :| 0 <= i < |options| && options[i] == d;
    assert Pick(options, i) == d;
  }
}
