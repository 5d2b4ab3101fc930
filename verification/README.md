# Grid agents in Dafny

A model of eight small Python grid-world agent scripts. They fall into three families.

- **Cooperative collectors.** `evitarObjetivos_multiagente.py` and `competirRecursos_multiagente.py`.
  - Agents share one world of food cells (`EntornoMultiAgente`).
  - They write into each other's inboxes synchronously (`enviar_mensaje`/`recibir_mensaje`) and drain their own once per turn (`procesar_mensajes`).
  - Each picks the nearest food as a goal. The claiming script also re-validates its goal and announces it with `voy_a`, and the others avoid claimed cells.
  - Each then takes one greedy step (x axis before y) or collects.
  - A tick is one pass over a turn order. The claiming script uses a random permutation and the competing one uses list order.
- **Goal-based collectors.** `agenteObjetivos.py` and `agentObjet_AreasComida.py`.
  - A breadth-first planner (`planificar_ruta`) finds shortest obstacle-avoiding routes to the nearest visible food.
  - A plan is followed one move per cycle, with energy bookkeeping.
  - The second script adds a heat map (`mapa_comida`). It warms on sight and cools on collection, and it guides the agent when no food is visible.
- **Reactive cleaners.** `agentReact_Obstaculos.py`, `agenteReactivoFinal.py`, `agenteReactivoMemoria.py` and `agenteReactivo.py`.
  - The agent cleans the dirt it stands on. Otherwise it moves, preferring unvisited free neighbours when it has a memory.
  - Moves are clamped to the grid by `mover_agente`.

Modules follow this structure:

- `Grid`: cells, distance, bounds, clamped moves, canonical iteration order.
- `Colony`: the shared world and the mailboxes.
- `Coordination`: the turn and the tick of the cooperative collectors.
- `Planner`: the breadth-first search.
- `Fields`: the collectors' world.
- `Forager`: the plain collector.
- `HeatSeeker`: the heat-map collector.
- `Rooms`: the cleaners' rooms and the move-candidate filter.
- `Cleaners`: the four cleaning agents.

Every random draw becomes a parameter: a direction, a turn order, or an index `k` into the list `random.choice` draws from. Every contract holds for all draws.

Iteration order decides `min` tie-breaks, the order of broadcast sightings and the order of perceived cells.
- The cooperative collectors keep their food in a Python set, whose iteration order the language leaves open. For sets the model fixes one canonical order: lexicographic on `(x, y)`.
- The goal-based collectors keep their food in a dict (`comida`), which lists its keys in insertion order. `Fields.Field` carries that order as `order`, and collection deletes the key from it. `Grid.WithinRadiusAppend` and `Fields.DropAppend` state that filtering and deletion keep that order, so `min` over the visible food breaks ties as the scripts do.
- numpy's `argmax` scans a `(width, height)` array in row-major order, which is the lexicographic order on `(x, y)`. So `HeatSeeker.Hottest` is exactly `np.unravel_index(np.argmax(...))`.

## Model

| member | source | states |
|---|---|---|
| Grid.Step | agenteObjetivos.py:35-37 | each named move reaches a cell at Manhattan distance exactly 1 |
| Grid.ClampedMove | agenteReactivo.py:44-53 | `mover_agente` keeps an in-bounds agent in bounds and moves it at most one unit; an action that is not a move is a no-op; a move is taken exactly when its destination is on the grid |
| Grid.Enumerate | evitarObjetivos_multiagente.py:141-142 | iterating a set lists every member exactly once, in canonical order |
| Grid.NearestIn | agenteObjetivos.py:51-52 | `min` by Manhattan distance returns a listed cell at minimal distance, and the first such one in list order |
| Grid.Nearest | evitarObjetivos_multiagente.py:88-89 | the nearest member of a set, with ties broken in the canonical order |
| Grid.WithinRadius | evitarObjetivos_multiagente.py:140-142 | filtering by radius keeps exactly the cells within Manhattan distance `radius`, a list without repeats yields one without repeats, and a strictly sorted list stays sorted |
| Grid.WithinRadiusAppend | agenteObjetivos.py:122-127 | filtering keeps the listing's order: the filter of a concatenation is the concatenation of the filters, which with the one-cell case fixes the result |
| Grid.SumRemove | agentObjet_AreasComida.py:156-161 | removing a key takes exactly its value off the total, whatever the iteration order |
| Colony.Nearby | evitarObjetivos_multiagente.py:140-142 | `obtener_comida_cercana` lists exactly the food cells within the radius, each once, and changes nothing |
| Colony.Collect | evitarObjetivos_multiagente.py:144-148 | `recolectar_comida` succeeds exactly when the cell holds food, removes that cell only, and shrinks the food set by one exactly on success |
| Colony.CollectOnce | competirRecursos_multiagente.py:107-111 | food is consumed once: a second collection at the same cell fails and changes nothing |
| Colony.Send | evitarObjetivos_multiagente.py:15-26 | `enviar_mensaje` to the others appends one message carrying sender, kind and content to each other agent's inbox, and leaves the sender untouched |
| Colony.Messages | evitarObjetivos_multiagente.py:62-63 | one report per perceived cell, in order, each carrying the sender and its cell |
| Colony.SendEachAppends | evitarObjetivos_multiagente.py:61-63 | the sighting loop appends exactly the sender's reports, in order, to every other agent's inbox, and leaves the sender as it was |
| Colony.Classify | evitarObjetivos_multiagente.py:34-39 | the reported cells are exactly the contents of `comida_encontrada` messages and the claimed cells exactly those of `voy_a` messages; other kinds are dropped |
| Colony.ClassifyConcat | evitarObjetivos_multiagente.py:34-39 | classification keeps arrival order: classifying two batches in turn is classifying their concatenation |
| Colony.ClassifyReports | competirRecursos_multiagente.py:31-33 | a batch of food reports is read back as exactly its cells, in order, with no claims |
| Colony.ProcessMessages | evitarObjetivos_multiagente.py:28-44 | `procesar_mensajes` returns the reported and claimed cells of the inbox and leaves the inbox empty, the agent otherwise unchanged |
| Coordination.Revalidate | evitarObjetivos_multiagente.py:68-72 | a goal survives re-validation exactly when its cell still holds food, and is then unchanged |
| Coordination.Candidates | evitarObjetivos_multiagente.py:77-84 | a candidate is a cell seen locally or reported, and, in the claiming script, not claimed by anyone heard from |
| Coordination.Choose | evitarObjetivos_multiagente.py:87-89 | no goal exactly when there is no candidate; otherwise the goal is a candidate at minimal Manhattan distance |
| Coordination.Intend | evitarObjetivos_multiagente.py:55-93 | the agent drains its inbox, sees the food within radius 3, and keeps a held goal (the claiming script only while it still holds food); without one it takes a nearest candidate, which the claiming script announces; it never newly adopts a goal it heard claimed |
| Coordination.OutboxClaims | evitarObjetivos_multiagente.py:87-93 | an agent sends `voy_a c` exactly when it is the claiming script, held no valid goal and newly chose `c`; the competing script never claims |
| Coordination.StepWithFallback | evitarObjetivos_multiagente.py:104-113 | the claiming step changes one coordinate by one unit or stays, never leaves the grid, keeps y while x differs, and when agent and goal are on the grid brings the agent one unit closer |
| Coordination.StepStrict | competirRecursos_multiagente.py:68-80 | the competing step changes one coordinate by one unit (x first) or stays, never leaves the grid, and when agent and goal are on the grid brings the agent one unit closer |
| Coordination.RandomStep | evitarObjetivos_multiagente.py:114-119 | the random move is taken exactly when its destination is valid and never leaves the grid |
| Coordination.Advance | evitarObjetivos_multiagente.py:95-119 | on arrival the cell's food is removed, the score rises by one exactly when it was there, and the goal is cleared either way; otherwise the world and score are unchanged, the agent moves at most one unit, and a goal-directed step brings it one unit closer |
| Coordination.BroadcastAppends | evitarObjetivos_multiagente.py:60-93 | a turn's sightings and claim reach every other agent's inbox in sending order; the sender receives nothing |
| Coordination.TurnActor | evitarObjetivos_multiagente.py:50-119 | in a turn the acting agent drains its inbox, settles its goal as `Coordination.Intend` does, and then world and actor are exactly what `Coordination.Advance` makes of them |
| Coordination.TurnDelivers | evitarObjetivos_multiagente.py:189-191 | after a turn every other agent holds its old inbox followed by the turn's outbox and is otherwise unchanged; the acting agent ends with an empty inbox |
| Coordination.TurnActs | evitarObjetivos_multiagente.py:95-119 | a turn only removes food, moves the actor at most one unit and keeps it on the grid, adds one point per cell of food removed; the claiming actor never newly adopts a claimed cell, and collects a claimed cell only if it was already its goal |
| Coordination.TurnTouchesOnlyInboxes | evitarObjetivos_multiagente.py:15-26 | a turn changes nothing of the other agents but their inboxes |
| Coordination.SeesEarlierTurns | evitarObjetivos_multiagente.py:187-191 | within a tick, the agent acting in turn `b` drains what it held plus everything the earlier turns of the tick sent, in order |
| Coordination.LaterTurnsWait | evitarObjetivos_multiagente.py:187-191 | after a tick, the agent that acted in turn `b` holds exactly what the later turns sent, so those messages reach it only in the next tick |
| Coordination.LaterClaimantBacksOff | evitarObjetivos_multiagente.py:79-93 | once an agent has claimed `c`, an agent acting later in the same tick settles on `c` only if `c` was already its goal, and never collects `c` otherwise |
| Coordination.CompeteTickMail | competirRecursos_multiagente.py:137-140 | in list order, agent `k` sees what agents before it sent in this tick and ends the tick holding what agents after it sent |
| Coordination.TurnConserves | competirRecursos_multiagente.py:62-66 | over a turn the total score plus the food left is constant |
| Coordination.TickConserves | evitarObjetivos_multiagente.py:182-191 | over a tick, in either script and any turn order, the total score plus the food left is constant, so the swarm never scores more than there was food |
| Coordination.TurnKeepsOnGrid | competirRecursos_multiagente.py:79-86 | a turn moves only the acting agent, and an agent on the grid stays on it |
| Coordination.TickKeepsOnGrid | evitarObjetivos_multiagente.py:187-191 | agents on the grid stay on it through a whole tick |
| Planner.Plan | agenteObjetivos.py:19-44 | the route is empty for no goal, for the start itself and for an unreachable goal; otherwise replaying it from the start enters only in-bounds, obstacle-free cells, ends at the goal, and no such route is shorter. Which shortest route is returned (the first found when expanding up, down, left, right) is fixed by the method's body, not promised by its contract |
| Planner.SearchStep | agenteObjetivos.py:27-42 | one dequeue-and-expand round keeps the search invariant (queue ordered by path length, every queued path shortest, every finished cell fully expanded) and discovers a new cell or shrinks the queue, so the search terminates |
| Planner.ExpandCell | agenteObjetivos.py:35-42 | after trying the four moves, every passable neighbour of the expanded cell is discovered |
| Planner.Visit | agenteObjetivos.py:37-42 | trying one move discovers the neighbour if it is passable, enqueuing it only if it was new, and keeps the search invariant |
| Planner.HeadIsShortest | agenteObjetivos.py:28-32 | the path carried by the head of the queue is a shortest route to its cell |
| Planner.NothingLeft | agenteObjetivos.py:44 | a search that empties its queue without meeting the goal proves the goal unreachable |
| Planner.OpenGridShortest | agentObjet_AreasComida.py:33-51 | without obstacles every in-bounds goal is reachable, and a route is shortest exactly when it is a valid route as long as the Manhattan distance |
| Fields.Visible | agenteObjetivos.py:120-127 | `obtener_comida_visible` filters the dict's key order by radius, so its order is the key order (`Grid.WithinRadiusAppend`); when the key order lists the food each once (`Fields.Listed`), it lists exactly those cells, each once |
| Fields.Drop | agentObjet_AreasComida.py:159 | deleting a dict key takes exactly that cell out of the key order and keeps every other; a key order without repeats keeps none; an absent key leaves the order unchanged |
| Fields.DropAppend | agentObjet_AreasComida.py:159 | deletion keeps the other keys in their order: deleting from a concatenation is deleting from each part |
| Fields.Take | agentObjet_AreasComida.py:156-161 | `recolectar_comida` removes only the given cell, from the food and from the key order, and returns its value, or 0 with no change; the value returned leaves the food total; the key order still lists the food each once |
| Fields.TakeOnce | agenteObjetivos.py:116-118 | a second collection at the same cell yields nothing and changes nothing |
| Fields.TakeKeepsGenerated | agentObjet_AreasComida.py:134-145 | collection keeps food values in 1 to 3 and obstacles off food, and yields a positive value exactly when the cell held food |
| Forager.Decide | agenteObjetivos.py:46-58 | a pending plan is consumed from the front; with none, a nearest visible food is planned for and a shortest route's first move taken; with no visible food, no route, or the food underfoot, the drawn direction is taken |
| Forager.Act | agenteObjetivos.py:60-78 | the move is clamped to the grid; food at the new cell is collected as `recolectar_comida` does, counted once, worth 20 energy and clears the plan; energy always drops by one |
| Forager.Update | agenteObjetivos.py:80-85 | nothing happens without energy; otherwise the agent moves at most one unit and stays on the grid, and the count plus the remaining food is constant; the dict's key order stays in step with its keys |
| Forager.EntersObstacles | agenteObjetivos.py:62-69 | the collector's move ignores obstacles: whenever the next cell is on the grid and holds an obstacle, the collector steps onto it |
| HeatSeeker.Reinforce | agentObjet_AreasComida.py:27-29 | every listed cell warms by the number of times it is listed; the map's cells stay the same |
| HeatSeeker.Peak | agentObjet_AreasComida.py:69 | `np.max` is a value of the map bounding every entry |
| HeatSeeker.Hottest | agentObjet_AreasComida.py:74 | `argmax` is a cell of maximal heat, the first in row-major order among equals |
| HeatSeeker.Perceive | agentObjet_AreasComida.py:22-31 | the perceived cells are exactly the food within radius 5; each warms by exactly one and every other cell keeps its heat |
| HeatSeeker.DistinctCount | agentObjet_AreasComida.py:163-169 | a listing without repeats counts each of its cells once, so a perceived cell warms by one and not more |
| HeatSeeker.Decide | agentObjet_AreasComida.py:53-87 | the choice cascade: plan first, then a shortest route to the nearest visible food, then the hottest cell when warm (cooling it if the agent stands there), then the drawn direction |
| HeatSeeker.Act | agentObjet_AreasComida.py:89-115 | the agent moves only onto an in-bounds obstacle-free cell; points rise by the value collected; a positive value also gives 20 energy, clears the plan and cools the cell; energy drops by one |
| HeatSeeker.ActSound | agentObjet_AreasComida.py:99-101 | acting never leaves the grid or enters an obstacle, and keeps food and heat map well formed |
| HeatSeeker.Update | agentObjet_AreasComida.py:117-122 | nothing happens without energy; otherwise the collector stays sound, points plus remaining food value is constant, and each heat entry stays, rises by one or is reset |
| Rooms.Wipe | agenteReactivo.py:38-42 | `limpiar` on a set succeeds exactly when the cell is dirty, removes only that cell, and shrinks the dirt by one exactly on success |
| Rooms.WipeOnce | agenteReactivoMemoria.py:76-80 | a repeated `limpiar` fails and changes nothing |
| Rooms.Scrub | agenteReactivoFinal.py:84-90 | `limpiar` on a dict returns what `valor_suciedad` reports, removes only that cell, and takes that value off the dirt total |
| Rooms.ScrubOnce | agenteReactivoFinal.py:84-90 | a repeated `limpiar` yields 0 and changes nothing |
| Rooms.ScrubKeepsGenerated | agentReact_Obstaculos.py:83-101 | in a generated room a cell reads as dirty exactly when it holds dirt, and cleaning keeps dirt values in 1 to 3 and obstacles off dirt |
| Rooms.KeepFree | agentReact_Obstaculos.py:37-47 | the valid moves are exactly the listed directions leading to an in-bounds obstacle-free cell |
| Rooms.KeepUnvisited | agentReact_Obstaculos.py:50-53 | the unvisited moves are exactly those leading to a cell not remembered |
| Rooms.Options | agentReact_Obstaculos.py:57-66 | the draw is among unvisited free neighbours when there are any, else among all free neighbours, and there is nothing to draw from exactly when no neighbour is free |
| Rooms.Pick | agentReact_Obstaculos.py:59 | `random.choice` returns one of the options |
| Rooms.PickCovers | agentReact_Obstaculos.py:63 | every option can be drawn |
| Cleaners.DecideValued | agentReact_Obstaculos.py:18-68 | the current cell is remembered; positive dirt gives `limpiar` and only then; `quieto` exactly when no neighbour is free; a move leads to a free neighbour, an unvisited one whenever one exists |
| Cleaners.ValuedStep | agentReact_Obstaculos.py:165-181 | one step only removes dirt; points rise by exactly the value read; points plus the dirt total are constant; the agent stays to clean, moves at most one unit, and stays on free cells |
| Cleaners.ValuedStepSound | agentReact_Obstaculos.py:151-159 | from a free start in a generated room, a step keeps the room generated and the agent on a free cell |
| Cleaners.FinalStepSound | agenteReactivoFinal.py:137-153 | without obstacles, a step keeps the room generated and the agent in bounds, and the agent scores exactly when it stood on dirt |
| Cleaners.CanDecideExactly | agenteReactivoMemoria.py:51-55 | the memory version's draw has something to draw from exactly when the grid has more than one cell |
| Cleaners.DecideMemory | agenteReactivoMemoria.py:17-57 | the current cell is remembered; dirt gives `limpiar` and only then; otherwise it moves to an in-bounds neighbour, an unvisited one whenever one exists |
| Cleaners.MemoryStep | agenteReactivoMemoria.py:120-130 | the count rises by one exactly when the cell was dirty; count plus remaining dirt is constant; on a clean cell the agent moves to another in-bounds cell |
| Cleaners.DecideSimple | agenteReactivo.py:14-19 | dirt gives `limpiar` and only then; otherwise a direction, never staying |
| Cleaners.SimpleStep | agenteReactivo.py:79-88 | a dirty cell is cleaned and counted with the agent staying put; a clean cell gives the clamped move; count plus remaining dirt is constant |
| Cleaners.Run | agenteReactivo.py:77-92 | the loop runs at least one step, stops right after the step that leaves the room clean and not before, keeps count plus remaining dirt constant, and keeps the agent on the grid |

## Left out

- Console output (`mostrar` and every `print`) and the matplotlib plot: they do not affect state.
- Map, dirt, obstacle and spawn generation, with its `while True` retry loops: the world is a parameter. What the generators guarantee is stated as `Fields.Generated` and `Rooms.Generated` and used as a precondition where the source relies on it.
- `random.choice`, `random.randint` and `random.sample`: every draw is a parameter and every contract holds for all draws.
- Python's set iteration order: replaced by the canonical lexicographic order. Dict key order is modelled.
- The obstacle kind (wall or tree) in the obstacle cleaner: it only matters for display.
- numpy's float dtype for `mapa_comida`: the heat map is a map to `nat`, since its entries only count up from zero or are reset.
- The outer `simular_*` step loops and step counters, except the tick of the two cooperative scripts and `simular_limpieza` of the memoryless cleaner (`Cleaners.Run`). The other loops are one step function iterated.
- Colony.SendEach: states no contract of its own beyond keeping the number of agents. Its effect, the `for pos in comida_local: enviar_mensaje` loop, is stated through `Colony.SendEachAppends`.
- Coordination.Outbox: states no contract of its own. The messages a turn sends are stated through `Coordination.OutboxClaims`.
- Coordination.Broadcast: states no contract of its own beyond keeping the number of agents. Its effect is stated through `Coordination.BroadcastAppends`.
- Coordination.Turn: `decidir_y_actuar` states no contract of its own beyond keeping the number of agents and the grid size. Its effect is stated through `Coordination.TurnActor`, `Coordination.TurnActs`, `Coordination.TurnDelivers`, `Coordination.TurnTouchesOnlyInboxes`, `Coordination.TurnConserves` and `Coordination.TurnKeepsOnGrid`.
- Coordination.CompeteTick: states no contract of its own beyond keeping the number of agents. It is `Coordination.Tick` in list order, and its mail is stated through `Coordination.CompeteTickMail`.
- Colony.Receive: states no contract of its own. Its effect is stated through `Colony.Send` and `Colony.SendEachAppends`.
- Rooms.DirtValue: states no contract of its own. It appears in the contracts of `Rooms.Scrub` and `Cleaners.ValuedStep`.
- Cleaners.Simulate: states no contract of its own. It is the reference that `Cleaners.Run` is stated against.
- Cleaners.DecideMemory: requires `Cleaners.CanDecide`, that the draw list is non-empty. On a one-cell grid `random.choice` on the empty list raises an error, and `Cleaners.CanDecideExactly` characterises exactly when that happens.
- HeatSeeker.Decide: requires the heat map to be non-empty, because `np.max` of an empty array raises. A heat map covering a grid of positive size always meets this.
- Coordination.Tick: the claiming script's `random.sample` order is the `order` parameter, required only to name existing agents (`Coordination.Schedule`). The mailbox lemmas additionally require each agent to act at most once and identities to be distinct, as a permutation of agents with ids `1..n` guarantees.
- The obstacle-ignoring move of the plain collector (agenteObjetivos.py:62-69) and its obstacle generation that may land on food (agenteObjetivos.py:103-105) are modelled as written, and `Forager.EntersObstacles` exhibits the first.
- The competing script lets agents start on food. The claiming script's spawn loop avoids food. Neither affects the model, which takes the agents as given.
