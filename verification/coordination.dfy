/** `AgenteCooperativo.decidir_y_actuar` and the per-tick loop of the two
    multi-agent collectors. `AvoidClaims` follows the script that announces
    and respects goals (`voy_a`); `Compete` follows the one that only shares
    food sightings. */
module Coordination {
  import opened Grid
  import opened Colony

  datatype Variant = AvoidClaims | Compete

  /** `percibir` looks this far (`radio=3`). */
  const Radius: int := 3

  /** The shared world and every agent, in the list order `agentes`. */
  datatype Swarm = Swarm(world: World, agents: seq<Agent>)

  ghost predicate UniqueIds(agents: seq<Agent>) {
    forall i, j :: 0 <= i < j < |agents| ==> agents[i].id != agents[j].id
  }

  function Sign(n: int): int { if n > 0 then 1 else if n < 0 then -1 else 0 }

  // ---------------------------------------------------------------------
  // Choosing a goal
  // ---------------------------------------------------------------------

  /** Keep a goal only while its cell still holds food. */
  function Revalidate(w: World, goal: Option<Cell>): (g: Option<Cell>)
    ensures g.Some? <==> goal.Some? && goal.value in w.food
    ensures g.Some? ==> g == goal
  {
    if goal.Some? && goal.value !in w.food then None else goal
  }

  /** The cells an agent without a goal may pick: seen locally or reported,
      and, when claims are respected, not claimed by anyone it heard from. */
  function Candidates(v: Variant, local: seq<Cell>, d: Digest): (s: set<Cell>)
    ensures forall c :: c in s <==>
              (c in local || c in d.reported) && (v == AvoidClaims ==> c !in d.claimed)
  {
    var all := set c | c in local + d.reported;
    if v == AvoidClaims then all - (set c | c in d.claimed) else all
  }

  /** `min(opciones, key=distance)`, or no goal when there is no option. */
  function Choose(origin: Cell, options: set<Cell>): (g: Option<Cell>)
    ensures g.None? <==> options == {}
    ensures g.Some? ==> (g.value in options &&
              forall c :: c in options ==> Dist(origin, g.value) <= Dist(origin, c))
  {
    if options == {} then None else Some(Nearest(options, origin))
  }

  /** What the agent settles on before moving: the drained inbox, what it
      sees, its goal for this turn, and the goal it announces, if any. */
  datatype Intent = Intent(digest: Digest, local: seq<Cell>, goal: Option<Cell>, claim: Option<Cell>)

  /** Whether the agent's current goal survives into this turn: always in
      the competing script, only while it still holds food otherwise. */
  predicate Keeps(v: Variant, w: World, me: Agent) {
    me.goal.Some? && (v == Compete || me.goal.value in w.food)
  }

  /** Drain, perceive, re-validate, select: the part of `decidir_y_actuar`
      before the agent moves. */
  function Intend(v: Variant, w: World, me: Agent): (it: Intent)
    ensures it.digest == Classify(me.inbox)
    ensures forall c :: c in it.local <==> c in w.food && Dist(me.pos, c) <= Radius
    ensures Keeps(v, w, me) ==> it.goal == me.goal && it.claim.None?
    ensures !Keeps(v, w, me) ==> it.claim == (if v == AvoidClaims then it.goal else None)
    ensures !Keeps(v, w, me) ==> (it.goal.None? <==> Candidates(v, it.local, it.digest) == {})
    ensures !Keeps(v, w, me) && it.goal.Some? ==>
              it.goal.value in Candidates(v, it.local, it.digest) &&
              forall c :: c in Candidates(v, it.local, it.digest) ==>
                Dist(me.pos, it.goal.value) <= Dist(me.pos, c)
    ensures v == AvoidClaims && it.goal.Some? && it.goal.value in it.digest.claimed ==>
              it.goal == me.goal
  {
    var digest := Classify(me.inbox);
    var local := Nearby(w, me.pos, Radius);
    var kept := if v == AvoidClaims then Revalidate(w, me.goal) else me.goal;
    if kept.Some? then Intent(digest, local, kept, None)
    else
      var g := Choose(me.pos, Candidates(v, local, digest));
      Intent(digest, local, g, if v == AvoidClaims then g else None)
  }

  /** The messages an intent gives rise to, in sending order: one food
      report per locally seen cell, then the claim if there is one. */
  function Letters(sender: int, it: Intent): seq<Message> {
    Messages(sender, FoodFound, it.local) +
    (if it.claim.Some? then [Message(sender, GoingTo, it.claim.value)] else [])
  }

  /** Everything agent `me` sends in its turn in world `w`. */
  function Outbox(v: Variant, w: World, me: Agent): seq<Message> {
    Letters(me.id, Intend(v, w, me))
  }

  /** The claiming script announces exactly the goals it newly picks, and
      only with a `voy_a` message; the competing script never claims. */
  lemma OutboxClaims(v: Variant, w: World, me: Agent, c: Cell)
    ensures Carries(Outbox(v, w, me), GoingTo, c) <==>
              v == AvoidClaims && !Keeps(v, w, me) && Intend(v, w, me).goal == Some(c)
  {
    var it := Intend(v, w, me);
    var reports := Messages(me.id, FoodFound, it.local);
    assert forall m :: m in reports ==> m.kind == FoodFound;
    if v == AvoidClaims && !Keeps(v, w, me) && it.goal == Some(c) {
      assert Outbox(v, w, me)[|reports|] == Message(me.id, GoingTo, c);
    }
  }

  // ---------------------------------------------------------------------
  // Moving and collecting
  // ---------------------------------------------------------------------

  /** The claiming script's step: close the x gap if that cell is valid,
      otherwise close the y gap if that cell is valid, otherwise stay. */
  function StepWithFallback(w: World, p: Cell, g: Cell): (r: Cell)
    ensures r == p || InBounds(w.width, w.height, r)
    ensures r == p || (r.y == p.y && Abs(r.x - p.x) == 1) || (r.x == p.x && Abs(r.y - p.y) == 1)
    ensures InBounds(w.width, w.height, p) && InBounds(w.width, w.height, g) && p != g ==>
              Dist(r, g) == Dist(p, g) - 1
    ensures InBounds(w.width, w.height, p) && InBounds(w.width, w.height, g) && p.x != g.x ==>
              r.y == p.y
  {
    var dx, dy := Sign(g.x - p.x), Sign(g.y - p.y);
    if dx != 0 && InBounds(w.width, w.height, Cell(p.x + dx, p.y)) then Cell(p.x + dx, p.y)
    else if dy != 0 && InBounds(w.width, w.height, Cell(p.x, p.y + dy)) then Cell(p.x, p.y + dy)
    else p
  }

  /** The competing script's step: the x move if x differs, else the y move,
      applied only when the destination is valid (no fallback to y). */
  function StepStrict(w: World, p: Cell, g: Cell): (r: Cell)
    ensures r == p || InBounds(w.width, w.height, r)
    ensures r == p || (r.y == p.y && Abs(r.x - p.x) == 1) || (r.x == p.x && Abs(r.y - p.y) == 1)
    ensures p.x != g.x ==> r.y == p.y
    ensures InBounds(w.width, w.height, p) && InBounds(w.width, w.height, g) && p != g ==>
              Dist(r, g) == Dist(p, g) - 1
  {
    var dx, dy := Sign(g.x - p.x), Sign(g.y - p.y);
    var n := if dx != 0 then Cell(p.x + dx, p.y)
             else if dy != 0 then Cell(p.x, p.y + dy)
             else p;
    if InBounds(w.width, w.height, n) then n else p
  }

  /** With no goal: the randomly drawn unit move, applied only when valid. */
  function RandomStep(w: World, p: Cell, d: Direction): (r: Cell)
    ensures r == p || InBounds(w.width, w.height, r)
    ensures r == p || r == Step(p, d)
    ensures InBounds(w.width, w.height, Step(p, d)) <==> r == Step(p, d)
  {
    var n := Step(p, d);
    if InBounds(w.width, w.height, n) then n else p
  }

  /** The movement half of the turn, for an agent whose goal is already
      settled: collect on arrival, else step towards the goal, else walk
      randomly with the drawn direction `rnd`. */
  function Advance(v: Variant, w: World, me: Agent, rnd: Direction): (r: (World, Agent))
    ensures r.1.id == me.id && r.1.inbox == me.inbox
    ensures r.0.width == w.width && r.0.height == w.height
    ensures me.goal == Some(me.pos) ==>
              && r.0.food == w.food - {me.pos}
              && r.1.collected == me.collected + (if me.pos in w.food then 1 else 0)
              && r.1.goal.None? && r.1.pos == me.pos
    ensures me.goal != Some(me.pos) ==>
              r.0 == w && r.1.collected == me.collected && r.1.goal == me.goal
    ensures Dist(me.pos, r.1.pos) <= 1
    ensures r.1.pos == me.pos || InBounds(w.width, w.height, r.1.pos)
    ensures me.goal.Some? && me.goal != Some(me.pos) && InBounds(w.width, w.height, me.pos) &&
            InBounds(w.width, w.height, me.goal.value) ==>
              Dist(r.1.pos, me.goal.value) == Dist(me.pos, me.goal.value) - 1
  {
    if me.goal.Some? then
      if me.pos == me.goal.value then
        var (ok, w') := Collect(w, me.pos);
        (w', me.(collected := me.collected + (if ok then 1 else 0), goal := None))
      else
        var p := if v == AvoidClaims then StepWithFallback(w, me.pos, me.goal.value)
                 else StepStrict(w, me.pos, me.goal.value);
        (w, me.(pos := p))
    else
      (w, me.(pos := RandomStep(w, me.pos, rnd)))
  }

  // ---------------------------------------------------------------------
  // One turn
  // ---------------------------------------------------------------------

  /** Deliver an intent's letters: the sightings, one `enviar_mensaje` each,
      then the claim, every one to all agents but the sender. */
  function Broadcast(agents: seq<Agent>, sender: int, it: Intent): (r: seq<Agent>)
    ensures |r| == |agents|
  {
    var reported := SendEach(agents, sender, FoodFound, it.local);
    if it.claim.Some? then Send(reported, sender, GoingTo, it.claim.value) else reported
  }

  lemma BroadcastAppends(agents: seq<Agent>, sender: int, it: Intent)
    ensures forall j :: 0 <= j < |agents| && agents[j].id != sender ==>
              Broadcast(agents, sender, it)[j] ==
                agents[j].(inbox := agents[j].inbox + Letters(sender, it))
    ensures forall j :: 0 <= j < |agents| && agents[j].id == sender ==>
              Broadcast(agents, sender, it)[j] == agents[j]
  {
    SendEachAppends(agents, sender, FoodFound, it.local);
    var reports := Messages(sender, FoodFound, it.local);
    var claim := if it.claim.Some? then [Message(sender, GoingTo, it.claim.value)] else [];
    forall j | 0 <= j < |agents| && agents[j].id != sender
      ensures Broadcast(agents, sender, it)[j].inbox == agents[j].inbox + Letters(sender, it)
    {
      assert (agents[j].inbox + reports) + claim == agents[j].inbox + (reports + claim);
    }
  }

  /** `agentes[i].decidir_y_actuar(otros)`: drain the inbox, share sightings,
      settle the goal, announce it, then move or collect. */
  function Turn(v: Variant, s: Swarm, i: nat, rnd: Direction): (r: Swarm)
    requires i < |s.agents|
    ensures |r.agents| == |s.agents|
    ensures r.world.width == s.world.width && r.world.height == s.world.height
  {
    var me := s.agents[i];
    var (_, drained) := ProcessMessages(me);
    var it := Intend(v, s.world, me);
    var others := Broadcast(s.agents[i := drained], me.id, it);
    var (w', moved) := Advance(v, s.world, drained.(goal := it.goal), rnd);
    Swarm(w', others[i := moved])
  }

  /** What a turn does to the population: every other agent has the turn's
      outbox appended to its inbox and is otherwise unchanged; the acting
      agent ends with an empty inbox, never having messaged itself. */
  lemma TurnDelivers(v: Variant, s: Swarm, i: nat, rnd: Direction)
    requires i < |s.agents| && UniqueIds(s.agents)
    ensures forall j :: 0 <= j < |s.agents| && j != i ==>
              Turn(v, s, i, rnd).agents[j] ==
                s.agents[j].(inbox := s.agents[j].inbox + Outbox(v, s.world, s.agents[i]))
    ensures Turn(v, s, i, rnd).agents[i].inbox == []
    ensures Turn(v, s, i, rnd).agents[i].id == s.agents[i].id
  {
    var me := s.agents[i];
    BroadcastAppends(s.agents[i := me.(inbox := [])], me.id, Intend(v, s.world, me));
  }

  /** The turn's effect on the acting agent and the world: the world keeps
      its size and only loses food, the agent moves at most one cell and
      stays on the grid, each cell of food it removes is one point for it,
      and (claiming script) it neither keeps after its move nor collects a
      cell it heard claimed unless that cell was already its goal. */
  lemma TurnActs(v: Variant, s: Swarm, i: nat, rnd: Direction)
    requires i < |s.agents|
    ensures var me, me' := s.agents[i], Turn(v, s, i, rnd).agents[i];
            var w, w' := s.world, Turn(v, s, i, rnd).world;
            && w'.food <= w.food
            && Dist(me.pos, me'.pos) <= 1
            && (InBounds(w.width, w.height, me.pos) ==> InBounds(w.width, w.height, me'.pos))
            && me'.collected + |w'.food| == me.collected + |w.food|
            && ((v == AvoidClaims && me'.goal.Some? &&
                 me'.goal.value in Classify(me.inbox).claimed) ==> me'.goal == me.goal)
            && (v == AvoidClaims ==>
                  forall c :: c in Classify(me.inbox).claimed && c in w.food - w'.food ==>
                    me.goal == Some(c))
  {
    var me := s.agents[i];
    var moved := me.(inbox := [], goal := Intend(v, s.world, me).goal);
    var a := Advance(v, s.world, moved, rnd);
    TurnActor(v, s, i, rnd);
    if moved.goal == Some(moved.pos) {
      assert a.1.goal.None?;
      assert |s.world.food - {me.pos}| + (if me.pos in s.world.food then 1 else 0) == |s.world.food|;
    }
  }

  /** The acting agent and the world after a turn are what `Advance` makes
      of the agent with its inbox drained and its goal settled. */
  lemma TurnActor(v: Variant, s: Swarm, i: nat, rnd: Direction)
    requires i < |s.agents|
    ensures var me := s.agents[i];
            var a := Advance(v, s.world, me.(inbox := [], goal := Intend(v, s.world, me).goal), rnd);
            Turn(v, s, i, rnd).world == a.0 && Turn(v, s, i, rnd).agents[i] == a.1
  {}

  // ---------------------------------------------------------------------
  // One tick
  // ---------------------------------------------------------------------

  /** A turn order over the agents, with one random draw per turn. */
  predicate Schedule(s: Swarm, order: seq<nat>, moves: seq<Direction>) {
    |moves| == |order| && forall k :: 0 <= k < |order| ==> order[k] < |s.agents|
  }

  /** Each agent acts at most once per tick. */
  predicate Distinct(order: seq<nat>) {
    forall a, b :: 0 <= a < b < |order| ==> order[a] != order[b]
  }

  /** One tick: the agents listed in `order` act one after another, in the
      same shared world, agent `order[k]` drawing `moves[k]`. */
  function Tick(v: Variant, s: Swarm, order: seq<nat>, moves: seq<Direction>): (r: Swarm)
    requires Schedule(s, order, moves)
    ensures |r.agents| == |s.agents|
    ensures r.world.width == s.world.width && r.world.height == s.world.height
    decreases |order|
  {
    if order == [] then s
    else
      var n := |order| - 1;
      Turn(v, Tick(v, s, order[..n], moves[..n]), order[n], moves[n])
  }

  /** The state just before the `k`-th turn of the tick. */
  function Before(v: Variant, s: Swarm, order: seq<nat>, moves: seq<Direction>, k: nat): (r: Swarm)
    requires Schedule(s, order, moves) && k <= |order|
    ensures |r.agents| == |s.agents|
  {
    Tick(v, s, order[..k], moves[..k])
  }

  lemma BeforeNext(v: Variant, s: Swarm, order: seq<nat>, moves: seq<Direction>, k: nat)
    requires Schedule(s, order, moves) && k < |order|
    ensures Before(v, s, order, moves, k + 1) ==
              Turn(v, Before(v, s, order, moves, k), order[k], moves[k])
  {
    assert order[..k + 1][..k] == order[..k];
    assert moves[..k + 1][..k] == moves[..k];
  }

  /** The outbox of each turn of the tick, in turn order. */
  function Outboxes(v: Variant, s: Swarm, order: seq<nat>, moves: seq<Direction>): (outs: seq<seq<Message>>)
    requires Schedule(s, order, moves)
    ensures |outs| == |order|
    ensures forall k :: 0 <= k < |order| ==>
              outs[k] == Outbox(v, Before(v, s, order, moves, k).world,
                                Before(v, s, order, moves, k).agents[order[k]])
  {
    seq(|order|, k requires 0 <= k < |order| =>
      Outbox(v, Before(v, s, order, moves, k).world, Before(v, s, order, moves, k).agents[order[k]]))
  }

  /** Batches of messages, one after the other. */
  function Concat(xs: seq<seq<Message>>): seq<Message> {
    if xs == [] then [] else Concat(xs[..|xs| - 1]) + xs[|xs| - 1]
  }

  lemma ConcatSnoc(xs: seq<seq<Message>>, lo: nat, hi: nat)
    requires lo <= hi < |xs|
    ensures Concat(xs[lo..hi + 1]) == Concat(xs[lo..hi]) + xs[hi]
  {
    assert xs[lo..hi + 1][..hi - lo] == xs[lo..hi];
  }

  lemma {:induction false} ConcatIncludes(xs: seq<seq<Message>>, lo: nat, a: nat, hi: nat)
    requires lo <= a < hi <= |xs|
    ensures forall m :: m in xs[a] ==> m in Concat(xs[lo..hi])
    decreases hi
  {
    ConcatSnoc(xs, lo, hi - 1);
    if a < hi - 1 {
      ConcatIncludes(xs, lo, a, hi - 1);
    }
  }

  /** The messages sent by turns `lo` to `hi - 1` of the tick, in order. */
  function Sent(v: Variant, s: Swarm, order: seq<nat>, moves: seq<Direction>, lo: nat, hi: nat): seq<Message>
    requires Schedule(s, order, moves) && lo <= hi <= |order|
  {
    Concat(Outboxes(v, s, order, moves)[lo..hi])
  }

  /** The mailbox discipline after the first `n` turns of a tick, for any
      population `now` reached from `init` with turn outboxes `outs`: agents
      that have not acted yet hold what they held plus everything sent so
      far; an agent that acted in turn `b` holds exactly what was sent after
      it. */
  ghost predicate MailAt(init: seq<Agent>, now: seq<Agent>, order: seq<nat>,
                         outs: seq<seq<Message>>, n: nat)
    requires n <= |order| && n <= |outs|
    requires |now| == |init| && forall k :: 0 <= k < |order| ==> order[k] < |init|
  {
    && (forall j :: 0 <= j < |init| && j !in order[..n] ==>
          now[j].inbox == init[j].inbox + Concat(outs[0..n]))
    && (forall b :: 0 <= b < n ==> now[order[b]].inbox == Concat(outs[b + 1..n]))
  }

  lemma MailStep(init: seq<Agent>, prev: seq<Agent>, next: seq<Agent>, order: seq<nat>,
                 outs: seq<seq<Message>>, n: nat)
    requires n < |order| && n < |outs| && Distinct(order)
    requires |prev| == |init| && |next| == |init| && forall k :: 0 <= k < |order| ==> order[k] < |init|
    requires MailAt(init, prev, order, outs, n)
    requires forall j :: 0 <= j < |init| && j != order[n] ==> next[j].inbox == prev[j].inbox + outs[n]
    requires next[order[n]].inbox == []
    ensures MailAt(init, next, order, outs, n + 1)
  {
    var i := order[n];
    forall j | 0 <= j < |init| && j !in order[..n + 1]
      ensures next[j].inbox == init[j].inbox + Concat(outs[0..n + 1])
    {
      assert order[..n + 1] == order[..n] + [i];
      ConcatSnoc(outs, 0, n);
      assert (init[j].inbox + Concat(outs[0..n])) + outs[n] ==
             init[j].inbox + (Concat(outs[0..n]) + outs[n]);
    }
    forall b | 0 <= b < n + 1
      ensures next[order[b]].inbox == Concat(outs[b + 1..n + 1])
    {
      if b < n {
        assert order[b] != i;
        ConcatSnoc(outs, b + 1, n);
      }
    }
  }

  /** The mailbox discipline of a tick after its first `n` turns;
      identities never change. */
  ghost predicate Mailboxes(v: Variant, s: Swarm, order: seq<nat>, moves: seq<Direction>, n: nat)
    requires Schedule(s, order, moves) && n <= |order|
  {
    var now := Before(v, s, order, moves, n);
    && (forall j :: 0 <= j < |s.agents| ==> now.agents[j].id == s.agents[j].id)
    && MailAt(s.agents, now.agents, order, Outboxes(v, s, order, moves), n)
  }

  lemma {:induction false} InboxesAfter(v: Variant, s: Swarm, order: seq<nat>, moves: seq<Direction>, n: nat)
    requires Schedule(s, order, moves) && Distinct(order) && UniqueIds(s.agents) && n <= |order|
    ensures Mailboxes(v, s, order, moves, n)
  {
    if n > 0 {
      InboxesAfter(v, s, order, moves, n - 1);
      MailboxesStep(v, s, order, moves, n - 1);
    } else {
      assert order[..0] == [] && moves[..0] == [];
    }
  }

  lemma MailboxesStep(v: Variant, s: Swarm, order: seq<nat>, moves: seq<Direction>, n: nat)
    requires Schedule(s, order, moves) && Distinct(order) && UniqueIds(s.agents) && n < |order|
    requires Mailboxes(v, s, order, moves, n)
    ensures Mailboxes(v, s, order, moves, n + 1)
  {
    var prev := Before(v, s, order, moves, n);
    var next := Before(v, s, order, moves, n + 1);
    var outs := Outboxes(v, s, order, moves);
    BeforeNext(v, s, order, moves, n);
    assert UniqueIds(prev.agents);
    TurnDelivers(v, prev, order[n], moves[n]);
    MailStep(s.agents, prev.agents, next.agents, order, outs, n);
  }

  /** Within a tick, the agent acting in turn `b` processes everything its
      predecessors in this tick sent, after what it already held. */
  lemma SeesEarlierTurns(v: Variant, s: Swarm, order: seq<nat>, moves: seq<Direction>, b: nat)
    requires Schedule(s, order, moves) && Distinct(order) && UniqueIds(s.agents) && b < |order|
    ensures Before(v, s, order, moves, b).agents[order[b]].inbox ==
              s.agents[order[b]].inbox + Sent(v, s, order, moves, 0, b)
  {
    InboxesAfter(v, s, order, moves, b);
    assert order[b] !in order[..b];
  }

  /** What agents acting later in the tick send waits for the next tick:
      after the tick, the agent of turn `b` holds exactly those messages. */
  lemma LaterTurnsWait(v: Variant, s: Swarm, order: seq<nat>, moves: seq<Direction>, b: nat)
    requires Schedule(s, order, moves) && Distinct(order) && UniqueIds(s.agents) && b < |order|
    ensures Tick(v, s, order, moves).agents[order[b]].inbox ==
              Sent(v, s, order, moves, b + 1, |order|)
  {
    InboxesAfter(v, s, order, moves, |order|);
    var now := Before(v, s, order, moves, |order|);
    MailAtActed(s.agents, now.agents, order, Outboxes(v, s, order, moves), |order|, b);
    BeforeEnd(v, s, order, moves);
  }

  lemma BeforeEnd(v: Variant, s: Swarm, order: seq<nat>, moves: seq<Direction>)
    requires Schedule(s, order, moves)
    ensures Before(v, s, order, moves, |order|) == Tick(v, s, order, moves)
  {
    assert order[..|order|] == order && moves[..|order|] == moves;
  }

  lemma MailAtActed(init: seq<Agent>, now: seq<Agent>, order: seq<nat>, outs: seq<seq<Message>>,
                    n: nat, b: nat)
    requires b < n <= |order| && n <= |outs|
    requires |now| == |init| && forall k :: 0 <= k < |order| ==> order[k] < |init|
    requires MailAt(init, now, order, outs, n)
    ensures now[order[b]].inbox == Concat(outs[b + 1..n])
  {}

  /** Claim avoidance in the claiming script: once an agent has claimed `c`
      in turn `a`, an agent acting later in the same tick settles on `c`
      only if `c` was already its goal, so it never newly adopts `c`, and
      it never collects `c` unless `c` was already its goal. */
  lemma LaterClaimantBacksOff(s: Swarm, order: seq<nat>, moves: seq<Direction>, a: nat, b: nat, c: Cell)
    requires Schedule(s, order, moves) && Distinct(order) && UniqueIds(s.agents)
    requires a < b < |order|
    ensures var pa, pb := Before(AvoidClaims, s, order, moves, a), Before(AvoidClaims, s, order, moves, b);
            Carries(Outbox(AvoidClaims, pa.world, pa.agents[order[a]]), GoingTo, c) &&
            Intend(AvoidClaims, pb.world, pb.agents[order[b]]).goal == Some(c) ==>
              pb.agents[order[b]].goal == Some(c)
    ensures var pa, pb := Before(AvoidClaims, s, order, moves, a), Before(AvoidClaims, s, order, moves, b);
            Carries(Outbox(AvoidClaims, pa.world, pa.agents[order[a]]), GoingTo, c) &&
            c in pb.world.food && c !in Before(AvoidClaims, s, order, moves, b + 1).world.food ==>
              pb.agents[order[b]].goal == Some(c)
    ensures var pa := Before(AvoidClaims, s, order, moves, a);
            Carries(Outbox(AvoidClaims, pa.world, pa.agents[order[a]]), GoingTo, c) &&
            Before(AvoidClaims, s, order, moves, b + 1).agents[order[b]].goal == Some(c) ==>
              Before(AvoidClaims, s, order, moves, b).agents[order[b]].goal == Some(c)
  {
    var v := AvoidClaims;
    var pa := Before(v, s, order, moves, a);
    if Carries(Outbox(v, pa.world, pa.agents[order[a]]), GoingTo, c) {
      var pb := Before(v, s, order, moves, b);
      var m :| m in Outbox(v, pa.world, pa.agents[order[a]]) && m.kind == GoingTo && m.content == c;
      ConcatIncludes(Outboxes(v, s, order, moves), 0, a, b);
      SeesEarlierTurns(v, s, order, moves, b);
      assert m in pb.agents[order[b]].inbox;
      assert c in Classify(pb.agents[order[b]].inbox).claimed;
      BeforeNext(v, s, order, moves, b);
      TurnActs(v, pb, order[b], moves[b]);
    }
  }

  /** `range(n)`: the competing script's fixed list order. */
  function ListOrder(n: nat): (order: seq<nat>)
    ensures |order| == n && forall k :: 0 <= k < n ==> order[k] == k
  {
    seq(n, k => k)
  }

  /** A tick of the competing script: every agent acts once, in list order. */
  function CompeteTick(s: Swarm, moves: seq<Direction>): (r: Swarm)
    requires |moves| == |s.agents|
    ensures |r.agents| == |s.agents|
  {
    Tick(Compete, s, ListOrder(|s.agents|), moves)
  }

  /** In list order, agent `k` processes what agents `0..k-1` sent this tick
      and ends the tick holding what agents `k+1..` sent. */
  lemma CompeteTickMail(s: Swarm, moves: seq<Direction>, k: nat)
    requires |moves| == |s.agents| && UniqueIds(s.agents) && k < |s.agents|
    ensures var order := ListOrder(|s.agents|);
            && Before(Compete, s, order, moves, k).agents[k].inbox ==
                 s.agents[k].inbox + Sent(Compete, s, order, moves, 0, k)
            && CompeteTick(s, moves).agents[k].inbox ==
                 Sent(Compete, s, order, moves, k + 1, |s.agents|)
  {
    var order := ListOrder(|s.agents|);
    SeesEarlierTurns(Compete, s, order, moves, k);
    LaterTurnsWait(Compete, s, order, moves, k);
  }

  // ---------------------------------------------------------------------
  // Conservation
  // ---------------------------------------------------------------------

  /** The total score of a population. */
  function Total(agents: seq<Agent>): nat {
    if agents == [] then 0 else agents[0].collected + Total(agents[1..])
  }

  /** Changing one agent's score changes the total by the same amount. */
  lemma {:induction false} TotalUpdate(a: seq<Agent>, b: seq<Agent>, i: nat)
    requires |a| == |b| && i < |a|
    requires forall j :: 0 <= j < |a| && j != i ==> a[j].collected == b[j].collected
    ensures Total(b) + a[i].collected == Total(a) + b[i].collected
    decreases |a|
  {
    if i > 0 {
      TotalUpdate(a[1..], b[1..], i - 1);
    } else {
      TotalSame(a[1..], b[1..]);
    }
  }

  lemma {:induction false} TotalSame(a: seq<Agent>, b: seq<Agent>)
    requires |a| == |b|
    requires forall j :: 0 <= j < |a| ==> a[j].collected == b[j].collected
    ensures Total(a) == Total(b)
    decreases |a|
  {
    if a != [] {
      TotalSame(a[1..], b[1..]);
    }
  }

  /** A turn changes no other agent except for its inbox. */
  lemma TurnTouchesOnlyInboxes(v: Variant, s: Swarm, i: nat, rnd: Direction)
    requires i < |s.agents|
    ensures forall j :: 0 <= j < |s.agents| && j != i ==>
              Turn(v, s, i, rnd).agents[j] == s.agents[j].(inbox := Turn(v, s, i, rnd).agents[j].inbox)
  {
    var me := s.agents[i];
    BroadcastAppends(s.agents[i := me.(inbox := [])], me.id, Intend(v, s.world, me));
  }

  /** Every point scored is a cell of food gone from the world: score plus
      remaining food is the same after a turn. */
  lemma TurnConserves(v: Variant, s: Swarm, i: nat, rnd: Direction)
    requires i < |s.agents|
    ensures Total(Turn(v, s, i, rnd).agents) + |Turn(v, s, i, rnd).world.food| ==
              Total(s.agents) + |s.world.food|
  {
    TurnTouchesOnlyInboxes(v, s, i, rnd);
    TurnActs(v, s, i, rnd);
    TotalUpdate(s.agents, Turn(v, s, i, rnd).agents, i);
  }

  /** No food is counted twice: over a tick, score plus remaining food is
      constant, so the swarm never scores more than the food there was. */
  lemma {:induction false} TickConserves(v: Variant, s: Swarm, order: seq<nat>, moves: seq<Direction>)
    requires Schedule(s, order, moves)
    ensures Total(Tick(v, s, order, moves).agents) + |Tick(v, s, order, moves).world.food| ==
              Total(s.agents) + |s.world.food|
    ensures Total(Tick(v, s, order, moves).agents) <= Total(s.agents) + |s.world.food|
    decreases |order|
  {
    if order != [] {
      var n := |order| - 1;
      assert Schedule(s, order[..n], moves[..n]);
      TickConserves(v, s, order[..n], moves[..n]);
      TurnConserves(v, Tick(v, s, order[..n], moves[..n]), order[n], moves[n]);
    }
  }

  /** Every agent on the grid stays on the grid through a tick. */
  ghost predicate OnGrid(s: Swarm) {
    forall j :: 0 <= j < |s.agents| ==> InBounds(s.world.width, s.world.height, s.agents[j].pos)
  }

  /** A turn moves only the acting agent, and that one stays on the grid. */
  lemma TurnKeepsOnGrid(v: Variant, s: Swarm, i: nat, rnd: Direction)
    requires i < |s.agents| && OnGrid(s)
    ensures forall j :: 0 <= j < |s.agents| && j != i ==> Turn(v, s, i, rnd).agents[j].pos == s.agents[j].pos
    ensures OnGrid(Turn(v, s, i, rnd))
  {
    TurnTouchesOnlyInboxes(v, s, i, rnd);
    TurnActs(v, s, i, rnd);
  }

  lemma {:induction false} TickKeepsOnGrid(v: Variant, s: Swarm, order: seq<nat>, moves: seq<Direction>)
    requires Schedule(s, order, moves) && OnGrid(s)
    ensures OnGrid(Tick(v, s, order, moves))
    decreases |order|
  {
    if order != [] {
      var n := |order| - 1;
      assert Schedule(s, order[..n], moves[..n]);
      TickKeepsOnGrid(v, s, order[..n], moves[..n]);
      TurnKeepsOnGrid(v, Tick(v, s, order[..n], moves[..n]), order[n], moves[n]);
    }
  }
}
