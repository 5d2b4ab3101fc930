/** The world and the mailboxes shared by the two multi-agent collectors
    (`EntornoMultiAgente` and the messaging half of `AgenteCooperativo`),
    which are the same code in both scripts. */
module Colony {
  import opened Grid

  /** `EntornoMultiAgente`: the grid size and the set of food cells. */
  datatype World = World(width: int, height: int, food: set<Cell>)

  /** The message kinds: `'comida_encontrada'`, `'voy_a'`, and any other tag,
      which the receiver ignores. */
  datatype Kind = FoodFound | GoingTo | OtherKind(tag: string)

  /** The dict `{'de': ..., 'tipo': ..., 'contenido': ...}`. */
  datatype Message = Message(sender: int, kind: Kind, content: Cell)

  /** `AgenteCooperativo`: identity, position, food collected, optional goal
      and the inbox `mensajes`. */
  datatype Agent = Agent(id: int, pos: Cell, collected: nat, goal: Option<Cell>,
                         inbox: seq<Message>)

  // ---------------------------------------------------------------------
  // The world
  // ---------------------------------------------------------------------

  /** `obtener_comida_cercana(x, y, radio)`: the food cells within Manhattan
      distance `radius`, each once, listed in the order the food set is
      iterated. The world is not changed (it is not returned). */
  function Nearby(w: World, origin: Cell, radius: int): (r: seq<Cell>)
    ensures forall c :: c in r <==> c in w.food && Dist(origin, c) <= radius
    ensures StrictlySorted(r)
  {
    WithinRadius(Enumerate(w.food), origin, radius)
  }

  /** `recolectar_comida(x, y)`: succeeds, removing the cell, exactly when the
      cell holds food; nothing else in the world changes. */
  function Collect(w: World, c: Cell): (r: (bool, World))
    ensures r.0 <==> c in w.food
    ensures r.1 == w.(food := w.food - {c})
    ensures |r.1.food| == if r.0 then |w.food| - 1 else |w.food|
  {
    if c in w.food then (true, w.(food := w.food - {c})) else (false, w)
  }

  /** Consume-once: right after a collection at `c`, a second one at `c`
      fails and leaves the world as it is. */
  lemma CollectOnce(w: World, c: Cell)
    ensures !Collect(Collect(w, c).1, c).0
    ensures Collect(Collect(w, c).1, c).1 == Collect(w, c).1
  {}

  // ---------------------------------------------------------------------
  // Mailboxes
  // ---------------------------------------------------------------------

  /** `recibir_mensaje`: append one message to the end of the inbox. */
  function Receive(a: Agent, m: Message): Agent {
    a.(inbox := a.inbox + [m])
  }

  /** `enviar_mensaje(otros, tipo, contenido)`, with `otros` the agents whose
      id differs from the sender's, as the simulation loop builds it: every
      such agent receives the message; the others are untouched. */
  function Send(agents: seq<Agent>, sender: int, kind: Kind, content: Cell): (r: seq<Agent>)
    ensures |r| == |agents|
    ensures forall j :: 0 <= j < |agents| && agents[j].id != sender ==>
              r[j] == Receive(agents[j], Message(sender, kind, content))
    ensures forall j :: 0 <= j < |agents| && agents[j].id == sender ==> r[j] == agents[j]
  {
    seq(|agents|, j requires 0 <= j < |agents| =>
      if agents[j].id != sender then Receive(agents[j], Message(sender, kind, content))
      else agents[j])
  }

  /** The messages of one kind, from one sender, one per content cell. */
  function Messages(sender: int, kind: Kind, contents: seq<Cell>): (ms: seq<Message>)
    ensures |ms| == |contents|
    ensures forall k :: 0 <= k < |ms| ==> ms[k] == Message(sender, kind, contents[k])
  {
    if contents == [] then []
    else [Message(sender, kind, contents[0])] + Messages(sender, kind, contents[1..])
  }

  /** The loop `for pos in comida_local: enviar_mensaje(otros, ...)`: one
      `enviar_mensaje` per content cell, in order. */
  function SendEach(agents: seq<Agent>, sender: int, kind: Kind, contents: seq<Cell>): (r: seq<Agent>)
    ensures |r| == |agents|
    decreases |contents|
  {
    if contents == [] then agents
    else SendEach(Send(agents, sender, kind, contents[0]), sender, kind, contents[1..])
  }

  /** Sending one message per cell appends, to the inbox of every agent other
      than the sender, exactly those messages in order, and changes nothing
      else. */
  lemma SendEachAppends(agents: seq<Agent>, sender: int, kind: Kind, contents: seq<Cell>)
    ensures |SendEach(agents, sender, kind, contents)| == |agents|
    ensures forall j :: 0 <= j < |agents| && agents[j].id != sender ==>
              SendEach(agents, sender, kind, contents)[j] ==
                agents[j].(inbox := agents[j].inbox + Messages(sender, kind, contents))
    ensures forall j :: 0 <= j < |agents| && agents[j].id == sender ==>
              SendEach(agents, sender, kind, contents)[j] == agents[j]
  {
    forall j | 0 <= j < |agents|
      ensures SendEach(agents, sender, kind, contents)[j] ==
                if agents[j].id != sender
                then agents[j].(inbox := agents[j].inbox + Messages(sender, kind, contents))
                else agents[j]
    {
      SendEachAt(agents, sender, kind, contents, j);
    }
  }

  /** `SendEachAppends` for one agent. */
  lemma {:induction false} SendEachAt(agents: seq<Agent>, sender: int, kind: Kind, contents: seq<Cell>,
                                      j: nat)
    requires j < |agents|
    ensures SendEach(agents, sender, kind, contents)[j] ==
              if agents[j].id != sender
              then agents[j].(inbox := agents[j].inbox + Messages(sender, kind, contents))
              else agents[j]
    decreases |contents|
  {
    if contents != [] {
      var next := Send(agents, sender, kind, contents[0]);
      SendEachAt(next, sender, kind, contents[1..], j);
      if agents[j].id != sender {
        SendOneAt(agents, sender, kind, contents, j);
      }
    }
  }

  lemma SendOneAt(agents: seq<Agent>, sender: int, kind: Kind, contents: seq<Cell>, j: nat)
    requires j < |agents| && contents != [] && agents[j].id != sender
    ensures var inbox := Send(agents, sender, kind, contents[0])[j].inbox;
            inbox + Messages(sender, kind, contents[1..]) ==
              agents[j].inbox + Messages(sender, kind, contents)
  {
    var m := Message(sender, kind, contents[0]);
    var rest := Messages(sender, kind, contents[1..]);
    assert Messages(sender, kind, contents) == [m] + rest;
    assert (agents[j].inbox + [m]) + rest == agents[j].inbox + ([m] + rest);
  }

  /** What `procesar_mensajes` extracts: the contents of the food reports and
      of the claims, each in arrival order. */
  datatype Digest = Digest(reported: seq<Cell>, claimed: seq<Cell>)

  ghost predicate Carries(inbox: seq<Message>, kind: Kind, c: Cell) {
    exists m :: m in inbox && m.kind == kind && m.content == c
  }

  function Classify(inbox: seq<Message>): (d: Digest)
    ensures forall c :: c in d.reported <==> Carries(inbox, FoodFound, c)
    ensures forall c :: c in d.claimed <==> Carries(inbox, GoingTo, c)
    ensures |d.reported| + |d.claimed| <= |inbox|
  {
    if inbox == [] then Digest([], [])
    else
      var rest := Classify(inbox[1..]);
      var m := inbox[0];
      assert forall k, c :: Carries(inbox, k, c) <==>
        (m.kind == k && m.content == c) || Carries(inbox[1..], k, c) by {
        assert forall x :: x in inbox <==> x == m || x in inbox[1..];
      }
      match m.kind
      case FoodFound => Digest([m.content] + rest.reported, rest.claimed)
      case GoingTo => Digest(rest.reported, [m.content] + rest.claimed)
      case OtherKind(_) => rest
  }

  /** Classification respects arrival order: classifying two batches one
      after the other is classifying their concatenation. */
  lemma {:induction false} ClassifyConcat(a: seq<Message>, b: seq<Message>)
    ensures Classify(a + b) == Digest(Classify(a).reported + Classify(b).reported,
                                      Classify(a).claimed + Classify(b).claimed)
    decreases |a|
  {
    if a != [] {
      assert (a + b)[1..] == a[1..] + b;
      ClassifyConcat(a[1..], b);
    } else {
      assert a + b == b;
    }
  }

  /** A batch of food reports classifies to exactly its cells, in order. */
  lemma {:induction false} ClassifyReports(sender: int, contents: seq<Cell>)
    ensures Classify(Messages(sender, FoodFound, contents)) == Digest(contents, [])
    decreases |contents|
  {
    if contents != [] {
      var ms := Messages(sender, FoodFound, contents);
      var tail := Messages(sender, FoodFound, contents[1..]);
      assert ms[0].kind == FoodFound && ms[1..] == tail;
      ClassifyReports(sender, contents[1..]);
      assert Classify(ms) == Digest([contents[0]] + Classify(tail).reported, Classify(tail).claimed);
      assert [contents[0]] + contents[1..] == contents;
    }
  }

  /** `procesar_mensajes`: classify the inbox and clear it. */
  function ProcessMessages(a: Agent): (r: (Digest, Agent))
    ensures r.1.inbox == [] && r.1 == a.(inbox := [])
    ensures forall c :: c in r.0.reported <==> Carries(a.inbox, FoodFound, c)
    ensures forall c :: c in r.0.claimed <==> Carries(a.inbox, GoingTo, c)
  {
    (Classify(a.inbox), a.(inbox := []))
  }
}
