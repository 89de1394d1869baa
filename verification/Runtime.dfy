/**
 The runtime loop: client writes set a value and a pending flag; each tick sends the
 pending writes to the PLC, polls every node, evaluates the events and, every so many
 ticks, snapshots the values.
 */
module Runtime {
  import opened EdgeTypes
  import opened ModbusWire
  import opened ModbusLink
  import opened ThresholdEvents
  import opened LatestValues

  // The outside world, as oracles.
  datatype World = World(modbus: Env, events: EventEnv, store: StoreEnv, server: bool, nowMs: nat -> nat)

  // ---- Client access ----------------------------------------------------

  // What a client sends: nothing, a scalar of a supported type, or any other variant.
  datatype Payload = NoValue | Scalar(value: Value) | OtherVariant

  datatype UaStatus = Good | BadNotWritable | BadTypeMismatch

  function WriteEdgeNode(node: Node, payload: Payload): (Node, UaStatus) {
    if !node.spec.writable || payload.NoValue? then (node, BadNotWritable)
    else if payload.Scalar? && TypeOf(payload.value) == node.spec.dataType then
      (node.(value := payload.value, pending := true), Good)
    else (node, BadTypeMismatch)
  }

  // ---- Draining pending writes ------------------------------------------

  datatype WriteCall = WriteCall(node: nat, value: Value)

  function DrainFrom(env: Env, l: Link, nodes: seq<Node>, i: nat): (r: (Link, seq<Node>, seq<WriteCall>))
    requires i <= |nodes|
    decreases |nodes| - i
  {
    if i == |nodes| then (l, nodes, [])
    else if !nodes[i].spec.writable || !nodes[i].pending then DrainFrom(env, l, nodes, i + 1)
    else
      var (l', _) := WriteNode(env, l, nodes[i]);
      var (l2, nodes2, calls) := DrainFrom(env, l', nodes[i := nodes[i].(pending := false)], i + 1);
      (l2, nodes2, [WriteCall(i, nodes[i].value)] + calls)
  }

  // ---- The system and its steps -----------------------------------------

  // calls: every write handed to the link, in order. views: the nodes as each event pass saw
  // them. snapshots: the nodes as each successful persist saw them.
  datatype System = System(
    nodes: seq<Node>, link: Link, events: EventState, db: Db,
    ticks: nat, persistEvery: nat,
    calls: seq<WriteCall>, views: seq<seq<Node>>, snapshots: seq<seq<Node>>)

  function ClientWrite(s: System, i: nat, payload: Payload): (System, UaStatus) {
    if i >= |s.nodes| then (s, BadNotWritable)
    else
      var (node, status) := WriteEdgeNode(s.nodes[i], payload);
      (s.(nodes := s.nodes[i := node]), status)
  }

  function SendPending(world: World, s: System): System {
    var (link, nodes, calls) := DrainFrom(world.modbus, s.link, s.nodes, 0);
    s.(link := link, nodes := nodes, calls := s.calls + calls)
  }

  function PollAll(world: World, s: System): System {
    var (link, nodes) := Poll(world.modbus, s.link, s.nodes);
    s.(link := link, nodes := nodes)
  }

  function EvaluateEvents(world: World, s: System): System {
    var (events, _) := Evaluate(world.events, world.server, s.events, s.nodes, world.nowMs(|s.views|));
    s.(events := events, views := s.views + [s.nodes],
       db := WithRows(s.db, events.history[|s.events.history|..]))
  }

  function Snapshot(world: World, s: System): System {
    if s.persistEvery == 0 || s.ticks % s.persistEvery != 0 then s else Persisted(world, s)
  }

  function Persisted(world: World, s: System): System {
    var (db, status) := Persist(world.store, s.db, s.nodes);
    s.(db := db, snapshots := if status == Ok then s.snapshots + [s.nodes] else s.snapshots)
  }

  // A tick up to its snapshot.
  function Cycle(world: World, s: System): System {
    EvaluateEvents(world, PollAll(world, SendPending(world, s.(ticks := s.ticks + 1))))
  }

  function Tick(world: World, s: System): System { Snapshot(world, Cycle(world, s)) }

  // What a tick does to each part of the system but the store.
  lemma TickParts(world: World, s: System)
    ensures var (link, nodes, calls) := DrainFrom(world.modbus, s.link, s.nodes, 0);
      var s' := Tick(world, s);
      && (s'.link, s'.nodes) == Poll(world.modbus, link, nodes)
      && s'.calls == s.calls + calls && s'.views == s.views + [s'.nodes]
      && s'.events == Evaluate(world.events, world.server, s.events, s'.nodes, world.nowMs(|s.views|)).0
      && s'.ticks == s.ticks + 1 && s'.persistEvery == s.persistEvery
  {
    hide DrainFrom, Poll, Evaluate, WithRows, Persist;
  }

  // What the process does after its server loop: one more persist, due or not.
  function Shutdown(world: World, s: System): System { Persisted(world, s) }

  datatype Step = Write(node: nat, payload: Payload) | RunTick

  function DoStep(world: World, s: System, step: Step): System {
    match step
    case Write(i, payload) => ClientWrite(s, i, payload).0
    case RunTick => Tick(world, s)
  }

  // A run: any interleaving of client writes and ticks.
  function Run(world: World, s: System, steps: seq<Step>): System {
    if steps == [] then s
    else
      var n := |steps| - 1;
      DoStep(world, Run(world, s, steps[..n]), steps[n])
  }

  // ---- The mutable runtime ----------------------------------------------

  class EdgeRuntime {
    const model: EdgeNodes
    const modbus: EdgeModbus
    const events: EdgeEvents
    const store: EdgeStore
    const persistEvery: nat
    var tickCount: nat
    var passes: nat
    ghost var calls: seq<WriteCall>
    ghost var views: seq<seq<Node>>
    ghost var snapshots: seq<seq<Node>>

    ghost predicate Valid()
      reads this, events
    {
      events.Valid() && passes == |views|
    }

    ghost function State(): System
      reads this, model, modbus, events, store
    {
      System(model.nodes, modbus.State(), events.State(), store.db, tickCount, persistEvery, calls, views, snapshots)
    }

    constructor (model: EdgeNodes, modbus: EdgeModbus, events: EdgeEvents, store: EdgeStore, persistEvery: nat)
      requires events.Valid()
      ensures Valid()
      ensures this.model == model && this.modbus == modbus && this.events == events && this.store == store
      ensures State() == System(model.nodes, modbus.State(), events.State(), store.db, 0, persistEvery, [], [], [])
    {
      this.model, this.modbus, this.events, this.store := model, modbus, events, store;
      this.persistEvery := persistEvery;
      tickCount, passes, calls, views, snapshots := 0, 0, [], [], [];
    }

    method WriteNodeValue(i: nat, payload: Payload) returns (status: UaStatus)
      requires Valid()
      modifies model
      ensures Valid() && (State(), status) == ClientWrite(old(State()), i, payload)
    {
      if i >= |model.nodes| {
        return BadNotWritable;
      }
      var (node, answer) := WriteEdgeNode(model.nodes[i], payload);
      model.nodes := model.nodes[i := node];
      return answer;
    }

    method DrainPendingWrites(env: Env) returns (ghost sent: seq<WriteCall>)
      modifies model, modbus
      ensures (modbus.State(), model.nodes, sent) == DrainFrom(env, old(modbus.State()), old(model.nodes), 0)
    {
      ghost var all := DrainFrom(env, modbus.State(), model.nodes, 0);
      sent := [];
      assert sent + all.2 == all.2;
      var i := 0;
      while i < |model.nodes|
        invariant i <= |model.nodes|
        invariant var rest := DrainFrom(env, modbus.State(), model.nodes, i);
          rest.0 == all.0 && rest.1 == all.1 && sent + rest.2 == all.2
      {
        var node := model.nodes[i];
        if node.spec.writable && node.pending {
          ghost var rest := DrainFrom(env, modbus.State(), model.nodes, i).2;
          var _ := modbus.WriteBack(env, node);
          model.nodes := model.nodes[i := node.(pending := false)];
          assert sent + rest == sent + [WriteCall(i, node.value)] + rest[1..];
          sent := sent + [WriteCall(i, node.value)];
        }
        i := i + 1;
      }
      assert sent + [] == sent;
    }

    method EvaluatePass(world: World)
      requires Valid()
      modifies this`passes, this`views, events, store
      ensures Valid() && State() == EvaluateEvents(world, old(State()))
    {
      hide Evaluate, WithRows;
      var _ := events.EvaluateAll(world.events, world.server, store, model.nodes, world.nowMs(passes));
      passes := passes + 1;
      views := views + [model.nodes];
    }

    method PersistNow(world: World)
      requires Valid()
      modifies this`snapshots, store
      ensures Valid() && State() == Persisted(world, old(State()))
    {
      hide Persist;
      var status := store.PersistLatestValues(world.store, model.nodes);
      if status == Ok {
        snapshots := snapshots + [model.nodes];
      }
    }

    method SnapshotIfDue(world: World)
      requires Valid()
      modifies this`snapshots, store
      ensures Valid() && State() == Snapshot(world, old(State()))
    {
      if persistEvery != 0 && tickCount % persistEvery == 0 {
        PersistNow(world);
      }
    }

    method TickOnce(world: World)
      requires Valid()
      modifies this, model, modbus, events, store
      ensures Valid() && State() == Tick(world, old(State()))
    {
      hide DrainFrom, Poll, EvaluateEvents, Snapshot;
      tickCount := tickCount + 1;
      ghost var s0 := State();
      ghost var sent := DrainPendingWrites(world.modbus);
      calls := calls + sent;
      ghost var s1 := State();
      assert s1 == SendPending(world, s0);
      var _ := modbus.PollModel(world.modbus, model);
      assert State() == PollAll(world, s1);
      hide SendPending, PollAll;
      EvaluatePass(world);
      SnapshotIfDue(world);
    }
  }
}
