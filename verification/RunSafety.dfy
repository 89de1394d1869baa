/**
 What holds after every run of the whole system, from any state that is sound to begin
 with: the link invariant, the node table, the write counters, the event history and the
 stored snapshot.
 */
module RunSafety {
  import opened EdgeTypes
  import opened EdgeValue
  import opened ModbusWire
  import opened ModbusLink
  import opened LinkSafety
  import opened ThresholdEvents
  import opened EventHistory
  import opened LatestValues
  import opened StoreSafety
  import opened Runtime
  import opened WriteTrace
  import opened TemplateValidation

  // ---- Monotone parts of the link ---------------------------------------

  lemma WriteGrows(env: Env, l: Link, node: Node)
    requires ClockRuns(env) && LinkInv(l)
    ensures var l' := WriteNode(env, l, node).0;
      LinkInv(l') && l'.enabled == l.enabled && l'.writeError >= l.writeError
      && |l'.wire.log| >= |l.wire.log| && l'.readError == l.readError
  {
    WriteNodeKeeps(env, l, node);
  }

  lemma {:induction false} DrainGrows(env: Env, l: Link, nodes: seq<Node>, i: nat)
    requires ClockRuns(env) && LinkInv(l) && i <= |nodes|
    ensures var l' := DrainFrom(env, l, nodes, i).0;
      LinkInv(l') && l'.enabled == l.enabled && l'.writeError >= l.writeError
      && |l'.wire.log| >= |l.wire.log| && l'.readError == l.readError
    decreases |nodes| - i
  {
    if i < |nodes| {
      if nodes[i].spec.writable && nodes[i].pending {
        WriteGrows(env, l, nodes[i]);
        DrainGrows(env, WriteNode(env, l, nodes[i]).0, nodes[i := nodes[i].(pending := false)], i + 1);
      } else {
        DrainGrows(env, l, nodes, i + 1);
      }
    }
  }

  lemma PollNodeGrows(env: Env, l: Link, spec: NodeSpec)
    ensures var l' := PollNode(env, l, spec).0;
      l'.readError >= l.readError && |l'.wire.log| >= |l.wire.log| && l'.writeError == l.writeError
      && l'.writeOk == l.writeOk && l'.enabled == l.enabled
  {
  }

  lemma {:induction false} PollGrows(env: Env, l: Link, nodes: seq<Node>, i: nat)
    requires i <= |nodes|
    ensures var l' := PollNodes(env, l, nodes, i).0;
      l'.readError >= l.readError && |l'.wire.log| >= |l.wire.log| && l'.writeError == l.writeError
      && l'.writeOk == l.writeOk && l'.enabled == l.enabled
    decreases |nodes| - i
  {
    hide PollNode;
    if i < |nodes| {
      var r := PollNode(env, l, nodes[i].spec);
      PollNodeGrows(env, l, nodes[i].spec);
      if !r.1.Dropped? {
        PollGrows(env, r.0, if r.1.Skipped? then nodes else nodes[i := nodes[i].(value := r.1.value)], i + 1);
      }
    }
  }

  lemma PollOnlyGrows(env: Env, l: Link, nodes: seq<Node>)
    ensures var l' := Poll(env, l, nodes).0;
      l'.readError >= l.readError && |l'.wire.log| >= |l.wire.log| && l'.writeError == l.writeError
      && l'.writeOk == l.writeOk && l'.enabled == l.enabled
  {
    hide PollNodes;
    PollGrows(env, Connect(env, l.(pollCount := l.pollCount + 1)).0, nodes, 0);
  }

  // ---- The node table and the link --------------------------------------

  ghost predicate SystemInv(s: System) { LinkInv(s.link) && WellTyped(s.nodes) }

  lemma TickKeepsSystem(world: World, s: System)
    requires ClockRuns(world.modbus) && SystemInv(s)
    ensures var s' := Tick(world, s);
      SystemInv(s') && s'.link.enabled == s.link.enabled && SameSpecs(s.nodes, s'.nodes)
  {
    var d := DrainFrom(world.modbus, s.link, s.nodes, 0);
    TickParts(world, s);
    hide Tick, Poll, DrainFrom;
    DrainGrows(world.modbus, s.link, s.nodes, 0);
    DrainClears(world.modbus, s.link, s.nodes, 0);
    PollKeeps(world.modbus, d.0, d.1);
    PollOnlyGrows(world.modbus, d.0, d.1);
  }

  lemma {:induction false} RunKeepsSystem(world: World, s: System, steps: seq<Step>)
    requires ClockRuns(world.modbus) && SystemInv(s)
    ensures var s' := Run(world, s, steps);
      SystemInv(s') && s'.link.enabled == s.link.enabled && SameSpecs(s.nodes, s'.nodes)
  {
    if steps != [] {
      var n := |steps| - 1;
      var before := Run(world, s, steps[..n]);
      RunKeepsSystem(world, s, steps[..n]);
      match steps[n]
      case RunTick => TickKeepsSystem(world, before);
      case Write(i, payload) => RejectedWriteChangesNothing(before, i, payload);
    }
  }

  // ---- Write counters ---------------------------------------------------

  // The calls that could go out: link enabled, node writable and mapped.
  function CountedCalls(enabled: bool, specs: seq<NodeSpec>, calls: seq<WriteCall>): nat {
    if calls == [] then 0
    else
      (if calls[0].node < |specs| then Counted(enabled, specs[calls[0].node]) else 0)
      + CountedCalls(enabled, specs, calls[1..])
  }

  lemma {:induction false} CountedAppend(enabled: bool, specs: seq<NodeSpec>, a: seq<WriteCall>, b: seq<WriteCall>)
    ensures CountedCalls(enabled, specs, a + b) == CountedCalls(enabled, specs, a) + CountedCalls(enabled, specs, b)
  {
    if a == [] {
      assert a + b == b;
    } else {
      assert (a + b)[1..] == a[1..] + b;
      CountedAppend(enabled, specs, a[1..], b);
    }
  }

  lemma {:induction false} DrainCounts(env: Env, l: Link, nodes: seq<Node>, i: nat)
    requires ClockRuns(env) && LinkInv(l) && i <= |nodes|
    ensures var (l', _, calls) := DrainFrom(env, l, nodes, i);
      l'.writeOk + l'.writeError == l.writeOk + l.writeError + CountedCalls(l.enabled, Specs(nodes), calls)
    decreases |nodes| - i
  {
    if i < |nodes| {
      if nodes[i].spec.writable && nodes[i].pending {
        var nodes1 := nodes[i := nodes[i].(pending := false)];
        assert Specs(nodes1) == Specs(nodes);
        WriteNodeKeeps(env, l, nodes[i]);
        var l1 := WriteNode(env, l, nodes[i]).0;
        hide WriteNode, LinkInv;
        DrainCounts(env, l1, nodes1, i + 1);
        var rest := DrainFrom(env, l1, nodes1, i + 1).2;
        assert ([WriteCall(i, nodes[i].value)] + rest)[1..] == rest;
      } else {
        DrainCounts(env, l, nodes, i + 1);
      }
    }
  }

  ghost predicate WritesCounted(s: System) {
    s.link.writeOk + s.link.writeError == CountedCalls(s.link.enabled, Specs(s.nodes), s.calls)
  }

  // Over any run, good and bad writes together number the calls that could go out.
  lemma {:induction false} RunCountsWrites(world: World, s: System, steps: seq<Step>)
    requires ClockRuns(world.modbus) && SystemInv(s) && WritesCounted(s)
    ensures WritesCounted(Run(world, s, steps))
  {
    hide Tick, ClientWrite, SystemInv, WritesCounted;
    if steps != [] {
      var n := |steps| - 1;
      var before := Run(world, s, steps[..n]);
      RunCountsWrites(world, s, steps[..n]);
      RunKeepsSystem(world, s, steps[..n]);
      match steps[n]
      case RunTick => TickCountsWrites(world, before);
      case Write(i, payload) => ClientWriteIsNotCounted(before, i, payload);
    }
  }

  lemma ClientWriteIsNotCounted(s: System, i: nat, payload: Payload)
    requires WritesCounted(s)
    ensures WritesCounted(ClientWrite(s, i, payload).0)
  {
    RejectedWriteChangesNothing(s, i, payload);
    assert Specs(ClientWrite(s, i, payload).0.nodes) == Specs(s.nodes);
  }

  lemma TickCountsWrites(world: World, s: System)
    requires ClockRuns(world.modbus) && SystemInv(s) && WritesCounted(s)
    ensures WritesCounted(Tick(world, s))
  {
    var env := world.modbus;
    var d := DrainFrom(env, s.link, s.nodes, 0);
    TickParts(world, s);
    TickKeepsSystem(world, s);
    assert Specs(Tick(world, s).nodes) == Specs(s.nodes);
    hide Tick, Poll, DrainFrom, LinkInv;
    DrainCounts(env, s.link, s.nodes, 0);
    DrainGrows(env, s.link, s.nodes, 0);
    PollOnlyGrows(env, d.0, d.1);
    CountedAppend(s.link.enabled, Specs(s.nodes), s.calls, d.2);
  }

  // ---- Event history ----------------------------------------------------

  // The event table of a run is the event table of its passes.
  lemma {:induction false} RunEvents(world: World, s: System, steps: seq<Step>)
    requires s.views == []
    ensures var s' := Run(world, s, steps);
      s'.events == Passes(world.events, world.server, s.events, s'.views, world.nowMs)
  {
    if steps != [] {
      hide Tick, ClientWrite, Evaluate, Passes;
      var n := |steps| - 1;
      var before := Run(world, s, steps[..n]);
      RunEvents(world, s, steps[..n]);
      match steps[n]
      case RunTick =>
        TickParts(world, before);
        OneMoreView(world.events, world.server, s.events, before.views, Tick(world, before).nodes, world.nowMs);
      case Write(i, payload) => RejectedWriteChangesNothing(before, i, payload);
    }
  }

  // Over any run of the system, whatever inserts and notifications fail: every evaluation was
  // of the condition on the node values of its tick, rows and failed inserts number the rising
  // edges, two firings of an event have a false evaluation of it between them, and every row
  // lies beyond its threshold.
  lemma RunLatchSafety(world: World, s: System, steps: seq<Step>)
    requires s.views == [] && s.events == Fresh(s.events.events) && AllInactive(s.events.events)
    ensures var s' := Run(world, s, steps);
      && HistoryInv(s'.events) && SameDefinitions(s.events.events, s'.events.events)
      && Grounded(s.events.events, s'.events.log, s'.views, world.nowMs)
  {
    RunEvents(world, s, steps);
    hide Run, Passes;
    LatchSafety(world.events, world.server, s.events.events, Run(world, s, steps).views, world.nowMs);
  }

  // Over any run of the system in which no insert and no notification fails, the rows stored
  // under an event's id number the rising edges of its condition, tick by tick.
  lemma RunHistory(world: World, s: System, steps: seq<Step>, e: nat)
    requires s.views == [] && s.events == Fresh(s.events.events) && AllInactive(s.events.events)
    requires NothingFails(world.events) && UniqueEvents(s.events.events) && e < |s.events.events|
    ensures var s' := Run(world, s, steps);
      RowsNamed(s'.events.history, s.events.events[e].id) == RisingEdges(Signal(s.events.events[e], s'.views))
  {
    var events := s.events.events;
    var s' := Run(world, s, steps);
    RunEvents(world, s, steps);
    LatchInvariant(world.events, world.server, events, s'.views, world.nowMs);
    RowsAreRisingEdges(world.events, world.server, events, s'.views, world.nowMs, e);
    hide Run, Passes;
    forall i | 0 <= i < |events|
      ensures s'.events.events[i].id == events[i].id
    {
      assert events[i].(active := false) == s'.events.events[i].(active := false);
    }
    RowsById(s'.events, s'.events.log, e);
  }

  // ---- The stored snapshot ----------------------------------------------

  // The table holds the last snapshot over whatever it held at the start.
  ghost predicate TableIs(start: Table, s: System) {
    s.db.committed ==
      if s.snapshots == [] then start
      else
        var last := s.snapshots[|s.snapshots| - 1];
        Overlay(start, last, |last|)
  }

  ghost predicate SnapshotsOf(nodes: seq<Node>, snapshots: seq<seq<Node>>) {
    forall k :: 0 <= k < |snapshots| ==> SameSpecs(nodes, snapshots[k]) && WellTyped(snapshots[k])
  }

  // Every n-th tick is due for a snapshot, and none is when n is 0.
  predicate SnapshotDue(s: System) { s.persistEvery != 0 && (s.ticks + 1) % s.persistEvery == 0 }

  // One step of the store: the closing node values are committed, or nothing is.
  ghost predicate CommitStep(s: System, s': System, commits: bool) {
    if commits
    then s'.snapshots == s.snapshots + [s'.nodes] && s'.db.committed == Overlay(s.db.committed, s'.nodes, |s'.nodes|)
    else s'.snapshots == s.snapshots && s'.db.committed == s.db.committed
  }

  // A tick commits its closing node values when a snapshot is due and the persist succeeds,
  // and otherwise commits nothing.
  lemma TickSnapshots(world: World, s: System)
    ensures var s' := Tick(world, s);
      CommitStep(s, s', SnapshotDue(s) && Persist(world.store, s.db, s'.nodes).1 == Ok)
  {
    var b := Cycle(world, s);
    CycleKeepsTable(world, s);
    hide Cycle, Persist, Overlay, CommitStep;
    RowsDoNotMatter(world.store, s.db, b.db, b.nodes);
    if SnapshotDue(s) { PersistCommits(world, b); }
    assert Tick(world, s) == if SnapshotDue(s) then Persisted(world, b) else b;
    CommitAfterCycle(s, b, Tick(world, s), SnapshotDue(s) && Persist(world.store, b.db, b.nodes).1 == Ok);
  }

  lemma CommitAfterCycle(s: System, b: System, s': System, commits: bool)
    requires b.snapshots == s.snapshots && b.db.committed == s.db.committed
    requires if b == s' then !commits else CommitStep(b, s', commits)
    ensures CommitStep(s, s', commits)
  {
    hide Overlay;
  }

  // Up to its snapshot, a tick only adds history rows to the store.
  lemma CycleKeepsTable(world: World, s: System)
    ensures var b := Cycle(world, s);
      && b.snapshots == s.snapshots && b.ticks == s.ticks + 1 && b.persistEvery == s.persistEvery
      && b.db.committed == s.db.committed && b.db.open == s.db.open && b.db.calls == s.db.calls
      && s.events.history <= b.events.history
      && b.db == WithRows(s.db, b.events.history[|s.events.history|..])
  {
    hide DrainFrom, Poll, Evaluate;
  }

  lemma RowsDoNotMatter(env: StoreEnv, a: Db, b: Db, nodes: seq<Node>)
    requires a.open == b.open && a.calls == b.calls
    ensures Persist(env, a, nodes).1 == Ok <==> Persist(env, b, nodes).1 == Ok
  {
    PersistSucceeds(env, a, nodes);
    PersistSucceeds(env, b, nodes);
  }

  lemma PersistCommits(world: World, s: System)
    ensures CommitStep(s, Persisted(world, s), Persist(world.store, s.db, s.nodes).1 == Ok)
  {
    PersistAllOrNothing(world.store, s.db, s.nodes);
    hide Persist, Overlay;
  }

  lemma TableAfterStep(start: Table, nodes: seq<Node>, s: System, s': System, commits: bool)
    requires TableIs(start, s) && SnapshotsOf(nodes, s.snapshots) && CommitStep(s, s', commits)
    requires SameSpecs(nodes, s'.nodes) && WellTyped(s'.nodes)
    ensures TableIs(start, s') && SnapshotsOf(nodes, s'.snapshots)
  {
    hide Overlay;
    if commits && s.snapshots != [] {
      var last := s.snapshots[|s.snapshots| - 1];
      assert SameSpecs(last, s'.nodes);
      OverlayLast(start, last, s'.nodes);
    }
  }

  // Whatever fails, the committed table always is the values of the last successful persist.
  lemma {:induction false} RunSnapshots(world: World, s: System, steps: seq<Step>)
    requires ClockRuns(world.modbus) && SystemInv(s) && s.snapshots == []
    ensures var s' := Run(world, s, steps);
      TableIs(s.db.committed, s') && SnapshotsOf(s.nodes, s'.snapshots)
  {
    hide Tick, CommitStep, TableIs, SnapshotsOf, Persist, LinkInv;
    if steps == [] {
      NoSnapshotYet(s);
    } else {
      var n := |steps| - 1;
      var before := Run(world, s, steps[..n]);
      RunSnapshots(world, s, steps[..n]);
      match steps[n]
      case RunTick =>
        TickSnapshots(world, before);
        RunKeepsSystem(world, s, steps);
        var after := Tick(world, before);
        TableAfterStep(s.db.committed, s.nodes, before, after,
                       SnapshotDue(before) && Persist(world.store, before.db, after.nodes).1 == Ok);
      case Write(i, payload) => WriteStoresNothing(s.db.committed, before, i, payload);
    }
  }

  lemma NoSnapshotYet(s: System)
    requires s.snapshots == []
    ensures TableIs(s.db.committed, s) && SnapshotsOf(s.nodes, s.snapshots)
  {
  }

  lemma WriteStoresNothing(start: Table, s: System, i: nat, payload: Payload)
    requires TableIs(start, s)
    ensures var s' := ClientWrite(s, i, payload).0;
      TableIs(start, s') && s'.snapshots == s.snapshots
  {
  }

  // The last thing the process does is one more persist.
  lemma ShutdownSnapshots(world: World, s: System, steps: seq<Step>)
    requires ClockRuns(world.modbus) && SystemInv(s) && s.snapshots == []
    ensures var s' := Shutdown(world, Run(world, s, steps));
      && TableIs(s.db.committed, s') && SnapshotsOf(s.nodes, s'.snapshots)
      && CommitStep(Run(world, s, steps), s', Persist(world.store, Run(world, s, steps).db, s'.nodes).1 == Ok)
  {
    var end := Run(world, s, steps);
    RunSnapshots(world, s, steps);
    RunKeepsSystem(world, s, steps);
    PersistCommits(world, end);
    hide Run, TableIs, SnapshotsOf, CommitStep, Persist;
    TableAfterStep(s.db.committed, s.nodes, end, Shutdown(world, end), Persist(world.store, end.db, end.nodes).1 == Ok);
  }

  // A restart from any table that is the last of the snapshots over some start: loading it into
  // a fresh copy of the model gives back every value of that snapshot.
  lemma RestoreLast(start: Table, s: System, nodes: seq<Node>, env: StoreEnv, copy: seq<Node>)
    requires TableIs(start, s) && SnapshotsOf(nodes, s.snapshots) && s.snapshots != []
    requires IdsFit(nodes) && DistinctKeys(nodes) && SameSpecs(nodes, copy) && forall k: nat :: env.ok(k)
    ensures var (_, restored, status) := Load(env, Reopened(s.db), copy);
      status == Ok && SameValues(s.snapshots[|s.snapshots| - 1], restored)
  {
    hide KeyOf;
    var last := s.snapshots[|s.snapshots| - 1];
    assert SameSpecs(nodes, last);
    assert DistinctKeys(last);
    RestoreValues(env, Reopened(s.db), start, last, copy);
  }

  // A restart after a process that was cut off in any run: the values of the last successful
  // persist come back.
  lemma RestartRestores(world: World, s: System, steps: seq<Step>, env: StoreEnv, copy: seq<Node>)
    requires ClockRuns(world.modbus) && SystemInv(s) && s.snapshots == []
    requires IdsFit(s.nodes) && DistinctKeys(s.nodes) && SameSpecs(s.nodes, copy)
    requires Run(world, s, steps).snapshots != [] && forall k: nat :: env.ok(k)
    ensures var s' := Run(world, s, steps);
      var (_, restored, status) := Load(env, Reopened(s'.db), copy);
      status == Ok && SameValues(s'.snapshots[|s'.snapshots| - 1], restored)
  {
    RunSnapshots(world, s, steps);
    hide Run, TableIs, SnapshotsOf, DistinctKeys, Load;
    RestoreLast(s.db.committed, Run(world, s, steps), s.nodes, env, copy);
  }

  // A restart after a process that left its server loop: the values at exit come back exactly,
  // unless the last persist failed, and then those of the last one that did not.
  lemma ShutdownRestores(world: World, s: System, steps: seq<Step>, env: StoreEnv, copy: seq<Node>)
    requires ClockRuns(world.modbus) && SystemInv(s) && s.snapshots == []
    requires IdsFit(s.nodes) && DistinctKeys(s.nodes) && SameSpecs(s.nodes, copy) && forall k: nat :: env.ok(k)
    ensures var end := Run(world, s, steps);
      var s' := Shutdown(world, end);
      var (_, restored, status) := Load(env, Reopened(s'.db), copy);
      && (Persist(world.store, end.db, end.nodes).1 == Ok ==> status == Ok && SameValues(end.nodes, restored))
      && (Persist(world.store, end.db, end.nodes).1 != Ok ==> s'.snapshots == end.snapshots)
      && (s'.snapshots != [] ==> status == Ok && SameValues(s'.snapshots[|s'.snapshots| - 1], restored))
  {
    ShutdownSnapshots(world, s, steps);
    hide Run, TableIs, SnapshotsOf, DistinctKeys, Load, Persist, Overlay;
    var s' := Shutdown(world, Run(world, s, steps));
    if s'.snapshots != [] { RestoreLast(s.db.committed, s', s.nodes, env, copy); }
  }

  // ---- A snapshot that NaN blocks ---------------------------------------

  const SETPOINT := NodeSpec("pump", "setpoint", "Setpoint", DoubleType, true, 1, REGISTER_BASE, Finite(1.0), 0)

  // A world in which the PLC cannot be reached and nothing else fails, and a system that
  // persists on every tick.
  const NO_PLC := World(
    Env(_ => true, _ => true, _ => false, _ => true, _ => map[], _ => 0),
    EventEnv(_ => true, _ => true), StoreEnv(_ => true, _ => false), false, _ => 0)

  const ONE_SETPOINT := System(
    [Node(SETPOINT, DoubleV(Finite(0.0)), false)], InitialLink(true, map[]), Fresh([]),
    Db(map[], None, 0, [], []), 0, 1, [], [], [])

  // For example, a client writes NaN while the link is down: however many ticks follow, every
  // tick is due, no statement of the store fails, and no snapshot is ever stored.
  lemma {:induction false} NanBlocksSnapshots(ticks: nat)
    ensures var s := Run(NO_PLC, ONE_SETPOINT, [Write(0, Scalar(DoubleV(NaN)))] + seq(ticks, _ => RunTick));
      HoldsNan(s) && SnapshotDue(s) && s.snapshots == [] && s.db.committed == map[]
  {
    hide Tick, HoldsNan, NO_PLC, ONE_SETPOINT, ClientWrite;
    var steps := [Write(0, Scalar(DoubleV(NaN)))] + seq(ticks, _ => RunTick);
    if ticks == 0 {
      NanWritten();
      assert steps == [Write(0, Scalar(DoubleV(NaN)))] && steps[..0] == [];
    } else {
      NanBlocksSnapshots(ticks - 1);
      assert steps[..ticks] == [Write(0, Scalar(DoubleV(NaN)))] + seq(ticks - 1, _ => RunTick);
      NanTick(Run(NO_PLC, ONE_SETPOINT, steps[..ticks]));
    }
  }

  lemma NanWritten()
    ensures var s := ClientWrite(ONE_SETPOINT, 0, Scalar(DoubleV(NaN))).0;
      HoldsNan(s) && SnapshotDue(s) && s.snapshots == [] && s.db.committed == map[]
  {
  }

  ghost predicate HoldsNan(s: System) {
    && s.link.enabled && !s.link.connected
    && s.persistEvery == 1 && |s.nodes| == 1 && s.nodes[0].value == DoubleV(NaN)
  }

  lemma {:induction false} DrainStaysDown(l: Link, nodes: seq<Node>, i: nat)
    requires l.enabled && !l.connected && i <= |nodes|
    ensures var l' := DrainFrom(NO_PLC.modbus, l, nodes, i).0;
      l'.enabled && !l'.connected
    decreases |nodes| - i
  {
    if i < |nodes| {
      if nodes[i].spec.writable && nodes[i].pending {
        var nodes1 := nodes[i := nodes[i].(pending := false)];
        DrainStaysDown(WriteNode(NO_PLC.modbus, l, nodes[i]).0, nodes1, i + 1);
      } else {
        DrainStaysDown(l, nodes, i + 1);
      }
    }
  }

  lemma PollFindsNothing(l: Link, nodes: seq<Node>)
    requires l.enabled && !l.connected
    ensures var (l', nodes') := Poll(NO_PLC.modbus, l, nodes);
      l'.enabled && !l'.connected && nodes' == nodes
  {
    hide PollNodes;
  }

  lemma NanTick(s: System)
    requires HoldsNan(s)
    ensures var s' := Tick(NO_PLC, s);
      && HoldsNan(s') && SnapshotDue(s')
      && s'.snapshots == s.snapshots && s'.db.committed == s.db.committed
  {
    hide Tick, DrainFrom, Poll, Persist;
    var env := NO_PLC.modbus;
    var s' := Tick(NO_PLC, s);
    var d := DrainFrom(env, s.link, s.nodes, 0);
    TickParts(NO_PLC, s);
    TickSnapshots(NO_PLC, s);
    DrainStaysDown(s.link, s.nodes, 0);
    DrainClears(env, s.link, s.nodes, 0);
    PollFindsNothing(d.0, d.1);
    PersistSucceeds(NO_PLC.store, s.db, s'.nodes);
    assert !NoNaN(s'.nodes);
  }
}
