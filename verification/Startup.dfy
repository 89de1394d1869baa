/**
 From template to running system: a template the loader accepts gives a system in which
 every run is safe.
 */
module Startup {
  import opened EdgeTypes
  import opened EdgeValue
  import opened TemplateText
  import opened TemplateLoader
  import opened TemplateValidation
  import opened ModbusWire
  import opened ModbusLink
  import opened LinkSafety
  import opened ThresholdEvents
  import opened EventHistory
  import opened LatestValues
  import opened StoreSafety
  import opened Runtime
  import opened WriteTrace
  import opened RunSafety
  import opened DurableHistory

  // ---- What the loader guarantees of each record ------------------------

  // Ids fit their fields, and the unit is one that Modbus addresses.
  predicate NodeFits(n: NodeSpec) {
    |n.assetId| < MAX_ID_LEN && |n.id| < MAX_ID_LEN && n.unit <= 247
  }

  ghost predicate RecordsFit(d: Draft) {
    && (forall i :: 0 <= i < |d.nodes| ==> NodeFits(d.nodes[i]))
    && (forall i :: 0 <= i < |d.events| ==> !d.events[i].active)
  }

  lemma EditFits(lib: Libraries, s: Loading, kv: KeyValue)
    requires RecordsFit(s.draft) && EditLatest(lib, s, kv).Done?
    ensures RecordsFit(EditLatest(lib, s, kv).value.draft)
  {
    if s.section == NodeSection {
      NodeKeyFits(lib, s.draft.nodes[|s.draft.nodes| - 1], kv.key, kv.value);
      hide ParseNodeKey;
    } else if s.section == EventSection {
      EventKeyKeepsLatch(lib, s.draft.events[|s.draft.events| - 1], kv.key, kv.value);
      hide ParseEventKey;
    }
  }

  lemma NodeKeyFits(lib: Libraries, n: NodeSpec, key: string, value: string)
    requires NodeFits(n) && ParseNodeKey(lib, n, key, value).Done?
    ensures NodeFits(ParseNodeKey(lib, n, key, value).value)
  {
  }

  lemma EventKeyKeepsLatch(lib: Libraries, e: Event, key: string, value: string)
    requires ParseEventKey(lib, e, key, value).Done?
    ensures ParseEventKey(lib, e, key, value).value.active == e.active
  {
  }

  lemma {:induction false} LoadedRecordsFit(lib: Libraries, lines: seq<string>)
    requires LoadLines(lib, EMPTY_DRAFT, lines).Done?
    ensures RecordsFit(LoadLines(lib, EMPTY_DRAFT, lines).value.draft)
  {
    if lines != [] {
      var n := |lines| - 1;
      LoadedRecordsFit(lib, lines[..n]);
      LineFits(lib, LoadLines(lib, EMPTY_DRAFT, lines[..n]).value, lines[n]);
      hide LoadLine, RecordsFit;
    }
  }

  lemma LineFits(lib: Libraries, s: Loading, raw: string)
    requires RecordsFit(s.draft) && LoadLine(lib, s, raw).Done?
    ensures RecordsFit(LoadLine(lib, s, raw).value.draft)
  {
    var line := TrimNewline(raw);
    if FirstEquals(line) < |line| && EditLatest(lib, s, SplitAt(line)).Done? { EditFits(lib, s, SplitAt(line)); }
    hide EditLatest;
  }

  // ---- The system at startup --------------------------------------------

  // The nodes of the model, with their union zeroed.
  function ZeroNodes(specs: seq<NodeSpec>): (nodes: seq<Node>)
    ensures |nodes| == |specs|
  {
    seq(|specs|, i requires 0 <= i < |specs| => Node(specs[i], ZeroValue(specs[i].dataType), false))
  }

  // Startup opens the database that the process before left behind and restores the latest
  // values over the zeroed nodes; the link is not yet connected.
  function Boot(d: Draft, enabled: bool, plc: Registers, env: StoreEnv, db: Db, persistEvery: nat): System {
    var (loaded, nodes, _) := Load(env, Reopened(db), ZeroNodes(d.nodes));
    System(nodes, InitialLink(enabled, plc), Fresh(d.events), loaded, 0, persistEvery, [], [], [])
  }

  // A restore changes values only.
  lemma {:induction false} LoadOnlyValues(env: StoreEnv, db: Db, nodes: seq<Node>, i: nat)
    requires i <= |nodes| && WellTyped(nodes) && forall k :: 0 <= k < |nodes| ==> nodes[k].spec.dataType != Unset
    ensures OnlyValues(nodes, LoadFrom(env, db, nodes, i).1)
    decreases |nodes| - i
  {
    hide KeyOf;
    if i < |nodes| && |KeyOf(nodes[i].spec)| < KEY_LEN {
      var key := KeyOf(nodes[i].spec);
      var db' := db.(calls := db.calls + 1);
      if env.ok(db.calls) && key in Visible(db) {
        var value := FromDouble(nodes[i].spec.dataType, Visible(db)[key]);
        LoadOnlyValues(env, db', nodes[i := nodes[i].(value := value)], i + 1);
      } else {
        LoadOnlyValues(env, db', nodes, i + 1);
      }
    }
  }

  // A restore changes nothing in the store.
  lemma {:induction false} LoadOnlyReads(env: StoreEnv, db: Db, nodes: seq<Node>, i: nat)
    requires i <= |nodes|
    ensures LoadFrom(env, db, nodes, i).0.(calls := 0) == db.(calls := 0)
    decreases |nodes| - i
  {
    hide KeyOf, FromDouble;
    if i < |nodes| && |KeyOf(nodes[i].spec)| < KEY_LEN {
      var key := KeyOf(nodes[i].spec);
      var db' := db.(calls := db.calls + 1);
      if env.ok(db.calls) && key in Visible(db) {
        var value := FromDouble(nodes[i].spec.dataType, Visible(db)[key]);
        LoadOnlyReads(env, db', nodes[i := nodes[i].(value := value)], i + 1);
      } else {
        LoadOnlyReads(env, db', nodes, i + 1);
      }
    }
  }

  ghost predicate Accepted(lib: Libraries, lines: seq<string>) {
    LoadLines(lib, EMPTY_DRAFT, lines).Done? && WellFormed(LoadLines(lib, EMPTY_DRAFT, lines).value.draft)
  }

  // The model as resolution leaves it.
  ghost predicate IsLoaded(lib: Libraries, lines: seq<string>, d: Draft) {
    Accepted(lib, lines)
    && var parsed := LoadLines(lib, EMPTY_DRAFT, lines).value.draft;
    SameNodes(parsed.nodes, d.nodes) && SameEvents(parsed.events, d.events)
  }

  lemma LoadedFacts(lib: Libraries, lines: seq<string>, d: Draft)
    requires IsLoaded(lib, lines, d)
    ensures RecordsFit(d) && UniqueNodes(d.nodes) && UniqueEvents(d.events)
    ensures forall i :: 0 <= i < |d.nodes| ==> d.nodes[i].dataType != Unset && 1 <= d.nodes[i].unit <= 247
  {
    LoadedRecordsFit(lib, lines);
    var parsed := LoadLines(lib, EMPTY_DRAFT, lines).value.draft;
    hide LoadLines;
    forall i | 0 <= i < |d.nodes|
      ensures NodeFits(d.nodes[i]) && d.nodes[i].dataType != Unset && 1 <= d.nodes[i].unit <= 247
      ensures d.nodes[i].assetId == parsed.nodes[i].assetId && d.nodes[i].id == parsed.nodes[i].id
    {
      assert NodeComplete(parsed.nodes[i]) && NodeFits(parsed.nodes[i]);
      assert parsed.nodes[i].(assetIndex := 0) == d.nodes[i].(assetIndex := 0);
    }
    forall i | 0 <= i < |d.events|
      ensures d.events[i].id == parsed.events[i].id && d.events[i].active == parsed.events[i].active
    {
      assert parsed.events[i].(assetIndex := 0, sourceIndex := 0) == d.events[i].(assetIndex := 0, sourceIndex := 0);
    }
  }

  // A system that is sound to start with, in every sense the run theorems ask for.
  ghost predicate ReadyToRun(s: System) {
    && SystemInv(s) && NothingPending(s.nodes) && WritesCounted(s)
    && s.events == Fresh(s.events.events) && AllInactive(s.events.events) && UniqueEvents(s.events.events)
    && IdsFit(s.nodes) && UniqueNodes(Specs(s.nodes))
    && s.views == [] && s.snapshots == [] && s.calls == []
    && s.db.open.None? && s.db.held == []
  }

  lemma BootIsReady(
    lib: Libraries, lines: seq<string>, d: Draft, enabled: bool, plc: Registers, env: StoreEnv, db: Db,
    persistEvery: nat)
    requires IsLoaded(lib, lines, d)
    ensures var s := Boot(d, enabled, plc, env, db, persistEvery);
      && ReadyToRun(s) && Specs(s.nodes) == d.nodes && s.events.events == d.events
      && s.db.committed == db.committed && s.db.rows == db.rows
      && s.link == InitialLink(enabled, plc) && s.ticks == 0 && s.persistEvery == persistEvery
  {
    LoadedFacts(lib, lines, d);
    var zero := ZeroNodes(d.nodes);
    assert WellTyped(zero);
    LoadOnlyValues(env, Prepare(env, Reopened(db)).0, zero, 0);
    LoadOnlyReads(env, Prepare(env, Reopened(db)).0, zero, 0);
    hide LoadFrom, IsLoaded, Accepted;
    var s := Boot(d, enabled, plc, env, db, persistEvery);
    assert OnlyValues(zero, s.nodes);
    forall i | 0 <= i < |s.nodes|
      ensures s.nodes[i].spec == d.nodes[i] && !s.nodes[i].pending && NodeFits(s.nodes[i].spec)
    {
      assert zero[i].spec == s.nodes[i].spec;
    }
    assert Specs(s.nodes) == d.nodes;
  }

  // The nodes at startup, one by one: a node whose row is stored and read holds the stored value,
  // and any other the zero of its type. On an empty database, every node is zero.
  lemma BootValues(
    lib: Libraries, lines: seq<string>, d: Draft, enabled: bool, plc: Registers, env: StoreEnv, db: Db,
    persistEvery: nat, i: nat)
    requires IsLoaded(lib, lines, d) && i < |d.nodes|
    ensures var spec := d.nodes[i];
      var nodes := Boot(d, enabled, plc, env, db, persistEvery).nodes;
      var read := env.ok(0) && env.ok(i + 1) && KeyOf(spec) in db.committed;
      && |nodes| == |d.nodes| && nodes[i].spec == spec && !nodes[i].pending
      && TypeOf(nodes[i].value) == spec.dataType
      && (read ==> nodes[i].value == FromDouble(spec.dataType, db.committed[KeyOf(spec)]))
      && (!read ==> AsDouble(nodes[i].value) == Finite(0.0))
  {
    hide Load, FromDouble, KeyOf, FirstLongKey, IsLoaded;
    LoadedFacts(lib, lines, d);
    var zero := ZeroNodes(d.nodes);
    LoadExactly(env, Reopened(db), zero, i);
    assert zero[i] == Node(d.nodes[i], ZeroValue(d.nodes[i].dataType), false);
    AllKeysFit(d, zero);
  }

  lemma {:induction false} AllKeysFit(d: Draft, nodes: seq<Node>)
    requires RecordsFit(d) && |nodes| == |d.nodes| && forall j :: 0 <= j < |nodes| ==> nodes[j].spec == d.nodes[j]
    ensures FirstLongKey(nodes, 0) == |nodes|
  {
  }

  // Every run of every accepted template, whatever the transport, the store and the event
  // sinks do: the link invariant and the types hold; the writes handed to the link are the
  // last accepted ones, each counted once; the event history is made of genuine, separated
  // rising edges of the conditions that the ticks saw, and none of it is dropped before exit;
  // and the committed table is the last successful snapshot.
  lemma EveryRunIsSafe(
    lib: Libraries, lines: seq<string>, d: Draft, enabled: bool, plc: Registers, env: StoreEnv, db: Db,
    persistEvery: nat, world: World, steps: seq<Step>)
    requires IsLoaded(lib, lines, d) && ClockRuns(world.modbus)
    ensures var s := Boot(d, enabled, plc, env, db, persistEvery);
      var s' := Run(world, s, steps);
      && SystemInv(s') && SameSpecs(s.nodes, s'.nodes) && WritesCounted(s')
      && s'.calls == ExpectedCalls(d.nodes, steps)
      && PendingIsLastAccepted(d.nodes, steps, s'.nodes)
      && HistoryInv(s'.events) && Grounded(d.events, s'.events.log, s'.views, world.nowMs)
      && RowsKept(db.rows, s')
      && TableIs(db.committed, s')
  {
    hide Boot, Run, SystemInv, IsLoaded, HistoryInv, Grounded, TableIs, RowsKept, PendingIsLastAccepted, WritesCounted;
    hide SnapshotsOf, ExpectedCalls, UniqueEvents, UniqueNodes, IdsFit, SameDefinitions;
    BootIsReady(lib, lines, d, enabled, plc, env, db, persistEvery);
    var s := Boot(d, enabled, plc, env, db, persistEvery);
    RunKeepsSystem(world, s, steps);
    RunCountsWrites(world, s, steps);
    WritesAreLastAccepted(world, s, steps);
    RunLatchSafety(world, s, steps);
    RunKeepsRows(world, s, steps);
    RunSnapshots(world, s, steps);
    assert [] + ExpectedCalls(d.nodes, steps) == ExpectedCalls(d.nodes, steps);
  }

  // A restart after any run, with dot-free asset ids. If the last persist of the old process
  // succeeded, the new process starts from the values the old one ended with; if it was cut
  // off or that persist failed, from those of the last persist that succeeded.
  lemma RestartAfterAnyRun(
    lib: Libraries, lines: seq<string>, d: Draft, s: System, world: World, steps: seq<Step>,
    enabled: bool, plc: Registers, env: StoreEnv, persistEvery: nat)
    requires IsLoaded(lib, lines, d) && ClockRuns(world.modbus)
    requires ReadyToRun(s) && Specs(s.nodes) == d.nodes
    requires forall i :: 0 <= i < |d.nodes| ==> '.' !in d.nodes[i].assetId
    requires forall k: nat :: env.ok(k)
    ensures var end := Run(world, s, steps);
      var cutOff := Boot(d, enabled, plc, env, end.db, persistEvery).nodes;
      end.snapshots != [] ==> SameValues(end.snapshots[|end.snapshots| - 1], cutOff)
    ensures var end := Run(world, s, steps);
      var s' := Shutdown(world, end);
      var next := Boot(d, enabled, plc, env, s'.db, persistEvery).nodes;
      && (Persist(world.store, end.db, end.nodes).1 == Ok ==> SameValues(end.nodes, next))
      && (Persist(world.store, end.db, end.nodes).1 != Ok ==> s'.snapshots == end.snapshots)
      && (s'.snapshots != [] ==> SameValues(s'.snapshots[|s'.snapshots| - 1], next))
  {
    LoadedKeysDistinct(s.nodes);
    var zero := ZeroNodes(d.nodes);
    assert SameSpecs(s.nodes, zero) by {
      assert forall i :: 0 <= i < |d.nodes| ==> zero[i].spec == Specs(s.nodes)[i];
    }
    hide Run, Load, IsLoaded, KeyOf, DistinctKeys, Persist, ZeroNodes;
    if Run(world, s, steps).snapshots != [] { RestartRestores(world, s, steps, env, zero); }
    ShutdownRestores(world, s, steps, env, zero);
  }
}
