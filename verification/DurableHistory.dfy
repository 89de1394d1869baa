/**
 Which rows of the event history survive the process. History rows are inserted on the
 connection that persists the latest values, so a transaction that a persist leaves open
 swallows every row inserted after it.
 */
module DurableHistory {
  import opened EdgeTypes
  import opened EdgeValue
  import opened ModbusWire
  import opened ModbusLink
  import opened LinkSafety
  import opened ThresholdEvents
  import opened EventHistory
  import opened LatestValues
  import opened StoreSafety
  import opened Runtime
  import opened WriteTrace
  import opened RunSafety

  // ---- Rows and transactions --------------------------------------------

  // Rows are held only by an open transaction.
  predicate HeldIsOpen(db: Db) { db.open.None? ==> db.held == [] }

  // A persist never makes a row durable and never takes one away.
  lemma PersistKeepsRows(env: StoreEnv, db: Db, nodes: seq<Node>)
    requires HeldIsOpen(db)
    ensures var db' := Persist(env, db, nodes).0;
      HeldIsOpen(db') && db'.rows == db.rows && db'.held == db.held
  {
    var begun := Begin(env, Prepare(env, db).0);
    if begun.1 {
      UpsertsKeepRows(env, begun.0, nodes, 0);
      hide UpsertFrom;
      assert db.rows + [] == db.rows;
    }
  }

  lemma {:induction false} UpsertsKeepRows(env: StoreEnv, db: Db, nodes: seq<Node>, i: nat)
    requires i <= |nodes| && db.held == []
    ensures var db' := UpsertFrom(env, db, nodes, i).0;
      db'.rows == db.rows && db'.held == []
    decreases |nodes| - i
  {
    hide KeyOf;
    if i < |nodes| && |KeyOf(nodes[i].spec)| < KEY_LEN {
      var (db', done) := Upsert(env, db, KeyOf(nodes[i].spec), AsDouble(nodes[i].value));
      if done { UpsertsKeepRows(env, db', nodes, i + 1); }
    }
  }

  // The persist of this tick is due and leaves its transaction open.
  predicate Sticks(world: World, s: System) {
    var env, c := world.store, s.db.calls;
    SnapshotDue(s) && env.ok(c) && env.ok(c + 1) && StaysOpen(env, c + 2, Tick(world, s).nodes, 0)
  }

  // ---- One tick ---------------------------------------------------------

  // A tick adds its rows to the table, or to the transaction it finds open; a transaction is
  // open afterwards exactly when one was before or this tick's persist sticks.
  lemma TickRows(world: World, s: System)
    requires HeldIsOpen(s.db)
    ensures var s' := Tick(world, s);
      && HeldIsOpen(s'.db) && s.events.history <= s'.events.history
      && (s'.db.open.Some? <==> s.db.open.Some? || Sticks(world, s))
      && var added := s'.events.history[|s.events.history|..];
      && s'.db.rows == (if s.db.open.None? then s.db.rows + added else s.db.rows)
      && s'.db.held == (if s.db.open.None? then [] else s.db.held + added)
  {
    var b := Cycle(world, s);
    CycleKeepsTable(world, s);
    assert Tick(world, s) == if SnapshotDue(s) then Persisted(world, b) else b;
    hide Cycle, Tick, Persist, StaysOpen;
    PersistKeepsRows(world.store, b.db, b.nodes);
    LeavesOpen(world.store, b.db, b.nodes);
  }

  // ---- Whole runs -------------------------------------------------------

  // Every row ever inserted is in the table or held, in the order of insertion.
  ghost predicate RowsKept(before: seq<Row>, s: System) {
    HeldIsOpen(s.db) && s.db.rows + s.db.held == before + s.events.history
  }

  lemma {:induction false} RunKeepsRows(world: World, s: System, steps: seq<Step>)
    requires HeldIsOpen(s.db) && s.db.held == [] && s.events.history == []
    ensures RowsKept(s.db.rows, Run(world, s, steps))
  {
    if steps == [] {
      assert s.db.rows + [] == s.db.rows;
    } else {
      var n := |steps| - 1;
      var b := Run(world, s, steps[..n]);
      RunKeepsRows(world, s, steps[..n]);
      match steps[n]
      case RunTick =>
        TickRows(world, b);
        hide Tick;
        RowsAfterTick(s.db.rows, b, Tick(world, b));
      case Write(_, _) =>
    }
  }

  lemma RowsAfterTick(before: seq<Row>, s: System, s': System)
    requires RowsKept(before, s) && HeldIsOpen(s'.db) && s.events.history <= s'.events.history
    requires var added := s'.events.history[|s.events.history|..];
      && s'.db.rows == (if s.db.open.None? then s.db.rows + added else s.db.rows)
      && s'.db.held == (if s.db.open.None? then [] else s.db.held + added)
    ensures RowsKept(before, s')
  {
    var past, added := s.events.history, s'.events.history[|s.events.history|..];
    assert s'.events.history == past + added;
    RowsAppended(s.db.rows, s.db.held, before, past, added);
  }

  lemma RowsAppended(rows: seq<Row>, held: seq<Row>, before: seq<Row>, past: seq<Row>, added: seq<Row>)
    requires rows + held == before + past
    ensures rows + (held + added) == before + (past + added)
    ensures held == [] ==> rows + added + [] == before + (past + added)
  {
    assert rows + (held + added) == (rows + held) + added;
    assert before + (past + added) == (before + past) + added;
    assert rows + [] == rows && rows + added + [] == rows + added;
  }

  // From any state on, the table only grows; once a transaction is open it never changes again.
  lemma {:induction false} RowsOnlyGrow(world: World, s: System, steps: seq<Step>)
    requires HeldIsOpen(s.db)
    ensures var s' := Run(world, s, steps);
      && HeldIsOpen(s'.db) && s.db.rows <= s'.db.rows
      && (s.db.open.Some? ==> s'.db.open.Some? && s'.db.rows == s.db.rows)
  {
    if steps != [] {
      var n := |steps| - 1;
      RowsOnlyGrow(world, s, steps[..n]);
      if steps[n].RunTick? {
        TickRows(world, Run(world, s, steps[..n]));
        hide Tick, Sticks;
      }
    }
  }

  lemma {:induction false} RunInTwo(world: World, s: System, steps: seq<Step>, n: nat)
    requires n <= |steps|
    ensures Run(world, s, steps) == Run(world, Run(world, s, steps[..n]), steps[n..])
  {
    hide DoStep;
    var m := |steps| - 1;
    if n == |steps| {
      assert steps[..n] == steps;
    } else {
      RunInTwo(world, s, steps[..m], n);
      assert steps[..m][..n] == steps[..n] && steps[..m][n..] == steps[n..][..m - n];
    }
  }

  // Step k is a tick whose persist leaves its transaction open.
  predicate SticksAt(world: World, s: System, steps: seq<Step>, k: nat)
    requires k < |steps|
  {
    steps[k].RunTick? && Sticks(world, Run(world, s, steps[..k]))
  }

  ghost predicate StuckBefore(world: World, s: System, steps: seq<Step>, n: nat)
    requires n <= |steps|
  {
    exists k: nat :: k < n && SticksAt(world, s, steps, k)
  }

  // A transaction is open after n steps exactly when a tick among them left one open.
  lemma {:induction false} OpenAfterRun(world: World, s: System, steps: seq<Step>, n: nat)
    requires s.db.open.None? && HeldIsOpen(s.db) && n <= |steps|
    ensures Run(world, s, steps[..n]).db.open.Some? <==> StuckBefore(world, s, steps, n)
  {
    hide DoStep, SticksAt;
    if n == 0 {
      assert steps[..0] == [];
    } else {
      OpenAfterRun(world, s, steps, n - 1);
      OpenAfterStep(world, s, steps, n - 1);
      hide Run;
      assert StuckBefore(world, s, steps, n) <==>
        StuckBefore(world, s, steps, n - 1) || SticksAt(world, s, steps, n - 1);
    }
  }

  lemma OpenAfterStep(world: World, s: System, steps: seq<Step>, n: nat)
    requires HeldIsOpen(s.db) && n < |steps|
    ensures Run(world, s, steps[..n + 1]).db.open.Some?
      <==> Run(world, s, steps[..n]).db.open.Some? || SticksAt(world, s, steps, n)
  {
    hide Sticks, Tick;
    assert steps[..n + 1][..n] == steps[..n];
    RowsOnlyGrow(world, s, steps[..n]);
    if steps[n].RunTick? { TickRows(world, Run(world, s, steps[..n])); }
  }

  // Row r of the history was inserted by tick n of the run.
  ghost predicate InsertedAt(world: World, s: System, steps: seq<Step>, n: nat, r: nat)
    requires n < |steps|
  {
    && steps[n].RunTick?
    && |Run(world, s, steps[..n]).events.history| <= r < |Run(world, s, steps[..n + 1]).events.history|
  }

  // The rows another process finds after this one has left its server loop.
  function Surviving(world: World, s: System, steps: seq<Step>): seq<Row> {
    Reopened(Shutdown(world, Run(world, s, steps)).db).rows
  }

  // What survives a run is a prefix of what was inserted, and a row survives exactly when no
  // tick before its own left a transaction open.
  lemma RowSurvivesIff(world: World, s: System, steps: seq<Step>, n: nat, r: nat)
    requires s.db.open.None? && s.db.held == [] && s.events.history == []
    requires n < |steps| && InsertedAt(world, s, steps, n, r)
    ensures Surviving(world, s, steps) <= s.db.rows + Run(world, s, steps).events.history
    ensures |s.db.rows| + r < |Surviving(world, s, steps)|
      <==> !StuckBefore(world, s, steps, n)
  {
    var end := Run(world, s, steps);
    RunKeepsRows(world, s, steps);
    assert Surviving(world, s, steps) == end.db.rows by { PersistKeepsRows(world.store, end.db, end.nodes); }
    DurableWhenClosed(world, s, steps, n, r);
    OpenAfterRun(world, s, steps, n);
  }

  lemma DurableWhenClosed(world: World, s: System, steps: seq<Step>, n: nat, r: nat)
    requires s.db.open.None? && s.db.held == [] && s.events.history == []
    requires n < |steps| && InsertedAt(world, s, steps, n, r)
    ensures |s.db.rows| + r < |Run(world, s, steps).db.rows| <==> Run(world, s, steps[..n]).db.open.None?
  {
    var b := Run(world, s, steps[..n]);
    var a := Run(world, s, steps[..n + 1]);
    RunKeepsRows(world, s, steps[..n]);
    RunKeepsRows(world, s, steps[..n + 1]);
    assert a == Tick(world, b) by { assert steps[..n + 1][..n] == steps[..n]; }
    TickRows(world, b);
    RunInTwo(world, s, steps, n + 1);
    RowsOnlyGrow(world, a, steps[n + 1..]);
    hide Run, Tick, Sticks;
    var end := Run(world, s, steps);
    if b.db.open.None? {
      assert a.db.held == [];
      assert |a.db.rows| == |s.db.rows| + |a.events.history|;
      assert |a.db.rows| <= |end.db.rows|;
    } else {
      assert a.db.open.Some? && end.db.rows == a.db.rows == b.db.rows;
      assert |b.db.rows| + |b.db.held| == |s.db.rows| + |b.events.history|;
    }
  }

  // ---- A row that is lost -----------------------------------------------

  // A store whose COMMIT, statement 3, fails once; nothing else ever fails.
  const BUSY_ONCE := World(
    Env(_ => true, _ => true, _ => true, _ => true, _ => map[], _ => 0),
    EventEnv(_ => true, _ => true), FAILS_AT_3, false, _ => 0)

  const RUNNING := Event("running", "pump", "run", 0, 0, GreaterThan, Finite(0.5), 1, false)

  // A system without a PLC that persists on every tick and has an event on its one node.
  const START := System(
    [Node(RUN_FLAG, BoolV(false), false)], InitialLink(false, map[]), Fresh([RUNNING]),
    Db(map[], None, 0, [], []), 0, 1, [], [], [])

  const STEPS := [RunTick, Write(0, Scalar(BoolV(true))), RunTick]

  // A tick without a PLC: the node keeps its value, and the event is evaluated on it.
  lemma OfflineTick(s: System)
    requires !s.link.enabled && LinkInv(s.link) && |s.nodes| == 1 && |s.events.events| == 1
    ensures var s' := Tick(BUSY_ONCE, s);
      && !s'.link.enabled && LinkInv(s'.link) && |s'.nodes| == 1 && s'.persistEvery == s.persistEvery
      && s'.nodes[0].(pending := s.nodes[0].pending) == s.nodes[0]
      && s'.events == Evaluate(BUSY_ONCE.events, false, s.events, s'.nodes, 0).0
  {
    hide Tick, DrainFrom, Evaluate;
    var env := BUSY_ONCE.modbus;
    TickParts(BUSY_ONCE, s);
    DrainGrows(env, s.link, s.nodes, 0);
    DrainClears(env, s.link, s.nodes, 0);
  }

  // One event that is not latched, in a pass in which nothing fails.
  lemma OneEventPass(s: EventState, nodes: seq<Node>)
    requires |s.events| == 1 && !s.events[0].active
    ensures var s' := Evaluate(BUSY_ONCE.events, false, s, nodes, 0).0;
      && |s'.events| == 1 && s'.events[0].(active := false) == s.events[0]
      && |s'.history| == |s.history| + (if ConditionMet(s.events[0], nodes) then 1 else 0)
      && (!ConditionMet(s.events[0], nodes) ==> s'.events == s.events)
  {
    hide ConditionMet;
    var s0 := s.(stats := Stats(0, 0, 0));
    var r := EvaluateEvent(BUSY_ONCE.events, false, s0, nodes, 0, 0);
    assert |r.0.events| == 1 && r.1;
    assert EvaluateFrom(BUSY_ONCE.events, false, r.0, nodes, 0, 1) == (r.0, Ok);
    assert s.events[0 := s.events[0]] == s.events;
  }

  // The first tick finds the condition false, and its COMMIT fails.
  lemma FirstTickSticks()
    ensures Sticks(BUSY_ONCE, START)
    ensures var s := Tick(BUSY_ONCE, START);
      && !s.link.enabled && LinkInv(s.link) && s.events.events == [RUNNING] && s.events.history == []
      && |s.nodes| == 1 && s.nodes[0].spec == RUN_FLAG
  {
    hide Tick, Evaluate, LinkInv;
    assert LinkInv(START.link) by { NewLinkIsSound(); }
    OfflineTick(START);
    var s := Tick(BUSY_ONCE, START);
    assert !ConditionMet(RUNNING, s.nodes);
    OneEventPass(START.events, s.nodes);
    assert StaysOpen(FAILS_AT_3, 3, s.nodes, 1);
    assert StaysOpen(FAILS_AT_3, 2, s.nodes, 0);
  }

  lemma NewLinkIsSound()
    ensures LinkInv(InitialLink(false, map[]))
  {
  }

  // For example: the COMMIT of the first tick fails, a client sets the node, and the second
  // tick inserts a row without an error. No row survives the process.
  lemma RowIsLost()
    ensures |Run(BUSY_ONCE, START, STEPS).events.history| == 1 && Surviving(BUSY_ONCE, START, STEPS) == []
  {
    hide Tick, ClientWrite, Evaluate, Sticks, LinkInv, Run, Surviving;
    var s1 := Tick(BUSY_ONCE, START);
    var s2 := ClientWrite(s1, 0, Scalar(BoolV(true))).0;
    var s3 := Tick(BUSY_ONCE, s2);
    ThreeSteps(BUSY_ONCE, START, STEPS[1].payload);
    FirstTickSticks();
    RejectedWriteChangesNothing(s1, 0, Scalar(BoolV(true)));
    OfflineTick(s2);
    assert ConditionMet(RUNNING, s3.nodes);
    OneEventPass(s2.events, s3.nodes);
    assert InsertedAt(BUSY_ONCE, START, STEPS, 2, 0);
    assert SticksAt(BUSY_ONCE, START, STEPS, 0);
    RowSurvivesIff(BUSY_ONCE, START, STEPS, 2, 0);
  }

  lemma ThreeSteps(world: World, s: System, payload: Payload)
    ensures var steps := [RunTick, Write(0, payload), RunTick];
      var s1 := Tick(world, s);
      var s2 := ClientWrite(s1, 0, payload).0;
      && Run(world, s, steps[..0]) == s && Run(world, s, steps[..1]) == s1 && Run(world, s, steps[..2]) == s2
      && Run(world, s, steps[..3]) == Tick(world, s2) == Run(world, s, steps)
  {
    hide Tick, ClientWrite;
    var steps := [RunTick, Write(0, payload), RunTick];
    assert steps[..0] == [] && steps[..1][..0] == [] && steps[..2][..1] == steps[..1];
    assert steps[..3][..2] == steps[..2] && steps[..3] == steps;
  }
}
