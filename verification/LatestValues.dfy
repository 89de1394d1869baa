/**
 The store: the latest-value table, filled by an upsert per node inside one transaction, its
 restore, and the rows of the event history.

 Statements are numbered, and any of them may fail. A transaction cannot be opened
 inside another one. The value column rejects NULL, which is how NaN is bound. A history row
 is inserted on the same connection, so it belongs to the transaction that is open, if any.
 */
module LatestValues {
  import opened EdgeTypes
  import opened EdgeValue

  type Table = map<string, Double>

  // A row of the event history.
  datatype Row = Row(eventId: string, value: Double, threshold: Double, severity: nat, createdMs: nat)

  // committed and rows are what another connection sees; open is the table of an open
  // transaction, and held are the history rows inserted inside it.
  datatype Db = Db(committed: Table, open: Option<Table>, calls: nat, rows: seq<Row>, held: seq<Row>)

  // ok(k): statement k succeeds. aborts(k): a COMMIT failing at k ends the transaction anyway.
  datatype StoreEnv = StoreEnv(ok: nat -> bool, aborts: nat -> bool)

  const KEY_LEN := 160

  function NodeKey(assetId: string, id: string): string { "node:" + assetId + "." + id }

  function KeyOf(spec: NodeSpec): string { NodeKey(spec.assetId, spec.id) }

  function Visible(db: Db): Table { if db.open.Some? then db.open.value else db.committed }

  // ---- Statements -------------------------------------------------------

  function Prepare(env: StoreEnv, db: Db): (Db, bool) {
    (db.(calls := db.calls + 1), env.ok(db.calls))
  }

  function Begin(env: StoreEnv, db: Db): (Db, bool) {
    if env.ok(db.calls) && db.open.None?
    then (db.(open := Some(db.committed), calls := db.calls + 1), true)
    else (db.(calls := db.calls + 1), false)
  }

  function Upsert(env: StoreEnv, db: Db, key: string, value: Double): (Db, bool) {
    if env.ok(db.calls) && !value.NaN? && db.open.Some?
    then (db.(open := Some(db.open.value[key := value]), calls := db.calls + 1), true)
    else (db.(calls := db.calls + 1), false)
  }

  function Rollback(env: StoreEnv, db: Db): Db {
    if env.ok(db.calls) then db.(open := None, held := [], calls := db.calls + 1) else db.(calls := db.calls + 1)
  }

  function Commit(env: StoreEnv, db: Db): (Db, bool) {
    if env.ok(db.calls) && db.open.Some? then
      (Db(db.open.value, None, db.calls + 1, db.rows + db.held, []), true)
    else if env.aborts(db.calls) then (db.(open := None, held := [], calls := db.calls + 1), false)
    else (db.(calls := db.calls + 1), false)
  }

  // Inserts history rows: committed at once, or held by the open transaction.
  function WithRows(db: Db, rows: seq<Row>): Db {
    if db.open.None? then db.(rows := db.rows + rows) else db.(held := db.held + rows)
  }

  lemma WithMoreRows(db: Db, a: seq<Row>, b: seq<Row>)
    ensures WithRows(WithRows(db, a), b) == WithRows(db, a + b)
    ensures WithRows(db, []) == db
  {
    assert db.rows + a + b == db.rows + (a + b) && db.held + a + b == db.held + (a + b);
    assert db.rows + [] == db.rows && db.held + [] == db.held;
  }

  // What a new connection finds: closing the old one rolls an open transaction back.
  function Reopened(db: Db): Db { Db(db.committed, None, 0, db.rows, []) }

  // ---- Persist ----------------------------------------------------------

  // The upserts from node i on; a failure rolls back.
  function UpsertFrom(env: StoreEnv, db: Db, nodes: seq<Node>, i: nat): (r: (Db, Status))
    requires i <= |nodes|
    decreases |nodes| - i
  {
    if i == |nodes| then (db, Ok)
    else if |KeyOf(nodes[i].spec)| >= KEY_LEN then (Rollback(env, db), Limit)
    else
      var (db', done) := Upsert(env, db, KeyOf(nodes[i].spec), AsDouble(nodes[i].value));
      if done then UpsertFrom(env, db', nodes, i + 1) else (Rollback(env, db'), Error)
  }

  function Persist(env: StoreEnv, db: Db, nodes: seq<Node>): (r: (Db, Status)) {
    var (prepared, compiled) := Prepare(env, db);
    if !compiled then (prepared, Error)
    else
      var (begun, started) := Begin(env, prepared);
      if !started then (begun, Error) else FillAndCommit(env, begun, nodes)
  }

  function FillAndCommit(env: StoreEnv, db: Db, nodes: seq<Node>): (r: (Db, Status)) {
    var (filled, status) := UpsertFrom(env, db, nodes, 0);
    if status != Ok then (filled, status)
    else
      var (done, committed) := Commit(env, filled);
      (done, if committed then Ok else Error)
  }

  // ---- Load -------------------------------------------------------------

  function LoadFrom(env: StoreEnv, db: Db, nodes: seq<Node>, i: nat): (r: (Db, seq<Node>, Status))
    requires i <= |nodes|
    decreases |nodes| - i
  {
    if i == |nodes| then (db, nodes, Ok)
    else
      var key := KeyOf(nodes[i].spec);
      if |key| >= KEY_LEN then (db, nodes, Limit)
      else
        var db' := db.(calls := db.calls + 1);
        if env.ok(db.calls) && key in Visible(db) then
          var value := FromDouble(nodes[i].spec.dataType, Visible(db)[key]);
          LoadFrom(env, db', nodes[i := nodes[i].(value := value)], i + 1)
        else LoadFrom(env, db', nodes, i + 1)
  }

  function Load(env: StoreEnv, db: Db, nodes: seq<Node>): (r: (Db, seq<Node>, Status)) {
    var (prepared, compiled) := Prepare(env, db);
    if !compiled then (prepared, nodes, Error) else LoadFrom(env, prepared, nodes, 0)
  }

  // The store, updated in place.
  class EdgeStore {
    var db: Db

    constructor (table: Table)
      ensures db == Db(table, None, 0, [], [])
    {
      db := Db(table, None, 0, [], []);
    }

    method InsertEventHistory(succeeds: bool, row: Row) returns (status: Status)
      modifies this
      ensures status == if succeeds then Ok else Error
      ensures db == if succeeds then WithRows(old(db), [row]) else old(db)
    {
      if !succeeds {
        return Error;
      }
      if db.open.None? {
        db := db.(rows := db.rows + [row]);
      } else {
        db := db.(held := db.held + [row]);
      }
      return Ok;
    }

    method PersistLatestValues(env: StoreEnv, nodes: seq<Node>) returns (status: Status)
      modifies this
      ensures (db, status) == Persist(env, old(db), nodes)
    {
      var prepared := Prepare(env, db);
      db := prepared.0;
      if !prepared.1 {
        return Error;
      }
      var begun := Begin(env, db);
      db := begun.0;
      if !begun.1 {
        return Error;
      }
      var i := 0;
      while i < |nodes|
        invariant i <= |nodes|
        invariant UpsertFrom(env, db, nodes, i) == UpsertFrom(env, begun.0, nodes, 0)
      {
        var key := KeyOf(nodes[i].spec);
        if |key| >= KEY_LEN {
          db := Rollback(env, db);
          return Limit;
        }
        var upserted := Upsert(env, db, key, AsDouble(nodes[i].value));
        db := upserted.0;
        if !upserted.1 {
          db := Rollback(env, db);
          return Error;
        }
        i := i + 1;
      }
      var committed := Commit(env, db);
      db := committed.0;
      return if committed.1 then Ok else Error;
    }

    method LoadLatestValues(env: StoreEnv, model: EdgeNodes) returns (status: Status)
      modifies this, model
      ensures (db, model.nodes, status) == Load(env, old(db), old(model.nodes))
    {
      var prepared := Prepare(env, db);
      db := prepared.0;
      if !prepared.1 {
        return Error;
      }
      var i := 0;
      while i < |model.nodes|
        invariant i <= |model.nodes|
        invariant LoadFrom(env, db, model.nodes, i) == LoadFrom(env, prepared.0, old(model.nodes), 0)
      {
        var key := KeyOf(model.nodes[i].spec);
        if |key| >= KEY_LEN {
          return Limit;
        }
        if env.ok(db.calls) && key in Visible(db) {
          var value := FromDouble(model.nodes[i].spec.dataType, Visible(db)[key]);
          model.nodes := model.nodes[i := model.nodes[i].(value := value)];
        }
        db := db.(calls := db.calls + 1);
        i := i + 1;
      }
      status := Ok;
    }
  }
}
