/**
 What the latest-value store promises: distinct keys, all-or-nothing persists, and a
 restore that gives back every value.
 */
module StoreSafety {
  import opened EdgeTypes
  import opened EdgeValue
  import opened LatestValues
  import opened TemplateValidation

  // ---- Keys -------------------------------------------------------------

  // Two different nodes share a key exactly when one asset id extends the other past a dot
  // that the node id makes up for.
  ghost predicate Straddles(a1: string, i1: string, a2: string, i2: string, rest: string) {
    a2 == a1 + "." + rest && i1 == rest + "." + i2
  }

  ghost predicate Collide(a1: string, i1: string, a2: string, i2: string) {
    exists rest :: Straddles(a1, i1, a2, i2, rest)
  }

  lemma KeyCollision(a1: string, i1: string, a2: string, i2: string)
    ensures NodeKey(a1, i1) == NodeKey(a2, i2)
        <==> (a1 == a2 && i1 == i2) || Collide(a1, i1, a2, i2) || Collide(a2, i2, a1, i1)
  {
    if NodeKey(a1, i1) == NodeKey(a2, i2) {
      assert NodeKey(a1, i1)[5..] == a1 + "." + i1;
      assert NodeKey(a2, i2)[5..] == a2 + "." + i2;
      if |a1| <= |a2| { SplitDot(a1, i1, a2, i2); } else { SplitDot(a2, i2, a1, i1); }
    }
    forall rest | Straddles(a1, i1, a2, i2, rest)
      ensures NodeKey(a1, i1) == NodeKey(a2, i2)
    {
      assert a1 + "." + (rest + "." + i2) == (a1 + "." + rest) + "." + i2;
    }
    forall rest | Straddles(a2, i2, a1, i1, rest)
      ensures NodeKey(a1, i1) == NodeKey(a2, i2)
    {
      assert a2 + "." + (rest + "." + i1) == (a2 + "." + rest) + "." + i1;
    }
  }

  lemma SplitDot(a1: string, i1: string, a2: string, i2: string)
    requires a1 + "." + i1 == a2 + "." + i2 && |a1| <= |a2|
    ensures (a1 == a2 && i1 == i2) || Collide(a1, i1, a2, i2)
  {
    var s1, s2 := a1 + "." + i1, a2 + "." + i2;
    assert s1[..|a1|] == a1 && s2[..|a2|] == a2;
    assert s1[|a1| + 1..] == i1 && s2[|a2| + 1..] == i2;
    if |a1| == |a2| {
      assert a1 == a2 && i1 == i2;
    } else {
      var rest := s1[|a1| + 1..|a2|];
      assert a2 == s1[..|a1|] + [s1[|a1|]] + rest;
      assert i1 == rest + [s1[|a2|]] + s1[|a2| + 1..];
      assert Straddles(a1, i1, a2, i2, rest);
    }
  }

  // For example, node c of asset a.b and node b.c of asset a.
  lemma DottedAssetsCollide()
    ensures NodeKey("a.b", "c") == NodeKey("a", "b.c")
  {
    assert Straddles("a", "b.c", "a.b", "c", "b");
    KeyCollision("a", "b.c", "a.b", "c");
  }

  // Asset ids without a dot give injective keys.
  lemma KeyInjective(a1: string, i1: string, a2: string, i2: string)
    requires '.' !in a1 && '.' !in a2 && NodeKey(a1, i1) == NodeKey(a2, i2)
    ensures a1 == a2 && i1 == i2
  {
    KeyCollision(a1, i1, a2, i2);
    forall a: string, rest: string
      ensures '.' in a + "." + rest
    {
      assert (a + "." + rest)[|a|] == '.';
    }
  }

  // The key is written node:asset.id.
  lemma KeyFormat(assetId: string, id: string)
    ensures var key := NodeKey(assetId, id);
      && |key| == |assetId| + |id| + 6 && key[..5] == "node:" && key[5 + |assetId|] == '.'
      && key[5..5 + |assetId|] == assetId && key[6 + |assetId|..] == id
  {
    var tail := assetId + "." + id;
    assert NodeKey(assetId, id) == "node:" + tail;
    assert NodeKey(assetId, id)[5..] == tail;
  }

  // The loader's id limits make every key fit its buffer.
  ghost predicate IdsFit(nodes: seq<Node>) {
    forall i :: 0 <= i < |nodes| ==> |nodes[i].spec.assetId| < MAX_ID_LEN && |nodes[i].spec.id| < MAX_ID_LEN
  }

  lemma KeyFits(nodes: seq<Node>, i: nat)
    requires IdsFit(nodes) && i < |nodes|
    ensures |KeyOf(nodes[i].spec)| < KEY_LEN == 160
  {
  }

  ghost predicate DistinctKeys(nodes: seq<Node>) {
    forall i, j :: 0 <= i < j < |nodes| ==> KeyOf(nodes[i].spec) != KeyOf(nodes[j].spec)
  }

  // A loaded model with dot-free asset ids has distinct keys.
  lemma LoadedKeysDistinct(nodes: seq<Node>)
    requires forall i :: 0 <= i < |nodes| ==> '.' !in nodes[i].spec.assetId
    requires UniqueNodes(Specs(nodes))
    ensures DistinctKeys(nodes)
  {
    forall i, j | 0 <= i < j < |nodes|
      ensures KeyOf(nodes[i].spec) != KeyOf(nodes[j].spec)
    {
      assert !SameNode(Specs(nodes)[i], Specs(nodes)[j]);
      if KeyOf(nodes[i].spec) == KeyOf(nodes[j].spec) {
        KeyInjective(nodes[i].spec.assetId, nodes[i].spec.id, nodes[j].spec.assetId, nodes[j].spec.id);
      }
    }
  }

  // ---- Persist is all or nothing ----------------------------------------

  // The table with the first n nodes written over it.
  function Overlay(t: Table, nodes: seq<Node>, n: nat): Table
    requires n <= |nodes|
  {
    if n == 0 then t
    else Overlay(t, nodes, n - 1)[KeyOf(nodes[n - 1].spec) := AsDouble(nodes[n - 1].value)]
  }

  ghost predicate NoNaN(nodes: seq<Node>) {
    forall i :: 0 <= i < |nodes| ==> AsDouble(nodes[i].value) != NaN
  }

  lemma {:induction false} UpsertsFill(env: StoreEnv, db: Db, t: Table, nodes: seq<Node>, i: nat)
    requires i <= |nodes| && db.open == Some(Overlay(t, nodes, i))
    ensures var (db', status) := UpsertFrom(env, db, nodes, i);
      && db'.committed == db.committed
      && (status == Ok ==> db'.open == Some(Overlay(t, nodes, |nodes|)))
      && (status == Ok ==> forall j :: i <= j < |nodes| ==> AsDouble(nodes[j].value) != NaN)
    decreases |nodes| - i
  {
    if i < |nodes| && |KeyOf(nodes[i].spec)| < KEY_LEN {
      var (db', done) := Upsert(env, db, KeyOf(nodes[i].spec), AsDouble(nodes[i].value));
      if done { UpsertsFill(env, db', t, nodes, i + 1); }
    }
  }

  // A persist that succeeds commits every node and closes the transaction; one that fails
  // changes nothing that is committed.
  lemma PersistAllOrNothing(env: StoreEnv, db: Db, nodes: seq<Node>)
    ensures var (db', status) := Persist(env, db, nodes);
      && (status == Ok ==> db'.committed == Overlay(db.committed, nodes, |nodes|) && db'.open == None && NoNaN(nodes))
      && (status != Ok ==> db'.committed == db.committed)
  {
    var begun := Begin(env, Prepare(env, db).0);
    if begun.1 { FillAllOrNothing(env, begun.0, nodes); }
  }

  lemma FillAllOrNothing(env: StoreEnv, db: Db, nodes: seq<Node>)
    requires db.open == Some(db.committed)
    ensures var (db', status) := FillAndCommit(env, db, nodes);
      && (status == Ok ==> db'.committed == Overlay(db.committed, nodes, |nodes|) && db'.open == None && NoNaN(nodes))
      && (status != Ok ==> db'.committed == db.committed)
  {
    hide KeyOf;
    UpsertsFill(env, db, db.committed, nodes, 0);
  }

  // A persist succeeds exactly when no transaction is left open, no node holds NaN, every key
  // fits and none of its own statements fails: one NaN anywhere blocks the whole snapshot.
  lemma PersistSucceeds(env: StoreEnv, db: Db, nodes: seq<Node>)
    ensures Persist(env, db, nodes).1 == Ok
        <==> && db.open.None? && NoNaN(nodes)
             && (forall i :: 0 <= i < |nodes| ==> |KeyOf(nodes[i].spec)| < KEY_LEN)
             && forall k :: db.calls <= k < db.calls + |nodes| + 3 ==> env.ok(k)
  {
    var begun := Begin(env, Prepare(env, db).0);
    if begun.1 {
      UpsertsSucceed(env, begun.0, nodes, 0);
      hide UpsertFrom, KeyOf;
      var c := db.calls;
      assert (forall k :: c <= k < c + |nodes| + 3 ==> env.ok(k))
        <==> env.ok(c) && env.ok(c + 1)
             && (forall k :: c + 2 <= k < c + 2 + |nodes| ==> env.ok(k)) && env.ok(c + 2 + |nodes|);
    }
  }

  lemma {:induction false} UpsertsSucceed(env: StoreEnv, db: Db, nodes: seq<Node>, i: nat)
    requires i <= |nodes| && db.open.Some?
    ensures var (db', status) := UpsertFrom(env, db, nodes, i);
      && (status == Ok ==> db'.calls == db.calls + |nodes| - i && db'.open.Some?)
      && (status == Ok
          <==> && (forall j :: i <= j < |nodes| ==> |KeyOf(nodes[j].spec)| < KEY_LEN && AsDouble(nodes[j].value) != NaN)
               && forall k :: db.calls <= k < db.calls + |nodes| - i ==> env.ok(k))
    decreases |nodes| - i
  {
    hide KeyOf;
    if i < |nodes| && |KeyOf(nodes[i].spec)| < KEY_LEN {
      var (db', done) := Upsert(env, db, KeyOf(nodes[i].spec), AsDouble(nodes[i].value));
      if done { UpsertsSucceed(env, db', nodes, i + 1); }
    }
  }

  // The first node from i on whose key is too long, or the length.
  function FirstLongKey(nodes: seq<Node>, i: nat): (n: nat)
    requires i <= |nodes|
    ensures i <= n <= |nodes| && (n < |nodes| ==> |KeyOf(nodes[n].spec)| >= 160)
    ensures forall j :: i <= j < n ==> |KeyOf(nodes[j].spec)| < 160
    decreases |nodes| - i
  {
    if i == |nodes| || |KeyOf(nodes[i].spec)| >= KEY_LEN then i else FirstLongKey(nodes, i + 1)
  }

  // Nodes i to n can be stored, the first of them by statement c.
  ghost predicate CanStore(env: StoreEnv, c: nat, nodes: seq<Node>, i: nat, n: nat)
    requires i <= n <= |nodes|
  {
    && (forall j :: i <= j < n ==> AsDouble(nodes[j].value) != NaN)
    && forall k :: c <= k < c + n - i ==> env.ok(k)
  }

  // A failed persist returns Limit exactly when it stores every node before the first key that
  // is too long, and Error otherwise.
  lemma FailureStatus(env: StoreEnv, db: Db, nodes: seq<Node>)
    ensures var c, n, status := db.calls, FirstLongKey(nodes, 0), Persist(env, db, nodes).1;
      && (status == Ok || status == Error || status == Limit)
      && (status == Limit <==>
            db.open.None? && env.ok(c) && env.ok(c + 1) && n < |nodes| && CanStore(env, c + 2, nodes, 0, n))
  {
    hide UpsertFrom, CanStore, FirstLongKey;
    var begun := Begin(env, Prepare(env, db).0);
    if begun.1 { UpsertStatus(env, begun.0, nodes, 0); }
  }

  lemma {:induction false} UpsertStatus(env: StoreEnv, db: Db, nodes: seq<Node>, i: nat)
    requires i <= |nodes| && db.open.Some?
    ensures var n, status := FirstLongKey(nodes, i), UpsertFrom(env, db, nodes, i).1;
      && (status == Ok || status == Error || status == Limit)
      && (status == Limit <==> n < |nodes| && CanStore(env, db.calls, nodes, i, n))
    decreases |nodes| - i
  {
    hide KeyOf, AsDouble;
    if i < |nodes| && |KeyOf(nodes[i].spec)| < KEY_LEN {
      var (db', done) := Upsert(env, db, KeyOf(nodes[i].spec), AsDouble(nodes[i].value));
      if done { UpsertStatus(env, db', nodes, i + 1); }
    }
  }

  function PersistRun(env: StoreEnv, db: Db, snapshots: seq<seq<Node>>): Db {
    if snapshots == [] then db
    else
      var n := |snapshots| - 1;
      Persist(env, PersistRun(env, db, snapshots[..n]), snapshots[n]).0
  }

  // A COMMIT that fails without ending its transaction is never rolled back, and from then
  // on no persist succeeds and nothing more is ever committed.
  lemma {:induction false} OpenTransactionBlocks(env: StoreEnv, db: Db, snapshots: seq<seq<Node>>, next: seq<Node>)
    requires db.open.Some?
    ensures var db' := PersistRun(env, db, snapshots);
      && db'.committed == db.committed && db'.open == db.open
      && Persist(env, db', next).1 == Error
  {
    if snapshots != [] {
      var n := |snapshots| - 1;
      OpenTransactionBlocks(env, db, snapshots[..n], snapshots[n]);
    }
  }

  // The upserts from node i on, at statement c, end with the transaction still open: the
  // first node that cannot be stored is followed by a failed ROLLBACK or, if there is none,
  // the COMMIT fails without ending the transaction.
  predicate StaysOpen(env: StoreEnv, c: nat, nodes: seq<Node>, i: nat)
    requires i <= |nodes|
    decreases |nodes| - i
  {
    if i == |nodes| then !env.ok(c) && !env.aborts(c)
    else if |KeyOf(nodes[i].spec)| >= KEY_LEN then !env.ok(c)
    else if env.ok(c) && AsDouble(nodes[i].value) != NaN then StaysOpen(env, c + 1, nodes, i + 1)
    else !env.ok(c + 1)
  }

  // Exactly when a transaction is open after a persist: it was open before, or this persist
  // began it and neither its COMMIT nor its ROLLBACK ended it.
  lemma LeavesOpen(env: StoreEnv, db: Db, nodes: seq<Node>)
    ensures var c := db.calls;
      Persist(env, db, nodes).0.open.Some? <==>
        db.open.Some? || (env.ok(c) && env.ok(c + 1) && StaysOpen(env, c + 2, nodes, 0))
  {
    var begun := Begin(env, Prepare(env, db).0);
    if begun.1 { UpsertsClose(env, begun.0, nodes, 0); }
  }

  lemma {:induction false} UpsertsClose(env: StoreEnv, db: Db, nodes: seq<Node>, i: nat)
    requires i <= |nodes| && db.open.Some?
    ensures var (db', status) := UpsertFrom(env, db, nodes, i);
      StaysOpen(env, db.calls, nodes, i) <==>
        if status == Ok then !env.ok(db'.calls) && !env.aborts(db'.calls) else db'.open.Some?
    ensures var (db', status) := UpsertFrom(env, db, nodes, i);
      status == Ok ==> db'.open.Some?
    decreases |nodes| - i
  {
    hide KeyOf;
    if i < |nodes| && |KeyOf(nodes[i].spec)| < KEY_LEN {
      var (db', done) := Upsert(env, db, KeyOf(nodes[i].spec), AsDouble(nodes[i].value));
      if done { UpsertsClose(env, db', nodes, i + 1); }
    }
  }

  // A store in which statement 3 fails and no other, and that failure ends no transaction.
  const FAILS_AT_3 := StoreEnv(k => k != 3, _ => false)

  const RUN_FLAG := NodeSpec("pump", "run", "Run", Bool, true, 1, 40001, Finite(1.0), 0)

  // For example, one node and a COMMIT, statement 3, that finds the database busy: the
  // transaction stays open, and although no later statement fails no later persist succeeds.
  lemma FailedCommitBlocks(later: seq<seq<Node>>, next: seq<Node>)
    ensures var db := Persist(FAILS_AT_3, Db(map[], None, 0, [], []), [Node(RUN_FLAG, BoolV(true), false)]).0;
      && db.open.Some? && db.calls == 4 && (forall k :: k >= db.calls ==> FAILS_AT_3.ok(k))
      && PersistRun(FAILS_AT_3, db, later).committed == map[]
      && Persist(FAILS_AT_3, PersistRun(FAILS_AT_3, db, later), next).1 == Error
  {
    var nodes := [Node(RUN_FLAG, BoolV(true), false)];
    var start := Db(map[], None, 0, [], []);
    var db := Persist(FAILS_AT_3, start, nodes).0;
    LeavesOpen(FAILS_AT_3, start, nodes);
    UpsertsSucceed(FAILS_AT_3, Begin(FAILS_AT_3, Prepare(FAILS_AT_3, start).0).0, nodes, 0);
    PersistAllOrNothing(FAILS_AT_3, start, nodes);
    OpenTransactionBlocks(FAILS_AT_3, db, later, next);
  }

  // ---- Overlays ---------------------------------------------------------

  // Only the last of several snapshots of one model shows.
  lemma {:induction false} OverlayLast(t: Table, a: seq<Node>, b: seq<Node>)
    requires SameSpecs(a, b)
    ensures Overlay(Overlay(t, a, |a|), b, |b|) == Overlay(t, b, |b|)
  {
    var m := Overlay(Overlay(t, a, |a|), b, |b|);
    var m' := Overlay(t, b, |b|);
    OverlayKeys(t, a, |a|);
    OverlayKeys(Overlay(t, a, |a|), b, |b|);
    OverlayKeys(t, b, |b|);
    assert KeysOf(a, |a|) == KeysOf(b, |b|) by { SameKeys(a, b, |a|); }
    assert m.Keys == m'.Keys;
    forall key | key in m
      ensures m[key] == m'[key]
    {
      OverlayAgree(Overlay(t, a, |a|), t, b, |b|, key);
      if key !in KeysOf(b, |b|) { OverlayMisses(t, a, |a|, key); }
    }
  }

  function KeysOf(nodes: seq<Node>, n: nat): set<string>
    requires n <= |nodes|
  {
    if n == 0 then {} else KeysOf(nodes, n - 1) + {KeyOf(nodes[n - 1].spec)}
  }

  lemma {:induction false} SameKeys(a: seq<Node>, b: seq<Node>, n: nat)
    requires SameSpecs(a, b) && n <= |a|
    ensures KeysOf(a, n) == KeysOf(b, n)
  {
    if n > 0 { SameKeys(a, b, n - 1); }
  }

  lemma {:induction false} OverlayKeys(t: Table, nodes: seq<Node>, n: nat)
    requires n <= |nodes|
    ensures Overlay(t, nodes, n).Keys == t.Keys + KeysOf(nodes, n)
  {
    if n > 0 { OverlayKeys(t, nodes, n - 1); }
  }

  lemma {:induction false} OverlayAgree(t: Table, u: Table, nodes: seq<Node>, n: nat, key: string)
    requires n <= |nodes|
    ensures key in KeysOf(nodes, n) ==>
      key in Overlay(t, nodes, n) && key in Overlay(u, nodes, n)
      && Overlay(t, nodes, n)[key] == Overlay(u, nodes, n)[key]
    ensures key !in KeysOf(nodes, n) ==>
      (key in Overlay(t, nodes, n) <==> key in t) && (key in t ==> Overlay(t, nodes, n)[key] == t[key])
    ensures key !in KeysOf(nodes, n) ==>
      (key in Overlay(u, nodes, n) <==> key in u) && (key in u ==> Overlay(u, nodes, n)[key] == u[key])
  {
    if n > 0 { OverlayAgree(t, u, nodes, n - 1, key); }
  }

  lemma OverlayMisses(t: Table, nodes: seq<Node>, n: nat, key: string)
    requires n <= |nodes| && key !in KeysOf(nodes, n)
    ensures key in Overlay(t, nodes, n) <==> key in t
    ensures key in t ==> Overlay(t, nodes, n)[key] == t[key]
  {
    OverlayAgree(t, t, nodes, n, key);
  }

  lemma {:induction false} OverlayAt(t: Table, nodes: seq<Node>, n: nat, i: nat)
    requires DistinctKeys(nodes) && i < n <= |nodes|
    ensures KeyOf(nodes[i].spec) in Overlay(t, nodes, n)
    ensures Overlay(t, nodes, n)[KeyOf(nodes[i].spec)] == AsDouble(nodes[i].value)
  {
    if i < n - 1 { OverlayAt(t, nodes, n - 1, i); }
  }

  // ---- Restore ----------------------------------------------------------

  ghost predicate SameValues(a: seq<Node>, b: seq<Node>) {
    |a| == |b| && forall i :: 0 <= i < |a| ==> a[i].value == b[i].value
  }

  ghost predicate Restored(t: Table, a: seq<Node>, b: seq<Node>, n: nat)
    requires n <= |a| == |b|
  {
    forall i :: 0 <= i < n && KeyOf(a[i].spec) in t ==>
      b[i].value == FromDouble(a[i].spec.dataType, t[KeyOf(a[i].spec)])
  }

  lemma {:induction false} LoadRestores(env: StoreEnv, db: Db, before: seq<Node>, nodes: seq<Node>, i: nat)
    requires (forall k: nat :: env.ok(k)) && i <= |nodes| && SameSpecs(before, nodes) && IdsFit(nodes)
    requires Restored(Visible(db), before, nodes, i)
    ensures var (db', nodes', status) := LoadFrom(env, db, nodes, i);
      status == Ok && Visible(db') == Visible(db) && SameSpecs(before, nodes')
      && Restored(Visible(db), before, nodes', |nodes|)
    decreases |nodes| - i
  {
    if i < |nodes| {
      KeyFits(nodes, i);
      var key := KeyOf(nodes[i].spec);
      var db' := db.(calls := db.calls + 1);
      if key in Visible(db) {
        var value := FromDouble(nodes[i].spec.dataType, Visible(db)[key]);
        LoadRestores(env, db', before, nodes[i := nodes[i].(value := value)], i + 1);
      } else {
        LoadRestores(env, db', before, nodes, i + 1);
      }
    }
  }

  // ---- What a restore does, exactly -------------------------------------

  // A node as the load of these rows leaves it, when its own statement is number c.
  function LoadedNode(env: StoreEnv, table: Table, node: Node, c: nat): Node {
    var key := KeyOf(node.spec);
    if env.ok(c) && key in table then node.(value := FromDouble(node.spec.dataType, table[key])) else node
  }

  ghost predicate LoadedAs(env: StoreEnv, table: Table, nodes: seq<Node>, nodes': seq<Node>, i: nat, n: nat, c: nat) {
    && i <= n <= |nodes| == |nodes'|
    && (forall j :: 0 <= j < i || n <= j < |nodes| ==> nodes'[j] == nodes[j])
    && (forall j :: i <= j < n ==> nodes'[j] == LoadedNode(env, table, nodes[j], c + j - i))
  }

  lemma {:induction false} LoadFromExactly(env: StoreEnv, db: Db, nodes: seq<Node>, i: nat)
    requires i <= |nodes|
    ensures var n := FirstLongKey(nodes, i);
      var (_, nodes', status) := LoadFrom(env, db, nodes, i);
      LoadedAs(env, Visible(db), nodes, nodes', i, n, db.calls) && status == (if n == |nodes| then Ok else Limit)
    decreases |nodes| - i
  {
    hide KeyOf, FromDouble, LoadedAs;
    if i < |nodes| && |KeyOf(nodes[i].spec)| < KEY_LEN {
      var next := LoadedNode(env, Visible(db), nodes[i], db.calls);
      var db', nodes1 := db.(calls := db.calls + 1), nodes[i := next];
      OneNodeLoads(env, db, nodes, i);
      LoadFromExactly(env, db', nodes1, i + 1);
      var nodes' := LoadFrom(env, db', nodes1, i + 1).1;
      SameLongKey(nodes, nodes1, i + 1);
      LoadedStep(env, Visible(db), nodes, nodes', i, FirstLongKey(nodes, i), db.calls);
    } else {
      NothingLoaded(env, Visible(db), nodes, i, db.calls);
    }
  }

  lemma OneNodeLoads(env: StoreEnv, db: Db, nodes: seq<Node>, i: nat)
    requires i < |nodes| && |KeyOf(nodes[i].spec)| < KEY_LEN
    ensures LoadFrom(env, db, nodes, i)
      == LoadFrom(env, db.(calls := db.calls + 1),
                  nodes[i := LoadedNode(env, Visible(db), nodes[i], db.calls)], i + 1)
    ensures Visible(db.(calls := db.calls + 1)) == Visible(db)
  {
    hide KeyOf, FromDouble;
    assert nodes[i := nodes[i]] == nodes;
  }

  lemma NothingLoaded(env: StoreEnv, table: Table, nodes: seq<Node>, i: nat, c: nat)
    requires i <= |nodes|
    ensures LoadedAs(env, table, nodes, nodes, i, i, c)
  {
  }

  lemma {:induction false} SameLongKey(a: seq<Node>, b: seq<Node>, i: nat)
    requires SameSpecs(a, b) && i <= |a|
    ensures FirstLongKey(a, i) == FirstLongKey(b, i)
    decreases |a| - i
  {
    hide KeyOf;
    if i < |a| { SameLongKey(a, b, i + 1); }
  }

  lemma LoadedStep(env: StoreEnv, table: Table, nodes: seq<Node>, nodes': seq<Node>, i: nat, n: nat, c: nat)
    requires i < n <= |nodes|
    requires LoadedAs(env, table, nodes[i := LoadedNode(env, table, nodes[i], c)], nodes', i + 1, n, c + 1)
    ensures LoadedAs(env, table, nodes, nodes', i, n, c)
  {
    hide LoadedNode;
  }

  // A load whose statement cannot be compiled leaves every node. Otherwise, before the first key
  // that is too long, a node takes the stored value exactly when its row is there and its own
  // statement succeeds, and is left as it is when not; from that key on all are left.
  lemma LoadExactly(env: StoreEnv, db: Db, nodes: seq<Node>, j: nat)
    requires j < |nodes|
    ensures var (_, nodes', status) := Load(env, db, nodes);
      var n, key := FirstLongKey(nodes, 0), KeyOf(nodes[j].spec);
      && |nodes'| == |nodes|
      && (env.ok(db.calls) && j < n && env.ok(db.calls + 1 + j) && key in Visible(db) ==>
            nodes'[j] == nodes[j].(value := FromDouble(nodes[j].spec.dataType, Visible(db)[key])))
      && (!(env.ok(db.calls) && j < n && env.ok(db.calls + 1 + j) && key in Visible(db)) ==> nodes'[j] == nodes[j])
      && status == (if !env.ok(db.calls) then Error else if n == |nodes| then Ok else Limit)
  {
    hide Load, LoadFrom, FirstLongKey, LoadedAs, LoadedNode, KeyOf, FromDouble, Visible;
    LoadPrepares(env, db, nodes);
    if env.ok(db.calls) {
      var prepared := db.(calls := db.calls + 1);
      LoadFromExactly(env, prepared, nodes, 0);
      var n, nodes' := FirstLongKey(nodes, 0), LoadFrom(env, prepared, nodes, 0).1;
      LoadedAt(env, Visible(db), nodes, nodes', n, prepared.calls, j);
      LoadedNodeIs(env, Visible(db), nodes[j], prepared.calls + j);
    }
  }

  lemma LoadPrepares(env: StoreEnv, db: Db, nodes: seq<Node>)
    ensures var prepared := db.(calls := db.calls + 1);
      && Visible(prepared) == Visible(db)
      && Load(env, db, nodes) ==
           if env.ok(db.calls) then LoadFrom(env, prepared, nodes, 0) else (prepared, nodes, Error)
  {
    hide LoadFrom;
  }

  lemma LoadedAt(env: StoreEnv, table: Table, nodes: seq<Node>, nodes': seq<Node>, n: nat, c: nat, j: nat)
    requires LoadedAs(env, table, nodes, nodes', 0, n, c) && j < |nodes|
    ensures |nodes'| == |nodes| && nodes'[j] == if j < n then LoadedNode(env, table, nodes[j], c + j) else nodes[j]
  {
    hide LoadedNode;
  }

  lemma LoadedNodeIs(env: StoreEnv, table: Table, node: Node, c: nat)
    ensures var key := KeyOf(node.spec);
      LoadedNode(env, table, node, c) ==
        if env.ok(c) && key in table then node.(value := FromDouble(node.spec.dataType, table[key])) else node
  {
  }

  // A persist that succeeds, then a load into any copy of the model, gives back every value
  // of every type exactly, the infinities included.
  lemma PersistThenLoad(env: StoreEnv, db: Db, nodes: seq<Node>, loadEnv: StoreEnv, copy: seq<Node>)
    requires WellTyped(nodes) && IdsFit(nodes) && DistinctKeys(nodes) && SameSpecs(nodes, copy)
    requires Persist(env, db, nodes).1 == Ok && forall k: nat :: loadEnv.ok(k)
    ensures var (_, restored, status) := Load(loadEnv, Persist(env, db, nodes).0, copy);
      status == Ok && SameValues(nodes, restored)
  {
    PersistAllOrNothing(env, db, nodes);
    RestoreValues(loadEnv, Persist(env, db, nodes).0, db.committed, nodes, copy);
  }

  lemma RestoreValues(env: StoreEnv, db: Db, t: Table, nodes: seq<Node>, copy: seq<Node>)
    requires WellTyped(nodes) && IdsFit(nodes) && DistinctKeys(nodes) && SameSpecs(nodes, copy)
    requires Visible(db) == Overlay(t, nodes, |nodes|) && forall k: nat :: env.ok(k)
    ensures var (_, restored, status) := Load(env, db, copy);
      status == Ok && SameValues(nodes, restored)
  {
    LoadRestores(env, Prepare(env, db).0, copy, copy, 0);
    forall i | 0 <= i < |nodes|
      ensures Load(env, db, copy).1[i].value == nodes[i].value
    {
      OverlayAt(t, nodes, |nodes|, i);
      DoubleRoundTrip(nodes[i].value);
    }
  }
}
