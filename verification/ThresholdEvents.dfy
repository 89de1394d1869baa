/**
 Threshold events: one pass over the event table compares each source node with its
 threshold, latches the event while the condition holds, and adds a history row and a
 notification when the latch closes. Inserting a row and emitting a notification may
 each fail, and a failure ends the pass.
 */
module ThresholdEvents {
  import opened EdgeTypes
  import opened EdgeValue
  import opened LatestValues

  datatype Stats = Stats(checked: nat, fired: nat, emitted: nat)

  // What became of one evaluation.
  datatype Firing = Quiet | InsertFailed | Inserted(row: Row)

  datatype Evaluation = Evaluation(event: nat, met: bool, firing: Firing)

  // The log records every evaluation made so far, in order.
  datatype EventState = EventState(events: seq<Event>, history: seq<Row>, stats: Stats, log: seq<Evaluation>)

  // Success of the row insert and of the notification at evaluation number k.
  datatype EventEnv = EventEnv(insertOk: nat -> bool, emitOk: nat -> bool)

  predicate Less(a: Double, b: Double) {
    match (a, b)
    case (Finite(x), Finite(y)) => x < y
    case (Finite(_), PosInf) => true
    case (NegInf, Finite(_)) => true
    case (NegInf, PosInf) => true
    case _ => false
  }

  predicate Beyond(condition: Condition, value: Double, threshold: Double) {
    match condition
    case GreaterThan => Less(threshold, value)
    case LessThan => Less(value, threshold)
    case NoCondition => false
  }

  // An index past the nodes stands for an event with no source node.
  predicate ConditionMet(event: Event, nodes: seq<Node>) {
    event.sourceIndex < |nodes| &&
    Beyond(event.condition, AsDouble(nodes[event.sourceIndex].value), event.threshold)
  }

  // One event of a pass; the flag says whether the pass goes on.
  function EvaluateEvent(env: EventEnv, server: bool, s: EventState, nodes: seq<Node>, now: nat, i: nat):
    (r: (EventState, bool))
    requires i < |s.events|
    ensures s.history <= r.0.history
  {
    var event := s.events[i];
    var k := |s.log|;
    var checked := s.stats.(checked := s.stats.checked + 1);
    if !ConditionMet(event, nodes) then
      (s.(events := s.events[i := event.(active := false)], stats := checked,
          log := s.log + [Evaluation(i, false, Quiet)]), true)
    else if event.active then
      (s.(stats := checked, log := s.log + [Evaluation(i, true, Quiet)]), true)
    else
      var latched := s.(events := s.events[i := event.(active := true)], stats := checked);
      if !env.insertOk(k) then
        (latched.(log := s.log + [Evaluation(i, true, InsertFailed)]), false)
      else
        var row := Row(event.id, AsDouble(nodes[event.sourceIndex].value), event.threshold, event.severity, now);
        var rowed := latched.(history := s.history + [row], log := s.log + [Evaluation(i, true, Inserted(row))]);
        if server && !env.emitOk(k) then (rowed, false)
        else
          (rowed.(stats := checked.(fired := checked.fired + 1,
                                    emitted := checked.emitted + (if server then 1 else 0))), true)
  }

  function EvaluateFrom(env: EventEnv, server: bool, s: EventState, nodes: seq<Node>, now: nat, i: nat):
    (r: (EventState, Status))
    requires i <= |s.events|
    ensures s.history <= r.0.history
    decreases |s.events| - i
  {
    if i == |s.events| then (s, Ok)
    else
      var (s', more) := EvaluateEvent(env, server, s, nodes, now, i);
      if more then EvaluateFrom(env, server, s', nodes, now, i + 1) else (s', Error)
  }

  function Evaluate(env: EventEnv, server: bool, s: EventState, nodes: seq<Node>, now: nat): (r: (EventState, Status))
    ensures s.history <= r.0.history
  {
    EvaluateFrom(env, server, s.(stats := Stats(0, 0, 0)), nodes, now, 0)
  }

  // The event table, updated in place; the history goes to the store.
  class EdgeEvents {
    var events: seq<Event>
    var stats: Stats
    var evaluations: nat
    ghost var history: seq<Row>
    ghost var log: seq<Evaluation>

    ghost predicate Valid()
      reads this
    {
      evaluations == |log|
    }

    ghost function State(): EventState
      reads this
    {
      EventState(events, history, stats, log)
    }

    constructor (events: seq<Event>)
      ensures Valid() && State() == EventState(events, [], Stats(0, 0, 0), [])
    {
      this.events := events;
      history, stats, evaluations, log := [], Stats(0, 0, 0), 0, [];
    }

    method EvaluateAll(env: EventEnv, server: bool, store: EdgeStore, nodes: seq<Node>, now: nat)
      returns (status: Status)
      requires Valid()
      modifies this, store
      ensures Valid() && (State(), status) == Evaluate(env, server, old(State()), nodes, now)
      ensures old(history) <= history && store.db == WithRows(old(store.db), history[|old(history)|..])
    {
      hide EvaluateEvent, WithRows;
      stats := Stats(0, 0, 0);
      ghost var start, db0 := State(), store.db;
      WithMoreRows(db0, [], []);
      assert history[|history|..] == [];
      var i := 0;
      while i < |events|
        invariant Valid() && i <= |events|
        invariant EvaluateFrom(env, server, State(), nodes, now, i) == EvaluateFrom(env, server, start, nodes, now, 0)
        invariant start.history <= history && store.db == WithRows(db0, history[|start.history|..])
      {
        ghost var r := EvaluateEvent(env, server, State(), nodes, now, i);
        ghost var before := history;
        var more := EvaluateOne(env, server, store, nodes, now, i);
        assert State() == r.0 && more == r.1;
        WithMoreRows(db0, before[|start.history|..], history[|before|..]);
        assert before[|start.history|..] + history[|before|..] == history[|start.history|..];
        if !more {
          return Error;
        }
        i := i + 1;
      }
      return Ok;
    }

    method EvaluateOne(env: EventEnv, server: bool, store: EdgeStore, nodes: seq<Node>, now: nat, i: nat)
      returns (more: bool)
      requires Valid() && i < |events|
      modifies this, store
      ensures Valid() && (State(), more) == EvaluateEvent(env, server, old(State()), nodes, now, i)
      ensures |events| == old(|events|)
      ensures old(history) <= history && store.db == WithRows(old(store.db), history[|old(history)|..])
    {
      var event := events[i];
      var met := ConditionMet(event, nodes);
      var k := evaluations;
      ghost var firing := Quiet;
      WithMoreRows(store.db, [], []);
      stats := stats.(checked := stats.checked + 1);
      evaluations := evaluations + 1;
      more := true;
      if met && !event.active {
        events := events[i := event.(active := true)];
        var row := Row(event.id, AsDouble(nodes[event.sourceIndex].value), event.threshold, event.severity, now);
        var inserted := store.InsertEventHistory(env.insertOk(k), row);
        if inserted == Ok {
          history := history + [row];
          firing := Inserted(row);
          if server && !env.emitOk(k) {
            more := false;
          } else {
            stats := stats.(fired := stats.fired + 1);
            if server {
              stats := stats.(emitted := stats.emitted + 1);
            }
          }
        } else {
          firing := InsertFailed;
          more := false;
        }
      } else if !met {
        events := events[i := event.(active := false)];
      }
      log := log + [Evaluation(i, met, firing)];
    }
  }
}
