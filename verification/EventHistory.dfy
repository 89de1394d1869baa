/**
 What the event history means, over all runs: whatever fails, an event's rows and failed
 inserts together number the rising edges of its condition, and two of its rows always
 have a false evaluation between them.
 */
module EventHistory {
  import opened EdgeTypes
  import opened EdgeValue
  import opened LatestValues
  import opened ThresholdEvents

  // ---- Reading the log --------------------------------------------------

  // The outcomes of the condition of event e, one per evaluation of e.
  function Outcomes(log: seq<Evaluation>, e: nat): seq<bool> {
    if log == [] then []
    else
      var last := log[|log| - 1];
      Outcomes(log[..|log| - 1], e) + (if last.event == e then [last.met] else [])
  }

  // The false-to-true transitions of a signal that starts false.
  function RisingEdges(signal: seq<bool>): nat {
    if signal == [] then 0
    else
      var n := |signal| - 1;
      RisingEdges(signal[..n]) + (if signal[n] && !Latest(signal[..n]) then 1 else 0)
  }

  predicate Latest(signal: seq<bool>) { signal != [] && signal[|signal| - 1] }

  function RowCount(log: seq<Evaluation>, e: nat): nat {
    if log == [] then 0
    else
      var last := log[|log| - 1];
      RowCount(log[..|log| - 1], e) + (if last.event == e && last.firing.Inserted? then 1 else 0)
  }

  function FailedInserts(log: seq<Evaluation>, e: nat): nat {
    if log == [] then 0
    else
      var last := log[|log| - 1];
      FailedInserts(log[..|log| - 1], e) + (if last.event == e && last.firing.InsertFailed? then 1 else 0)
  }

  function RowsOf(log: seq<Evaluation>): seq<Row> {
    if log == [] then []
    else
      var last := log[|log| - 1];
      RowsOf(log[..|log| - 1]) + (if last.firing.Inserted? then [last.firing.row] else [])
  }

  // A condition is met strictly beyond the threshold, and never when either side is NaN.
  lemma BeyondIsStrict(condition: Condition, value: Double, threshold: Double)
    ensures Beyond(condition, value, threshold) ==>
      value != threshold && !value.NaN? && !threshold.NaN? && !Beyond(condition, threshold, value)
    ensures value.Finite? && threshold.Finite? ==>
      (Beyond(condition, value, threshold) <==>
        (condition == GreaterThan && value.r > threshold.r) || (condition == LessThan && value.r < threshold.r))
  {
  }

  // When the condition is met, by the condition word, the threshold and the value of the source
  // node: strictly above or below, never for a missing source, a missing condition or NaN.
  lemma ConditionMeaning(event: Event, nodes: seq<Node>)
    ensures event.sourceIndex >= |nodes| || event.condition == NoCondition ==> !ConditionMet(event, nodes)
    ensures event.sourceIndex < |nodes| && event.condition == GreaterThan ==>
      (ConditionMet(event, nodes) <==> Above(nodes[event.sourceIndex].value, event.threshold))
    ensures event.sourceIndex < |nodes| && event.condition == LessThan ==>
      (ConditionMet(event, nodes) <==> Below(nodes[event.sourceIndex].value, event.threshold))
  {
  }

  // A value strictly above a threshold, as numbers; true is 1.
  predicate Above(value: Value, threshold: Double) {
    match value
    case BoolV(b) => threshold == NegInf || (threshold.Finite? && (if b then threshold.r < 1.0 else threshold.r < 0.0))
    case Int16V(i) => threshold == NegInf || (threshold.Finite? && threshold.r < i as real)
    case Int32V(i) => threshold == NegInf || (threshold.Finite? && threshold.r < i as real)
    case UInt32V(u) => threshold == NegInf || (threshold.Finite? && threshold.r < u as real)
    case DoubleV(Finite(x)) => threshold == NegInf || (threshold.Finite? && threshold.r < x)
    case DoubleV(PosInf) => threshold == NegInf || threshold.Finite?
    case _ => false
  }

  predicate Below(value: Value, threshold: Double) {
    match value
    case BoolV(b) => threshold == PosInf || (threshold.Finite? && (if b then threshold.r > 1.0 else threshold.r > 0.0))
    case Int16V(i) => threshold == PosInf || (threshold.Finite? && threshold.r > i as real)
    case Int32V(i) => threshold == PosInf || (threshold.Finite? && threshold.r > i as real)
    case UInt32V(u) => threshold == PosInf || (threshold.Finite? && threshold.r > u as real)
    case DoubleV(Finite(x)) => threshold == PosInf || (threshold.Finite? && threshold.r > x)
    case DoubleV(NegInf) => threshold == PosInf || threshold.Finite?
    case _ => false
  }

  // ---- The invariant ----------------------------------------------------

  // Event definitions never change; only the latch does.
  ghost predicate SameDefinitions(a: seq<Event>, b: seq<Event>) {
    |a| == |b| && forall e :: 0 <= e < |a| ==> a[e].(active := false) == b[e].(active := false)
  }

  ghost predicate Clears(log: seq<Evaluation>, e: nat, p: nat, r: nat) {
    p < r < |log| && log[r].event == e && !log[r].met
  }

  ghost predicate Fires(log: seq<Evaluation>, p: nat)
    requires p < |log|
  {
    !log[p].firing.Quiet?
  }

  // A row carries its event's identity and a value strictly beyond the threshold.
  ghost predicate RowMatches(row: Row, event: Event) {
    && row.eventId == event.id && row.threshold == event.threshold && row.severity == event.severity
    && Beyond(event.condition, row.value, row.threshold)
  }

  // The latch is the latest outcome; rows and failed inserts number the rising edges.
  ghost predicate CountsFor(event: Event, log: seq<Evaluation>, e: nat) {
    && event.active == Latest(Outcomes(log, e))
    && RowCount(log, e) + FailedInserts(log, e) == RisingEdges(Outcomes(log, e))
  }

  // The record is an evaluation against these node values: the flag is the condition, and a
  // row carries the value its source node then has and the time of the pass.
  ghost predicate FromPass(record: Evaluation, events: seq<Event>, nodes: seq<Node>, now: nat) {
    && record.event < |events|
    && var event := events[record.event];
    && (record.met <==> ConditionMet(event, nodes))
    && (record.firing.Inserted? ==>
          && event.sourceIndex < |nodes|
          && record.firing.row.value == AsDouble(nodes[event.sourceIndex].value)
          && record.firing.row.createdMs == now)
  }

  // passes[p] is the pass in which record p was made. Passes follow one another, and no pass
  // evaluates an event twice.
  ghost predicate GroundedBy(
    events: seq<Event>, log: seq<Evaluation>, views: seq<seq<Node>>, clock: nat -> nat, passes: seq<nat>)
  {
    && |passes| == |log|
    && (forall p :: 0 <= p < |log| ==>
          passes[p] < |views| && FromPass(log[p], events, views[passes[p]], clock(passes[p])))
    && (forall p, q :: 0 <= p < q < |log| ==> passes[p] <= passes[q])
    && (forall p, q :: 0 <= p < q < |log| && log[p].event == log[q].event ==> passes[p] < passes[q])
  }

  ghost predicate Grounded(events: seq<Event>, log: seq<Evaluation>, views: seq<seq<Node>>, clock: nat -> nat) {
    exists passes :: GroundedBy(events, log, views, clock, passes)
  }

  ghost predicate Counts(s: EventState) {
    forall e :: 0 <= e < |s.events| ==> CountsFor(s.events[e], s.log, e)
  }

  ghost predicate Latched(s: EventState) {
    forall p :: 0 <= p < |s.log| && Fires(s.log, p) ==>
      && s.log[p].event < |s.events|
      && (s.events[s.log[p].event].active || exists r: nat :: Clears(s.log, s.log[p].event, p, r))
  }

  // Two firings of one event have a false evaluation of it between them.
  ghost predicate Separated(log: seq<Evaluation>) {
    forall p, q :: 0 <= p < q < |log| && Fires(log, p) && Fires(log, q) && log[p].event == log[q].event ==>
      exists r: nat :: r < q && Clears(log, log[p].event, p, r)
  }

  ghost predicate RowsGenuine(s: EventState) {
    forall p :: 0 <= p < |s.log| && s.log[p].firing.Inserted? ==>
      s.log[p].event < |s.events| && RowMatches(s.log[p].firing.row, s.events[s.log[p].event])
  }

  ghost predicate HistoryInv(s: EventState) {
    Counts(s) && Latched(s) && Separated(s.log) && RowsGenuine(s) && s.history == RowsOf(s.log)
  }

  // What one evaluation changes: one record, the latch of one event, at most one row.
  ghost predicate Recorded(s: EventState, s': EventState, i: nat)
    requires i < |s.events|
  {
    && |s'.log| == |s.log| + 1 && s'.log[..|s.log|] == s.log
    && var record := s'.log[|s.log|];
    && record.event == i
    && (record.firing.Quiet? <==> !record.met || s.events[i].active)
    && s'.events == s.events[i := s.events[i].(active := record.met)]
    && s'.history == s.history + (if record.firing.Inserted? then [record.firing.row] else [])
    && (record.firing.Inserted? ==> RowMatches(record.firing.row, s.events[i]))
  }

  lemma EvaluationRecorded(env: EventEnv, server: bool, s: EventState, nodes: seq<Node>, now: nat, i: nat)
    requires i < |s.events|
    ensures var s' := EvaluateEvent(env, server, s, nodes, now, i).0;
      Recorded(s, s', i) && FromPass(s'.log[|s.log|], s.events, nodes, now)
  {
    var s' := EvaluateEvent(env, server, s, nodes, now, i).0;
    assert s.history + [] == s.history;
    if ConditionMet(s.events[i], nodes) && s.events[i].active {
      assert s.events[i := s.events[i].(active := true)] == s.events;
    }
  }

  lemma EventStepKeeps(s: EventState, s': EventState, i: nat)
    requires i < |s.events| && HistoryInv(s) && Recorded(s, s', i)
    ensures HistoryInv(s') && SameDefinitions(s.events, s'.events)
  {
    StepCounts(s, s', i);
    StepLatched(s, s', i);
    StepSeparated(s, s', i);
    StepRows(s, s', i);
  }

  lemma StepRows(s: EventState, s': EventState, i: nat)
    requires i < |s.events| && RowsGenuine(s) && s.history == RowsOf(s.log) && Recorded(s, s', i)
    ensures RowsGenuine(s') && s'.history == RowsOf(s'.log) && SameDefinitions(s.events, s'.events)
  {
    forall p | 0 <= p < |s'.log| && s'.log[p].firing.Inserted?
      ensures s'.log[p].event < |s'.events| && RowMatches(s'.log[p].firing.row, s'.events[s'.log[p].event])
    {
      if p < |s.log| { assert s'.log[p] == s'.log[..|s.log|][p]; }
    }
  }

  lemma StepCounts(s: EventState, s': EventState, i: nat)
    requires i < |s.events| && Counts(s) && Recorded(s, s', i)
    ensures Counts(s')
  {
    forall e | 0 <= e < |s.events|
      ensures CountsFor(s'.events[e], s'.log, e)
    {
      assert CountsFor(s.events[e], s.log, e);
      RecordCounts(s.events[e], s'.events[e], s'.log, e);
    }
  }

  // One more record: of this event, or of another.
  lemma RecordCounts(event: Event, event': Event, log: seq<Evaluation>, e: nat)
    requires log != [] && CountsFor(event, log[..|log| - 1], e)
    requires var record := log[|log| - 1];
      if record.event == e
      then event'.active == record.met && (record.firing.Quiet? <==> !record.met || event.active)
      else event'.active == event.active
    ensures CountsFor(event', log, e)
  {
    var before := Outcomes(log[..|log| - 1], e);
    if log[|log| - 1].event == e {
      assert Outcomes(log, e)[..|before|] == before;
    } else {
      assert Outcomes(log, e) == before;
    }
  }

  lemma StepLatched(s: EventState, s': EventState, i: nat)
    requires i < |s.events| && Latched(s) && Recorded(s, s', i)
    ensures Latched(s')
  {
    forall p | 0 <= p < |s'.log| && Fires(s'.log, p)
      ensures s'.log[p].event < |s'.events|
      ensures s'.events[s'.log[p].event].active || exists r: nat :: Clears(s'.log, s'.log[p].event, p, r)
    {
      if p < |s.log| {
        assert s'.log[p] == s'.log[..|s.log|][p];
        assert Fires(s.log, p);
        var e := s.log[p].event;
        if r: nat :| Clears(s.log, e, p, r) {
          assert s'.log[r] == s'.log[..|s.log|][r];
          assert Clears(s'.log, e, p, r);
        } else if e == i && !s'.log[|s.log|].met {
          assert Clears(s'.log, e, p, |s.log|);
        }
      }
    }
  }

  lemma StepSeparated(s: EventState, s': EventState, i: nat)
    requires i < |s.events| && Latched(s) && Separated(s.log) && Recorded(s, s', i)
    ensures Separated(s'.log)
  {
    forall p, q | 0 <= p < q < |s'.log| && Fires(s'.log, p) && Fires(s'.log, q) && s'.log[p].event == s'.log[q].event
      ensures exists r: nat :: r < q && Clears(s'.log, s'.log[p].event, p, r)
    {
      assert s'.log[p] == s'.log[..|s.log|][p];
      assert Fires(s.log, p);
      var e := s.log[p].event;
      var r: nat;
      if q < |s.log| {
        assert s'.log[q] == s'.log[..|s.log|][q];
        assert Fires(s.log, q);
        r :| r < q && Clears(s.log, e, p, r);
      } else {
        assert !s.events[i].active;
        r :| Clears(s.log, e, p, r);
      }
      assert s'.log[r] == s'.log[..|s.log|][r];
      assert Clears(s'.log, e, p, r);
    }
  }

  lemma EvaluationKeeps(env: EventEnv, server: bool, s: EventState, nodes: seq<Node>, now: nat, i: nat)
    requires i < |s.events| && HistoryInv(s)
    ensures var s' := EvaluateEvent(env, server, s, nodes, now, i).0;
      HistoryInv(s') && SameDefinitions(s.events, s'.events)
  {
    EvaluationRecorded(env, server, s, nodes, now, i);
    EventStepKeeps(s, EvaluateEvent(env, server, s, nodes, now, i).0, i);
  }

  lemma SameAsItself(a: seq<Event>)
    ensures SameDefinitions(a, a)
  {
  }

  lemma SameLength(a: seq<Event>, b: seq<Event>)
    requires SameDefinitions(a, b)
    ensures |a| == |b|
  {
  }

  lemma SameThrough(a: seq<Event>, b: seq<Event>, c: seq<Event>)
    requires SameDefinitions(a, b) && SameDefinitions(b, c)
    ensures SameDefinitions(a, c)
  {
  }

  lemma {:induction false} PassKeepsFrom(env: EventEnv, server: bool, s: EventState, nodes: seq<Node>, now: nat, i: nat)
    requires i <= |s.events| && HistoryInv(s)
    ensures HistoryInv(EvaluateFrom(env, server, s, nodes, now, i).0)
    ensures SameDefinitions(s.events, EvaluateFrom(env, server, s, nodes, now, i).0.events)
    decreases |s.events| - i
  {
    hide EvaluateEvent, HistoryInv, SameDefinitions;
    SameAsItself(s.events);
    if i < |s.events| {
      EvaluationKeeps(env, server, s, nodes, now, i);
      var r := EvaluateEvent(env, server, s, nodes, now, i);
      SameLength(s.events, r.0.events);
      if r.1 {
        PassKeepsFrom(env, server, r.0, nodes, now, i + 1);
        SameThrough(s.events, r.0.events, EvaluateFrom(env, server, r.0, nodes, now, i + 1).0.events);
      }
    }
  }

  lemma PassKeeps(env: EventEnv, server: bool, s: EventState, nodes: seq<Node>, now: nat)
    requires HistoryInv(s)
    ensures var s' := Evaluate(env, server, s, nodes, now).0;
      HistoryInv(s') && SameDefinitions(s.events, s'.events)
  {
    PassKeepsFrom(env, server, s.(stats := Stats(0, 0, 0)), nodes, now, 0);
  }

  // ---- What one pass counts ---------------------------------------------

  // The rows a pass adds against its counters. A pass that ends in an error has stopped at
  // a failed insert (as many rows as fired) or at a failed notification (one more).
  lemma PassCounts(env: EventEnv, server: bool, s: EventState, nodes: seq<Node>, now: nat)
    ensures var (s', status) := Evaluate(env, server, s, nodes, now);
      var added := |s'.history| - |s.history|;
      && (status == Ok ==> added == s'.stats.fired && s'.stats.checked == |s.events|)
      && (status == Ok ==>
            |s'.events| == |s.events| &&
            forall e :: 0 <= e < |s.events| ==> s'.events[e].active == ConditionMet(s.events[e], nodes))
      && (status != Ok ==> status == Error && |s'.log| > 0)
      && (status == Error ==> added == s'.stats.fired + (if s'.log[|s'.log| - 1].firing.Inserted? then 1 else 0))
      && s'.stats.emitted == (if server then s'.stats.fired else 0)
  {
    PassCountsFrom(env, server, s.(stats := Stats(0, 0, 0)), nodes, now, 0);
  }

  lemma {:induction false} PassCountsFrom(
    env: EventEnv, server: bool, s: EventState, nodes: seq<Node>, now: nat, i: nat)
    requires i <= |s.events|
    ensures var (s', status) := EvaluateFrom(env, server, s, nodes, now, i);
      var added := |s'.history| - |s.history|;
      var fired := s'.stats.fired - s.stats.fired;
      && |s'.events| == |s.events|
      && (forall e :: 0 <= e < i ==> s'.events[e] == s.events[e])
      && (status == Ok ==> added == fired && s'.stats.checked == s.stats.checked + |s.events| - i)
      && (status == Ok ==> forall e :: i <= e < |s.events| ==> s'.events[e].active == ConditionMet(s.events[e], nodes))
      && (status != Ok ==> status == Error && |s'.log| > 0)
      && (status == Error ==> added == fired + (if s'.log[|s'.log| - 1].firing.Inserted? then 1 else 0))
      && s'.stats.emitted == s.stats.emitted + (if server then fired else 0)
    decreases |s.events| - i
  {
    if i < |s.events| {
      EvaluationCounts(env, server, s, nodes, now, i);
      hide EvaluateEvent, ConditionMet;
      var (s1, more) := EvaluateEvent(env, server, s, nodes, now, i);
      if more { PassCountsFrom(env, server, s1, nodes, now, i + 1); }
    }
  }

  lemma EvaluationCounts(env: EventEnv, server: bool, s: EventState, nodes: seq<Node>, now: nat, i: nat)
    requires i < |s.events|
    ensures var (s', more) := EvaluateEvent(env, server, s, nodes, now, i);
      var added := |s'.history| - |s.history|;
      var fired := s'.stats.fired - s.stats.fired;
      && |s'.events| == |s.events| && (forall e :: 0 <= e < |s.events| && e != i ==> s'.events[e] == s.events[e])
      && s'.events[i].active == ConditionMet(s.events[i], nodes)
      && s'.stats.checked == s.stats.checked + 1
      && s'.stats.emitted == s.stats.emitted + (if server then fired else 0)
      && |s'.log| > 0
      && added == fired + (if !more && s'.log[|s'.log| - 1].firing.Inserted? then 1 else 0)
  {
    hide ConditionMet;
  }

  // ---- What one pass does -----------------------------------------------

  // Event e is evaluated as evaluation k of the log: what the record says and what is left.
  ghost predicate EvaluatedAs(
    env: EventEnv, before: Event, after: Event, record: Evaluation, k: nat, e: nat, nodes: seq<Node>, now: nat)
  {
    var met := ConditionMet(before, nodes);
    && record.event == e && record.met == met
    && after == before.(active := met)
    && (record.firing.Quiet? <==> !met || before.active)
    && (record.firing.InsertFailed? <==> met && !before.active && !env.insertOk(k))
    && (record.firing.Inserted? ==>
          && before.sourceIndex < |nodes|
          && record.firing.row == Row(before.id, AsDouble(nodes[before.sourceIndex].value), before.threshold,
                                      before.severity, now))
  }

  // Evaluation k ends its pass: its row was not inserted, or its notification failed.
  ghost predicate EndsPass(env: EventEnv, server: bool, record: Evaluation, k: nat) {
    record.firing.InsertFailed? || (record.firing.Inserted? && server && !env.emitOk(k))
  }

  // From event i on, the pass evaluates the events in order up to the first evaluation that ends
  // it, and returns Error exactly when there is one. Later events are as they were.
  ghost predicate PassIs(
    env: EventEnv, server: bool, s: EventState, s': EventState, status: Status, i: nat, nodes: seq<Node>, now: nat)
    requires i <= |s.events|
  {
    var k := |s.log|;
    var n := |s'.log| - k;
    && 0 <= n <= |s.events| - i && s.log <= s'.log && |s'.events| == |s.events|
    && s'.stats.checked == s.stats.checked + n
    && (status == Ok || status == Error)
    && (status == Ok ==> n == |s.events| - i)
    && (status == Error ==> n > 0 && EndsPass(env, server, s'.log[k + n - 1], k + n - 1))
    && (forall p :: k <= p < k + n ==>
          EvaluatedAs(env, s.events[i + p - k], s'.events[i + p - k], s'.log[p], p, i + p - k, nodes, now))
    && (forall p :: k <= p < k + n && (status == Ok || p < k + n - 1) ==> !EndsPass(env, server, s'.log[p], p))
    && (forall e :: 0 <= e < |s.events| && !(i <= e < i + n) ==> s'.events[e] == s.events[e])
  }

  lemma OneEvaluation(env: EventEnv, server: bool, s: EventState, nodes: seq<Node>, now: nat, i: nat)
    requires i < |s.events|
    ensures var (s', more) := EvaluateEvent(env, server, s, nodes, now, i);
      var k := |s.log|;
      && |s'.log| == k + 1 && s.log <= s'.log && |s'.events| == |s.events|
      && EvaluatedAs(env, s.events[i], s'.events[i], s'.log[k], k, i, nodes, now)
      && (more <==> !EndsPass(env, server, s'.log[k], k))
      && (forall e :: 0 <= e < |s.events| && e != i ==> s'.events[e] == s.events[e])
      && s'.stats.checked == s.stats.checked + 1
  {
    assert ConditionMet(s.events[i], nodes) ==> s.events[i].sourceIndex < |nodes|;
    assert s.events[i] == s.events[i].(active := s.events[i].active);
    hide ConditionMet;
  }

  lemma {:induction false} PassFrom(env: EventEnv, server: bool, s: EventState, nodes: seq<Node>, now: nat, i: nat)
    requires i <= |s.events|
    ensures var (s', status) := EvaluateFrom(env, server, s, nodes, now, i);
      PassIs(env, server, s, s', status, i, nodes, now)
    decreases |s.events| - i
  {
    hide EvaluateEvent, EvaluatedAs, EndsPass;
    if i < |s.events| {
      OneEvaluation(env, server, s, nodes, now, i);
      var (s1, more) := EvaluateEvent(env, server, s, nodes, now, i);
      if more {
        PassFrom(env, server, s1, nodes, now, i + 1);
        var (s', status) := EvaluateFrom(env, server, s1, nodes, now, i + 1);
        PassStep(env, server, s, s1, s', status, i, nodes, now);
      }
    }
  }

  lemma PassStep(
    env: EventEnv, server: bool, s: EventState, s1: EventState, s': EventState, status: Status, i: nat,
    nodes: seq<Node>, now: nat)
    requires i < |s.events| == |s1.events| && s.log <= s1.log && |s1.log| == |s.log| + 1
    requires forall e :: 0 <= e < |s.events| && e != i ==> s1.events[e] == s.events[e]
    requires s1.stats.checked == s.stats.checked + 1
    requires EvaluatedAs(env, s.events[i], s1.events[i], s1.log[|s.log|], |s.log|, i, nodes, now)
    requires !EndsPass(env, server, s1.log[|s.log|], |s.log|)
    requires PassIs(env, server, s1, s', status, i + 1, nodes, now)
    ensures PassIs(env, server, s, s', status, i, nodes, now)
  {
    hide EvaluatedAs, EndsPass;
    var k := |s.log|;
    assert s'.log[k] == s1.log[k] && s'.events[i] == s1.events[i];
    assert s1.log <= s'.log;
  }

  // A pass does exactly this, and starts its statistics again.
  lemma PassExactly(env: EventEnv, server: bool, s: EventState, nodes: seq<Node>, now: nat)
    ensures var (s', status) := Evaluate(env, server, s, nodes, now);
      PassIs(env, server, s.(stats := Stats(0, 0, 0)), s', status, 0, nodes, now)
  {
    PassFrom(env, server, s.(stats := Stats(0, 0, 0)), nodes, now, 0);
    hide EvaluateFrom, EvaluatedAs, EndsPass;
  }

  // ---- All runs ---------------------------------------------------------

  // A run of passes over any node values whatever.
  function Passes(env: EventEnv, server: bool, s: EventState, views: seq<seq<Node>>, clock: nat -> nat): EventState {
    if views == [] then s
    else
      var n := |views| - 1;
      Evaluate(env, server, Passes(env, server, s, views[..n], clock), views[n], clock(n)).0
  }

  lemma OneMoreView(
    env: EventEnv, server: bool, s: EventState, views: seq<seq<Node>>, nodes: seq<Node>, clock: nat -> nat)
    ensures Passes(env, server, s, views + [nodes], clock)
      == Evaluate(env, server, Passes(env, server, s, views, clock), nodes, clock(|views|)).0
  {
    hide Evaluate;
    assert (views + [nodes])[..|views|] == views;
  }

  function Fresh(events: seq<Event>): EventState { EventState(events, [], Stats(0, 0, 0), []) }

  ghost predicate AllInactive(events: seq<Event>) {
    forall e :: 0 <= e < |events| ==> !events[e].active
  }

  // The records of one pass: each against the node values of the pass, event by event.
  ghost predicate PassRecords(events: seq<Event>, log: seq<Evaluation>, i: nat, nodes: seq<Node>, now: nat) {
    && (forall p :: 0 <= p < |log| ==> FromPass(log[p], events, nodes, now) && log[p].event >= i)
    && (forall p, q :: 0 <= p < q < |log| ==> log[p].event < log[q].event)
  }

  lemma FromPassIgnoresLatch(record: Evaluation, a: seq<Event>, b: seq<Event>, nodes: seq<Node>, now: nat)
    requires SameDefinitions(a, b) && FromPass(record, a, nodes, now)
    ensures FromPass(record, b, nodes, now)
  {
    assert a[record.event].(active := false) == b[record.event].(active := false);
  }

  lemma OneMoreRecord(
    events: seq<Event>, record: Evaluation, rest: seq<Evaluation>, i: nat, nodes: seq<Node>, now: nat)
    requires FromPass(record, events, nodes, now) && record.event == i
    requires rest == [] || PassRecords(events, rest, i + 1, nodes, now)
    ensures PassRecords(events, [record] + rest, i, nodes, now)
  {
    hide FromPass;
  }

  lemma {:induction false} PassIsRecorded(
    env: EventEnv, server: bool, s: EventState, nodes: seq<Node>, now: nat, i: nat, events: seq<Event>)
    requires i <= |s.events| && SameDefinitions(s.events, events)
    ensures var s' := EvaluateFrom(env, server, s, nodes, now, i).0;
      s.log <= s'.log && PassRecords(events, s'.log[|s.log|..], i, nodes, now)
    decreases |s.events| - i
  {
    hide EvaluateEvent, FromPass, RowMatches;
    if i < |s.events| {
      var r := EvaluateEvent(env, server, s, nodes, now, i);
      EvaluationRecorded(env, server, s, nodes, now, i);
      var record := r.0.log[|s.log|];
      FromPassIgnoresLatch(record, s.events, events, nodes, now);
      assert r.0.log == s.log + [record];
      assert SameDefinitions(r.0.events, events);
      hide Recorded, SameDefinitions, PassRecords;
      OneMoreRecord(events, record, [], i, nodes, now);
      if r.1 {
        PassIsRecorded(env, server, r.0, nodes, now, i + 1, events);
        var log' := EvaluateFrom(env, server, r.0, nodes, now, i + 1).0.log;
        OneMoreRecord(events, record, log'[|r.0.log|..], i, nodes, now);
        assert log'[|s.log|..] == [record] + log'[|r.0.log|..];
      } else {
        assert r.0.log[|s.log|..] == [record] + [];
      }
    }
  }

  // Every record of a run was made in some pass, against the node values of that pass.
  lemma {:induction false} RunIsGrounded(
    env: EventEnv, server: bool, events: seq<Event>, views: seq<seq<Node>>, clock: nat -> nat)
    returns (passes: seq<nat>)
    requires AllInactive(events)
    ensures GroundedBy(events, Passes(env, server, Fresh(events), views, clock).log, views, clock, passes)
  {
    passes := [];
    if views != [] {
      var n := |views| - 1;
      var s := Passes(env, server, Fresh(events), views[..n], clock);
      passes := RunIsGrounded(env, server, events, views[..n], clock);
      LatchInvariant(env, server, events, views[..n], clock);
      assert SameDefinitions(s.events, events);
      PassIsRecorded(env, server, s.(stats := Stats(0, 0, 0)), views[n], clock(n), 0, events);
      var log' := Evaluate(env, server, s, views[n], clock(n)).0.log;
      passes := OneMorePass(events, s.log, log', views, clock, passes);
    }
  }

  lemma OneMorePass(
    events: seq<Event>, log: seq<Evaluation>, log': seq<Evaluation>, views: seq<seq<Node>>, clock: nat -> nat,
    before: seq<nat>)
    returns (passes: seq<nat>)
    requires views != [] && GroundedBy(events, log, views[..|views| - 1], clock, before)
    requires log <= log' && PassRecords(events, log'[|log|..], 0, views[|views| - 1], clock(|views| - 1))
    ensures GroundedBy(events, log', views, clock, passes)
  {
    hide FromPass;
    var n := |views| - 1;
    passes := before + seq(|log'| - |log|, _ => n);
    forall p | 0 <= p < |log'|
      ensures passes[p] <= n && FromPass(log'[p], events, views[passes[p]], clock(passes[p]))
    {
      if p >= |log| { assert log'[p] == log'[|log|..][p - |log|]; }
    }
    forall p, q | |log| <= p < q < |log'|
      ensures log'[p].event != log'[q].event
    {
      assert log'[p] == log'[|log|..][p - |log|] && log'[q] == log'[|log|..][q - |log|];
    }
  }

  // The invariant after any passes, for any failed inserts and notifications and cut-off passes.
  lemma {:induction false} LatchInvariant(
    env: EventEnv, server: bool, events: seq<Event>, views: seq<seq<Node>>, clock: nat -> nat)
    requires AllInactive(events)
    ensures var s := Passes(env, server, Fresh(events), views, clock);
      HistoryInv(s) && SameDefinitions(events, s.events)
  {
    if views != [] {
      var n := |views| - 1;
      LatchInvariant(env, server, events, views[..n], clock);
      PassKeeps(env, server, Passes(env, server, Fresh(events), views[..n], clock), views[n], clock(n));
    }
  }

  ghost predicate NothingFails(env: EventEnv) {
    forall k: nat :: env.insertOk(k) && env.emitOk(k)
  }

  // The condition of event e as seen by each pass.
  function Signal(event: Event, views: seq<seq<Node>>): (bs: seq<bool>)
    ensures |bs| == |views|
  {
    seq(|views|, k requires 0 <= k < |views| => ConditionMet(event, views[k]))
  }

  // Latch safety, whatever fails: the invariant, over records that are each an
  // evaluation of the condition on the node values of its pass.
  lemma LatchSafety(env: EventEnv, server: bool, events: seq<Event>, views: seq<seq<Node>>, clock: nat -> nat)
    requires AllInactive(events)
    ensures var s := Passes(env, server, Fresh(events), views, clock);
      HistoryInv(s) && SameDefinitions(events, s.events) && Grounded(events, s.log, views, clock)
  {
    LatchInvariant(env, server, events, views, clock);
    var passes := RunIsGrounded(env, server, events, views, clock);
  }

  // When nothing fails, an event has exactly one row per rising edge of its condition.
  lemma RowsAreRisingEdges(
    env: EventEnv, server: bool, events: seq<Event>, views: seq<seq<Node>>, clock: nat -> nat, e: nat)
    requires AllInactive(events) && NothingFails(env) && e < |events|
    ensures var s := Passes(env, server, Fresh(events), views, clock);
      && s.history == RowsOf(s.log)
      && RowCount(s.log, e) == RisingEdges(Signal(events[e], views))
  {
    LatchInvariant(env, server, events, views, clock);
    CleanRun(env, server, events, views, clock, e);
  }

  lemma {:induction false} CleanRun(
    env: EventEnv, server: bool, events: seq<Event>, views: seq<seq<Node>>, clock: nat -> nat, e: nat)
    requires AllInactive(events) && NothingFails(env) && e < |events|
    ensures var s := Passes(env, server, Fresh(events), views, clock);
      FailedInserts(s.log, e) == 0 && Outcomes(s.log, e) == Signal(events[e], views)
  {
    if views != [] {
      var n := |views| - 1;
      var s := Passes(env, server, Fresh(events), views[..n], clock);
      CleanRun(env, server, events, views[..n], clock, e);
      LatchInvariant(env, server, events, views[..n], clock);
      hide HistoryInv, FailedInserts, Outcomes, Signal, NothingFails;
      SameCondition(events, s.events, e, views[n]);
      CleanPass(env, server, s.(stats := Stats(0, 0, 0)), views[n], clock(n), 0, e);
      SignalGrows(events[e], views);
    }
  }

  lemma SameCondition(a: seq<Event>, b: seq<Event>, e: nat, nodes: seq<Node>)
    requires SameDefinitions(a, b) && e < |a|
    ensures ConditionMet(a[e], nodes) == ConditionMet(b[e], nodes)
  {
    assert a[e].(active := false) == b[e].(active := false);
  }

  lemma SignalGrows(event: Event, views: seq<seq<Node>>)
    requires views != []
    ensures var n := |views| - 1;
      Signal(event, views) == Signal(event, views[..n]) + [ConditionMet(event, views[n])]
  {
    hide ConditionMet;
  }

  // A pass in which nothing fails evaluates each remaining event once.
  lemma {:induction false} CleanPass(
    env: EventEnv, server: bool, s: EventState, nodes: seq<Node>, now: nat, i: nat, e: nat)
    requires NothingFails(env) && i <= |s.events| && e < |s.events|
    ensures var (s', status) := EvaluateFrom(env, server, s, nodes, now, i);
      && status == Ok
      && FailedInserts(s'.log, e) == FailedInserts(s.log, e)
      && Outcomes(s'.log, e) == Outcomes(s.log, e) + (if e < i then [] else [ConditionMet(s.events[e], nodes)])
    decreases |s.events| - i
  {
    hide EvaluateEvent, ConditionMet, FailedInserts, Outcomes, NothingFails;
    if i < |s.events| {
      CleanEvaluation(env, server, s, nodes, now, i, e);
      CleanPass(env, server, EvaluateEvent(env, server, s, nodes, now, i).0, nodes, now, i + 1, e);
    }
  }

  lemma CleanEvaluation(env: EventEnv, server: bool, s: EventState, nodes: seq<Node>, now: nat, i: nat, e: nat)
    requires NothingFails(env) && i < |s.events| && e < |s.events|
    ensures var (s', more) := EvaluateEvent(env, server, s, nodes, now, i);
      && more && |s'.events| == |s.events|
      && (e != i ==> s'.events[e] == s.events[e])
      && FailedInserts(s'.log, e) == FailedInserts(s.log, e)
      && Outcomes(s'.log, e) == Outcomes(s.log, e) + (if e == i then [ConditionMet(s.events[e], nodes)] else [])
  {
    assert EvaluateEvent(env, server, s, nodes, now, i).0.log[..|s.log|] == s.log;
  }

  // ---- Rows by event id -------------------------------------------------

  function RowsNamed(history: seq<Row>, id: string): nat {
    if history == [] then 0
    else
      var n := |history| - 1;
      RowsNamed(history[..n], id) + (if history[n].eventId == id then 1 else 0)
  }

  // With unique event ids, as the loader enforces, the rows stored under an id are the
  // rows of that event.
  lemma {:induction false} RowsById(s: EventState, log: seq<Evaluation>, e: nat)
    requires e < |s.events| && log <= s.log && RowsGenuine(s)
    requires forall i, j :: 0 <= i < j < |s.events| ==> s.events[i].id != s.events[j].id
    ensures RowsNamed(RowsOf(log), s.events[e].id) == RowCount(log, e)
  {
    if log != [] {
      var n := |log| - 1;
      RowsById(s, log[..n], e);
      assert log[n] == s.log[n];
      var rows := RowsOf(log[..n]);
      if log[n].firing.Inserted? {
        assert (rows + [log[n].firing.row])[..|rows|] == rows;
      } else {
        assert rows + [] == rows;
      }
    }
  }
}
