/**
 The writes that reach the link, for every interleaving of client writes and ticks: each
 tick hands over, in node order, the last accepted value of every node written since the
 tick before, and nothing else.
 */
module WriteTrace {
  import opened EdgeTypes
  import opened ModbusWire
  import opened ModbusLink
  import opened LinkSafety
  import opened Runtime

  // ---- The reference, from the steps alone ------------------------------

  predicate Accepts(spec: NodeSpec, payload: Payload) {
    spec.writable && payload.Scalar? && TypeOf(payload.value) == spec.dataType
  }

  // The last value accepted for node i since the last tick.
  function LastAccepted(specs: seq<NodeSpec>, steps: seq<Step>, i: nat): Option<Value>
    requires i < |specs|
  {
    if steps == [] then None
    else
      var n := |steps| - 1;
      match steps[n]
      case RunTick => None
      case Write(j, payload) =>
        if j == i && Accepts(specs[i], payload) then Some(payload.value)
        else LastAccepted(specs, steps[..n], i)
  }

  // What the next tick owes the link, from node i on.
  function Due(specs: seq<NodeSpec>, steps: seq<Step>, i: nat): seq<WriteCall>
    requires i <= |specs|
    decreases |specs| - i
  {
    if i == |specs| then []
    else
      var last := LastAccepted(specs, steps, i);
      (if last.Some? then [WriteCall(i, last.value)] else []) + Due(specs, steps, i + 1)
  }

  function ExpectedCalls(specs: seq<NodeSpec>, steps: seq<Step>): seq<WriteCall> {
    if steps == [] then []
    else
      var n := |steps| - 1;
      ExpectedCalls(specs, steps[..n]) + (if steps[n].RunTick? then Due(specs, steps[..n], 0) else [])
  }

  // ---- The system against the reference ---------------------------------

  // A node is pending exactly when a write was accepted since the last tick, and then it
  // holds the last accepted value.
  ghost predicate PendingIsLastAccepted(specs: seq<NodeSpec>, steps: seq<Step>, nodes: seq<Node>) {
    |nodes| == |specs| &&
    forall i :: 0 <= i < |specs| ==>
      && nodes[i].spec == specs[i]
      && (nodes[i].pending <==> LastAccepted(specs, steps, i).Some?)
      && (nodes[i].pending ==> specs[i].writable && Some(nodes[i].value) == LastAccepted(specs, steps, i))
  }

  ghost predicate NothingPending(nodes: seq<Node>) {
    forall i :: 0 <= i < |nodes| ==> !nodes[i].pending
  }

  // A rejected write changes nothing; a write is rejected exactly when the node is missing or
  // does not accept the payload: as not writable when the node or the value is missing or the
  // node cannot be written, and as a type mismatch otherwise.
  lemma RejectedWriteChangesNothing(s: System, i: nat, payload: Payload)
    ensures var (s', status) := ClientWrite(s, i, payload);
      && (status == Good <==> i < |s.nodes| && Accepts(s.nodes[i].spec, payload))
      && (status == BadNotWritable <==> i >= |s.nodes| || !s.nodes[i].spec.writable || payload.NoValue?)
      && (status != Good ==> s' == s)
      && (status == Good ==> s' == s.(nodes := s.nodes[i := s.nodes[i].(value := payload.value, pending := true)]))
  {
    if i < |s.nodes| && ClientWrite(s, i, payload).1 != Good {
      assert s.nodes[i := s.nodes[i]] == s.nodes;
    }
  }

  ghost predicate Drained(nodes: seq<Node>, nodes': seq<Node>, i: nat) {
    |nodes'| == |nodes| &&
    forall j :: 0 <= j < |nodes| ==>
      nodes'[j] == if i <= j && nodes[j].spec.writable then nodes[j].(pending := false) else nodes[j]
  }

  lemma {:induction false} DrainClears(env: Env, l: Link, nodes: seq<Node>, i: nat)
    requires i <= |nodes|
    ensures Drained(nodes, DrainFrom(env, l, nodes, i).1, i)
    decreases |nodes| - i
  {
    if i < |nodes| {
      if nodes[i].spec.writable && nodes[i].pending {
        DrainClears(env, WriteNode(env, l, nodes[i]).0, nodes[i := nodes[i].(pending := false)], i + 1);
      } else {
        DrainClears(env, l, nodes, i + 1);
      }
    }
  }

  lemma {:induction false} DrainSendsDue(
    env: Env, l: Link, nodes: seq<Node>, i: nat, specs: seq<NodeSpec>, steps: seq<Step>)
    requires i <= |nodes| == |specs|
    requires forall j :: i <= j < |specs| ==>
      && nodes[j].spec == specs[j]
      && (nodes[j].pending <==> LastAccepted(specs, steps, j).Some?)
      && (nodes[j].pending ==> specs[j].writable && Some(nodes[j].value) == LastAccepted(specs, steps, j))
    ensures DrainFrom(env, l, nodes, i).2 == Due(specs, steps, i)
    decreases |nodes| - i
  {
    if i < |nodes| {
      if nodes[i].pending {
        DrainSendsDue(env, WriteNode(env, l, nodes[i]).0, nodes[i := nodes[i].(pending := false)], i + 1, specs, steps);
      } else {
        DrainSendsDue(env, l, nodes, i + 1, specs, steps);
        assert [] + Due(specs, steps, i + 1) == Due(specs, steps, i + 1);
      }
    }
  }

  // A tick sends what is due and leaves nothing pending.
  lemma TickSendsDue(world: World, s: System, specs: seq<NodeSpec>, steps: seq<Step>)
    requires PendingIsLastAccepted(specs, steps, s.nodes)
    ensures var s' := Tick(world, s);
      && s'.calls == s.calls + Due(specs, steps, 0)
      && |s'.nodes| == |specs| && NothingPending(s'.nodes)
      && forall i :: 0 <= i < |specs| ==> s'.nodes[i].spec == specs[i]
  {
    var env := world.modbus;
    var (link, nodes, calls) := DrainFrom(env, s.link, s.nodes, 0);
    DrainClears(env, s.link, s.nodes, 0);
    DrainSendsDue(env, s.link, s.nodes, 0, specs, steps);
    PollValuesOnly(env, link, nodes);
    TickParts(world, s);
    hide Tick, DrainFrom, Poll, Due, LastAccepted;
  }

  lemma PollValuesOnly(env: Env, l: Link, nodes: seq<Node>)
    ensures OnlyValues(nodes, Poll(env, l, nodes).1)
  {
    PollOnlyValues(env, Connect(env, l.(pollCount := l.pollCount + 1)).0, nodes, 0);
  }

  // The write trace of every run from a state with nothing pending.
  lemma {:induction false} WritesAreLastAccepted(world: World, s: System, steps: seq<Step>)
    requires NothingPending(s.nodes)
    ensures var s' := Run(world, s, steps);
      && s'.calls == s.calls + ExpectedCalls(Specs(s.nodes), steps)
      && PendingIsLastAccepted(Specs(s.nodes), steps, s'.nodes)
  {
    hide Tick, ClientWrite, Due, PendingIsLastAccepted, LastAccepted, Specs;
    var specs := Specs(s.nodes);
    if steps == [] {
      NothingAccepted(s.nodes);
    } else {
      var n := |steps| - 1;
      var before := Run(world, s, steps[..n]);
      WritesAreLastAccepted(world, s, steps[..n]);
      match steps[n]
      case RunTick =>
        TickSendsDue(world, before, specs, steps[..n]);
        PendingAfterTick(specs, steps, Tick(world, before).nodes);
      case Write(i, payload) =>
        PendingAfterWrite(specs, steps, before, i, payload);
        assert ExpectedCalls(specs, steps[..n]) + [] == ExpectedCalls(specs, steps[..n]);
    }
  }

  lemma NothingAccepted(nodes: seq<Node>)
    requires NothingPending(nodes)
    ensures PendingIsLastAccepted(Specs(nodes), [], nodes)
  {
  }

  lemma PendingAfterTick(specs: seq<NodeSpec>, steps: seq<Step>, nodes: seq<Node>)
    requires steps != [] && steps[|steps| - 1].RunTick?
    requires |nodes| == |specs| && NothingPending(nodes)
    requires forall i :: 0 <= i < |specs| ==> nodes[i].spec == specs[i]
    ensures PendingIsLastAccepted(specs, steps, nodes)
  {
  }

  lemma PendingAfterWrite(specs: seq<NodeSpec>, steps: seq<Step>, s: System, i: nat, payload: Payload)
    requires steps != [] && steps[|steps| - 1] == Write(i, payload)
    requires PendingIsLastAccepted(specs, steps[..|steps| - 1], s.nodes)
    ensures PendingIsLastAccepted(specs, steps, ClientWrite(s, i, payload).0.nodes)
    ensures ClientWrite(s, i, payload).0.calls == s.calls
  {
    RejectedWriteChangesNothing(s, i, payload);
  }
}
