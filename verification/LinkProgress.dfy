/**
 When the link acts: exactly when a connect is attempted and succeeds, which reads and writes
 succeed and what a failed one leaves behind. The conditions are about the environment and
 the state before the call alone.
 */
module LinkProgress {
  import opened EdgeTypes
  import opened RegisterCodec
  import opened ModbusWire
  import opened ModbusLink
  import opened LinkSafety

  // ---- Connecting -------------------------------------------------------

  // The delay after the last failure, if any, has passed when the clock is read next.
  predicate DelayPassed(env: Env, l: Link) {
    l.nextAttempt == 0 || env.now(l.wire.clock) >= l.nextAttempt
  }

  // The PLC can be reached at the next reading of the clock.
  predicate Answers(env: Env, l: Link) { env.contextOk(l.wire.clock) && env.dialOk(l.wire.clock) }

  // An enabled link that is not connected attempts exactly when the delay has passed. It is
  // connected, with the backoff cleared, exactly when it attempts and the PLC answers; a failed
  // attempt lengthens the streak; without an attempt only the clock has been read.
  lemma ConnectExactly(env: Env, l: Link)
    requires l.enabled && !l.connected
    ensures var (l', status) := Connect(env, l);
      var c := l.wire.clock;
      && (status == Ok <==> DelayPassed(env, l) && Answers(env, l))
      && (status != Ok ==> status == Error)
      && (l'.connected <==> status == Ok)
      && (status == Ok ==> l'.hasContext && l'.streak == [] && l'.backoff == 0 && l'.nextAttempt == 0)
      && (|l'.streak| == |l.streak| + 1 <==> DelayPassed(env, l) && !Answers(env, l))
      && (DelayPassed(env, l) && !Answers(env, l) ==>
            && l'.streak == l.streak + [Attempt(env.now(c), env.now(c + 1))]
            && l'.backoff == (if l.backoff == 0 then 500_000
                              else if l.backoff > 15_000_000 then 30_000_000 else 2 * l.backoff)
            && l'.nextAttempt == env.now(c + 1) + l'.backoff && l'.hasContext == l.hasContext)
      && (!DelayPassed(env, l) ==> l' == l.(wire := l.wire.(clock := c + 1)))
      && l'.wire.plc == l.wire.plc && l'.wire.log == l.wire.log && SameCounters(l, l')
  {
  }

  // A link that is disabled or already connected is left alone.
  lemma NothingToConnect(env: Env, l: Link)
    requires !l.enabled || l.connected
    ensures Connect(env, l) == (l, Ok)
  {
  }

  ghost predicate SameCounters(l: Link, l': Link) {
    && l'.enabled == l.enabled && l'.pollCount == l.pollCount
    && l'.readOk == l.readOk && l'.readError == l.readError
    && l'.writeOk == l.writeOk && l'.writeError == l.writeError
  }

  // In any run, a connect on an enabled link that is down makes an attempt if and only if no
  // attempt has failed since the last success, or the delay has passed since the last failure.
  // It always retries: with a PLC that answers, the attempt connects.
  lemma RetriesExactly(env: Env, enabled: bool, plc: Registers, ops: seq<LinkOp>)
    requires ClockRuns(env)
    requires enabled && !LinkRun(env, InitialLink(enabled, plc), ops).connected
    ensures var l := LinkRun(env, InitialLink(enabled, plc), ops);
      var l' := LinkRun(env, InitialLink(enabled, plc), ops + [DoConnect]);
      var k := |l.streak|;
      var due := k == 0 || env.now(l.wire.clock) >= l.streak[k - 1].end + Delay(k);
      && (l'.connected <==> due && Answers(env, l))
      && (|l'.streak| == k + 1 <==> due && !Answers(env, l))
      && (!due ==> l'.streak == l.streak)
  {
    hide Connect, Spaced;
    var l := LinkRun(env, InitialLink(enabled, plc), ops);
    ReachableLink(env, enabled, plc, ops);
    EnabledStays(env, InitialLink(enabled, plc), ops);
    assert (ops + [DoConnect])[..|ops|] == ops;
    ConnectExactly(env, l);
  }

  function PollsIn(ops: seq<LinkOp>): nat {
    if ops == [] then 0 else PollsIn(ops[..|ops| - 1]) + (if ops[|ops| - 1].DoPoll? then 1 else 0)
  }

  // In any run, the poll counter is the number of polls asked for, connected or not.
  lemma {:induction false} PollsAreCounted(env: Env, enabled: bool, plc: Registers, ops: seq<LinkOp>)
    ensures LinkRun(env, InitialLink(enabled, plc), ops).pollCount == PollsIn(ops)
  {
    hide LinkStep;
    if ops == [] {
      assert InitialLink(enabled, plc).pollCount == 0;
    } else {
      var n := |ops| - 1;
      PollsAreCounted(env, enabled, plc, ops[..n]);
      StepCountsPolls(env, LinkRun(env, InitialLink(enabled, plc), ops[..n]), ops[n]);
    }
  }

  lemma StepCountsPolls(env: Env, l: Link, op: LinkOp)
    ensures LinkStep(env, l, op).pollCount == l.pollCount + (if op.DoPoll? then 1 else 0)
  {
    if op.DoPoll? {
      PollExactly(env, l, op.nodes);
      hide Poll;
    }
  }

  lemma {:induction false} EnabledStays(env: Env, l: Link, ops: seq<LinkOp>)
    ensures LinkRun(env, l, ops).enabled == l.enabled
  {
    if ops != [] {
      var n := |ops| - 1;
      EnabledStays(env, l, ops[..n]);
      StepKeepsEnabled(env, LinkRun(env, l, ops[..n]), ops[n]);
      hide LinkStep;
    }
  }

  lemma StepKeepsEnabled(env: Env, l: Link, op: LinkOp)
    ensures LinkStep(env, l, op).enabled == l.enabled
  {
    if op.DoPoll? {
      var counted := l.(pollCount := l.pollCount + 1);
      PollKeepsCount(env, Connect(env, counted).0, op.nodes, 0);
      hide PollNodes;
    }
  }

  lemma {:induction false} PollKeepsCount(env: Env, l: Link, nodes: seq<Node>, i: nat)
    requires i <= |nodes|
    ensures var l' := PollNodes(env, l, nodes, i).0;
      l'.enabled == l.enabled && l'.pollCount == l.pollCount
    decreases |nodes| - i
  {
    if i < |nodes| {
      var r := PollNode(env, l, nodes[i].spec);
      PollNodeKeepsCount(env, l, nodes[i].spec);
      hide PollNode;
      if !r.1.Dropped? { PollKeepsCount(env, r.0, WithOutcome(nodes, i, r.1), i + 1); }
    }
  }

  lemma PollNodeKeepsCount(env: Env, l: Link, spec: NodeSpec)
    ensures var l' := PollNode(env, l, spec).0;
      l'.enabled == l.enabled && l'.pollCount == l.pollCount
  {
  }

  // ---- Reading ----------------------------------------------------------

  // Where a node's registers are: 40001 is offset 0, and 32-bit types take two.
  lemma RegisterPlace(spec: NodeSpec)
    ensures Mapped(spec) <==> spec.register >= 40001
    ensures Mapped(spec) ==> Offset(spec) == spec.register - 40001
    ensures Width(spec.dataType) == if spec.dataType == Int32Type || spec.dataType == UInt32Type then 2 else 1
  {
  }

  // Exchange k succeeds on the node's registers as the plant leaves them before it.
  predicate Served(env: Env, plc: Registers, k: nat, spec: NodeSpec) {
    && env.exchangeOk(k)
    && Mapped(spec) && Holds(plc + env.drift(k), spec.unit, Offset(spec), Width(spec.dataType))
  }

  // One node of a poll is skipped without a read exactly when it is not mapped or its unit is
  // refused; otherwise it is refreshed exactly when its read succeeds, and a read that fails
  // drops the link.
  lemma PollNodeExactly(env: Env, l: Link, spec: NodeSpec)
    ensures var (l', outcome) := PollNode(env, l, spec);
      var k := |l.wire.log|;
      && (outcome.Skipped? <==> !Readable(env, spec))
      && (outcome.Refreshed? <==> Readable(env, spec) && Served(env, l.wire.plc, k, spec))
      && (Readable(env, spec) ==>
            && l'.wire.plc == l.wire.plc + env.drift(k)
            && l'.wire.log == l.wire.log + [ReadRegisters(spec.unit, Offset(spec), Width(spec.dataType))])
      && (!Readable(env, spec) ==> l'.wire.plc == l.wire.plc && l'.wire.log == l.wire.log)
      && (outcome.Refreshed? ==> outcome.value == ValueAt(l.wire.plc + env.drift(k), spec))
      && (outcome.Dropped? && l.hasContext ==> !l'.connected && !l'.hasContext)
  {
  }

  // The first of the nodes from i on whose read fails, from the environment alone.
  function FirstFailure(env: Env, plc: Registers, k: nat, specs: seq<NodeSpec>, i: nat): nat
    requires i <= |specs|
    decreases |specs| - i
  {
    if i == |specs| then i
    else if !Readable(env, specs[i]) then FirstFailure(env, plc, k, specs, i + 1)
    else if !Served(env, plc, k, specs[i]) then i
    else FirstFailure(env, plc + env.drift(k), k + 1, specs, i + 1)
  }

  // A poll stops at the first node whose read fails, and nowhere else.
  lemma {:induction false} StopsAtFirstFailure(env: Env, l: Link, nodes: seq<Node>, i: nat)
    requires i <= |nodes|
    ensures StopAt(env, l, nodes, i) == FirstFailure(env, l.wire.plc, |l.wire.log|, Specs(nodes), i)
    decreases |nodes| - i
  {
    if i < |nodes| {
      hide PollNode, Served, Readable;
      PollNodeExactly(env, l, nodes[i].spec);
      var r := PollNode(env, l, nodes[i].spec);
      if !r.1.Dropped? { StopsAtFirstFailure(env, r.0, WithOutcome(nodes, i, r.1), i + 1); }
    }
  }

  // A poll counts itself; when the link is disabled or cannot be connected it reads nothing and
  // leaves every node as it is.
  lemma PollExactly(env: Env, l: Link, nodes: seq<Node>)
    ensures var (l', nodes') := Poll(env, l, nodes);
      var up := l.connected || (DelayPassed(env, l) && Answers(env, l));
      && l'.pollCount == l.pollCount + 1
      && (!l.enabled ==> l' == l.(pollCount := l.pollCount + 1) && nodes' == nodes)
      && (l.enabled && !up ==>
            && nodes' == nodes && l' == Connect(env, l.(pollCount := l.pollCount + 1)).0
            && l'.wire.plc == l.wire.plc && l'.wire.log == l.wire.log && !l'.connected)
      && (l.enabled && up ==>
            var linked := Connect(env, l.(pollCount := l.pollCount + 1)).0;
            && linked.connected && linked.wire.plc == l.wire.plc && linked.wire.log == l.wire.log
            && (l', nodes') == PollNodes(env, linked, nodes, 0))
  {
    var counted := l.(pollCount := l.pollCount + 1);
    if l.enabled && !l.connected { ConnectExactly(env, counted); }
    PollKeepsCount(env, Connect(env, counted).0, nodes, 0);
    hide PollNodes;
  }

  // ---- Writing ----------------------------------------------------------

  // Once a writable, mapped node is sent over an open link: it succeeds exactly when its unit
  // can be selected and the exchange succeeds, and then the PLC holds its words. A refused unit
  // leaves the link up; a failed exchange drops it. Each is counted.
  lemma TransmitExactly(env: Env, l: Link, spec: NodeSpec, words: seq<Word>)
    requires Mapped(spec) && |words| == Width(spec.dataType) && l.connected && l.hasContext
    ensures var (l', status) := Transmit(env, l, spec, words);
      var k := |l.wire.log|;
      && (status == Ok <==> env.selectOk(spec.unit) && Served(env, l.wire.plc, k, spec))
      && (status != Ok ==> status == Error && l'.writeError == l.writeError + 1 && l'.writeOk == l.writeOk)
      && (status == Ok ==>
            && l'.connected && l'.hasContext && l'.writeOk == l.writeOk + 1 && l'.writeError == l.writeError
            && l'.wire.plc == Stored(l.wire.plc + env.drift(k), spec.unit, Offset(spec), words))
      && (!env.selectOk(spec.unit) ==> l'.connected && l'.wire == l.wire)
      && (env.selectOk(spec.unit) ==>
            l'.wire.log == l.wire.log + [WriteRegisters(spec.unit, Offset(spec), words)])
      && (env.selectOk(spec.unit) && status != Ok ==>
            !l'.connected && !l'.hasContext && l'.wire.plc == l.wire.plc + env.drift(k))
      && l'.enabled == l.enabled && l'.nextAttempt == l.nextAttempt && l'.wire.clock == l.wire.clock
  {
  }

  // A write: nothing without a link, Invalid for a node that cannot be written, an error without
  // an exchange when the link cannot be brought up, and otherwise what sending it comes to.
  lemma WriteExactly(env: Env, l: Link, node: Node)
    requires TypeOf(node.value) == node.spec.dataType && (l.connected ==> l.hasContext)
    ensures var (l', status) := WriteNode(env, l, node);
      var up := l.connected || (DelayPassed(env, l) && Answers(env, l));
      && (!l.enabled ==> l' == l && status == Ok)
      && (l.enabled && !(node.spec.writable && Mapped(node.spec)) ==> l' == l && status == Invalid)
      && (l.enabled && node.spec.writable && Mapped(node.spec) ==>
            && (status == Ok <==>
                  up && env.selectOk(node.spec.unit) && Served(env, l.wire.plc, |l.wire.log|, node.spec))
            && (!up ==>
                  && status == Error && l'.writeError == l.writeError + 1 && !l'.connected
                  && l'.wire.plc == l.wire.plc && l'.wire.log == l.wire.log)
            && (up && env.selectOk(node.spec.unit) && status != Ok ==> !l'.connected))
  {
    hide Connect, Transmit;
    if l.enabled && node.spec.writable && Mapped(node.spec) {
      if l.connected { NothingToConnect(env, l); } else { ConnectExactly(env, l); }
      var linked := Connect(env, l);
      if linked.1 == Ok { TransmitExactly(env, linked.0, node.spec, Pack(node.spec.scale, node.value)); }
    }
  }
}
