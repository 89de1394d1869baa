/**
 What every operation on the link keeps, over all runs and all environments: the
 connection flags, the backoff arithmetic, and the read and write counters.
 */
module LinkSafety {
  import opened EdgeTypes
  import opened RegisterCodec
  import opened ModbusWire
  import opened ModbusLink

  // ---- Backoff arithmetic -----------------------------------------------

  function Pow2(n: nat): (p: nat)
    ensures p >= 1
  {
    if n == 0 then 1 else 2 * Pow2(n - 1)
  }

  function Min(a: nat, b: nat): nat { if a < b then a else b }

  // The delay after k consecutive failures.
  function Delay(k: nat): nat
    requires k >= 1
  {
    Min(BACKOFF_INITIAL_US * Pow2(k - 1), BACKOFF_MAX_US)
  }

  lemma DelayGrows(k: nat)
    ensures Delay(1) == NextBackoff(0)
    ensures k >= 1 ==> Delay(k) > 0 && NextBackoff(Delay(k)) == Delay(k + 1)
    ensures k >= 1 ==> Delay(k) == if k <= 6 then 500_000 * Pow2(k - 1) else 30_000_000
  {
    assert k >= 1 ==> Pow2(k) == 2 * Pow2(k - 1);
    assert Pow2(1) == 2 && Pow2(2) == 4 && Pow2(3) == 8 && Pow2(4) == 16 && Pow2(5) == 32 && Pow2(6) == 64;
    if k > 6 { Pow2Monotone(6, k - 1); }
  }

  // A failing streak: each attempt starts no sooner than the delay after the last failure.
  ghost predicate Spaced(streak: seq<Attempt>) {
    && (forall j :: 0 <= j < |streak| ==> streak[j].start <= streak[j].end)
    && (forall j :: 0 < j < |streak| ==> streak[j - 1].end + Delay(j) <= streak[j].start)
  }

  ghost predicate LinkInv(l: Link) {
    && (l.connected <==> l.hasContext)
    && (l.connected ==> l.enabled && l.streak == [])
    && (l.streak == [] ==> l.backoff == 0 && l.nextAttempt == 0)
    && (l.streak != [] ==>
          && l.backoff == Delay(|l.streak|)
          && l.nextAttempt == l.streak[|l.streak| - 1].end + Delay(|l.streak|))
    && Spaced(l.streak)
  }

  // ---- Every operation keeps the invariant ------------------------------

  lemma ConnectKeeps(env: Env, l: Link)
    requires ClockRuns(env) && LinkInv(l)
    ensures LinkInv(Connect(env, l).0)
    ensures Connect(env, l).1 == Ok ==> Connect(env, l).0.connected || !l.enabled
    // An attempt is made exactly when none has failed or the delay after the last failure has passed.
    ensures var l' := Connect(env, l).0;
      l.enabled && !l.connected ==>
        (l'.streak != l.streak || l'.connected
         <==> l.streak == [] || env.now(l.wire.clock) >= l.streak[|l.streak| - 1].end + Delay(|l.streak|))
  {
    DelayGrows(|l.streak|);
    assert env.now(l.wire.clock) <= env.now(l.wire.clock + 1);
  }

  lemma PollNodeKeeps(env: Env, l: Link, spec: NodeSpec)
    requires LinkInv(l)
    ensures LinkInv(PollNode(env, l, spec).0)
    ensures l.connected && !PollNode(env, l, spec).1.Dropped? ==> PollNode(env, l, spec).0.connected
  {
  }

  lemma {:induction false} PollNodesKeeps(env: Env, l: Link, nodes: seq<Node>, i: nat)
    requires LinkInv(l) && i <= |nodes|
    ensures LinkInv(PollNodes(env, l, nodes, i).0)
    decreases |nodes| - i
  {
    if i < |nodes| {
      PollNodeKeeps(env, l, nodes[i].spec);
      var (l', outcome) := PollNode(env, l, nodes[i].spec);
      match outcome
      case Skipped => PollNodesKeeps(env, l', nodes, i + 1);
      case Refreshed(value) => PollNodesKeeps(env, l', nodes[i := nodes[i].(value := value)], i + 1);
      case Dropped =>
    }
  }

  // A poll changes values only, and keeps them of their type.
  ghost predicate OnlyValues(nodes: seq<Node>, nodes': seq<Node>) {
    && SameSpecs(nodes, nodes')
    && (WellTyped(nodes) ==> WellTyped(nodes'))
    && forall j :: 0 <= j < |nodes| ==> nodes'[j].pending == nodes[j].pending
  }

  lemma {:induction false} PollOnlyValues(env: Env, l: Link, nodes: seq<Node>, i: nat)
    requires i <= |nodes|
    ensures OnlyValues(nodes, PollNodes(env, l, nodes, i).1)
    decreases |nodes| - i
  {
    if i < |nodes| {
      var r := PollNode(env, l, nodes[i].spec);
      match r.1
      case Skipped => PollOnlyValues(env, r.0, nodes, i + 1);
      case Refreshed(value) =>
        var nodes' := nodes[i := nodes[i].(value := value)];
        PollOnlyValues(env, r.0, nodes', i + 1);
        assert WellTyped(nodes) && nodes[i].spec.dataType != Unset ==> WellTyped(nodes');
      case Dropped =>
    }
  }

  lemma PollKeeps(env: Env, l: Link, nodes: seq<Node>)
    requires ClockRuns(env) && LinkInv(l)
    ensures LinkInv(Poll(env, l, nodes).0)
    ensures OnlyValues(nodes, Poll(env, l, nodes).1)
  {
    var counted := l.(pollCount := l.pollCount + 1);
    ConnectKeeps(env, counted);
    PollNodesKeeps(env, Connect(env, counted).0, nodes, 0);
    PollOnlyValues(env, Connect(env, counted).0, nodes, 0);
  }

  // Each write call is counted exactly once, as good or bad, and only when it could go out.
  lemma WriteNodeKeeps(env: Env, l: Link, node: Node)
    requires ClockRuns(env) && LinkInv(l)
    ensures var (l', status) := WriteNode(env, l, node);
      && LinkInv(l')
      && l'.enabled == l.enabled
      && l'.writeOk + l'.writeError == l.writeOk + l.writeError + Counted(l.enabled, node.spec)
      && l'.readOk == l.readOk && l'.readError == l.readError
      && (l'.writeOk == l.writeOk + 1 <==> l.enabled && status == Ok)
  {
    ConnectKeeps(env, l);
  }

  function Counted(enabled: bool, spec: NodeSpec): nat {
    if enabled && spec.writable && Mapped(spec) then 1 else 0
  }

  // ---- All runs ---------------------------------------------------------

  datatype LinkOp = DoConnect | DoDisconnect | DoPoll(nodes: seq<Node>) | DoWrite(node: Node)

  function LinkStep(env: Env, l: Link, op: LinkOp): Link {
    match op
    case DoConnect => Connect(env, l).0
    case DoDisconnect => Disconnect(l)
    case DoPoll(nodes) => Poll(env, l, nodes).0
    case DoWrite(node) => WriteNode(env, l, node).0
  }

  function LinkRun(env: Env, l: Link, ops: seq<LinkOp>): Link {
    if ops == [] then l else LinkStep(env, LinkRun(env, l, ops[..|ops| - 1]), ops[|ops| - 1])
  }

  // In every reachable state: connected exactly when a context exists, connected only when
  // enabled and with zero backoff fields, and the failing streak spaced by the backoff.
  lemma {:induction false} ReachableLink(env: Env, enabled: bool, plc: Registers, ops: seq<LinkOp>)
    requires ClockRuns(env)
    ensures LinkInv(LinkRun(env, InitialLink(enabled, plc), ops))
  {
    if ops != [] {
      var before := LinkRun(env, InitialLink(enabled, plc), ops[..|ops| - 1]);
      ReachableLink(env, enabled, plc, ops[..|ops| - 1]);
      match ops[|ops| - 1]
      case DoConnect => ConnectKeeps(env, before);
      case DoDisconnect =>
      case DoPoll(nodes) => PollKeeps(env, before, nodes);
      case DoWrite(node) => WriteNodeKeeps(env, before, node);
    }
  }

  // The least time from the start of the first attempt of a streak to the start of attempt n.
  function Gap(n: nat): nat
    requires n >= 1
  {
    if n <= 7 then 500_000 * (Pow2(n - 1) - 1) else 31_500_000 + 30_000_000 * (n - 7)
  }

  lemma GapGrows(n: nat)
    requires n >= 1
    ensures Gap(n + 1) == Gap(n) + Delay(n)
  {
    assert Pow2(1) == 2 && Pow2(2) == 4 && Pow2(3) == 8 && Pow2(4) == 16 && Pow2(5) == 32 && Pow2(6) == 64;
    if n >= 7 { Pow2Monotone(6, n - 1); }
  }

  lemma {:induction false} Pow2Monotone(m: nat, n: nat)
    requires m <= n
    ensures Pow2(m) <= Pow2(n)
    decreases n - m
  {
    if m < n { Pow2Monotone(m + 1, n); }
  }

  // Attempt n of a failing streak starts at least Gap(n) after the first, in any run.
  lemma BackoffBound(env: Env, enabled: bool, plc: Registers, ops: seq<LinkOp>, n: nat)
    requires ClockRuns(env)
    requires 1 <= n <= |LinkRun(env, InitialLink(enabled, plc), ops).streak|
    ensures var streak := LinkRun(env, InitialLink(enabled, plc), ops).streak;
      streak[n - 1].start >= streak[0].start + Gap(n)
  {
    ReachableLink(env, enabled, plc, ops);
    StreakBound(LinkRun(env, InitialLink(enabled, plc), ops).streak, n);
  }

  lemma {:induction false} StreakBound(streak: seq<Attempt>, n: nat)
    requires Spaced(streak) && 1 <= n <= |streak|
    ensures streak[n - 1].start >= streak[0].start + Gap(n)
  {
    if n > 1 {
      StreakBound(streak, n - 1);
      GapGrows(n - 1);
    }
  }

  // ---- What one poll does -----------------------------------------------

  predicate Readable(env: Env, spec: NodeSpec) { Mapped(spec) && env.selectOk(spec.unit) }

  // The reads that a poll of nodes i to p issues, each addressed to the node's own unit.
  function ReadsOf(env: Env, specs: seq<NodeSpec>, i: nat, p: nat): seq<Exchange>
    requires p <= |specs|
    decreases p - i
  {
    if i >= p then []
    else if Readable(env, specs[i]) then
      [ReadRegisters(specs[i].unit, Offset(specs[i]), Width(specs[i].dataType))] + ReadsOf(env, specs, i + 1, p)
    else ReadsOf(env, specs, i + 1, p)
  }

  // The mapped nodes of i to p whose unit cannot be selected.
  function Refused(env: Env, specs: seq<NodeSpec>, i: nat, p: nat): nat
    requires p <= |specs|
    decreases p - i
  {
    if i >= p then 0
    else (if Mapped(specs[i]) && !env.selectOk(specs[i].unit) then 1 else 0) + Refused(env, specs, i + 1, p)
  }

  // From node i on, the poll reads exactly nodes i to p, in order.
  ghost predicate CountsPrefix(env: Env, l: Link, specs: seq<NodeSpec>, i: nat, l': Link, p: nat)
    requires p <= |specs|
  {
    && l'.readOk == l.readOk + |ReadsOf(env, specs, i, p)|
    && l'.readError == l.readError + Refused(env, specs, i, p) + (if p < |specs| then 1 else 0)
    && l'.wire.log == l.wire.log + ReadsOf(env, specs, i, p) + LastRead(env, specs, p)
    && (l'.connected <==> p == |specs|)
    && l'.writeOk == l.writeOk && l'.writeError == l.writeError
  }

  // The read that failed, if the poll stopped short.
  function LastRead(env: Env, specs: seq<NodeSpec>, p: nat): seq<Exchange>
    requires p <= |specs|
  {
    if p < |specs| then ReadsOf(env, specs, p, p + 1) else []
  }

  ghost predicate PolledPrefix(env: Env, l: Link, nodes: seq<Node>, i: nat, l': Link, nodes': seq<Node>, p: nat) {
    && i <= p <= |nodes| == |nodes'|
    && (forall j :: 0 <= j < |nodes| && !(i <= j < p && Readable(env, nodes[j].spec)) ==> nodes'[j] == nodes[j])
    && (p < |nodes| ==> Readable(env, nodes[p].spec))
    && CountsPrefix(env, l, Specs(nodes), i, l', p)
  }

  // Where the poll from node i stops: at the node whose read fails, or past the last node.
  function StopAt(env: Env, l: Link, nodes: seq<Node>, i: nat): (p: nat)
    requires i <= |nodes|
    ensures i <= p <= |nodes|
    decreases |nodes| - i
  {
    if i == |nodes| then i
    else
      var (l', outcome) := PollNode(env, l, nodes[i].spec);
      if outcome.Dropped? then i else StopAt(env, l', WithOutcome(nodes, i, outcome), i + 1)
  }

  function WithOutcome(nodes: seq<Node>, i: nat, outcome: Outcome): (nodes': seq<Node>)
    requires i < |nodes|
    ensures |nodes'| == |nodes| && Specs(nodes') == Specs(nodes)
  {
    if outcome.Refreshed? then nodes[i := nodes[i].(value := outcome.value)] else nodes
  }

  // A connected poll reads a prefix of the nodes, in order and each on its own unit, and
  // touches no other node. It stops short exactly when one read fails, which counts one
  // more error and drops the link.
  lemma {:induction false} PollPrefix(env: Env, l: Link, nodes: seq<Node>, i: nat)
    requires LinkInv(l) && l.connected && i <= |nodes|
    ensures var r := PollNodes(env, l, nodes, i);
      PolledPrefix(env, l, nodes, i, r.0, r.1, StopAt(env, l, nodes, i))
    decreases |nodes| - i
  {
    if i < |nodes| {
      PollNodeKeeps(env, l, nodes[i].spec);
      PollNodeCounts(env, l, Specs(nodes), i);
      var r := PollNode(env, l, nodes[i].spec);
      if !r.1.Dropped? {
        var nodes' := WithOutcome(nodes, i, r.1);
        PollPrefix(env, r.0, nodes', i + 1);
        hide PollNode, ReadsOf, Refused, LastRead, LinkInv;
        PrefixStep(env, l, Specs(nodes), i, r.0, PollNodes(env, r.0, nodes', i + 1).0, StopAt(env, r.0, nodes', i + 1));
      }
    }
  }

  // ---- What a poll reads ------------------------------------------------

  // The value that a node's registers decode to.
  function ValueAt(plc: Registers, spec: NodeSpec): Value
    requires Mapped(spec) && Holds(plc, spec.unit, Offset(spec), Width(spec.dataType))
  {
    Decode(spec.dataType, spec.scale, WordsAt(plc, spec.unit, Offset(spec), Width(spec.dataType)))
  }

  ghost predicate Shows(plc: Registers, node: Node) {
    && Mapped(node.spec) && Holds(plc, node.spec.unit, Offset(node.spec), Width(node.spec.dataType))
    && node.value == ValueAt(plc, node.spec)
  }

  // The PLC after the plant's own changes before exchanges from to to.
  function Drifted(env: Env, plc: Registers, from: nat, to: nat): Registers
    decreases to - from
  {
    if from >= to then plc else Drifted(env, plc + env.drift(from), from + 1, to)
  }

  lemma {:induction false} PollLeavesEarlier(env: Env, l: Link, nodes: seq<Node>, i: nat)
    requires i <= |nodes|
    ensures |PollNodes(env, l, nodes, i).1| == |nodes|
    ensures forall j :: 0 <= j < i ==> PollNodes(env, l, nodes, i).1[j] == nodes[j]
    decreases |nodes| - i
  {
    if i < |nodes| {
      var r := PollNode(env, l, nodes[i].spec);
      if !r.1.Dropped? { PollLeavesEarlier(env, r.0, WithOutcome(nodes, i, r.1), i + 1); }
    }
  }

  // Every readable node before the stop shows its registers as the PLC held them at the
  // moment of its own read, even when the poll stops short.
  lemma {:induction false} PollRefreshes(env: Env, l: Link, nodes: seq<Node>, i: nat, j: nat)
    requires i <= j < |nodes| && j < StopAt(env, l, nodes, i) && Readable(env, nodes[j].spec)
    ensures |PollNodes(env, l, nodes, i).1| == |nodes|
    ensures var k := |l.wire.log| + |ReadsOf(env, Specs(nodes), i, j)|;
      Shows(Drifted(env, l.wire.plc, |l.wire.log|, k + 1), PollNodes(env, l, nodes, i).1[j])
    decreases |nodes| - i
  {
    hide PollNode;
    var r := PollNode(env, l, nodes[i].spec);
    var nodes' := WithOutcome(nodes, i, r.1);
    PollLeavesEarlier(env, r.0, nodes', i + 1);
    OnePollRead(env, l, nodes[i].spec);
    if j == i {
      var k := |l.wire.log|;
      assert Drifted(env, l.wire.plc, k, k + 1) == l.wire.plc + env.drift(k);
    } else {
      PollRefreshes(env, r.0, nodes', i + 1, j);
    }
  }

  // One node polled: skipped without an exchange, or one exchange with the PLC as it then is.
  lemma OnePollRead(env: Env, l: Link, spec: NodeSpec)
    ensures var (l', outcome) := PollNode(env, l, spec);
      var plc := l.wire.plc + env.drift(|l.wire.log|);
      && (outcome.Skipped? <==> !Readable(env, spec))
      && (outcome.Skipped? ==> l'.wire == l.wire)
      && (outcome.Refreshed? ==>
            && l'.wire.plc == plc && |l'.wire.log| == |l.wire.log| + 1
            && Holds(plc, spec.unit, Offset(spec), Width(spec.dataType)) && outcome.value == ValueAt(plc, spec))
  {
  }

  // ---- Counting the reads -----------------------------------------------

  lemma PollNodeCounts(env: Env, l: Link, specs: seq<NodeSpec>, i: nat)
    requires i < |specs| && LinkInv(l) && l.connected
    ensures var (l', outcome) := PollNode(env, l, specs[i]);
      && l'.wire.log == l.wire.log + ReadsOf(env, specs, i, i + 1)
      && l'.writeOk == l.writeOk && l'.writeError == l.writeError
      && (outcome.Skipped? <==> !Readable(env, specs[i]))
      && l'.readOk == l.readOk + (if outcome.Refreshed? then 1 else 0)
      && l'.readError == l.readError + Refused(env, specs, i, i + 1) + (if outcome.Dropped? then 1 else 0)
      && (l'.connected <==> !outcome.Dropped?)
  {
  }

  lemma PrefixStep(env: Env, l: Link, specs: seq<NodeSpec>, i: nat, l1: Link, l': Link, p: nat)
    requires i < p <= |specs| && CountsPrefix(env, l1, specs, i + 1, l', p)
    requires l1.wire.log == l.wire.log + ReadsOf(env, specs, i, i + 1)
    requires l1.readOk == l.readOk + |ReadsOf(env, specs, i, i + 1)|
    requires l1.readError == l.readError + Refused(env, specs, i, i + 1)
    requires l1.writeOk == l.writeOk && l1.writeError == l.writeError
    ensures CountsPrefix(env, l, specs, i, l', p)
  {
    PrefixCounts(env, specs, i, p);
    Regroup(l.wire.log, ReadsOf(env, specs, i, i + 1), ReadsOf(env, specs, i + 1, p), LastRead(env, specs, p));
    hide ReadsOf, Refused, LastRead;
  }

  lemma Regroup<T>(w: seq<T>, a: seq<T>, b: seq<T>, c: seq<T>)
    ensures w + a + b + c == w + (a + b) + c
  {
  }

  lemma PrefixCounts(env: Env, specs: seq<NodeSpec>, i: nat, p: nat)
    requires i < p <= |specs|
    ensures ReadsOf(env, specs, i, p) == ReadsOf(env, specs, i, i + 1) + ReadsOf(env, specs, i + 1, p)
    ensures Refused(env, specs, i, p) == Refused(env, specs, i, i + 1) + Refused(env, specs, i + 1, p)
  {
    assert ReadsOf(env, specs, i + 1, i + 1) == [];
  }

  // On a loaded model every unit is selectable, so the counters are exact: one read per
  // mapped node of the prefix, and an error exactly when the link is dropped.
  lemma LoadedPoll(env: Env, l: Link, nodes: seq<Node>)
    requires LinkInv(l) && l.connected
    requires forall j :: 0 <= j < |nodes| ==> env.selectOk(nodes[j].spec.unit)
    ensures var (l', nodes') := PollNodes(env, l, nodes, 0);
      var p := StopAt(env, l, nodes, 0);
      && |nodes'| == |nodes| && nodes'[p..] == nodes[p..]
      && l'.readOk == l.readOk + |ReadsOf(env, Specs(nodes), 0, p)|
      && (p < |nodes| <==> l'.readError == l.readError + 1)
      && (p < |nodes| <==> !l'.connected)
      && (p == |nodes| ==> l'.readError == l.readError)
  {
    PollPrefix(env, l, nodes, 0);
    NothingRefused(env, Specs(nodes), 0, StopAt(env, l, nodes, 0));
    hide PollNodes, StopAt, ReadsOf;
  }

  lemma {:induction false} NothingRefused(env: Env, specs: seq<NodeSpec>, i: nat, p: nat)
    requires p <= |specs| && forall j :: 0 <= j < |specs| ==> env.selectOk(specs[j].unit)
    ensures Refused(env, specs, i, p) == 0
    decreases p - i
  {
    if i < p { NothingRefused(env, specs, i + 1, p); }
  }
}
