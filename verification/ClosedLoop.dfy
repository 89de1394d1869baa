/**
 The closed loop: what one tick without a transport error does to the PLC and to every
 node, and when it does so.
 */
module ClosedLoop {
  import opened EdgeTypes
  import opened RegisterCodec
  import opened ModbusWire
  import opened ModbusLink
  import opened LinkSafety
  import opened LinkProgress
  import opened Runtime
  import opened WriteTrace
  import opened RunSafety
  import opened TemplateValidation

  // ---- Footprints -------------------------------------------------------

  predicate Covers(spec: NodeSpec, a: Addr) {
    Mapped(spec) && InFootprint(a, spec.unit, Offset(spec), Width(spec.dataType))
  }

  // The node has a write to send.
  predicate Sends(node: Node) { node.spec.writable && node.pending }

  // The word a node's packed value puts at an address of its footprint.
  function WordFor(node: Node, a: Addr): Word
    requires TypeOf(node.value) == node.spec.dataType && Covers(node.spec, a)
  {
    Pack(node.spec.scale, node.value)[a.offset - Offset(node.spec)]
  }

  ghost predicate Ready(nodes: seq<Node>) {
    WellTyped(nodes) && forall i :: 0 <= i < |nodes| ==> Mapped(nodes[i].spec)
  }

  // The footprints of writable nodes do not meet.
  ghost predicate WritableDisjoint(nodes: seq<Node>) {
    forall i, j, a ::
      (0 <= i < j < |nodes| && nodes[i].spec.writable && nodes[j].spec.writable && Covers(nodes[i].spec, a)) ==>
        !Covers(nodes[j].spec, a)
  }

  // Where two pending writes meet, they carry the same word.
  ghost predicate PendingAgree(nodes: seq<Node>)
    requires WellTyped(nodes)
  {
    forall i, j, a ::
      (0 <= i < j < |nodes| && Sends(nodes[i]) && Sends(nodes[j])
         && Covers(nodes[i].spec, a) && Covers(nodes[j].spec, a)) ==>
        WordFor(nodes[i], a) == WordFor(nodes[j], a)
  }

  ghost predicate Delivered(plc: Registers, node: Node)
    requires TypeOf(node.value) == node.spec.dataType
  {
    forall a :: Covers(node.spec, a) ==> a in plc && plc[a] == WordFor(node, a)
  }

  ghost predicate SameAt(p: Registers, q: Registers, a: Addr) {
    (a in p <==> a in q) && (a in p ==> p[a] == q[a])
  }

  // The plant leaves its registers alone during exchanges from to to.
  ghost predicate Still(env: Env, from: nat, to: nat) {
    forall k: nat :: from <= k < to ==> env.drift(k) == map[]
  }

  // ---- Writing ----------------------------------------------------------

  // A write that is not counted as an error is one exchange, and stores exactly its words.
  lemma WriteDelivers(env: Env, l: Link, node: Node)
    requires ClockRuns(env) && LinkInv(l) && l.enabled && node.spec.writable && Mapped(node.spec)
    requires TypeOf(node.value) == node.spec.dataType
    requires WriteNode(env, l, node).0.writeError == l.writeError && env.drift(|l.wire.log|) == map[]
    ensures var l' := WriteNode(env, l, node).0;
      && |l'.wire.log| == |l.wire.log| + 1
      && Delivered(l'.wire.plc, node)
      && forall a :: !Covers(node.spec, a) ==> SameAt(l.wire.plc, l'.wire.plc, a)
  {
    hide WriteNode, Transmit, Connect, LinkInv, Pack, Delivered, Stored, SameAt, Covers;
    var linked := Connect(env, l).0;
    var spec, words := node.spec, Pack(node.spec.scale, node.value);
    WriteIsTransmit(env, l, node);
    TransmitStores(env, linked, spec, words);
    StoredDelivers(l.wire.plc, node);
  }

  lemma WriteIsTransmit(env: Env, l: Link, node: Node)
    requires l.enabled && node.spec.writable && Mapped(node.spec)
    requires WriteNode(env, l, node).0.writeError == l.writeError
    ensures var linked := Connect(env, l).0;
      && linked.wire.plc == l.wire.plc && linked.wire.log == l.wire.log && linked.writeError == l.writeError
      && WriteNode(env, l, node).0 == Transmit(env, linked, node.spec, Pack(node.spec.scale, node.value)).0
  {
    hide Transmit, Pack;
  }

  lemma StoredDelivers(plc: Registers, node: Node)
    requires TypeOf(node.value) == node.spec.dataType && Mapped(node.spec)
    ensures var plc' := Stored(plc, node.spec.unit, Offset(node.spec), Pack(node.spec.scale, node.value));
      Delivered(plc', node) && forall a :: !Covers(node.spec, a) ==> SameAt(plc, plc', a)
  {
    hide Pack, Stored, WordsAt, Holds;
    var words := Pack(node.spec.scale, node.value);
    var plc' := Stored(plc, node.spec.unit, Offset(node.spec), words);
    forall a | Covers(node.spec, a)
      ensures a in plc' && plc'[a] == WordFor(node, a)
    {
      StoredAt(plc, node.spec.unit, Offset(node.spec), words, a);
    }
    forall a | !Covers(node.spec, a)
      ensures SameAt(plc, plc', a)
    {
      StoredAt(plc, node.spec.unit, Offset(node.spec), words, a);
    }
  }

  lemma TransmitStores(env: Env, l: Link, spec: NodeSpec, words: seq<Word>)
    requires Mapped(spec) && env.drift(|l.wire.log|) == map[]
    requires Transmit(env, l, spec, words).0.writeError == l.writeError
    ensures var l' := Transmit(env, l, spec, words).0;
      |l'.wire.log| == |l.wire.log| + 1 && l'.wire.plc == Stored(l.wire.plc, spec.unit, Offset(spec), words)
  {
    assert l.wire.plc + env.drift(|l.wire.log|) == l.wire.plc;
  }

  lemma StoredAt(plc: Registers, unit: nat, offset: nat, words: seq<Word>, a: Addr)
    ensures var r := Stored(plc, unit, offset, words);
      if InFootprint(a, unit, offset, |words|) then a in r && r[a] == words[a.offset - offset] else SameAt(plc, r, a)
  {
    var r := Stored(plc, unit, offset, words);
    if InFootprint(a, unit, offset, |words|) {
      var k := a.offset - offset;
      assert a == At(unit, offset, k);
      assert WordsAt(r, unit, offset, |words|)[k] == words[k];
    }
  }

  // From node i on: pending words are in place, and every address outside the pending
  // footprints is as it was.
  ghost predicate DrainedInto(plc: Registers, plc': Registers, nodes: seq<Node>, i: nat)
    requires WellTyped(nodes)
  {
    && (forall j :: i <= j < |nodes| && Sends(nodes[j]) ==> Delivered(plc', nodes[j]))
    && (forall a :: Untouched(nodes, i, a) ==> SameAt(plc, plc', a))
  }

  // The drain from node i is clean: no write fails and the plant stays still.
  ghost predicate CleanDrain(env: Env, l: Link, nodes: seq<Node>, i: nat)
    requires i <= |nodes|
  {
    var l' := DrainFrom(env, l, nodes, i).0;
    && LinkInv(l) && l.enabled
    && l'.writeError == l.writeError && Still(env, |l.wire.log|, |l'.wire.log|)
  }

  lemma {:induction false} DrainDelivers(env: Env, l: Link, nodes: seq<Node>, i: nat)
    requires ClockRuns(env) && i <= |nodes| && Ready(nodes) && PendingAgree(nodes) && CleanDrain(env, l, nodes, i)
    ensures DrainedInto(l.wire.plc, DrainFrom(env, l, nodes, i).0.wire.plc, nodes, i)
    decreases |nodes| - i
  {
    if i < |nodes| {
      if Sends(nodes[i]) {
        var l1 := WriteNode(env, l, nodes[i]).0;
        var nodes1 := nodes[i := nodes[i].(pending := false)];
        CleanWrite(env, l, nodes, i);
        ClearedAgrees(nodes, i);
        DrainDelivers(env, l1, nodes1, i + 1);
        hide DrainFrom, WriteNode, CleanDrain;
        KeepDelivered(l.wire.plc, l1.wire.plc, DrainFrom(env, l1, nodes1, i + 1).0.wire.plc, nodes, i);
      } else {
        DrainDelivers(env, l, nodes, i + 1);
        assert forall a :: Untouched(nodes, i, a) ==> Untouched(nodes, i + 1, a);
      }
    }
  }

  // The first write of a clean drain is delivered, and the rest of the drain is clean.
  lemma CleanWrite(env: Env, l: Link, nodes: seq<Node>, i: nat)
    requires ClockRuns(env) && i < |nodes| && Ready(nodes) && Sends(nodes[i]) && CleanDrain(env, l, nodes, i)
    ensures var l1 := WriteNode(env, l, nodes[i]).0;
      var nodes1 := nodes[i := nodes[i].(pending := false)];
      && CleanDrain(env, l1, nodes1, i + 1)
      && DrainFrom(env, l, nodes, i).0 == DrainFrom(env, l1, nodes1, i + 1).0
      && Delivered(l1.wire.plc, nodes[i])
      && forall a :: !Covers(nodes[i].spec, a) ==> SameAt(l.wire.plc, l1.wire.plc, a)
  {
    var l1 := WriteNode(env, l, nodes[i]).0;
    var nodes1 := nodes[i := nodes[i].(pending := false)];
    WriteGrows(env, l, nodes[i]);
    DrainGrows(env, l1, nodes1, i + 1);
    WriteUsesWire(env, l, nodes[i]);
    hide WriteNode;
    assert env.drift(|l.wire.log|) == map[];
    WriteDelivers(env, l, nodes[i]);
  }

  lemma ClearedAgrees(nodes: seq<Node>, i: nat)
    requires i < |nodes| && Ready(nodes) && PendingAgree(nodes)
    ensures var nodes1 := nodes[i := nodes[i].(pending := false)];
      Ready(nodes1) && PendingAgree(nodes1)
  {
  }

  // A write that is not counted as an error reaches the wire.
  lemma WriteUsesWire(env: Env, l: Link, node: Node)
    requires ClockRuns(env) && LinkInv(l) && l.enabled && node.spec.writable && Mapped(node.spec)
    requires WriteNode(env, l, node).0.writeError == l.writeError
    ensures |WriteNode(env, l, node).0.wire.log| == |l.wire.log| + 1
  {
    ConnectKeeps(env, l);
  }

  // No pending write from node i on covers the address.
  ghost predicate Untouched(nodes: seq<Node>, i: nat, a: Addr) {
    forall j :: i <= j < |nodes| && Sends(nodes[j]) ==> !Covers(nodes[j].spec, a)
  }

  lemma KeepDelivered(plc0: Registers, plc1: Registers, plc2: Registers, nodes: seq<Node>, i: nat)
    requires i < |nodes| && Ready(nodes) && PendingAgree(nodes) && Sends(nodes[i])
    requires Delivered(plc1, nodes[i]) && forall a :: !Covers(nodes[i].spec, a) ==> SameAt(plc0, plc1, a)
    requires DrainedInto(plc1, plc2, nodes[i := nodes[i].(pending := false)], i + 1)
    ensures DrainedInto(plc0, plc2, nodes, i)
  {
    var nodes1 := nodes[i := nodes[i].(pending := false)];
    forall a | Covers(nodes[i].spec, a)
      ensures a in plc2 && plc2[a] == WordFor(nodes[i], a)
    {
      if j :| i < j < |nodes| && Sends(nodes[j]) && Covers(nodes[j].spec, a) {
        assert nodes1[j] == nodes[j];
        assert Delivered(plc2, nodes[j]);
        assert WordFor(nodes[i], a) == WordFor(nodes[j], a);
      } else {
        assert Untouched(nodes1, i + 1, a);
        assert SameAt(plc1, plc2, a);
      }
    }
    forall a | Untouched(nodes, i, a)
      ensures SameAt(plc0, plc2, a)
    {
      assert Untouched(nodes1, i + 1, a);
      assert SameAt(plc1, plc2, a) && SameAt(plc0, plc1, a);
    }
    forall j | i < j < |nodes| && Sends(nodes[j])
      ensures Delivered(plc2, nodes[j])
    {
      assert nodes1[j] == nodes[j];
    }
  }

  // Exactly when: after a drain in which no write fails, every pending node's words are in
  // the PLC if and only if pending writes that share an address agree on its word.
  lemma DrainDeliversIff(env: Env, l: Link, nodes: seq<Node>)
    requires ClockRuns(env) && Ready(nodes) && CleanDrain(env, l, nodes, 0)
    ensures var plc' := DrainFrom(env, l, nodes, 0).0.wire.plc;
      (forall j :: 0 <= j < |nodes| && Sends(nodes[j]) ==> Delivered(plc', nodes[j])) <==> PendingAgree(nodes)
  {
    if PendingAgree(nodes) { DrainDelivers(env, l, nodes, 0); }
  }

  // A transport that never fails, a plant that stays still, and a new link to it.
  const PERFECT: Env := Env(_ => true, _ => true, _ => true, _ => true, _ => map[], _ => 0)

  const NEW_LINK: Link := InitialLink(true, map[Addr(1, 0) := 0])

  function Command(id: string): NodeSpec { NodeSpec("pump", id, id, Bool, true, 1, REGISTER_BASE, Finite(1.0), 0) }

  // Two commands of one pump on one register, as a template may have them.
  const CLASHING: seq<Node> := [Node(Command("start"), BoolV(true), true), Node(Command("stop"), BoolV(false), true)]

  // For example, start is written true and stop is written false: both writes succeed, and
  // the word of start is not in the PLC.
  lemma OverlapLosesWrite()
    ensures UniqueNodes(Specs(CLASHING)) && Ready(CLASHING)
    ensures ClockRuns(PERFECT) && CleanDrain(PERFECT, NEW_LINK, CLASHING, 0)
    ensures DrainFrom(PERFECT, NEW_LINK, CLASHING, 0).0.writeOk == 2
    ensures Sends(CLASHING[0]) && !Delivered(DrainFrom(PERFECT, NEW_LINK, CLASHING, 0).0.wire.plc, CLASHING[0])
  {
    ClashingIsUnique();
    Clash(CLASHING[0], CLASHING[1]);
  }

  lemma Clash(a: Node, b: Node)
    requires a.spec == Command(a.spec.id) && a.value == BoolV(true) && a.pending
    requires b.spec == Command(b.spec.id) && b.value == BoolV(false) && b.pending
    ensures CleanDrain(PERFECT, NEW_LINK, [a, b], 0)
    ensures var l := DrainFrom(PERFECT, NEW_LINK, [a, b], 0).0;
      l.writeOk == 2 && !Delivered(l.wire.plc, a)
  {
    var l1 := WriteNode(PERFECT, NEW_LINK, a).0;
    hide DrainFrom, WriteNode, Delivered;
    DrainTwo(NEW_LINK, a, b);
    PerfectWrite(NEW_LINK, a);
    PerfectWrite(l1, b);
    OneWins(WriteNode(PERFECT, l1, b).0.wire.plc, a, b);
  }

  // Two pending commands, in order.
  lemma DrainTwo(l: Link, a: Node, b: Node)
    requires Sends(a) && Sends(b)
    ensures DrainFrom(PERFECT, l, [a, b], 0).0 == WriteNode(PERFECT, WriteNode(PERFECT, l, a).0, b).0
  {
    hide WriteNode;
    var l1 := WriteNode(PERFECT, l, a).0;
    var l2 := WriteNode(PERFECT, l1, b).0;
    var nodes1 := [a.(pending := false), b];
    var nodes2 := [a.(pending := false), b.(pending := false)];
    assert [a, b][0 := a.(pending := false)] == nodes1 && nodes1[1 := b.(pending := false)] == nodes2;
    assert DrainFrom(PERFECT, l2, nodes2, 2).0 == l2;
    assert DrainFrom(PERFECT, l1, nodes1, 1).0 == l2;
  }

  // One register cannot hold both.
  lemma OneWins(plc: Registers, a: Node, b: Node)
    requires a.spec == Command(a.spec.id) && a.value == BoolV(true)
    requires b.spec == Command(b.spec.id) && b.value == BoolV(false)
    requires Delivered(plc, b)
    ensures !Delivered(plc, a)
  {
    var at := Addr(1, 0);
    assert Covers(a.spec, at) && Covers(b.spec, at);
    assert WordFor(a, at) == 1 && WordFor(b, at) == 0;
  }

  lemma ClashingIsUnique()
    ensures UniqueNodes(Specs(CLASHING))
  {
    var specs := Specs(CLASHING);
    assert "start"[2] != "stop"[2];
    assert specs[0].id != specs[1].id;
  }

  lemma PerfectSend(l: Link, node: Node)
    requires LinkInv(l) && l.enabled && l.nextAttempt == 0 && Addr(1, 0) in l.wire.plc
    requires TypeOf(node.value) == Bool && node.spec == Command(node.spec.id)
    ensures var l' := WriteNode(PERFECT, l, node).0;
      && l'.enabled && l'.nextAttempt == 0 && Addr(1, 0) in l'.wire.plc
      && l'.writeError == l.writeError && l'.writeOk == l.writeOk + 1
  {
    var linked := Connect(PERFECT, l).0;
    hide LinkInv;
    assert linked.wire.plc == l.wire.plc && linked.connected;
    assert linked.wire.plc + PERFECT.drift(|linked.wire.log|) == linked.wire.plc;
    assert Holds(linked.wire.plc, 1, 0, 1) by { assert At(1, 0, 0) == Addr(1, 0); }
  }

  // Over the perfect transport a bool command in the PLC's range is delivered.
  lemma PerfectWrite(l: Link, node: Node)
    requires LinkInv(l) && l.enabled && l.nextAttempt == 0 && Addr(1, 0) in l.wire.plc
    requires TypeOf(node.value) == Bool && node.spec == Command(node.spec.id)
    ensures var l' := WriteNode(PERFECT, l, node).0;
      && LinkInv(l') && l'.enabled && l'.nextAttempt == 0 && Addr(1, 0) in l'.wire.plc
      && l'.writeError == l.writeError && l'.writeOk == l.writeOk + 1
      && Delivered(l'.wire.plc, node)
  {
    PerfectSend(l, node);
    WriteNodeKeeps(PERFECT, l, node);
    hide LinkInv, Delivered, WriteNode;
    WriteDelivers(PERFECT, l, node);
    assert Covers(node.spec, Addr(1, 0));
  }

  lemma DisjointAgrees(nodes: seq<Node>)
    requires WellTyped(nodes) && WritableDisjoint(nodes)
    ensures PendingAgree(nodes)
  {
  }

  // ---- Reading ----------------------------------------------------------

  // One node polled without an error shows its registers.
  lemma PollNodeReads(env: Env, l: Link, spec: NodeSpec)
    requires Mapped(spec) && env.drift(|l.wire.log|) == map[]
    requires PollNode(env, l, spec).0.readError == l.readError
    ensures var (l', outcome) := PollNode(env, l, spec);
      && outcome.Refreshed? && l'.wire.plc == l.wire.plc && |l'.wire.log| == |l.wire.log| + 1
      && Holds(l.wire.plc, spec.unit, Offset(spec), Width(spec.dataType))
      && outcome.value == ValueAt(l.wire.plc, spec)
  {
    assert l.wire.plc + env.drift(|l.wire.log|) == l.wire.plc;
  }

  // A poll with no read error leaves the PLC alone and every node showing its registers.
  lemma {:induction false} PollReads(env: Env, l: Link, nodes: seq<Node>, i: nat)
    requires i <= |nodes| && forall j :: 0 <= j < |nodes| ==> Mapped(nodes[j].spec)
    requires PollNodes(env, l, nodes, i).0.readError == l.readError
    requires Still(env, |l.wire.log|, |PollNodes(env, l, nodes, i).0.wire.log|)
    ensures var (l', nodes') := PollNodes(env, l, nodes, i);
      && l'.wire.plc == l.wire.plc && |nodes'| == |nodes|
      && (forall j :: 0 <= j < i ==> nodes'[j] == nodes[j])
      && (forall j :: i <= j < |nodes| ==> nodes'[j].spec == nodes[j].spec && Shows(l.wire.plc, nodes'[j]))
    decreases |nodes| - i
  {
    hide PollNode, Shows, Holds, Mapped;
    if i < |nodes| {
      var r := PollNode(env, l, nodes[i].spec);
      var nodes1 := if r.1.Refreshed? then nodes[i := nodes[i].(value := r.1.value)] else nodes;
      if !r.1.Dropped? { PollGrows(env, r.0, nodes1, i + 1); }
      assert r.0.readError == l.readError && |r.0.wire.log| > |l.wire.log| by { OneRead(env, l, nodes[i].spec); }
      assert env.drift(|l.wire.log|) == map[];
      PollNodeReads(env, l, nodes[i].spec);
      ShowsWhatItRead(l.wire.plc, nodes1[i]);
      PollReads(env, r.0, nodes1, i + 1);
    }
  }

  lemma ShowsWhatItRead(plc: Registers, node: Node)
    requires Mapped(node.spec) && Holds(plc, node.spec.unit, Offset(node.spec), Width(node.spec.dataType))
    requires node.value == ValueAt(plc, node.spec)
    ensures Shows(plc, node)
  {
  }

  lemma OneRead(env: Env, l: Link, spec: NodeSpec)
    requires Mapped(spec)
    ensures var (l', outcome) := PollNode(env, l, spec);
      (l'.readError == l.readError ==> outcome.Refreshed? && |l'.wire.log| == |l.wire.log| + 1)
      && (l'.readError > l.readError <==> !outcome.Refreshed?)
      && l'.readError >= l.readError
  {
  }

  lemma PollShows(env: Env, l: Link, nodes: seq<Node>)
    requires ClockRuns(env) && LinkInv(l) && l.enabled && forall j :: 0 <= j < |nodes| ==> Mapped(nodes[j].spec)
    requires var l' := Poll(env, l, nodes).0;
      l'.connected && l'.readError == l.readError && Still(env, |l.wire.log|, |l'.wire.log|)
    ensures var (l', nodes') := Poll(env, l, nodes);
      && l'.wire.plc == l.wire.plc && |nodes'| == |nodes|
      && forall j :: 0 <= j < |nodes| ==> nodes'[j].spec == nodes[j].spec && Shows(l.wire.plc, nodes'[j])
  {
    var counted := l.(pollCount := l.pollCount + 1);
    var linked := Connect(env, counted).0;
    ConnectKeeps(env, counted);
    assert linked.readError == l.readError && linked.wire.plc == l.wire.plc && linked.wire.log == l.wire.log;
    if Connect(env, counted).1 == Ok {
      hide Connect, Shows, LinkInv;
      PollReads(env, linked, nodes, 0);
    }
  }

  // ---- One tick ---------------------------------------------------------

  // A tick without a transport error, as the counters and the link show it afterwards, and
  // with a plant that leaves its registers alone meanwhile.
  ghost predicate CleanTick(world: World, s: System) {
    var l, l' := s.link, Tick(world, s).link;
    && l'.connected && l'.writeError == l.writeError && l'.readError == l.readError
    && Still(world.modbus, |l.wire.log|, |l'.wire.log|)
  }

  // After a clean tick every node shows its registers, every pending node holds the
  // quantised value it was written with, and no address outside the pending footprints
  // has changed.
  lemma ClosedLoopTick(world: World, s: System)
    requires ClockRuns(world.modbus) && LinkInv(s.link) && s.link.enabled
    requires Ready(s.nodes) && PendingAgree(s.nodes) && CleanTick(world, s)
    ensures var s' := Tick(world, s);
      && |s'.nodes| == |s.nodes|
      && (forall i :: 0 <= i < |s.nodes| ==>
            s'.nodes[i].spec == s.nodes[i].spec && Shows(s'.link.wire.plc, s'.nodes[i]))
      && (forall i :: 0 <= i < |s.nodes| && Sends(s.nodes[i]) ==>
            s'.nodes[i].value == Quantise(s.nodes[i].spec.scale, s.nodes[i].value))
      && (forall a :: Untouched(s.nodes, 0, a) ==> SameAt(s.link.wire.plc, s'.link.wire.plc, a))
  {
    hide Tick, Poll, DrainFrom, LinkInv, Shows, SameAt, Untouched, Delivered, Quantise, Covers, PendingAgree, Mapped;
    var env := world.modbus;
    var s' := Tick(world, s);
    var d := DrainFrom(env, s.link, s.nodes, 0);
    TickParts(world, s);
    DrainGrows(env, s.link, s.nodes, 0);
    DrainClears(env, s.link, s.nodes, 0);
    PollOnlyGrows(env, d.0, d.1);
    DrainDelivers(env, s.link, s.nodes, 0);
    PollShows(env, d.0, d.1);
    forall i | 0 <= i < |s.nodes| && Sends(s.nodes[i])
      ensures s'.nodes[i].value == Quantise(s.nodes[i].spec.scale, s.nodes[i].value)
    {
      ShowsQuantised(s'.link.wire.plc, s.nodes[i], s'.nodes[i]);
    }
  }

  lemma ShowsQuantised(plc: Registers, sent: Node, seen: Node)
    requires TypeOf(sent.value) == sent.spec.dataType && seen.spec == sent.spec
    requires Delivered(plc, sent) && Shows(plc, seen)
    ensures seen.value == Quantise(sent.spec.scale, sent.value)
  {
    var spec := sent.spec;
    var seenWords := WordsAt(plc, spec.unit, Offset(spec), Width(spec.dataType));
    var words := Pack(spec.scale, sent.value);
    forall k | 0 <= k < |words|
      ensures seenWords[k] == words[k]
    {
      assert Covers(spec, At(spec.unit, Offset(spec), k));
    }
    assert seenWords == words;
  }

  // Over any run that ends in a clean tick: the last value accepted for a node before that
  // tick is, quantised, what the node then holds.
  lemma ClosedLoopRun(world: World, s: System, steps: seq<Step>, i: nat)
    requires ClockRuns(world.modbus) && LinkInv(s.link) && s.link.enabled
    requires Ready(s.nodes) && WritableDisjoint(s.nodes) && NothingPending(s.nodes)
    requires CleanTick(world, Run(world, s, steps))
    requires i < |s.nodes| && LastAccepted(Specs(s.nodes), steps, i).Some?
    ensures var after := Run(world, s, steps + [RunTick]);
      && i < |after.nodes|
      && after.nodes[i].value == Quantise(s.nodes[i].spec.scale, LastAccepted(Specs(s.nodes), steps, i).value)
  {
    var before := Run(world, s, steps);
    assert (steps + [RunTick])[..|steps|] == steps;
    assert Run(world, s, steps + [RunTick]) == Tick(world, before);
    WritesAreLastAccepted(world, s, steps);
    RunKeepsSystem(world, s, steps);
    hide Run, CleanTick, LinkInv, Tick;
    assert WritableDisjoint(before.nodes);
    DisjointAgrees(before.nodes);
    assert Sends(before.nodes[i]);
    ClosedLoopTick(world, before);
  }

  // ---- A healthy transport ----------------------------------------------

  // From now on every call succeeds and the plant stays still: the link is up, or any connect
  // brings it up; every unit can be selected; and the PLC has every node's registers.
  ghost predicate Healthy(env: Env, l: Link, nodes: seq<Node>) {
    && LinkInv(l) && l.enabled
    && (l.connected || Reachable(env, l.wire.clock, l.nextAttempt))
    && ExchangesWork(env, |l.wire.log|)
    && Equipped(env, l.wire.plc, nodes)
  }

  ghost predicate Reachable(env: Env, from: nat, since: nat) {
    forall c: nat :: c >= from ==> env.contextOk(c) && env.dialOk(c) && env.now(c) >= since
  }

  ghost predicate ExchangesWork(env: Env, from: nat) {
    forall k: nat :: k >= from ==> env.exchangeOk(k) && env.drift(k) == map[]
  }

  ghost predicate Equipped(env: Env, plc: Registers, nodes: seq<Node>) {
    forall j :: 0 <= j < |nodes| ==>
      var spec := nodes[j].spec;
      env.selectOk(spec.unit) && Mapped(spec) && Holds(plc, spec.unit, Offset(spec), Width(spec.dataType))
  }

  lemma HealthyConnect(env: Env, l: Link, nodes: seq<Node>)
    requires ClockRuns(env) && Healthy(env, l, nodes)
    ensures var (l', status) := Connect(env, l);
      && status == Ok && l'.connected && Healthy(env, l', nodes) && SameCounters(l, l')
      && l'.wire.log == l.wire.log && l'.wire.plc == l.wire.plc
  {
    hide Equipped, ExchangesWork, LinkInv;
    ConnectKeeps(env, l);
    if l.connected { NothingToConnect(env, l); } else { ConnectExactly(env, l); }
  }

  lemma StoredKeepsRegisters(env: Env, plc: Registers, unit: nat, offset: nat, words: seq<Word>, nodes: seq<Node>)
    requires Equipped(env, plc, nodes)
    ensures Equipped(env, Stored(plc, unit, offset, words), nodes)
  {
    hide Stored;
    forall a | a in plc
      ensures a in Stored(plc, unit, offset, words)
    {
      StoredAt(plc, unit, offset, words, a);
    }
  }

  lemma HealthyWrite(env: Env, l: Link, nodes: seq<Node>, i: nat)
    requires ClockRuns(env) && Healthy(env, l, nodes) && i < |nodes| && Sends(nodes[i])
    requires TypeOf(nodes[i].value) == nodes[i].spec.dataType
    ensures var l' := WriteNode(env, l, nodes[i]).0;
      && Healthy(env, l', nodes) && l'.connected && l'.writeError == l.writeError && l'.readError == l.readError
      && |l'.wire.log| >= |l.wire.log|
  {
    var node := nodes[i];
    var words := Pack(node.spec.scale, node.value);
    var linked := Connect(env, l).0;
    HealthyConnect(env, l, nodes);
    WriteNodeKeeps(env, l, node);
    assert linked.wire.plc + env.drift(|linked.wire.log|) == linked.wire.plc;
    TransmitExactly(env, linked, node.spec, words);
    StoredKeepsRegisters(env, linked.wire.plc, node.spec.unit, Offset(node.spec), words, nodes);
    assert Served(env, linked.wire.plc, |linked.wire.log|, node.spec);
    hide Connect, Transmit, Stored, Pack, LinkInv, Equipped;
  }

  lemma {:induction false} HealthyDrain(env: Env, l: Link, nodes: seq<Node>, i: nat)
    requires ClockRuns(env) && Healthy(env, l, nodes) && i <= |nodes| && WellTyped(nodes)
    ensures var (l', nodes', _) := DrainFrom(env, l, nodes, i);
      && Healthy(env, l', nodes) && l'.writeError == l.writeError && l'.readError == l.readError
      && |l'.wire.log| >= |l.wire.log|
    decreases |nodes| - i
  {
    hide WriteNode, Healthy;
    if i < |nodes| {
      if Sends(nodes[i]) {
        var nodes1 := nodes[i := nodes[i].(pending := false)];
        var l1 := WriteNode(env, l, nodes[i]).0;
        HealthyWrite(env, l, nodes, i);
        SameHealth(env, l1, nodes, nodes1);
        HealthyDrain(env, l1, nodes1, i + 1);
        SameHealth(env, DrainFrom(env, l1, nodes1, i + 1).0, nodes1, nodes);
      } else {
        HealthyDrain(env, l, nodes, i + 1);
      }
    }
  }

  lemma SameHealth(env: Env, l: Link, nodes: seq<Node>, nodes': seq<Node>)
    requires Healthy(env, l, nodes) && SameSpecs(nodes, nodes')
    ensures Healthy(env, l, nodes')
  {
    hide LinkInv, Reachable, ExchangesWork, Holds;
  }

  lemma {:induction false} HealthyPollFrom(env: Env, l: Link, nodes: seq<Node>, i: nat)
    requires Healthy(env, l, nodes) && l.connected && i <= |nodes|
    ensures var (l', nodes') := PollNodes(env, l, nodes, i);
      && Healthy(env, l', nodes) && SameSpecs(nodes, nodes') && l'.connected
      && l'.writeError == l.writeError && l'.readError == l.readError && |l'.wire.log| >= |l.wire.log|
    decreases |nodes| - i
  {
    hide PollNode, LinkInv;
    if i < |nodes| {
      var r := PollNode(env, l, nodes[i].spec);
      var nodes1 := WithOutcome(nodes, i, r.1);
      HealthyRead(env, l, nodes, i);
      hide Healthy;
      SameHealth(env, r.0, nodes, nodes1);
      HealthyPollFrom(env, r.0, nodes1, i + 1);
      SameHealth(env, PollNodes(env, r.0, nodes1, i + 1).0, nodes1, nodes);
    }
  }

  lemma HealthyRead(env: Env, l: Link, nodes: seq<Node>, i: nat)
    requires Healthy(env, l, nodes) && l.connected && i < |nodes|
    ensures var (l', outcome) := PollNode(env, l, nodes[i].spec);
      && outcome.Refreshed? && Healthy(env, l', nodes) && l'.connected
      && l'.writeError == l.writeError && l'.readError == l.readError && |l'.wire.log| >= |l.wire.log|
  {
    hide PollNode, LinkInv;
    var spec := nodes[i].spec;
    assert l.wire.plc + env.drift(|l.wire.log|) == l.wire.plc;
    PollNodeExactly(env, l, spec);
    PollNodeKeeps(env, l, spec);
    PollNodeKeepsCount(env, l, spec);
    PollNodeGrows(env, l, spec);
    OneRead(env, l, spec);
    assert Served(env, l.wire.plc, |l.wire.log|, spec);
    hide Equipped, Served;
  }

  // A tick over a healthy transport is clean and leaves it healthy.
  lemma HealthyTick(world: World, s: System)
    requires ClockRuns(world.modbus) && Healthy(world.modbus, s.link, s.nodes) && WellTyped(s.nodes)
    ensures var s' := Tick(world, s);
      CleanTick(world, s) && Healthy(world.modbus, s'.link, s'.nodes) && SameSpecs(s.nodes, s'.nodes)
  {
    hide Tick, DrainFrom, Poll, PollNodes, LinkInv, Equipped, Reachable;
    var env := world.modbus;
    var d := DrainFrom(env, s.link, s.nodes, 0);
    TickParts(world, s);
    HealthyDrain(env, s.link, s.nodes, 0);
    DrainClears(env, s.link, s.nodes, 0);
    SameHealth(env, d.0, s.nodes, d.1);
    var counted := d.0.(pollCount := d.0.pollCount + 1);
    assert Healthy(env, counted, d.1) by { CountingIsHealthy(env, d.0, d.1); }
    HealthyConnect(env, counted, d.1);
    PollExactly(env, d.0, d.1);
    HealthyPollFrom(env, Connect(env, counted).0, d.1, 0);
    SameHealth(env, Tick(world, s).link, d.1, Tick(world, s).nodes);
  }

  lemma CountingIsHealthy(env: Env, l: Link, nodes: seq<Node>)
    requires Healthy(env, l, nodes)
    ensures Healthy(env, l.(pollCount := l.pollCount + 1), nodes)
  {
    hide Equipped, Reachable, ExchangesWork;
  }

  // Every run over a healthy transport keeps it healthy, and so each of its ticks is clean.
  lemma {:induction false} HealthyRun(world: World, s: System, steps: seq<Step>)
    requires ClockRuns(world.modbus) && Healthy(world.modbus, s.link, s.nodes) && SystemInv(s)
    ensures var s' := Run(world, s, steps);
      Healthy(world.modbus, s'.link, s'.nodes)
  {
    hide Tick, Healthy, SystemInv, ClientWrite;
    if steps != [] {
      var n := |steps| - 1;
      var before := Run(world, s, steps[..n]);
      HealthyRun(world, s, steps[..n]);
      RunKeepsSystem(world, s, steps[..n]);
      match steps[n]
      case RunTick =>
        assert WellTyped(before.nodes) by { SystemIsTyped(before); }
        HealthyTick(world, before);
      case Write(i, payload) =>
        RejectedWriteChangesNothing(before, i, payload);
        SameHealth(world.modbus, before.link, before.nodes, ClientWrite(before, i, payload).0.nodes);
    }
  }

  lemma SystemIsTyped(s: System)
    requires SystemInv(s)
    ensures WellTyped(s.nodes) && LinkInv(s.link)
  {
  }

  // Over any run on a healthy transport, whatever clients write and however often: after the
  // next tick the last value accepted for a node is what its registers hold, and comes back
  // quantised.
  lemma HealthyLoop(world: World, s: System, steps: seq<Step>, i: nat)
    requires ClockRuns(world.modbus) && Healthy(world.modbus, s.link, s.nodes)
    requires WellTyped(s.nodes) && WritableDisjoint(s.nodes) && NothingPending(s.nodes)
    requires i < |s.nodes| && LastAccepted(Specs(s.nodes), steps, i).Some?
    ensures var after := Run(world, s, steps + [RunTick]);
      && i < |after.nodes|
      && after.nodes[i].value == Quantise(s.nodes[i].spec.scale, LastAccepted(Specs(s.nodes), steps, i).value)
  {
    HealthyRun(world, s, steps);
    RunKeepsSystem(world, s, steps);
    hide Run, Tick, CleanTick, LinkInv, WritableDisjoint, NothingPending, LastAccepted, Reachable, ExchangesWork;
    HealthyTick(world, Run(world, s, steps));
    ClosedLoopRun(world, s, steps, i);
  }
}
