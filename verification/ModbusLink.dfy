/**
 The Modbus link: connection with exponential backoff, polling and writeback.

 `Link` is the state of the link as a value, and the functions on it say what each
 operation does. `EdgeModbus` is the mutable link; each of its methods is proved to
 take `State()` where the function takes the value.
 */
module ModbusLink {
  import opened EdgeTypes
  import opened RegisterCodec
  import opened ModbusWire

  const BACKOFF_INITIAL_US: nat := 500_000
  const BACKOFF_MAX_US: nat := 30_000_000

  // One failed connection attempt: when it began and when it was noted as failed.
  datatype Attempt = Attempt(start: nat, end: nat)

  // streak holds the failed attempts since the last success.
  datatype Link = Link(
    enabled: bool, connected: bool, hasContext: bool,
    pollCount: nat, readOk: nat, readError: nat, writeOk: nat, writeError: nat,
    nextAttempt: nat, backoff: nat,
    wire: Wire, streak: seq<Attempt>)

  function InitialLink(enabled: bool, plc: Registers): Link {
    Link(enabled, false, false, 0, 0, 0, 0, 0, 0, 0, Wire(None, plc, 0, []), [])
  }

  // ---- Connect and disconnect -------------------------------------------

  function NextBackoff(backoff: nat): nat {
    var next := if backoff == 0 then BACKOFF_INITIAL_US else backoff * 2;
    if next > BACKOFF_MAX_US then BACKOFF_MAX_US else next
  }

  function Tock(l: Link): Link { l.(wire := l.wire.(clock := l.wire.clock + 1)) }

  function NoteConnectFailure(env: Env, l: Link, start: nat): Link {
    var next := NextBackoff(l.backoff);
    var failed := env.now(l.wire.clock);
    Tock(l).(backoff := next, nextAttempt := failed + next, streak := l.streak + [Attempt(start, failed)])
  }

  function Connect(env: Env, l: Link): (r: (Link, Status)) {
    if !l.enabled || l.connected then (l, Ok)
    else
      var clock := l.wire.clock;
      var start := env.now(clock);
      if l.nextAttempt != 0 && start < l.nextAttempt then (Tock(l), Error)
      else if !env.contextOk(clock) || !env.dialOk(clock) then (NoteConnectFailure(env, Tock(l), start), Error)
      else
        (Tock(l).(hasContext := true, connected := true, backoff := 0, nextAttempt := 0, streak := []), Ok)
  }

  function Disconnect(l: Link): Link {
    if !l.hasContext then l
    else l.(hasContext := false, connected := false, wire := l.wire.(selected := None))
  }

  // ---- Polling ----------------------------------------------------------

  predicate Mapped(spec: NodeSpec) { spec.register >= REGISTER_BASE }

  function Offset(spec: NodeSpec): nat
    requires Mapped(spec)
  {
    spec.register - REGISTER_BASE
  }

  // What polling one node comes to.
  datatype Outcome = Skipped | Refreshed(value: Value) | Dropped

  // The plain poll of one node: select its unit, then read.
  function PollNode(env: Env, l: Link, spec: NodeSpec): (r: (Link, Outcome)) {
    if !Mapped(spec) then (l, Skipped)
    else if !env.selectOk(spec.unit) then (l.(readError := l.readError + 1), Skipped)
    else
      var (wire, words) := Read(env, Select(env, l.wire, spec.unit), Offset(spec), Width(spec.dataType));
      if words.None? then (Disconnect(l.(wire := wire, readError := l.readError + 1)), Dropped)
      else (l.(wire := wire, readOk := l.readOk + 1), Refreshed(Decode(spec.dataType, spec.scale, words.value)))
  }

  function PollNodes(env: Env, l: Link, nodes: seq<Node>, i: nat): (r: (Link, seq<Node>))
    requires i <= |nodes|
    decreases |nodes| - i
  {
    if i == |nodes| then (l, nodes)
    else
      var (l', outcome) := PollNode(env, l, nodes[i].spec);
      match outcome
      case Skipped => PollNodes(env, l', nodes, i + 1)
      case Refreshed(value) => PollNodes(env, l', nodes[i := nodes[i].(value := value)], i + 1)
      case Dropped => (l', nodes)
  }

  function Poll(env: Env, l: Link, nodes: seq<Node>): (r: (Link, seq<Node>)) {
    var counted := l.(pollCount := l.pollCount + 1);
    if !counted.enabled then (counted, nodes)
    else
      var (linked, status) := Connect(env, counted);
      if status != Ok then (linked, nodes) else PollNodes(env, linked, nodes, 0)
  }

  // ---- Writeback --------------------------------------------------------

  function WriteNode(env: Env, l: Link, node: Node): (r: (Link, Status)) {
    if !l.enabled then (l, Ok)
    else if !node.spec.writable || !Mapped(node.spec) then (l, Invalid)
    else
      var (linked, status) := Connect(env, l);
      if status != Ok then (linked.(writeError := linked.writeError + 1), Error)
      else Transmit(env, linked, node.spec, Pack(node.spec.scale, node.value))
  }

  // Selects the unit and sends the words over an open link.
  function Transmit(env: Env, l: Link, spec: NodeSpec, words: seq<Word>): (r: (Link, Status))
    requires Mapped(spec)
  {
    if !env.selectOk(spec.unit) then (l.(writeError := l.writeError + 1), Error)
    else
      var (wire, sent) := Write(env, Select(env, l.wire, spec.unit), Offset(spec), words);
      if !sent then (Disconnect(l.(wire := wire, writeError := l.writeError + 1)), Error)
      else (l.(wire := wire, writeOk := l.writeOk + 1), Ok)
  }

  // ---- The mutable link -------------------------------------------------

  class EdgeModbus {
    var enabled: bool
    var connected: bool
    var hasContext: bool
    var pollCount: nat
    var readOk: nat
    var readError: nat
    var writeOk: nat
    var writeError: nat
    var nextAttempt: nat
    var backoff: nat
    var wire: Wire
    ghost var streak: seq<Attempt>

    ghost function State(): Link
      reads this
    {
      Link(enabled, connected, hasContext, pollCount, readOk, readError, writeOk, writeError,
           nextAttempt, backoff, wire, streak)
    }

    constructor (enabled: bool, plc: Registers)
      ensures State() == InitialLink(enabled, plc)
      ensures this.enabled == enabled && !connected && !hasContext && backoff == nextAttempt == 0
      ensures pollCount == readOk == readError == writeOk == writeError == 0
    {
      this.enabled := enabled;
      connected, hasContext := false, false;
      pollCount, readOk, readError, writeOk, writeError := 0, 0, 0, 0, 0;
      nextAttempt, backoff := 0, 0;
      wire := Wire(None, plc, 0, []);
      streak := [];
    }

    method NowUs(env: Env) returns (t: nat)
      modifies `wire
      ensures State() == Tock(old(State())) && t == env.now(old(wire.clock))
    {
      t := env.now(wire.clock);
      wire := wire.(clock := wire.clock + 1);
    }

    method NoteFailure(env: Env, ghost start: nat)
      modifies this
      ensures State() == NoteConnectFailure(env, old(State()), start)
    {
      var next := if backoff == 0 then BACKOFF_INITIAL_US else backoff * 2;
      if next > BACKOFF_MAX_US {
        next := BACKOFF_MAX_US;
      }
      backoff := next;
      var t := NowUs(env);
      nextAttempt := t + next;
      streak := streak + [Attempt(start, t)];
    }

    method ConnectLink(env: Env) returns (status: Status)
      modifies this
      ensures (State(), status) == Connect(env, old(State()))
    {
      if !enabled {
        return Ok;
      }
      if connected {
        return Ok;
      }
      var clock := wire.clock;
      var t := NowUs(env);
      if nextAttempt != 0 && t < nextAttempt {
        return Error;
      }
      if !env.contextOk(clock) {
        NoteFailure(env, t);
        return Error;
      }
      if !env.dialOk(clock) {
        NoteFailure(env, t);
        return Error;
      }
      hasContext := true;
      connected := true;
      backoff := 0;
      nextAttempt := 0;
      streak := [];
      return Ok;
    }

    method DisconnectLink()
      modifies this
      ensures State() == Disconnect(old(State()))
    {
      if !hasContext {
        return;
      }
      wire := wire.(selected := None);
      hasContext := false;
      connected := false;
    }

    method PollModel(env: Env, model: EdgeNodes) returns (status: Status)
      modifies this, model
      ensures (State(), model.nodes) == Poll(env, old(State()), old(model.nodes))
      ensures status == Ok
    {
      pollCount := pollCount + 1;
      if !enabled {
        return Ok;
      }
      if !connected {
        var linked := ConnectLink(env);
        if linked != Ok {
          return Ok;
        }
      }
      PollLoop(env, model);
      return Ok;
    }

    // Caches the selected unit across nodes, and is the plain poll all the same.
    method PollLoop(env: Env, model: EdgeNodes)
      modifies this, model
      ensures (State(), model.nodes) == PollNodes(env, old(State()), old(model.nodes), 0)
    {
      var currentUnit, unitSet := 0, false;
      var i := 0;
      while i < |model.nodes|
        invariant i <= |model.nodes|
        invariant unitSet ==> wire.selected == Some(currentUnit) && env.selectOk(currentUnit)
        invariant PollNodes(env, State(), model.nodes, i) == PollNodes(env, old(State()), old(model.nodes), 0)
      {
        var outcome;
        currentUnit, unitSet, outcome := PollCached(env, model.nodes[i].spec, currentUnit, unitSet);
        match outcome {
          case Skipped =>
          case Refreshed(value) => model.nodes := model.nodes[i := model.nodes[i].(value := value)];
          case Dropped => return;
        }
        i := i + 1;
      }
    }

    // One turn of the poll loop: select only when the cached unit differs.
    method PollCached(env: Env, spec: NodeSpec, cachedUnit: nat, cached: bool)
      returns (currentUnit: nat, unitSet: bool, outcome: Outcome)
      requires cached ==> wire.selected == Some(cachedUnit) && env.selectOk(cachedUnit)
      modifies this
      ensures (State(), outcome) == PollNode(env, old(State()), spec)
      ensures unitSet && !outcome.Dropped? ==> wire.selected == Some(currentUnit) && env.selectOk(currentUnit)
    {
      currentUnit, unitSet := cachedUnit, cached;
      if !Mapped(spec) {
        return currentUnit, unitSet, Skipped;
      }
      if !unitSet || currentUnit != spec.unit {
        wire := Select(env, wire, spec.unit);
        if !env.selectOk(spec.unit) {
          readError := readError + 1;
          return currentUnit, unitSet, Skipped;
        }
        currentUnit, unitSet := spec.unit, true;
      }
      var (wire', words) := Read(env, wire, Offset(spec), Width(spec.dataType));
      wire := wire';
      if words.None? {
        readError := readError + 1;
        DisconnectLink();
        return currentUnit, unitSet, Dropped;
      }
      readOk := readOk + 1;
      outcome := Refreshed(Decode(spec.dataType, spec.scale, words.value));
    }

    method WriteBack(env: Env, node: Node) returns (status: Status)
      modifies this
      ensures (State(), status) == WriteNode(env, old(State()), node)
    {
      if !enabled {
        return Ok;
      }
      if !node.spec.writable {
        return Invalid;
      }
      if !Mapped(node.spec) {
        return Invalid;
      }
      if !connected {
        var linked := ConnectLink(env);
        if linked != Ok {
          writeError := writeError + 1;
          return Error;
        }
      }
      status := Send(env, node.spec, Pack(node.spec.scale, node.value));
    }

    method Send(env: Env, spec: NodeSpec, words: seq<Word>) returns (status: Status)
      requires Mapped(spec)
      modifies this
      ensures (State(), status) == Transmit(env, old(State()), spec, words)
    {
      wire := Select(env, wire, spec.unit);
      if !env.selectOk(spec.unit) {
        writeError := writeError + 1;
        return Error;
      }
      var (wire', sent) := Write(env, wire, Offset(spec), words);
      wire := wire';
      if !sent {
        writeError := writeError + 1;
        DisconnectLink();
        return Error;
      }
      writeOk := writeOk + 1;
      return Ok;
    }
  }
}
