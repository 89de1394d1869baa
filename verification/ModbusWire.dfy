/**
 The far side of the Modbus client library: a PLC as a map from (unit, offset) to a
 16-bit word, reached through calls that may fail at any time.

 The environment is an oracle. Register exchanges are numbered by the log, and before
 exchange k the plant may overwrite any words (drift(k)); so a lost reply and a
 register that moves on its own are both covered. Selecting a unit does no I/O: whether
 it succeeds depends on the unit alone, and a failed selection keeps the old one.
 */
module ModbusWire {
  import opened EdgeTypes

  datatype Addr = Addr(unit: nat, offset: nat)

  type Registers = map<Addr, Word>

  datatype Env = Env(
    selectOk: nat -> bool,
    contextOk: nat -> bool,
    dialOk: nat -> bool,
    exchangeOk: nat -> bool,
    drift: nat -> Registers,
    now: nat -> nat)

  // The monotonic clock.
  ghost predicate ClockRuns(env: Env) {
    forall i: nat, j: nat :: i <= j ==> env.now(i) <= env.now(j)
  }

  datatype Exchange =
    | ReadRegisters(unit: nat, offset: nat, width: nat)
    | WriteRegisters(unit: nat, offset: nat, words: seq<Word>)

  // clock counts readings of the clock; the log numbers the register exchanges.
  datatype Wire = Wire(selected: Option<nat>, plc: Registers, clock: nat, log: seq<Exchange>)

  function At(unit: nat, offset: nat, k: nat): Addr { Addr(unit, offset + k) }

  predicate Holds(plc: Registers, unit: nat, offset: nat, width: nat) {
    forall k :: 0 <= k < width ==> At(unit, offset, k) in plc
  }

  function WordsAt(plc: Registers, unit: nat, offset: nat, width: nat): (ws: seq<Word>)
    requires Holds(plc, unit, offset, width)
    ensures |ws| == width
  {
    seq(width, k requires 0 <= k < width => plc[At(unit, offset, k)])
  }

  predicate InFootprint(a: Addr, unit: nat, offset: nat, width: nat) {
    a.unit == unit && offset <= a.offset < offset + width
  }

  function Stored(plc: Registers, unit: nat, offset: nat, words: seq<Word>): (r: Registers)
    ensures Holds(r, unit, offset, |words|) && WordsAt(r, unit, offset, |words|) == words
    ensures forall a :: !InFootprint(a, unit, offset, |words|) ==> (a in r <==> a in plc) && (a in r ==> r[a] == plc[a])
  {
    if words == [] then plc
    else
      var n := |words| - 1;
      var shorter := Stored(plc, unit, offset, words[..n]);
      assert WordsAt(shorter, unit, offset, n) == words[..n];
      shorter[At(unit, offset, n) := words[n]]
  }

  function Select(env: Env, w: Wire, unit: nat): Wire {
    if env.selectOk(unit) then w.(selected := Some(unit)) else w
  }

  function Read(env: Env, w: Wire, offset: nat, width: nat): (r: (Wire, Option<seq<Word>>))
    requires w.selected.Some?
    ensures r.1.Some? ==> |r.1.value| == width
    ensures r.0.selected == w.selected && r.0.clock == w.clock
  {
    var unit := w.selected.value;
    var plc := w.plc + env.drift(|w.log|);
    var w' := w.(plc := plc, log := w.log + [ReadRegisters(unit, offset, width)]);
    if env.exchangeOk(|w.log|) && Holds(plc, unit, offset, width)
    then (w', Some(WordsAt(plc, unit, offset, width)))
    else (w', None)
  }

  function Write(env: Env, w: Wire, offset: nat, words: seq<Word>): (r: (Wire, bool))
    requires w.selected.Some?
    ensures r.0.selected == w.selected && r.0.clock == w.clock
  {
    var unit := w.selected.value;
    var plc := w.plc + env.drift(|w.log|);
    var w' := w.(log := w.log + [WriteRegisters(unit, offset, words)]);
    if env.exchangeOk(|w.log|) && Holds(plc, unit, offset, |words|)
    then (w'.(plc := Stored(plc, unit, offset, words)), true)
    else (w'.(plc := plc), false)
  }
}
