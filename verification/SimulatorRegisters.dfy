/**
 The simulator's register table: words written by the runtime are recorded one by one and
 served back for writable nodes; every other register gets a generated raw value, given
 here as an oracle. Its encoder for doubles is a second, independent one.
 */
module SimulatorRegisters {
  import opened EdgeTypes
  import opened EdgeValue
  import opened RegisterCodec
  import opened SimulatorTemplate

  // ---- The second double encoder ----------------------------------------

  // Rounds half to even.
  function RoundHalfEven(r: real): int {
    var f := r.Floor;
    var part := r - f as real;
    if part < 0.5 then f else if part > 0.5 then f + 1 else if f % 2 == 0 then f else f + 1
  }

  function Clamp16(x: int): int { if x < -32768 then -32768 else if x > 32767 then 32767 else x }

  function EncodeDouble(scale: real, x: real): Word {
    ToWord(Clamp16(RoundHalfEven(Quotient(scale, x))))
  }

  predicate IsHalf(q: real) { q - q.Floor as real == 0.5 }

  lemma RoundingsCompared(q: real)
    ensures RoundHalfEven(q) == RoundHalfAway(q) <==> !(IsHalf(q) && RoundHalfAway(q) % 2 == 1)
    ensures RoundHalfEven(q) != RoundHalfAway(q) ==>
      RoundHalfEven(q) == RoundHalfAway(q) + 1 || RoundHalfEven(q) == RoundHalfAway(q) - 1
    ensures Abs(RoundHalfEven(q) as real - q) <= 0.5
    ensures -32768.5 < q < 32767.5 ==> -32768 <= RoundHalfEven(q) <= 32767
  {
    if q < 0.0 {
      var n := RoundHalfAway(q);
      assert -n == (-q + 0.5).Floor;
    }
  }

  // In range, the two encoders give the same word except where the quotient is an exact half
  // that the runtime rounds to an odd number; there the signed words differ by one. Both
  // words decode to within half a scale step.
  lemma EncodersAgree(scale: real, x: real)
    requires InRange(scale, x)
    ensures var q := Quotient(scale, x);
      var mine, other := PackDouble(Finite(scale), Finite(x)), EncodeDouble(scale, x);
      && (mine == other <==> !(IsHalf(q) && RoundHalfAway(q) % 2 == 1))
      && -1 <= SignedWord(mine) - SignedWord(other) <= 1
      && Abs(Steps(SignedWord(mine), scale) - x) <= Abs(StepOf(scale)) / 2.0
      && Abs(Steps(SignedWord(other), scale) - x) <= Abs(StepOf(scale)) / 2.0
  {
    hide RoundHalfEven, RoundHalfAway, Quotient, Steps, EncodeDouble, PackDouble;
    var q := Quotient(scale, x);
    WordsCompared(scale, x);
    RoundNearest(q);
    RoundingsCompared(q);
    WithinHalfStep(scale, x, RoundHalfAway(q));
    WithinHalfStep(scale, x, RoundHalfEven(q));
  }

  // Out of range, the simulator's encoder stays at the end of the range.
  lemma EncoderClamps(scale: real, x: real)
    ensures Quotient(scale, x) >= 32767.5 ==> EncodeDouble(scale, x) == 32767
    ensures Quotient(scale, x) <= -32768.5 ==> EncodeDouble(scale, x) == 32768
  {
    hide Quotient;
  }

  // In range, each word read as signed is the rounding it came from.
  lemma WordsCompared(scale: real, x: real)
    requires InRange(scale, x)
    ensures SignedWord(PackDouble(Finite(scale), Finite(x))) == RoundHalfAway(Quotient(scale, x))
    ensures SignedWord(EncodeDouble(scale, x)) == RoundHalfEven(Quotient(scale, x))
  {
    PackRounds(scale, x);
    RoundingsCompared(Quotient(scale, x));
    hide RoundHalfEven, RoundHalfAway, Quotient, PackDouble;
  }

  // ---- The register table -----------------------------------------------

  datatype RegisterValue = RegisterValue(node: ModbusNode, offset: int, value: int)

  type Written = map<(int, int), int>

  // The generated raw value of a node at some tick under some profile.
  type RawSource = ModbusNode -> int

  function Low16(x: int): Word { x % 0x1_0000 }

  function NoteOne(written: Written, unit: int, offset: int, value: int): Written {
    written[(unit, offset) := Low16(value)]
  }

  function WrittenAt(written: Written, key: (int, int)): int { if key in written then written[key] else 0 }

  function NodeWritten(written: Written, node: ModbusNode): Option<int> {
    var key := (node.unit, SimOffset(node));
    if !SimWritable(node) || key !in written then None
    else if SimWidth(node) == 1 then Some(written[key])
    else
      Some(Low16(written[key]) * 0x1_0000 + Low16(WrittenAt(written, (node.unit, SimOffset(node) + 1))))
  }

  function RegistersForRaw(node: ModbusNode, raw: int): seq<(int, int)> {
    if SimWidth(node) == 1 then [(SimOffset(node), Low16(raw))]
    else [(SimOffset(node), Low16(raw / 0x1_0000)), (SimOffset(node) + 1, Low16(raw))]
  }

  // The registers served for one node.
  function Served(written: Written, node: ModbusNode, source: RawSource): seq<(int, int)> {
    var kept := NodeWritten(written, node);
    RegistersForRaw(node, if kept.Some? then kept.value else source(node))
  }

  function Entries(node: ModbusNode, registers: seq<(int, int)>): (r: seq<RegisterValue>)
    ensures |r| == |registers|
  {
    seq(|registers|, k requires 0 <= k < |registers| => RegisterValue(node, registers[k].0, registers[k].1))
  }

  // The registers served for the nodes of a unit, in node order.
  function UnitValues(written: Written, nodes: seq<ModbusNode>, source: RawSource): seq<RegisterValue> {
    if nodes == [] then []
    else
      var n := |nodes| - 1;
      UnitValues(written, nodes[..n], source) + Entries(nodes[n], Served(written, nodes[n], source))
  }

  function InUnit(nodes: seq<ModbusNode>, unit: int): seq<ModbusNode> {
    if nodes == [] then []
    else
      var n := |nodes| - 1;
      InUnit(nodes[..n], unit) + (if nodes[n].unit == unit then [nodes[n]] else [])
  }

  // units holds, for each unit that occurs, its nodes in template order.
  ghost predicate Grouped(nodes: seq<ModbusNode>, units: map<int, seq<ModbusNode>>) {
    forall u :: if InUnit(nodes, u) == [] then u !in units else u in units && units[u] == InUnit(nodes, u)
  }

  class PlantRegisters {
    const nodes: seq<ModbusNode>
    var units: map<int, seq<ModbusNode>>
    var order: seq<int>  // the units in the order of their first nodes
    var written: Written

    ghost predicate Valid()
      reads this
    {
      Grouped(nodes, units) && forall u :: u in units <==> u in order
    }

    constructor (nodes: seq<ModbusNode>)
      ensures Valid() && this.nodes == nodes && written == map[]
    {
      this.nodes := nodes;
      written := map[];
      units, order := map[], [];
      new;
      assert nodes[..0] == [];
      for i := 0 to |nodes|
        invariant Grouped(nodes[..i], units) && this.nodes == nodes && written == map[]
        invariant forall u :: u in units <==> u in order
      {
        assert nodes[..i + 1][..i] == nodes[..i];
        var u := nodes[i].unit;
        if u !in units {
          order := order + [u];
        }
        units := units[u := (if u in units then units[u] else []) + [nodes[i]]];
      }
      assert nodes[..|nodes|] == nodes;
    }

    method NoteWrite(unit: int, offset: int, value: int)
      requires Valid()
      modifies `written
      ensures Valid() && written == NoteOne(old(written), unit, offset, value)
    {
      written := written[(unit, offset) := Low16(value)];
    }

    method Values(source: RawSource) returns (result: map<int, seq<RegisterValue>>)
      requires Valid()
      ensures forall u :: u in result <==> u in units
      ensures forall u :: u in result ==> result[u] == UnitValues(written, InUnit(nodes, u), source)
    {
      result := map[];
      for i := 0 to |order|
        invariant forall u :: u in result <==> u in order[..i]
        invariant forall u :: u in result ==> result[u] == UnitValues(written, InUnit(nodes, u), source)
      {
        assert order[i] in order;
        var values := ValuesOfUnit(order[i], source);
        result := result[order[i] := values];
      }
      assert order[..|order|] == order;
    }

    method ValuesOfUnit(u: int, source: RawSource) returns (values: seq<RegisterValue>)
      requires Valid() && u in units
      ensures values == UnitValues(written, InUnit(nodes, u), source)
    {
      values := [];
      assert units[u][..0] == [];
      for i := 0 to |units[u]|
        invariant values == UnitValues(written, units[u][..i], source)
      {
        assert units[u][..i + 1][..i] == units[u][..i];
        var node := units[u][i];
        var raw := NodeWritten(written, node);
        var registers := RegistersForRaw(node, if raw.Some? then raw.value else source(node));
        values := values + Entries(node, registers);
      }
      assert units[u][..|units[u]|] == units[u];
    }

    method MaxOffsetByUnit() returns (result: map<int, int>)
      requires Valid()
      ensures forall u :: u in result <==> u in units
      ensures forall u :: u in result ==> IsMaxOffset(InUnit(nodes, u), result[u])
    {
      result := map[];
      for i := 0 to |order|
        invariant forall u :: u in result <==> u in order[..i]
        invariant forall u :: u in result ==> IsMaxOffset(InUnit(nodes, u), result[u])
      {
        assert order[i] in order;
        var best := MaxOffset(order[i]);
        result := result[order[i] := best];
      }
      assert order[..|order|] == order;
    }

    method MaxOffset(u: int) returns (best: int)
      requires Valid() && u in units
      ensures IsMaxOffset(InUnit(nodes, u), best)
    {
      assert units[u] == InUnit(nodes, u) != [];
      best := LastOffset(units[u][0]);
      for i := 1 to |units[u]|
        invariant exists k :: 0 <= k < i && LastOffset(units[u][k]) == best
        invariant forall k :: 0 <= k < i ==> LastOffset(units[u][k]) <= best
      {
        if LastOffset(units[u][i]) > best {
          best := LastOffset(units[u][i]);
        }
      }
    }
  }

  function LastOffset(node: ModbusNode): int { SimOffset(node) + SimWidth(node) - 1 }

  ghost predicate IsMaxOffset(nodes: seq<ModbusNode>, best: int) {
    && (exists k :: 0 <= k < |nodes| && LastOffset(nodes[k]) == best)
    && (forall k :: 0 <= k < |nodes| ==> LastOffset(nodes[k]) <= best)
  }

  // ---- What is served ---------------------------------------------------

  // Every served word fits 16 bits, at an offset the unit's block has room for.
  lemma {:induction false} ServedInBlock(written: Written, nodes: seq<ModbusNode>, source: RawSource, best: int)
    requires forall k :: 0 <= k < |nodes| ==> LastOffset(nodes[k]) <= best
    ensures forall r :: r in UnitValues(written, nodes, source) ==> 0 <= r.value < 0x1_0000 && r.offset <= best
  {
    if nodes != [] {
      var n := |nodes| - 1;
      ServedInBlock(written, nodes[..n], source, best);
      var registers := Served(written, nodes[n], source);
      assert forall k :: 0 <= k < |registers| ==> 0 <= registers[k].1 < 0x1_0000 && registers[k].0 <= best;
      hide Served;
    }
  }

  // A later write: unit, offset, value.
  datatype Note = Note(unit: int, offset: int, value: int)

  function NoteAll(written: Written, notes: seq<Note>): Written {
    if notes == [] then written
    else
      var last := notes[|notes| - 1];
      NoteOne(NoteAll(written, notes[..|notes| - 1]), last.unit, last.offset, last.value)
  }

  // The writes that record the packed words of a value, one per register.
  function WordNotes(node: ModbusNode, words: seq<Word>): (r: seq<Note>)
    ensures |r| == |words|
  {
    seq(|words|, k requires 0 <= k < |words| => Note(node.unit, SimOffset(node) + k, words[k]))
  }

  lemma {:induction false} NotesElsewhere(written: Written, notes: seq<Note>, key: (int, int))
    requires forall k :: 0 <= k < |notes| ==> (notes[k].unit, notes[k].offset) != key
    ensures key in NoteAll(written, notes) <==> key in written
    ensures key in written ==> NoteAll(written, notes)[key] == written[key]
  {
    if notes != [] { NotesElsewhere(written, notes[..|notes| - 1], key); }
  }

  predicate HasType(node: ModbusNode, t: DataType) { t != Unset && node.dataType == TypeName(t) }

  // No write touches the registers of the node.
  ghost predicate Spares(notes: seq<Note>, node: ModbusNode) {
    forall k :: 0 <= k < |notes| ==>
      notes[k].unit != node.unit || notes[k].offset < SimOffset(node) || notes[k].offset > LastOffset(node)
  }

  lemma WidthsAgree(node: ModbusNode, t: DataType)
    requires HasType(node, t)
    ensures SimWidth(node) == Width(t)
  {
  }

  // A value of any type, packed by the runtime and recorded word by word for a writable
  // node, with no later write to its registers, is served back as the packed words, at any
  // later tick and under any profile.
  lemma WrittenWordsServed(
    written: Written, node: ModbusNode, scale: Double, v: Value, later: seq<Note>, source: RawSource)
    requires SimWritable(node) && HasType(node, TypeOf(v))
    requires Spares(later, node)
    ensures var words := Pack(scale, v);
      var kept := NoteAll(NoteAll(written, WordNotes(node, words)), later);
      && |words| == SimWidth(node)
      && Served(kept, node, source) == seq(|words|, k requires 0 <= k < |words| => (SimOffset(node) + k, words[k]))
  {
    var words := Pack(scale, v);
    var noted := NoteAll(written, WordNotes(node, words));
    var kept := NoteAll(noted, later);
    WidthsAgree(node, TypeOf(v));
    hide HasType, SimWidth, Pack;
    WordsNoted(written, node, words);
    KeptWords(noted, later, node, words);
    ServesKept(kept, node, words, source);
  }

  lemma KeptWords(noted: Written, later: seq<Note>, node: ModbusNode, words: seq<Word>)
    requires |words| == SimWidth(node) && Spares(later, node) && Holding(noted, node, words)
    ensures Holding(NoteAll(noted, later), node, words)
  {
    forall k | 0 <= k < |words|
      ensures HoldsWord(NoteAll(noted, later), node, k, words[k])
    {
      assert HoldsWord(noted, node, k, words[k]);
      NotesElsewhere(noted, later, (node.unit, SimOffset(node) + k));
    }
  }

  // What a node serves: the generated raw value, unless the node is writable and its first
  // register was written; then the written words, an unwritten second one being 0. A 32-bit
  // value takes two registers, high word first.
  lemma ServedExactly(written: Written, node: ModbusNode, source: RawSource)
    ensures var at, low := (node.unit, node.register - 40001), (node.unit, node.register - 40000);
      var wide := node.dataType == "int32" || node.dataType == "uint32";
      var raw := source(node);
      if node.access == "read_write" && at in written then
        Served(written, node, source) ==
          if wide then [(at.1, written[at] % 65536), (low.1, (if low in written then written[low] else 0) % 65536)]
          else [(at.1, written[at] % 65536)]
      else
        Served(written, node, source) ==
          if wide then [(at.1, raw / 65536 % 65536), (low.1, raw % 65536)] else [(at.1, raw % 65536)]
  {
  }

  predicate HoldsWord(written: Written, node: ModbusNode, k: int, w: Word) {
    var key := (node.unit, SimOffset(node) + k);
    key in written && written[key] == w
  }

  // The table holds these words at the node's registers.
  ghost predicate Holding(written: Written, node: ModbusNode, words: seq<Word>) {
    forall k :: 0 <= k < |words| ==> HoldsWord(written, node, k, words[k])
  }

  lemma ServesKept(kept: Written, node: ModbusNode, words: seq<Word>, source: RawSource)
    requires SimWritable(node) && |words| == SimWidth(node) && Holding(kept, node, words)
    ensures Served(kept, node, source) == seq(|words|, k requires 0 <= k < |words| => (SimOffset(node) + k, words[k]))
  {
    hide Served, SimWritable;
    if SimWidth(node) == 2 {
      ServesTwo(kept, node, words[0], words[1], source);
    } else {
      ServesOne(kept, node, words[0], source);
    }
  }

  lemma ServesOne(kept: Written, node: ModbusNode, w: Word, source: RawSource)
    requires SimWritable(node) && SimWidth(node) == 1 && HoldsWord(kept, node, 0, w)
    ensures Served(kept, node, source) == [(SimOffset(node), w as int)]
  {
    hide SimWidth, SimWritable;
  }

  lemma ServesTwo(kept: Written, node: ModbusNode, high: Word, low: Word, source: RawSource)
    requires SimWritable(node) && SimWidth(node) == 2 && HoldsWord(kept, node, 0, high) && HoldsWord(kept, node, 1, low)
    ensures Served(kept, node, source) == [(SimOffset(node), high as int), (SimOffset(node) + 1, low as int)]
  {
    hide SimWidth, SimWritable;
    JoinSplit(high, low);
    assert NodeWritten(kept, node) == Some(Join(high, low));
  }

  lemma WordsNoted(written: Written, node: ModbusNode, words: seq<Word>)
    requires 1 <= |words| <= 2
    ensures Holding(NoteAll(written, WordNotes(node, words)), node, words)
  {
    var notes := WordNotes(node, words);
    assert NoteAll(written, notes[..|notes| - 1][..0]) == written;
    if |words| == 2 {
      assert notes[..1] == [notes[0]] && notes[..1][..0] == [];
    } else {
      assert notes[..0] == [];
    }
  }

  // The words served to the runtime.
  function ServedWords(registers: seq<(int, int)>): (ws: seq<Word>)
    ensures |ws| == |registers|
  {
    seq(|registers|, k requires 0 <= k < |registers| => Low16(registers[k].1))
  }

  // Integers survive the whole path: packed, recorded, served and decoded, the value is the
  // one the client wrote. A double comes back quantised.
  lemma WholePath(written: Written, node: ModbusNode, scale: Double, v: Value, later: seq<Note>, source: RawSource)
    requires SimWritable(node) && HasType(node, TypeOf(v))
    requires Spares(later, node)
    ensures var kept := NoteAll(NoteAll(written, WordNotes(node, Pack(scale, v))), later);
      var words := ServedWords(Served(kept, node, source));
      && |words| == Width(TypeOf(v))
      && Decode(TypeOf(v), scale, words) == Quantise(scale, v)
      && (!v.DoubleV? ==> Decode(TypeOf(v), scale, words) == v)
  {
    WrittenWordsServed(written, node, scale, v, later, source);
    if !v.DoubleV? { IntegerRoundTrip(scale, v); }
    hide HasType, SimWidth, Pack, Decode, NoteAll, Served, WordNotes, SimOffset, Spares;
    var kept := NoteAll(NoteAll(written, WordNotes(node, Pack(scale, v))), later);
    WordsOfRegisters(Served(kept, node, source), SimOffset(node), Pack(scale, v));
  }

  lemma WordsOfRegisters(registers: seq<(int, int)>, offset: int, words: seq<Word>)
    requires registers == seq(|words|, k requires 0 <= k < |words| => (offset + k, words[k]))
    ensures ServedWords(registers) == words
  {
  }

  // The entries of a node appear among its unit's values.
  lemma {:induction false} NodeIsServed(
    written: Written, nodes: seq<ModbusNode>, source: RawSource, i: nat)
    returns (at: nat)
    requires i < |nodes|
    ensures var all := UnitValues(written, nodes, source);
      var mine := Entries(nodes[i], Served(written, nodes[i], source));
      at + |mine| <= |all| && all[at..at + |mine|] == mine
  {
    hide Served, Entries;
    var n := |nodes| - 1;
    var mine := Entries(nodes[i], Served(written, nodes[i], source));
    var before := UnitValues(written, nodes[..n], source);
    if i == n {
      at := |before|;
      assert UnitValues(written, nodes, source) == before + mine;
    } else {
      at := NodeIsServed(written, nodes[..n], source, i);
      assert UnitValues(written, nodes, source)[at..at + |mine|] == before[at..at + |mine|];
    }
  }

  // And nothing else is served: every entry of a unit is one of its nodes' own.
  lemma {:induction false} OnlyNodesServed(
    written: Written, nodes: seq<ModbusNode>, source: RawSource, k: nat)
    returns (i: nat)
    requires k < |UnitValues(written, nodes, source)|
    ensures i < |nodes|
    ensures UnitValues(written, nodes, source)[k] in Entries(nodes[i], Served(written, nodes[i], source))
  {
    hide Served, Entries;
    var n := |nodes| - 1;
    var before := UnitValues(written, nodes[..n], source);
    if k < |before| {
      i := OnlyNodesServed(written, nodes[..n], source, k);
    } else {
      i := n;
    }
  }

  // Raw values that the simulator generates itself reach the runtime unchanged, its
  // high-word-first layout being the runtime's.
  lemma GeneratedDecodes(node: ModbusNode, scale: Double, raw: int)
    requires SimWidth(node) == 2
    ensures var words := ServedWords(RegistersForRaw(node, raw));
      && |words| == 2
      && Decode(UInt32Type, scale, words) == UInt32V(ToUInt32(raw))
      && Decode(Int32Type, scale, words) == Int32V(ToInt32(raw))
  {
    hide SimWidth, SimOffset, Low16, Join;
    HalvesOf(raw);
    var words := ServedWords(RegistersForRaw(node, raw));
    assert words == [Low16(raw / 0x1_0000), Low16(raw)] by { LowTwice(raw); LowTwice(raw / 0x1_0000); }
    UnsignedTwice(raw);
  }

  lemma LowTwice(x: int)
    ensures Low16(Low16(x)) == Low16(x)
  {
  }

  lemma UnsignedTwice(x: int)
    ensures ToInt32(ToUInt32(x)) == ToInt32(x)
  {
  }

  lemma HalvesOf(raw: int)
    ensures Join(Low16(raw / 0x1_0000), Low16(raw)) == ToUInt32(raw)
  {
  }
}
