/**
 The simulator's own template loader, which reads only the node sections: each section is a
 dictionary, turned into a node when the section ends.
 */
module SimulatorTemplate {
  import opened EdgeTypes
  import opened TemplateText

  datatype ModbusNode = ModbusNode(
    asset: string, nodeId: string, name: string, dataType: string, access: string,
    unit: int, register: int, scale: Double)

  function SimOffset(n: ModbusNode): int { n.register - REGISTER_BASE }

  predicate SimWritable(n: ModbusNode) { n.access == "read_write" }

  function SimWidth(n: ModbusNode): nat { if n.dataType == "int32" || n.dataType == "uint32" then 2 else 1 }

  // The template's name for a data type.
  function TypeName(t: DataType): string {
    match t
    case Unset => ""
    case Bool => "bool"
    case Int16Type => "int16"
    case Int32Type => "int32"
    case UInt32Type => "uint32"
    case DoubleType => "double"
  }

  // What the end of a section yields: a node, nothing, or an exception.
  datatype Finished = Made(node: ModbusNode) | Skipped | Raised

  predicate HasRequiredKeys(raw: map<string, string>) {
    && "asset" in raw && "id" in raw && "name" in raw && "data_type" in raw && "access" in raw
    && "modbus_unit" in raw && "modbus_register" in raw && "scale" in raw
  }

  function FinishNode(lib: Libraries, raw: map<string, string>): Finished {
    if "source" !in raw || raw["source"] != "modbus" then Skipped
    else if !HasRequiredKeys(raw) then Raised
    else
      var unit := PyInt(lib, raw["modbus_unit"]);
      var register := PyInt(lib, raw["modbus_register"]);
      var scale := PyFloat(lib, raw["scale"]);
      if unit.None? || register.None? || unit.value <= 0 || register.value < REGISTER_BASE || scale.None? then Raised
      else
        Made(ModbusNode(raw["asset"], raw["id"], raw["name"], raw["data_type"], raw["access"],
                        unit.value, register.value, scale.value))
  }

  // The loader between lines; None once an exception has been raised.
  datatype Scanner = Scanner(section: string, current: map<string, string>, nodes: seq<ModbusNode>)

  function AddFinished(lib: Libraries, s: Scanner): Option<Scanner> {
    match FinishNode(lib, s.current)
    case Made(node) => Some(s.(current := map[], nodes := s.nodes + [node]))
    case Skipped => Some(s.(current := map[]))
    case Raised => None
  }

  function SimLine(lib: Libraries, s: Scanner, raw: string): Option<Scanner> {
    var line := Strip(raw);
    if line == "" || line[0] == '#' then Some(s)
    else if |line| >= 2 && line[0] == '[' && line[|line| - 1] == ']' then
      var closed := if s.section == "node" then AddFinished(lib, s) else Some(s);
      if closed.None? then None else Some(closed.value.(section := line[1..|line| - 1]))
    else if FirstEquals(line) == |line| then None
    else if s.section == "node" then
      Some(s.(current := s.current[SplitAt(line).key := SplitAt(line).value]))
    else Some(s)
  }

  function SimLines(lib: Libraries, lines: seq<string>): Option<Scanner> {
    if lines == [] then Some(Scanner("", map[], []))
    else
      var n := |lines| - 1;
      var before := SimLines(lib, lines[..n]);
      if before.None? then None else SimLine(lib, before.value, lines[n])
  }

  function SimNodes(lib: Libraries, lines: seq<string>): Option<seq<ModbusNode>> {
    var s := SimLines(lib, lines);
    if s.None? then None
    else if s.value.section != "node" then Some(s.value.nodes)
    else
      var closed := AddFinished(lib, s.value);
      if closed.None? then None else Some(closed.value.nodes)
  }

  lemma {:induction false} ExceptionStays(lib: Libraries, lines: seq<string>, n: nat)
    requires n <= |lines| && SimLines(lib, lines[..n]).None?
    ensures SimLines(lib, lines).None?
    decreases |lines| - n
  {
    if n == |lines| {
      assert lines[..n] == lines;
    } else {
      assert lines[..n + 1][..n] == lines[..n];
      ExceptionStays(lib, lines, n + 1);
    }
  }

  // A line that is not blank, a comment or a header and has no equals sign is an exception,
  // wherever it stands.
  lemma {:induction false} BadLineRaises(lib: Libraries, lines: seq<string>, i: nat)
    requires i < |lines|
    requires var line := Strip(lines[i]);
      line != "" && line[0] != '#' && '=' !in line && !(|line| >= 2 && line[0] == '[' && line[|line| - 1] == ']')
    ensures SimNodes(lib, lines) == None
  {
    assert lines[..i + 1][..i] == lines[..i];
    ExceptionStays(lib, lines, i + 1);
  }

  // A Modbus section that lacks a required key, or gives a unit or register out of range, is an
  // exception too; a section of any other source is skipped.
  lemma SectionRaises(lib: Libraries, raw: map<string, string>)
    ensures "source" in raw && raw["source"] == "modbus" &&
      !({"asset", "id", "name", "data_type", "access", "modbus_unit", "modbus_register", "scale"} <= raw.Keys)
      ==> FinishNode(lib, raw) == Raised
    ensures "source" !in raw || raw["source"] != "modbus" ==> FinishNode(lib, raw) == Skipped
    ensures FinishNode(lib, raw).Made? ==>
      FinishNode(lib, raw).node.unit >= 1 && FinishNode(lib, raw).node.register >= 40001
  {
  }

  lemma NoLines(lib: Libraries, lines: seq<string>)
    ensures SimLines(lib, lines[..0]) == Some(Scanner("", map[], []))
  {
    assert lines[..0] == [];
  }

  lemma NextLine(lib: Libraries, lines: seq<string>, i: nat)
    requires i < |lines|
    ensures var before := SimLines(lib, lines[..i]);
      SimLines(lib, lines[..i + 1]) == if before.None? then None else SimLine(lib, before.value, lines[i])
  {
    hide SimLine;
    assert lines[..i + 1][..i] == lines[..i];
  }

  // The loader's loop; None stands for an exception.
  method LoadModbusNodes(lib: Libraries, lines: seq<string>) returns (result: Option<seq<ModbusNode>>)
    ensures result == SimNodes(lib, lines)
  {
    var section := "";
    var current: map<string, string> := map[];
    var nodes: seq<ModbusNode> := [];
    NoLines(lib, lines);
    hide SimLines, FinishNode, Strip, FirstEquals, SplitAt;
    for i := 0 to |lines|
      invariant SimLines(lib, lines[..i]) == Some(Scanner(section, current, nodes))
    {
      NextLine(lib, lines, i);
      var line := Strip(lines[i]);
      if line == "" || line[0] == '#' {
        continue;
      }
      if |line| >= 2 && line[0] == '[' && line[|line| - 1] == ']' {
        if section == "node" {
          var finished := FinishNode(lib, current);
          if finished.Raised? {
            ExceptionStays(lib, lines, i + 1);
            return None;
          }
          if finished.Made? {
            nodes := nodes + [finished.node];
          }
          current := map[];
        }
        section := line[1..|line| - 1];
        continue;
      }
      if FirstEquals(line) == |line| {
        ExceptionStays(lib, lines, i + 1);
        return None;
      }
      if section == "node" {
        current := current[SplitAt(line).key := SplitAt(line).value];
      }
    }
    assert lines[..|lines|] == lines;
    if section == "node" {
      var finished := FinishNode(lib, current);
      if finished.Raised? {
        return None;
      }
      if finished.Made? {
        nodes := nodes + [finished.node];
      }
    }
    return Some(nodes);
  }
}
