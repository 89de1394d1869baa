/**
 The two loaders agree. Both read the same lines; the simulator's nodes are shown to come
 from the sections of the template too, and the nodes of the two loaders are compared.
 */
module LoaderAgreement {
  import opened EdgeTypes
  import opened TemplateText
  import opened TemplateLoader
  import opened TemplateValidation
  import opened TemplateSections
  import opened TemplateMeaning
  import Sim = SimulatorTemplate

  // ---- The lines as Python reads them -----------------------------------

  // Python's text reader ends a line at every carriage return as well.
  function SplitReturns(line: string): (pieces: seq<string>)
    ensures pieces != []
  {
    if line == "" then [""]
    else
      var n := |line| - 1;
      var pieces := SplitReturns(line[..n]);
      if line[n] == '\r' then pieces + [""] else pieces[|pieces| - 1 := pieces[|pieces| - 1] + [line[n]]]
  }

  function PyLines(lines: seq<string>): seq<string> {
    if lines == [] then []
    else PyLines(lines[..|lines| - 1]) + SplitReturns(lines[|lines| - 1])
  }

  // A line, without line feeds, whose carriage returns are all at its end.
  predicate ReturnsAtEnd(line: string) { '\n' !in line && '\r' !in TrimNewline(line) }

  lemma {:induction false} NoReturns(line: string)
    requires '\r' !in line
    ensures SplitReturns(line) == [line]
  {
    if line != "" {
      NoReturns(line[..|line| - 1]);
      assert line == line[..|line| - 1] + [line[|line| - 1]];
    }
  }

  function SimStep(lib: Libraries, s: Option<Sim.Scanner>, line: string): Option<Sim.Scanner> {
    if s.None? then None else Sim.SimLine(lib, s.value, line)
  }

  lemma SimOneMore(lib: Libraries, lines: seq<string>, line: string)
    ensures Sim.SimLines(lib, lines + [line]) == SimStep(lib, Sim.SimLines(lib, lines), line)
  {
    assert (lines + [line])[..|lines|] == lines;
  }

  // The simulator skips the blank lines that such carriage returns make.
  lemma {:induction false} SimSkipsReturns(lib: Libraries, lines: seq<string>, line: string)
    requires ReturnsAtEnd(line)
    ensures Sim.SimLines(lib, lines + SplitReturns(line)) == SimStep(lib, Sim.SimLines(lib, lines), TrimNewline(line))
  {
    var n := |line| - 1;
    if line != "" && line[n] == '\r' {
      SimSkipsReturns(lib, lines, line[..n]);
      var pieces := SplitReturns(line[..n]);
      SimOneMore(lib, lines + pieces, "");
      assert lines + pieces + [""] == lines + SplitReturns(line);
    } else {
      assert TrimNewline(line) == line;
      NoReturns(line);
      SimOneMore(lib, lines, line);
    }
  }

  // ---- Trailing blanks --------------------------------------------------

  predicate Tight(s: string) { s == "" || !IsSpace(s[|s| - 1]) }

  lemma {:induction false} StripRightIsTight(s: string)
    ensures StripRight(s) == s <==> Tight(s)
    ensures |StripRight(s)| <= |s|
  {
    if !Tight(s) { StripRightIsTight(s[..|s| - 1]); }
  }

  lemma {:induction false} StripRightAfter(a: string, b: string)
    requires a != "" && !IsSpace(a[|a| - 1])
    ensures StripRight(a + b) == a + StripRight(b)
  {
    if b == "" {
      assert a + b == a;
    } else {
      assert (a + b)[..|a + b| - 1] == a + b[..|b| - 1];
      if IsSpace(b[|b| - 1]) { StripRightAfter(a, b[..|b| - 1]); }
    }
  }

  // The simulator drops trailing blanks from every value.
  function Stripped(kvs: seq<KeyValue>): seq<KeyValue> {
    if kvs == [] then []
    else
      var n := |kvs| - 1;
      Stripped(kvs[..n]) + [KeyValue(kvs[n].key, StripRight(kvs[n].value))]
  }

  lemma {:induction false} StrippedValues(kvs: seq<KeyValue>)
    ensures var m, m' := Dictionary(kvs), Dictionary(Stripped(kvs));
      m'.Keys == m.Keys && forall key :: key in m ==> m'[key] == StripRight(m[key])
  {
    if kvs != [] {
      var n := |kvs| - 1;
      StrippedValues(kvs[..n]);
      DictionaryGrows(Stripped(kvs[..n]), KeyValue(kvs[n].key, StripRight(kvs[n].value)));
      hide StripRight;
    }
  }

  // ---- One line of the simulator ----------------------------------------

  // A key that some section knows.
  predicate KnownKey(key: string) {
    || key == "id" || key == "name" || key == "type" || key == "parent" || key == "asset" || key == "data_type"
    || key == "access" || key == "source" || key == "modbus_unit" || key == "modbus_register" || key == "scale"
    || key == "source_node" || key == "condition" || key == "threshold" || key == "severity"
  }

  lemma PairHasKnownKey(lib: Libraries, kind: Section, kv: KeyValue)
    requires PairOk(lib, kind, kv)
    ensures KnownKey(kv.key)
  {
  }

  lemma KnownKeyStart(key: string)
    requires KnownKey(key)
    ensures key != "" && !IsSpace(key[0]) && key[0] != '#' && key[0] != '['
  {
  }

  // What the simulator sees of a pair.
  lemma PairStripped(line: string)
    requires IsPair(line) && !IsSpace(line[0]) && line[0] != '#'
    ensures var stripped, kv := Strip(line), SplitAt(line);
      && stripped != "" && stripped[0] == line[0] && FirstEquals(stripped) < |stripped|
      && SplitAt(stripped) == KeyValue(kv.key, StripRight(kv.value))
  {
    var k := FirstEquals(line);
    var head, value := line[..k + 1], line[k + 1..];
    assert line == head + value;
    StripRightAfter(head, value);
    var stripped := head + StripRight(value);
    assert Strip(line) == stripped;
    assert stripped[k] == '=' && forall i :: 0 <= i < k ==> stripped[i] == line[i];
    assert FirstEquals(stripped) == k;
    assert stripped[k + 1..] == StripRight(value) && stripped[..k] == line[..k];
  }

  function Extended(before: Option<seq<Sim.ModbusNode>>, finished: Sim.Finished): Option<seq<Sim.ModbusNode>> {
    if before.None? then None
    else
      match finished
      case Made(node) => Some(before.value + [node])
      case Skipped => before
      case Raised => None
  }

  // The simulator's node of one section.
  function Finish(lib: Libraries, kvs: seq<KeyValue>): Sim.Finished {
    Sim.FinishNode(lib, Dictionary(Stripped(kvs)))
  }

  function FinishAll(lib: Libraries, sections: seq<seq<KeyValue>>): Option<seq<Sim.ModbusNode>> {
    if sections == [] then Some([])
    else
      var n := |sections| - 1;
      Extended(FinishAll(lib, sections[..n]), Finish(lib, sections[n]))
  }

  lemma FinishOneMore(lib: Libraries, sections: seq<seq<KeyValue>>, kvs: seq<KeyValue>)
    ensures FinishAll(lib, sections + [kvs]) == Extended(FinishAll(lib, sections), Finish(lib, kvs))
  {
    assert (sections + [kvs])[..|sections|] == sections;
  }

  // Between lines: the ended node sections are nodes, and the open one is the dictionary.
  // closed are the ended node sections, current the open one.
  datatype View = View(closed: seq<seq<KeyValue>>, current: Option<seq<KeyValue>>)

  function NodeView(t: seq<Part>): View {
    if KindOf(t) == NodeSection then View(OfKind(t[..|t| - 1], NodeSection), Some(t[|t| - 1].pairs))
    else View(OfKind(t, NodeSection), None)
  }

  // The sections the view stands for.
  function AllSections(v: View): seq<seq<KeyValue>> {
    v.closed + if v.current.Some? then [v.current.value] else []
  }

  lemma ViewIsWhole(t: seq<Part>)
    ensures AllSections(NodeView(t)) == OfKind(t, NodeSection)
  {
  }

  lemma ViewOpens(t: seq<Part>, kind: Section)
    ensures NodeView(t + [Part(kind, [])]) ==
      View(OfKind(t, NodeSection), if kind == NodeSection then Some([]) else None)
  {
    assert (t + [Part(kind, [])])[..|t|] == t;
    assert OfKind(t, NodeSection) + [] == OfKind(t, NodeSection);
  }

  lemma ViewGrows(t: seq<Part>, kv: KeyValue)
    requires t != []
    ensures var v := NodeView(t);
      NodeView(WithPair(t, kv)) == v.(current := if v.current.Some? then Some(v.current.value + [kv]) else None)
  {
    OfKindGrows(t, kv, NodeSection);
    assert WithPair(t, kv)[..|t| - 1] == t[..|t| - 1];
  }

  ghost predicate ScannerIs(lib: Libraries, s: Option<Sim.Scanner>, v: View) {
    var nodes := FinishAll(lib, v.closed);
    && (s.None? <==> nodes.None?)
    && (s.Some? ==>
          && s.value.nodes == nodes.value
          && (s.value.section == "node" <==> v.current.Some?)
          && s.value.current == if v.current.Some? then Dictionary(Stripped(v.current.value)) else map[])
  }

  lemma HeaderShape(line: string)
    requires HeaderKind(line) != NoSection
    ensures |line| >= 2 && line[0] == '[' && line[|line| - 1] == ']' && Strip(line) == line
    ensures HeaderKind(line) == NodeSection <==> line[1..|line| - 1] == "node"
  {
    StripTight(line);
    if line == "[node]" {
      assert line[1..5] == "node";
    } else {
      assert |line| == 7;
      assert |line[1..6]| != |"node"|;
    }
  }

  lemma HeaderScanned(lib: Libraries, s: Sim.Scanner, v: View, line: string)
    requires ScannerIs(lib, Some(s), v) && HeaderKind(line) != NoSection
    ensures var current := if HeaderKind(line) == NodeSection then Some([]) else None;
      ScannerIs(lib, Sim.SimLine(lib, s, line), View(AllSections(v), current))
  {
    hide HeaderKind, Strip, Sim.FinishNode, FinishAll;
    HeaderShape(line);
    assert Dictionary(Stripped([])) == map[];
    if v.current.Some? {
      FinishOneMore(lib, v.closed, v.current.value);
    } else {
      assert v.closed + [] == v.closed;
    }
  }

  lemma PairScanned(lib: Libraries, s: Sim.Scanner, v: View, line: string)
    requires ScannerIs(lib, Some(s), v) && IsPair(line) && KnownKey(SplitAt(line).key)
    ensures var kv := SplitAt(line);
      var current := if v.current.Some? then Some(v.current.value + [kv]) else None;
      ScannerIs(lib, Sim.SimLine(lib, s, line), v.(current := current))
  {
    hide KnownKey, Strip, StripRight, Sim.FinishNode, FinishAll;
    var kv := SplitAt(line);
    KnownKeyStart(kv.key);
    assert line[0] == kv.key[0];
    PairStripped(line);
    if v.current.Some? {
      var kvs := v.current.value;
      assert (kvs + [kv])[..|kvs|] == kvs;
      DictionaryGrows(Stripped(kvs), KeyValue(kv.key, StripRight(kv.value)));
    }
  }

  lemma BlankScanned(lib: Libraries, s: Sim.Scanner, line: string)
    requires IsBlank(line)
    ensures Sim.SimLine(lib, s, line) == Some(s)
  {
    if line == "" {
      StripTight(line);
    } else {
      StripKeepsHead(line);
    }
  }

  lemma LineScanned(lib: Libraries, s: Option<Sim.Scanner>, t: seq<Part>, raw: string)
    requires ScannerIs(lib, s, NodeView(t)) && LineOk(lib, t, raw)
    ensures var line := TrimNewline(raw);
      ScannerIs(lib, SimStep(lib, s, line), NodeView(SectionLine(t, line)))
  {
    hide TrimNewline, FirstEquals, Sim.SimLine, NodeView, ScannerIs, PairOk, RoomFor, HeaderKind, WithPair, AllSections;
    var line := TrimNewline(raw);
    ViewIsWhole(t);
    if IsBlank(line) {
      if s.Some? { BlankScanned(lib, s.value, line); }
    } else if HeaderKind(line) != NoSection {
      ViewOpens(t, HeaderKind(line));
      if s.Some? {
        HeaderScanned(lib, s.value, NodeView(t), line);
      } else {
        StillNone(lib, NodeView(t), if HeaderKind(line) == NodeSection then Some([]) else None);
      }
    } else {
      var kv := SplitAt(line);
      PairHasKnownKey(lib, KindOf(t), kv);
      hide KnownKey;
      assert t != [] by { NoPairFirst(lib, t, kv); }
      ViewGrows(t, kv);
      if s.Some? {
        PairScanned(lib, s.value, NodeView(t), line);
      } else {
        SameNone(lib, NodeView(t), NodeView(WithPair(t, kv)));
      }
    }
  }

  lemma NoPairFirst(lib: Libraries, t: seq<Part>, kv: KeyValue)
    requires PairOk(lib, KindOf(t), kv)
    ensures t != []
  {
  }

  lemma SameNone(lib: Libraries, v: View, v': View)
    requires ScannerIs(lib, None, v) && v'.closed == v.closed
    ensures ScannerIs(lib, None, v')
  {
  }

  lemma StillNone(lib: Libraries, v: View, current: Option<seq<KeyValue>>)
    requires ScannerIs(lib, None, v)
    ensures ScannerIs(lib, None, View(AllSections(v), current))
  {
    if v.current.Some? {
      FinishOneMore(lib, v.closed, v.current.value);
    } else {
      assert v.closed + [] == v.closed;
    }
  }

  // ---- The whole template -----------------------------------------------

  lemma {:induction false} ScannerFollowsSections(lib: Libraries, lines: seq<string>)
    requires AllLinesOk(lib, lines) && forall i :: 0 <= i < |lines| ==> ReturnsAtEnd(lines[i])
    ensures ScannerIs(lib, Sim.SimLines(lib, PyLines(lines)), NodeView(SectionsOf(lines)))
  {
    if lines != [] {
      var n := |lines| - 1;
      OneMoreLine(lib, lines);
      ScannerFollowsSections(lib, lines[..n]);
      SimSkipsReturns(lib, PyLines(lines[..n]), lines[n]);
      LineScanned(lib, Sim.SimLines(lib, PyLines(lines[..n])), SectionsOf(lines[..n]), lines[n]);
      hide AllLinesOk, LineOk, SimStep, SectionLine, ScannerIs, NodeView, Sim.SimLines, SplitReturns;
    }
  }

  // On every template that the C loader accepts, the simulator finishes the same node sections
  // one by one, without the blanks at the end of their values.
  lemma SimulatorFinishesSections(lib: Libraries, lines: seq<string>)
    requires LoadLines(lib, EMPTY_DRAFT, lines).Done? && forall i :: 0 <= i < |lines| ==> ReturnsAtEnd(lines[i])
    ensures Sim.SimNodes(lib, PyLines(lines)) == FinishAll(lib, OfKind(SectionsOf(lines), NodeSection))
  {
    hide NodeView, Sim.FinishNode, Sim.SimLines, SectionsOf, LoadLines, FinishAll, OfKind, PyLines, AllLinesOk;
    hide ReturnsAtEnd, LoadingOf;
    LoaderFollowsSections(lib, lines);
    ScannerFollowsSections(lib, lines);
    ViewIsWhole(SectionsOf(lines));
    var v := NodeView(SectionsOf(lines));
    if v.current.Some? {
      FinishOneMore(lib, v.closed, v.current.value);
    } else {
      assert v.closed + [] == v.closed;
    }
  }

  // ---- One section in both loaders --------------------------------------

  // Numbers in plain decimal notation, as far as the section gives them.
  predicate PlainNumbers(m: Dict) {
    && ("modbus_unit" in m ==> AllDigits(m["modbus_unit"]))
    && ("modbus_register" in m ==> AllDigits(m["modbus_register"]))
    && ("scale" in m ==> PlainDecimal(m["scale"]))
  }

  // The section gives source, access and scale and a register of at least 40001, and its names
  // have no blank at the end.
  predicate GivesAll(m: Dict) {
    GivesKeys(m) && TightNames(m)
  }

  predicate GivesKeys(m: Dict) {
    && "source" in m && "access" in m && "scale" in m
    && "modbus_register" in m && AllDigits(m["modbus_register"]) && DecimalValue(m["modbus_register"]) >= REGISTER_BASE
  }

  predicate TightNames(m: Dict) {
    Tight(Given(m, "asset")) && Tight(Given(m, "id")) && Tight(Given(m, "name"))
  }

  // The same node in the two representations.
  predicate Same(n: NodeSpec, p: Sim.ModbusNode) {
    && p.asset == n.assetId && p.nodeId == n.id && p.name == n.name
    && p.dataType == Sim.TypeName(n.dataType) && Sim.SimWritable(p) == n.writable
    && p.unit == n.unit && p.register == n.register && p.scale == n.scale
  }

  lemma PlainIsTight(s: string)
    ensures AllDigits(s) ==> Tight(s)
    ensures PlainDecimal(s) ==> Tight(s)
  {
  }

  // The values that the loader takes only as they are have no blank at the end.
  lemma WordsAreTight(lib: Libraries, m: Dict)
    requires ValuesOk(lib, NodeSection, m)
    ensures "source" in m ==> m["source"] == "modbus"
    ensures "access" in m ==> Tight(m["access"])
    ensures "data_type" in m ==> Tight(m["data_type"]) && Sim.TypeName(ParseDataType(m["data_type"])) == m["data_type"]
  {
    if "source" in m { assert PairOk(lib, NodeSection, KeyValue("source", m["source"])); }
    if "access" in m { assert PairOk(lib, NodeSection, KeyValue("access", m["access"])); }
    if "data_type" in m { assert PairOk(lib, NodeSection, KeyValue("data_type", m["data_type"])); }
  }

  // The numbers of an accepted section, as the simulator reads them.
  lemma NumbersAgree(lib: Libraries, m: Dict)
    requires ValuesOk(lib, NodeSection, m) && PlainNumbers(m)
    ensures "modbus_unit" in m ==> PyInt(lib, m["modbus_unit"]) == Some(NodeOf(lib, m).unit)
    ensures "modbus_register" in m ==> PyInt(lib, m["modbus_register"]) == Some(NodeOf(lib, m).register)
    ensures "scale" in m ==> PyFloat(lib, m["scale"]) == Some(NodeOf(lib, m).scale)
  {
    hide AllDigits, PlainDecimal;
    if "modbus_unit" in m { assert PairOk(lib, NodeSection, KeyValue("modbus_unit", m["modbus_unit"])); }
    if "modbus_register" in m { assert PairOk(lib, NodeSection, KeyValue("modbus_register", m["modbus_register"])); }
    if "scale" in m { assert PairOk(lib, NodeSection, KeyValue("scale", m["scale"])); }
  }

  // The simulator's dictionary of a section: the same keys, and a value is kept as it is
  // exactly when it has no blank at its end.
  ghost predicate SeenAs(m: Dict, m': Dict) {
    m'.Keys == m.Keys && forall key :: key in m ==> (m'[key] == m[key] <==> Tight(m[key]))
  }

  lemma StrippedSection(kvs: seq<KeyValue>)
    ensures SeenAs(Dictionary(kvs), Dictionary(Stripped(kvs)))
  {
    var m, m' := Dictionary(kvs), Dictionary(Stripped(kvs));
    StrippedValues(kvs);
    forall key | key in m
      ensures m'[key] == m[key] <==> Tight(m[key])
    {
      StripRightIsTight(m[key]);
    }
  }

  // An accepted node section with plain numbers.
  ghost predicate GoodSection(lib: Libraries, kvs: seq<KeyValue>) {
    var m := Dictionary(kvs);
    NodeComplete(NodeOf(lib, m)) && ValuesOk(lib, NodeSection, m) && PlainNumbers(m)
  }

  // A section gives the same node in both loaders exactly when it gives all.
  lemma SectionAgrees(lib: Libraries, kvs: seq<KeyValue>)
    requires GoodSection(lib, kvs)
    ensures var m, finished := Dictionary(kvs), Finish(lib, kvs);
      && (finished.Made? <==> GivesKeys(m))
      && (finished.Skipped? <==> "source" !in m)
      && (finished.Made? && Same(NodeOf(lib, m), finished.node) <==> GivesAll(m))
  {
    hide Dictionary, Stripped;
    var m, m' := Dictionary(kvs), Dictionary(Stripped(kvs));
    StrippedSection(kvs);
    CompleteGives(lib, m);
    FixedWords(lib, m, m');
    NumbersAgree(lib, m);
    hide Tight, AllDigits, PlainDecimal, ParseUnsigned, ParseDouble, PyInt, PyFloat, ParseDataType;
    hide ValuesOk, NodeComplete;
  }

  // All values but the names are seen as they are.
  lemma FixedWords(lib: Libraries, m: Dict, m': Dict)
    requires SeenAs(m, m') && ValuesOk(lib, NodeSection, m) && PlainNumbers(m)
    ensures "source" in m ==> m'["source"] == "modbus"
    ensures "access" in m ==> m'["access"] == m["access"]
    ensures "data_type" in m ==>
      m'["data_type"] == m["data_type"] && Sim.TypeName(ParseDataType(m["data_type"])) == m["data_type"]
    ensures "modbus_unit" in m ==> m'["modbus_unit"] == m["modbus_unit"]
    ensures "modbus_register" in m ==> m'["modbus_register"] == m["modbus_register"]
    ensures "scale" in m ==> m'["scale"] == m["scale"]
  {
    assert Tight("modbus");
    WordsAreTight(lib, m);
    hide Tight, AllDigits, PlainDecimal, ParseDataType, Sim.TypeName, ValuesOk;
    if "modbus_unit" in m { PlainIsTight(m["modbus_unit"]); }
    if "modbus_register" in m { PlainIsTight(m["modbus_register"]); }
    if "scale" in m { PlainIsTight(m["scale"]); }
  }

  lemma CompleteGives(lib: Libraries, m: Dict)
    requires NodeComplete(NodeOf(lib, m))
    ensures "asset" in m && "id" in m && "name" in m && "data_type" in m && "modbus_unit" in m && "modbus_register" in m
  {
  }

  // ---- The theorem ------------------------------------------------------

  ghost predicate SameNodeLists(nodes: seq<NodeSpec>, result: Option<seq<Sim.ModbusNode>>) {
    result.Some? && |result.value| == |nodes| && forall k :: 0 <= k < |nodes| ==> Same(nodes[k], result.value[k])
  }

  ghost predicate AllGiven(sections: seq<seq<KeyValue>>) {
    forall k :: 0 <= k < |sections| ==> GivesAll(Dictionary(sections[k]))
  }

  // The two lists of nodes agree exactly when the sections give all.
  ghost predicate ListsAgreeOn(lib: Libraries, sections: seq<seq<KeyValue>>) {
    var result := FinishAll(lib, sections);
    && (result.Some? ==> |result.value| <= |sections|)
    && (SameNodeLists(NodesOf(lib, sections), result) <==> AllGiven(sections))
  }

  lemma {:induction false} ListsAgree(lib: Libraries, sections: seq<seq<KeyValue>>)
    requires forall k :: 0 <= k < |sections| ==> GoodSection(lib, sections[k])
    ensures ListsAgreeOn(lib, sections)
  {
    hide ListsAgreeOn, GoodSection;
    if sections == [] {
      NoSectionsAgree(lib);
    } else {
      var n := |sections| - 1;
      ListsAgree(lib, sections[..n]);
      OneMoreAgrees(lib, sections[..n], sections[n]);
      assert sections == sections[..n] + [sections[n]];
    }
  }

  lemma NoSectionsAgree(lib: Libraries)
    ensures ListsAgreeOn(lib, [])
  {
    assert NodesOf(lib, []) == [];
  }

  lemma OneMoreAgrees(lib: Libraries, sections: seq<seq<KeyValue>>, kvs: seq<KeyValue>)
    requires ListsAgreeOn(lib, sections) && GoodSection(lib, kvs)
    ensures ListsAgreeOn(lib, sections + [kvs])
  {
    hide Finish, Dictionary, NodesOf, NodeOf, GivesAll, GivesKeys, SameNodeLists, Same, GoodSection, AllGiven;
    hide FinishAll;
    var more := sections + [kvs];
    assert more[..|sections|] == sections;
    SectionAgrees(lib, kvs);
    FinishOneMore(lib, sections, kvs);
    NodesInOrder(lib, more);
    ListStep(NodesOf(lib, more), FinishAll(lib, sections), Finish(lib, kvs));
    AllGivenStep(more);
  }

  lemma NodesInOrder(lib: Libraries, sections: seq<seq<KeyValue>>)
    requires sections != []
    ensures var n, nodes := |sections| - 1, NodesOf(lib, sections);
      nodes[..n] == NodesOf(lib, sections[..n]) && nodes[n] == NodeOf(lib, Dictionary(sections[n]))
  {
    hide NodeOf, Dictionary;
  }

  lemma AllGivenStep(sections: seq<seq<KeyValue>>)
    requires sections != []
    ensures AllGiven(sections) <==>
      AllGiven(sections[..|sections| - 1]) && GivesAll(Dictionary(sections[|sections| - 1]))
  {
    hide GivesAll, Dictionary;
  }

  lemma ListStep(nodes: seq<NodeSpec>, before: Option<seq<Sim.ModbusNode>>, finished: Sim.Finished)
    requires nodes != [] && (before.Some? ==> |before.value| <= |nodes| - 1)
    ensures SameNodeLists(nodes, Extended(before, finished))
        <==> && SameNodeLists(nodes[..|nodes| - 1], before)
             && finished.Made? && Same(nodes[|nodes| - 1], finished.node)
  {
    hide Same;
    var n := |nodes| - 1;
    if SameNodeLists(nodes, Extended(before, finished)) {
      var after := Extended(before, finished).value;
      assert finished.Made? && after[..n] == before.value;
      assert forall k :: 0 <= k < n ==> after[k] == before.value[k] && nodes[..n][k] == nodes[k];
    }
  }

  // The node sections of an accepted template are good.
  lemma AcceptedSections(lib: Libraries, lines: seq<string>)
    requires LoadLines(lib, EMPTY_DRAFT, lines).Done? && RequiredFields(LoadLines(lib, EMPTY_DRAFT, lines).value.draft)
    requires forall k :: 0 <= k < |OfKind(SectionsOf(lines), NodeSection)| ==>
      PlainNumbers(Dictionary(OfKind(SectionsOf(lines), NodeSection)[k]))
    ensures forall k :: 0 <= k < |OfKind(SectionsOf(lines), NodeSection)| ==>
      GoodSection(lib, OfKind(SectionsOf(lines), NodeSection)[k])
  {
    hide SectionsOf, LoadLines, AllLinesOk, PlainNumbers, PairOk, ValuesOk, NodeOf, Dictionary, OfKind;
    var t := SectionsOf(lines);
    var sections := OfKind(t, NodeSection);
    LoaderFollowsSections(lib, lines);
    forall k | 0 <= k < |sections|
      ensures GoodSection(lib, sections[k])
    {
      AcceptedValues(lib, lines, NodeSection, k);
      assert NodeComplete(DraftOf(lib, t).nodes[k]);
    }
  }

  // For every template that the C loader accepts, with plain decimal numbers and carriage
  // returns only at line ends: the simulator loads the same nodes, in the same order and with
  // the same fields, if and only if every node section gives source, access, scale and a
  // register of at least 40001, and no asset, id or name of a node ends in a blank.
  lemma LoadersAgree(lib: Libraries, lines: seq<string>)
    requires LoadLines(lib, EMPTY_DRAFT, lines).Done? && RequiredFields(LoadLines(lib, EMPTY_DRAFT, lines).value.draft)
    requires forall i :: 0 <= i < |lines| ==> ReturnsAtEnd(lines[i])
    requires forall k :: 0 <= k < |OfKind(SectionsOf(lines), NodeSection)| ==>
      PlainNumbers(Dictionary(OfKind(SectionsOf(lines), NodeSection)[k]))
    ensures SameNodeLists(LoadLines(lib, EMPTY_DRAFT, lines).value.draft.nodes, Sim.SimNodes(lib, PyLines(lines)))
        <==> AllGiven(OfKind(SectionsOf(lines), NodeSection))
  {
    hide LoadLines, SectionsOf, OfKind, PlainNumbers, ReturnsAtEnd, Sim.SimNodes, PyLines, SameNodeLists;
    hide AllGiven, GoodSection;
    AcceptedSections(lib, lines);
    LoaderFollowsSections(lib, lines);
    SimulatorFinishesSections(lib, lines);
    ListsAgree(lib, OfKind(SectionsOf(lines), NodeSection));
  }

  // ---- An accepted template on which they differ ------------------------

  // Libraries that read plain numbers only.
  const PLAIN_LIB := Libraries(_ => None, _ => None, _ => None, _ => None, _ => Finite(1.0), _ => true)

  const PLANT_PAIRS := [KeyValue("id", "p"), KeyValue("name", "Plant")]

  const ASSET_PAIRS := [KeyValue("id", "a"), KeyValue("type", "pump"), KeyValue("name", "Pump")]

  // A node section with every key but source.
  const NODE_PAIRS := [
    KeyValue("asset", "a"), KeyValue("id", "run"), KeyValue("name", "Run"), KeyValue("data_type", "bool"),
    KeyValue("access", "read"), KeyValue("modbus_unit", "1"), KeyValue("modbus_register", "40001"),
    KeyValue("scale", "1")]

  const NO_SOURCE := [
    Part(PlantSection, PLANT_PAIRS), Part(AssetSection, ASSET_PAIRS), Part(NodeSection, NODE_PAIRS)]

  ghost predicate KeysDiffer(kvs: seq<KeyValue>) {
    forall i, j :: 0 <= i < j < |kvs| ==> kvs[i].key != kvs[j].key
  }

  lemma {:induction false} DictionaryHas(kvs: seq<KeyValue>, i: nat)
    requires KeysDiffer(kvs) && i < |kvs|
    ensures kvs[i].key in Dictionary(kvs) && Dictionary(kvs)[kvs[i].key] == kvs[i].value
  {
    if i < |kvs| - 1 { DictionaryHas(kvs[..|kvs| - 1], i); }
  }

  lemma {:induction false} DictionaryLacks(kvs: seq<KeyValue>, key: string)
    requires forall i :: 0 <= i < |kvs| ==> kvs[i].key != key
    ensures key !in Dictionary(kvs) && key !in Dictionary(Stripped(kvs))
  {
    StrippedValues(kvs);
    if kvs != [] { DictionaryLacks(kvs[..|kvs| - 1], key); }
  }

  // The pair can be written, fits, and has no line end in it.
  predicate PlainPair(kv: KeyValue) {
    && CanWritePair(kv) && |PairLine(kv)| + 2 <= MAX_LINE_LEN
    && forall i :: 0 <= i < |PairLine(kv)| ==> !IsLineEnd(PairLine(kv)[i])
  }

  // Letters, digits and underscores.
  predicate IsWord(s: string) {
    forall i :: 0 <= i < |s| ==> IsDigit(s[i]) || 'a' <= s[i] <= 'z' || 'A' <= s[i] <= 'Z' || s[i] == '_'
  }

  lemma WordsArePlain(kv: KeyValue)
    requires kv.key != "" && IsWord(kv.key) && IsWord(kv.value) && |kv.key| + |kv.value| <= 100
    ensures PlainPair(kv)
  {
    assert kv.key[0] != '#' && kv.key[0] != '[';
  }

  lemma PlantPairsOk()
    ensures forall q :: 0 <= q < |PLANT_PAIRS| ==> PlainPair(PLANT_PAIRS[q])
    ensures PairsOk(PLAIN_LIB, PlantSection, PLANT_PAIRS) && KeysDiffer(PLANT_PAIRS)
  {
    hide PlainPair;
    forall q | 0 <= q < |PLANT_PAIRS|
      ensures PlainPair(PLANT_PAIRS[q])
    {
      WordsArePlain(PLANT_PAIRS[q]);
    }
  }

  lemma AssetPairsOk()
    ensures forall q :: 0 <= q < |ASSET_PAIRS| ==> PlainPair(ASSET_PAIRS[q])
    ensures PairsOk(PLAIN_LIB, AssetSection, ASSET_PAIRS) && KeysDiffer(ASSET_PAIRS)
  {
    hide PlainPair;
    forall q | 0 <= q < |ASSET_PAIRS|
      ensures PlainPair(ASSET_PAIRS[q])
    {
      WordsArePlain(ASSET_PAIRS[q]);
    }
  }

  lemma NodePairsPlain()
    ensures forall q :: 0 <= q < |NODE_PAIRS| ==> PlainPair(NODE_PAIRS[q])
  {
    hide PlainPair;
    forall q | 0 <= q < |NODE_PAIRS|
      ensures PlainPair(NODE_PAIRS[q])
    {
      WordsArePlain(NODE_PAIRS[q]);
    }
  }

  lemma NumbersArePlain()
    ensures AllDigits("1") && DecimalValue("1") == 1 && PlainDecimal("1")
    ensures AllDigits("40001") && DecimalValue("40001") == 40001
  {
    assert "1"[..0] == "" && "4"[..0] == "" && "40"[..1] == "4" && "400"[..2] == "40";
    assert "4000"[..3] == "400" && "40001"[..4] == "4000";
  }

  lemma NodePairsOk()
    ensures PairsOk(PLAIN_LIB, NodeSection, NODE_PAIRS)
  {
    NumbersArePlain();
    hide AllDigits, DecimalValue, PlainDecimal;
    assert PairOk(PLAIN_LIB, NodeSection, NODE_PAIRS[5]) && PairOk(PLAIN_LIB, NodeSection, NODE_PAIRS[6]);
    assert PairOk(PLAIN_LIB, NodeSection, NODE_PAIRS[7]);
  }

  lemma NodeKeysDiffer()
    ensures KeysDiffer(NODE_PAIRS)
    ensures forall q :: 0 <= q < |NODE_PAIRS| ==> NODE_PAIRS[q].key != "source"
  {
  }

  ghost predicate PlainPart(part: Part) {
    part.kind != NoSection && forall q :: 0 <= q < |part.pairs| ==> PlainPair(part.pairs[q])
  }

  // A template written from such pairs has no line ends inside its lines.
  lemma {:induction false} PlainRender(t: seq<Part>)
    requires forall p :: 0 <= p < |t| ==> PlainPart(t[p])
    ensures CanWrite(t)
    ensures forall i :: 0 <= i < |Render(t)| ==> ReturnsAtEnd(Render(t)[i])
    decreases |t|, if t == [] then 0 else |t[|t| - 1].pairs|
  {
    hide ReturnsAtEnd, CanWritePair, PairLine;
    if t != [] {
      var Part(kind, pairs) := t[|t| - 1];
      assert PlainPart(t[|t| - 1]);
      PlainRender(Shorter(t));
      assert ReturnsAtEnd(LastLine(t)) by {
        if pairs != [] { PlainLine(PairLine(pairs[|pairs| - 1])); } else { PlainLine(HeaderLine(kind)); }
      }
    }
  }

  lemma PlainLine(line: string)
    requires forall i :: 0 <= i < |line| ==> !IsLineEnd(line[i])
    ensures ReturnsAtEnd(line)
  {
  }

  lemma NoSourceParts()
    ensures forall p :: 0 <= p < |NO_SOURCE| ==> PlainPart(NO_SOURCE[p]) && PartLoads(PLAIN_LIB, NO_SOURCE[p])
  {
    hide PlainPair, PairsOk;
    PlantPairsOk();
    AssetPairsOk();
    NodePairsPlain();
    NodePairsOk();
    forall p | 0 <= p < |NO_SOURCE|
      ensures PlainPart(NO_SOURCE[p]) && PartLoads(PLAIN_LIB, NO_SOURCE[p])
    {
      PlainPartLoads(NO_SOURCE[p]);
    }
  }

  lemma PlainPartLoads(part: Part)
    requires PlainPart(part) && PairsOk(PLAIN_LIB, part.kind, part.pairs)
    ensures PartLoads(PLAIN_LIB, part)
  {
    hide PairOk;
  }

  lemma OneMorePart(t: seq<Part>, part: Part, k: Section)
    ensures part.kind == k ==> OfKind(t + [part], k) == OfKind(t, k) + [part.pairs]
    ensures part.kind != k ==> OfKind(t + [part], k) == OfKind(t, k)
    ensures part.kind != PlantSection ==> PlantPairs(t + [part]) == PlantPairs(t)
  {
    assert (t + [part])[..|t|] == t;
  }

  lemma OnePart(part: Part, k: Section)
    ensures OfKind([part], k) == if part.kind == k then [part.pairs] else []
    ensures part.kind == PlantSection ==> PlantPairs([part]) == part.pairs
  {
    assert [part][..0] == [];
  }

  lemma ThreeParts(plant: seq<KeyValue>, asset: seq<KeyValue>, node: seq<KeyValue>, k: Section)
    ensures var t := [Part(PlantSection, plant), Part(AssetSection, asset), Part(NodeSection, node)];
      && PlantPairs(t) == plant
      && (k == AssetSection ==> OfKind(t, k) == [asset])
      && (k == NodeSection ==> OfKind(t, k) == [node])
      && (k == EventSection ==> OfKind(t, k) == [])
  {
    hide OfKind, PlantPairs;
    var a, b, c := Part(PlantSection, plant), Part(AssetSection, asset), Part(NodeSection, node);
    OnePart(a, k);
    OneMorePart([a], b, k);
    OneMorePart([a, b], c, k);
    assert [a] + [b] == [a, b] && [a, b] + [c] == [a, b, c];
  }

  // The C loader's node of the section.
  lemma NoSourceNode()
    ensures var n := NodeOf(PLAIN_LIB, Dictionary(NODE_PAIRS));
      NodeComplete(n) && n.assetId == "a" && n.unit == 1 && n.register == 40001
  {
    var m := Dictionary(NODE_PAIRS);
    NodeKeysDiffer();
    NumbersArePlain();
    hide KeysDiffer, Dictionary, AllDigits, DecimalValue, PlainDecimal;
    DictionaryHas(NODE_PAIRS, 0);
    DictionaryHas(NODE_PAIRS, 1);
    DictionaryHas(NODE_PAIRS, 2);
    DictionaryHas(NODE_PAIRS, 3);
    DictionaryHas(NODE_PAIRS, 5);
    DictionaryHas(NODE_PAIRS, 6);
  }

  lemma NoSourceAsset()
    ensures var a, plant := AssetOf(Dictionary(ASSET_PAIRS)), Dictionary(PLANT_PAIRS);
      AssetComplete(a) && a.id == "a" && a.parentId == "" && Given(plant, "id") != "" && Given(plant, "name") != ""
  {
    PlantPairsOk();
    AssetPairsOk();
    DictionaryLacks(ASSET_PAIRS, "parent");
    hide KeysDiffer, Dictionary, PairsOk, PlainPair;
    DictionaryHas(PLANT_PAIRS, 0);
    DictionaryHas(PLANT_PAIRS, 1);
    DictionaryHas(ASSET_PAIRS, 0);
    DictionaryHas(ASSET_PAIRS, 1);
    DictionaryHas(ASSET_PAIRS, 2);
  }

  // One asset at the top and one node of it make a well-formed model.
  lemma SmallModelIsWellFormed(d: Draft)
    requires d.id != "" && d.name != "" && |d.assets| == |d.nodes| == 1 && d.events == []
    requires AssetComplete(d.assets[0]) && NodeComplete(d.nodes[0])
    requires d.assets[0].parentId == "" && d.nodes[0].assetId == d.assets[0].id
    ensures WellFormed(d)
  {
  }

  // For example, a template whose one node section leaves out source: the C loader accepts it
  // and has the node, and the simulator loads no node at all.
  lemma MissingSourceDisagrees()
    ensures var lines := Render(NO_SOURCE);
      var r := LoadLines(PLAIN_LIB, EMPTY_DRAFT, lines);
      && r.Done? && WellFormed(r.value.draft) && |r.value.draft.nodes| == 1
      && Sim.SimNodes(PLAIN_LIB, PyLines(lines)) == Some([])
  {
    hide Render, LoadLines, PlainPart, PartLoads, CanWrite, ReturnsAtEnd, WellFormed, PyLines, Sim.SimNodes, FinishAll;
    hide OfKind, PlantPairs, Dictionary, Given, AssetOf, NodeOf, SectionsOf, NodeComplete, AssetComplete;
    var lines := Render(NO_SOURCE);
    NoSourceParts();
    PlainRender(NO_SOURCE);
    ThreeParts(PLANT_PAIRS, ASSET_PAIRS, NODE_PAIRS, AssetSection);
    ThreeParts(PLANT_PAIRS, ASSET_PAIRS, NODE_PAIRS, NodeSection);
    ThreeParts(PLANT_PAIRS, ASSET_PAIRS, NODE_PAIRS, EventSection);
    WrittenLoads(PLAIN_LIB, NO_SOURCE);
    NoSourceNode();
    NoSourceAsset();
    SmallModelIsWellFormed(DraftOf(PLAIN_LIB, NO_SOURCE));
    WrittenReadsBack(NO_SOURCE);
    SimulatorFinishesSections(PLAIN_LIB, lines);
    NoSourceFinishes();
  }

  lemma NoSourceFinishes()
    ensures FinishAll(PLAIN_LIB, [NODE_PAIRS]) == Some([])
  {
    NodeKeysDiffer();
    DictionaryLacks(NODE_PAIRS, "source");
    hide Dictionary, KeysDiffer;
    FinishOneMore(PLAIN_LIB, [], NODE_PAIRS);
    assert [] + [NODE_PAIRS] == [NODE_PAIRS];
  }
}
