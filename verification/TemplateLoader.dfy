/**
 The template loader: a line-driven section machine that opens a record at each header and
 edits only that record until the next one.
 */
module TemplateLoader {
  import opened EdgeTypes
  import opened TemplateText

  datatype Asset = Asset(
    id: string, kind: string, name: string, parentId: string,
    parentIndex: nat, firstNode: nat, nodeCount: nat)

  datatype Draft = Draft(id: string, name: string, assets: seq<Asset>, nodes: seq<NodeSpec>, events: seq<Event>)

  datatype Section = NoSection | PlantSection | AssetSection | NodeSection | EventSection

  datatype Parsed<+T> = Done(value: T) | Failed(status: Status)

  const EMPTY_ASSET := Asset("", "", "", "", INVALID_INDEX, 0, 0)
  const EMPTY_NODE := NodeSpec("", "", "", Unset, false, 0, 0, Finite(1.0), INVALID_INDEX)
  const EMPTY_EVENT := Event("", "", "", INVALID_INDEX, INVALID_INDEX, NoCondition, Finite(0.0), 0, false)
  const EMPTY_DRAFT := Draft("", "", [], [], [])

  // ---- Keys and values --------------------------------------------------

  predicate Fits(value: string, size: nat) { value != "" && |value| < size }

  function ParseDataType(value: string): DataType {
    if value == "bool" then Bool
    else if value == "int16" then Int16Type
    else if value == "int32" then Int32Type
    else if value == "uint32" then UInt32Type
    else if value == "double" then DoubleType
    else Unset
  }

  function ParseCondition(value: string): Condition {
    if value == "greater_than" then GreaterThan
    else if value == "less_than" then LessThan
    else NoCondition
  }

  function ParsePlantKey(d: Draft, key: string, value: string): Parsed<Draft> {
    if key == "id" then (if Fits(value, MAX_ID_LEN) then Done(d.(id := value)) else Failed(Limit))
    else if key == "name" then (if Fits(value, MAX_NAME_LEN) then Done(d.(name := value)) else Failed(Limit))
    else Failed(Invalid)
  }

  function ParseAssetKey(a: Asset, key: string, value: string): (r: Parsed<Asset>)
    ensures r != Failed(Ok)
  {
    if key == "id" then (if Fits(value, MAX_ID_LEN) then Done(a.(id := value)) else Failed(Limit))
    else if key == "type" then (if Fits(value, MAX_ID_LEN) then Done(a.(kind := value)) else Failed(Limit))
    else if key == "name" then (if Fits(value, MAX_NAME_LEN) then Done(a.(name := value)) else Failed(Limit))
    else if key == "parent" then
      if value == "" || Fits(value, MAX_ID_LEN) then Done(a.(parentId := value)) else Failed(Limit)
    else Failed(Invalid)
  }

  function ParseNodeKey(lib: Libraries, n: NodeSpec, key: string, value: string): (r: Parsed<NodeSpec>)
    ensures r != Failed(Ok)
  {
    if key == "asset" then (if Fits(value, MAX_ID_LEN) then Done(n.(assetId := value)) else Failed(Limit))
    else if key == "id" then (if Fits(value, MAX_ID_LEN) then Done(n.(id := value)) else Failed(Limit))
    else if key == "name" then (if Fits(value, MAX_NAME_LEN) then Done(n.(name := value)) else Failed(Limit))
    else if key == "data_type" then
      if ParseDataType(value) != Unset then Done(n.(dataType := ParseDataType(value))) else Failed(Invalid)
    else if key == "access" then
      if value == "read" then Done(n.(writable := false))
      else if value == "read_write" then Done(n.(writable := true))
      else Failed(Invalid)
    else if key == "source" then (if value == "modbus" then Done(n) else Failed(Invalid))
    else if key == "modbus_unit" then
      var parsed := ParseUnsigned(lib, value);
      if parsed.None? || parsed.value > 65535 || parsed.value == 0 || parsed.value > 247 then Failed(Invalid)
      else Done(n.(unit := parsed.value))
    else if key == "modbus_register" then
      var parsed := ParseUnsigned(lib, value);
      if parsed.None? || parsed.value > 4294967295 then Failed(Invalid)
      else Done(n.(register := parsed.value))
    else if key == "scale" then
      var parsed := ParseDouble(lib, value);
      if parsed.None? then Failed(Invalid) else Done(n.(scale := parsed.value))
    else Failed(Invalid)
  }

  function ParseEventKey(lib: Libraries, e: Event, key: string, value: string): (r: Parsed<Event>)
    ensures r != Failed(Ok)
  {
    if key == "asset" then (if Fits(value, MAX_ID_LEN) then Done(e.(assetId := value)) else Failed(Limit))
    else if key == "id" then (if Fits(value, MAX_ID_LEN) then Done(e.(id := value)) else Failed(Limit))
    else if key == "source_node" then
      if Fits(value, MAX_ID_LEN) then Done(e.(sourceNodeId := value)) else Failed(Limit)
    else if key == "condition" then
      if ParseCondition(value) != NoCondition then Done(e.(condition := ParseCondition(value))) else Failed(Invalid)
    else if key == "threshold" then
      var parsed := ParseDouble(lib, value);
      if parsed.None? then Failed(Invalid) else Done(e.(threshold := parsed.value))
    else if key == "severity" then
      var parsed := ParseUnsigned(lib, value);
      if parsed.None? || parsed.value > 65535 then Failed(Invalid) else Done(e.(severity := parsed.value))
    else Failed(Invalid)
  }

  // ---- Lines ------------------------------------------------------------

  datatype Loading = Loading(draft: Draft, section: Section)

  // A key and value go to the record that the latest header opened: the last of its array.
  function EditLatest(lib: Libraries, s: Loading, kv: KeyValue): Parsed<Loading> {
    var d := s.draft;
    match s.section
    case NoSection => Failed(Invalid)
    case PlantSection =>
      (match ParsePlantKey(d, kv.key, kv.value)
       case Failed(status) => Failed(status)
       case Done(d') => Done(s.(draft := d')))
    case AssetSection =>
      if d.assets == [] then Failed(Invalid)
      else
        (match ParseAssetKey(d.assets[|d.assets| - 1], kv.key, kv.value)
         case Failed(status) => Failed(status)
         case Done(a) => Done(s.(draft := d.(assets := d.assets[|d.assets| - 1 := a]))))
    case NodeSection =>
      if d.nodes == [] then Failed(Invalid)
      else
        (match ParseNodeKey(lib, d.nodes[|d.nodes| - 1], kv.key, kv.value)
         case Failed(status) => Failed(status)
         case Done(n) => Done(s.(draft := d.(nodes := d.nodes[|d.nodes| - 1 := n]))))
    case EventSection =>
      if d.events == [] then Failed(Invalid)
      else
        (match ParseEventKey(lib, d.events[|d.events| - 1], kv.key, kv.value)
         case Failed(status) => Failed(status)
         case Done(e) => Done(s.(draft := d.(events := d.events[|d.events| - 1 := e]))))
  }

  function LoadLine(lib: Libraries, s: Loading, raw: string): Parsed<Loading> {
    var d := s.draft;
    // the line, its feed and a terminator must fit the buffer
    if |raw| + 2 > MAX_LINE_LEN then Failed(Limit)
    else
      var line := TrimNewline(raw);
      if line == "" || line[0] == '#' then Done(s)
      else if line == "[plant]" then Done(s.(section := PlantSection))
      else if line == "[asset]" then
        if |d.assets| >= MAX_ASSETS then Failed(Limit)
        else Done(Loading(d.(assets := d.assets + [EMPTY_ASSET]), AssetSection))
      else if line == "[node]" then
        if |d.nodes| >= MAX_NODES then Failed(Limit)
        else Done(Loading(d.(nodes := d.nodes + [EMPTY_NODE]), NodeSection))
      else if line == "[event]" then
        if |d.events| >= MAX_EVENTS then Failed(Limit)
        else Done(Loading(d.(events := d.events + [EMPTY_EVENT]), EventSection))
      else if line[0] == '[' || FirstEquals(line) == |line| || FirstEquals(line) == 0 then Failed(Invalid)
      else EditLatest(lib, s, SplitAt(line))
  }

  function LoadLines(lib: Libraries, d: Draft, lines: seq<string>): Parsed<Loading> {
    if lines == [] then Done(Loading(d, NoSection))
    else
      var n := |lines| - 1;
      var before := LoadLines(lib, d, lines[..n]);
      if before.Failed? then before else LoadLine(lib, before.value, lines[n])
  }

  lemma {:induction false} FailureStays(lib: Libraries, d: Draft, lines: seq<string>, n: nat)
    requires n <= |lines| && LoadLines(lib, d, lines[..n]).Failed?
    ensures LoadLines(lib, d, lines) == LoadLines(lib, d, lines[..n])
    decreases |lines| - n
  {
    if n == |lines| {
      assert lines[..n] == lines;
    } else {
      assert lines[..n + 1][..n] == lines[..n];
      FailureStays(lib, d, lines, n + 1);
    }
  }

  // The lines that are this header.
  function Headers(lines: seq<string>, header: string): nat {
    if lines == [] then 0
    else
      var n := |lines| - 1;
      Headers(lines[..n], header) + (if TrimNewline(lines[n]) == header then 1 else 0)
  }

  // Each header opens one record, and nothing else does.
  lemma {:induction false} RecordsAreHeaders(lib: Libraries, lines: seq<string>)
    requires LoadLines(lib, EMPTY_DRAFT, lines).Done?
    ensures var d := LoadLines(lib, EMPTY_DRAFT, lines).value.draft;
      && |d.assets| == Headers(lines, "[asset]")
      && |d.nodes| == Headers(lines, "[node]")
      && |d.events| == Headers(lines, "[event]")
  {
    if lines != [] {
      var n := |lines| - 1;
      RecordsAreHeaders(lib, lines[..n]);
      LineOpensRecord(lib, LoadLines(lib, EMPTY_DRAFT, lines[..n]).value, lines[n]);
      hide LoadLine;
    }
  }

  // A pair opens no record.
  lemma EditOpensNothing(lib: Libraries, s: Loading, kv: KeyValue)
    requires EditLatest(lib, s, kv).Done?
    ensures var d, d' := s.draft, EditLatest(lib, s, kv).value.draft;
      |d'.assets| == |d.assets| && |d'.nodes| == |d.nodes| && |d'.events| == |d.events|
  {
    hide ParseAssetKey, ParseNodeKey, ParseEventKey;
  }

  lemma LineOpensRecord(lib: Libraries, s: Loading, raw: string)
    requires LoadLine(lib, s, raw).Done?
    ensures var d, d', line := s.draft, LoadLine(lib, s, raw).value.draft, TrimNewline(raw);
      && |d'.assets| == |d.assets| + (if line == "[asset]" then 1 else 0)
      && |d'.nodes| == |d.nodes| + (if line == "[node]" then 1 else 0)
      && |d'.events| == |d.events| + (if line == "[event]" then 1 else 0)
      && (|d'.assets| > |d.assets| ==> |d.assets| < MAX_ASSETS)
      && (|d'.nodes| > |d.nodes| ==> |d.nodes| < MAX_NODES)
      && (|d'.events| > |d.events| ==> |d.events| < MAX_EVENTS)
  {
    hide EditLatest, TrimNewline, FirstEquals;
    var line := TrimNewline(raw);
    if FirstEquals(line) < |line| && EditLatest(lib, s, SplitAt(line)).Done? {
      EditOpensNothing(lib, s, SplitAt(line));
    }
  }

  datatype Cursor = Cursor(section: Section, asset: Option<nat>, node: Option<nat>, event: Option<nat>)

  // The model being loaded, its arrays filled in place.
  class TemplateModel {
    var id: string
    var name: string
    var assets: seq<Asset>
    var nodes: seq<NodeSpec>
    var events: seq<Event>

    ghost function State(): Draft
      reads this
    {
      Draft(id, name, assets, nodes, events)
    }

    constructor ()
      ensures State() == EMPTY_DRAFT
    {
      id, name, assets, nodes, events := "", "", [], [], [];
    }

    // The section and the record pointers: each points at the record the latest header opened.
    ghost predicate AtLatest(c: Cursor)
      reads this
    {
      && (c.section == AssetSection ==> |assets| > 0 && c.asset == Some(|assets| - 1))
      && (c.section == NodeSection ==> |nodes| > 0 && c.node == Some(|nodes| - 1))
      && (c.section == EventSection ==> |events| > 0 && c.event == Some(|events| - 1))
    }

    // The line loop.
    method ReadLines(lib: Libraries, lines: seq<string>) returns (status: Status)
      modifies this
      ensures match LoadLines(lib, old(State()), lines)
        case Done(s) => status == Ok && State() == s.draft
        case Failed(why) => status == why && why != Ok
    {
      ghost var start := State();
      var cursor := Cursor(NoSection, None, None, None);
      assert lines[..0] == [];
      for i := 0 to |lines|
        invariant LoadLines(lib, start, lines[..i]) == Done(Loading(State(), cursor.section))
        invariant AtLatest(cursor)
      {
        assert lines[..i + 1][..i] == lines[..i];
        cursor, status := ReadLine(lib, cursor, lines[i]);
        if status != Ok {
          FailureStays(lib, start, lines, i + 1);
          return;
        }
      }
      assert lines[..|lines|] == lines;
      status := Ok;
    }

    // One turn of the line loop.
    method ReadLine(lib: Libraries, before: Cursor, raw: string) returns (cursor: Cursor, status: Status)
      requires AtLatest(before)
      modifies this
      ensures match LoadLine(lib, Loading(old(State()), before.section), raw)
        case Done(s) => status == Ok && AtLatest(cursor) && Loading(State(), cursor.section) == s
        case Failed(why) => status == why && why != Ok
    {
      cursor := before;
      var line := TrimNewline(raw);
      if |raw| + 2 > MAX_LINE_LEN {
        return cursor, Limit;
      }
      if line == "" || line[0] == '#' {
        return cursor, Ok;
      }
      if line == "[plant]" {
        return Cursor(PlantSection, None, None, None), Ok;
      }
      if line == "[asset]" {
        if |assets| >= MAX_ASSETS {
          return cursor, Limit;
        }
        assets := assets + [EMPTY_ASSET];
        return Cursor(AssetSection, Some(|assets| - 1), None, None), Ok;
      }
      if line == "[node]" {
        if |nodes| >= MAX_NODES {
          return cursor, Limit;
        }
        nodes := nodes + [EMPTY_NODE];
        return Cursor(NodeSection, None, Some(|nodes| - 1), None), Ok;
      }
      if line == "[event]" {
        if |events| >= MAX_EVENTS {
          return cursor, Limit;
        }
        events := events + [EMPTY_EVENT];
        return Cursor(EventSection, None, None, Some(|events| - 1)), Ok;
      }
      if line[0] == '[' || FirstEquals(line) == |line| || FirstEquals(line) == 0 {
        return cursor, Invalid;
      }
      status := EditRecord(lib, cursor, SplitAt(line));
    }

    method EditRecord(lib: Libraries, cursor: Cursor, kv: KeyValue) returns (status: Status)
      requires AtLatest(cursor)
      modifies this
      ensures match EditLatest(lib, Loading(old(State()), cursor.section), kv)
        case Done(s) => status == Ok && AtLatest(cursor) && Loading(State(), cursor.section) == s
        case Failed(why) => status == why && why != Ok
    {
      hide ParseAssetKey, ParseNodeKey, ParseEventKey, Fits;
      var Cursor(section, asset, node, event) := cursor;
      status := Invalid;
      if section == PlantSection {
        if kv.key == "id" {
          if !Fits(kv.value, MAX_ID_LEN) {
            return Limit;
          }
          id := kv.value;
          return Ok;
        }
        if kv.key == "name" {
          if !Fits(kv.value, MAX_NAME_LEN) {
            return Limit;
          }
          name := kv.value;
          return Ok;
        }
      } else if section == AssetSection && asset.Some? {
        match ParseAssetKey(assets[asset.value], kv.key, kv.value) {
          case Failed(why) => return why;
          case Done(a) =>
            assets := assets[asset.value := a];
            return Ok;
        }
      } else if section == NodeSection && node.Some? {
        match ParseNodeKey(lib, nodes[node.value], kv.key, kv.value) {
          case Failed(why) => return why;
          case Done(n) =>
            nodes := nodes[node.value := n];
            return Ok;
        }
      } else if section == EventSection && event.Some? {
        match ParseEventKey(lib, events[event.value], kv.key, kv.value) {
          case Failed(why) => return why;
          case Done(e) =>
            events := events[event.value := e];
            return Ok;
        }
      }
    }
  }
}
