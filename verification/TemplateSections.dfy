/**
 What a template means. The sections of a template are read off its lines alone, each
 section is a dictionary, and a model is read off the dictionaries. The loader is shown to
 accept exactly the templates whose every line is good in its place, and to build exactly
 that model; and a template written from sections reads back as those sections.
 */
module TemplateSections {
  import opened EdgeTypes
  import opened TemplateText
  import opened TemplateLoader

  // ---- The sections of a template ---------------------------------------

  // A header and the pairs below it.
  datatype Part = Part(kind: Section, pairs: seq<KeyValue>)

  function HeaderKind(line: string): Section {
    if line == "[plant]" then PlantSection
    else if line == "[asset]" then AssetSection
    else if line == "[node]" then NodeSection
    else if line == "[event]" then EventSection
    else NoSection
  }

  // The section a pair would go to.
  function KindOf(t: seq<Part>): Section { if t == [] then NoSection else t[|t| - 1].kind }

  function WithPair(t: seq<Part>, kv: KeyValue): seq<Part>
    requires t != []
  {
    var n := |t| - 1;
    t[n := Part(t[n].kind, t[n].pairs + [kv])]
  }

  predicate IsPair(line: string) { line != "" && line[0] != '[' && 0 < FirstEquals(line) < |line| }

  predicate IsBlank(line: string) { line == "" || line[0] == '#' }

  function SectionLine(t: seq<Part>, line: string): seq<Part> {
    if IsBlank(line) then t
    else if HeaderKind(line) != NoSection then t + [Part(HeaderKind(line), [])]
    else if t != [] && IsPair(line) then WithPair(t, SplitAt(line))
    else t
  }

  function SectionsOf(lines: seq<string>): seq<Part> {
    if lines == [] then []
    else
      var n := |lines| - 1;
      SectionLine(SectionsOf(lines[..n]), TrimNewline(lines[n]))
  }

  // The sections of one kind.
  function OfKind(t: seq<Part>, kind: Section): seq<seq<KeyValue>> {
    if t == [] then []
    else
      var n := |t| - 1;
      OfKind(t[..n], kind) + (if t[n].kind == kind then [t[n].pairs] else [])
  }

  // There is only one plant: its sections count as one.
  function PlantPairs(t: seq<Part>): seq<KeyValue> {
    if t == [] then []
    else
      var n := |t| - 1;
      PlantPairs(t[..n]) + (if t[n].kind == PlantSection then t[n].pairs else [])
  }

  lemma OfKindOpens(t: seq<Part>, kind: Section, k: Section)
    ensures OfKind(t + [Part(kind, [])], k) == OfKind(t, k) + (if kind == k then [[]] else [])
    ensures PlantPairs(t + [Part(kind, [])]) == PlantPairs(t)
  {
    assert (t + [Part(kind, [])])[..|t|] == t;
  }

  lemma OfKindGrows(t: seq<Part>, kv: KeyValue, k: Section)
    requires t != []
    ensures KindOf(t) != k ==> OfKind(WithPair(t, kv), k) == OfKind(t, k)
    ensures KindOf(t) == k ==> OfKind(t, k) != [] && OfKind(WithPair(t, kv), k) == PairAdded(OfKind(t, k), kv)
    ensures PlantPairs(WithPair(t, kv)) == PlantPairs(t) + (if KindOf(t) == PlantSection then [kv] else [])
  {
    var n := |t| - 1;
    assert WithPair(t, kv)[..n] == t[..n];
  }

  function PairAdded(sections: seq<seq<KeyValue>>, kv: KeyValue): seq<seq<KeyValue>>
    requires sections != []
  {
    var n := |sections| - 1;
    sections[n := sections[n] + [kv]]
  }

  // ---- The model of the sections ----------------------------------------

  type Dict = map<string, string>

  // The last value given for each key.
  function Dictionary(kvs: seq<KeyValue>): Dict {
    if kvs == [] then map[]
    else Dictionary(kvs[..|kvs| - 1])[kvs[|kvs| - 1].key := kvs[|kvs| - 1].value]
  }

  function Given(m: Dict, key: string): string { if key in m then m[key] else "" }

  function GivenNumber(lib: Libraries, m: Dict, key: string): nat {
    if key in m && ParseUnsigned(lib, m[key]).Some? then ParseUnsigned(lib, m[key]).value else 0
  }

  function GivenDouble(lib: Libraries, m: Dict, key: string, default: Double): Double {
    if key in m && ParseDouble(lib, m[key]).Some? then ParseDouble(lib, m[key]).value else default
  }

  function AssetOf(m: Dict): Asset {
    Asset(Given(m, "id"), Given(m, "type"), Given(m, "name"), Given(m, "parent"), INVALID_INDEX, 0, 0)
  }

  function NodeOf(lib: Libraries, m: Dict): NodeSpec {
    NodeSpec(Given(m, "asset"), Given(m, "id"), Given(m, "name"),
             ParseDataType(Given(m, "data_type")), Given(m, "access") == "read_write",
             GivenNumber(lib, m, "modbus_unit"), GivenNumber(lib, m, "modbus_register"),
             GivenDouble(lib, m, "scale", Finite(1.0)), INVALID_INDEX)
  }

  function EventOf(lib: Libraries, m: Dict): Event {
    Event(Given(m, "id"), Given(m, "asset"), Given(m, "source_node"), INVALID_INDEX, INVALID_INDEX,
          ParseCondition(Given(m, "condition")), GivenDouble(lib, m, "threshold", Finite(0.0)),
          GivenNumber(lib, m, "severity"), false)
  }

  function AssetsOf(sections: seq<seq<KeyValue>>): (r: seq<Asset>)
    ensures |r| == |sections|
  {
    seq(|sections|, k requires 0 <= k < |sections| => AssetOf(Dictionary(sections[k])))
  }

  function NodesOf(lib: Libraries, sections: seq<seq<KeyValue>>): (r: seq<NodeSpec>)
    ensures |r| == |sections|
  {
    seq(|sections|, k requires 0 <= k < |sections| => NodeOf(lib, Dictionary(sections[k])))
  }

  function EventsOf(lib: Libraries, sections: seq<seq<KeyValue>>): (r: seq<Event>)
    ensures |r| == |sections|
  {
    seq(|sections|, k requires 0 <= k < |sections| => EventOf(lib, Dictionary(sections[k])))
  }

  function DraftOf(lib: Libraries, t: seq<Part>): Draft {
    var plant := Dictionary(PlantPairs(t));
    Draft(Given(plant, "id"), Given(plant, "name"), AssetsOf(OfKind(t, AssetSection)),
          NodesOf(lib, OfKind(t, NodeSection)), EventsOf(lib, OfKind(t, EventSection)))
  }

  // ---- Which lines are good ---------------------------------------------

  function TextStatus(value: string, size: nat): Status { if 0 < |value| < size then Ok else Limit }

  function ValueStatus(good: bool): Status { if good then Ok else Invalid }

  predicate NumberWithin(lib: Libraries, value: string, low: nat, high: nat) {
    ParseUnsigned(lib, value).Some? && low <= ParseUnsigned(lib, value).value <= high
  }

  function PlantStatus(kv: KeyValue): Status {
    if kv.key == "id" then TextStatus(kv.value, 64)
    else if kv.key == "name" then TextStatus(kv.value, 128)
    else Invalid
  }

  function AssetStatus(kv: KeyValue): Status {
    if kv.key == "id" || kv.key == "type" then TextStatus(kv.value, 64)
    else if kv.key == "name" then TextStatus(kv.value, 128)
    else if kv.key == "parent" then (if |kv.value| < 64 then Ok else Limit)
    else Invalid
  }

  function NodeStatus(lib: Libraries, kv: KeyValue): Status {
    var KeyValue(key, value) := kv;
    if key == "asset" || key == "id" then TextStatus(value, 64)
    else if key == "name" then TextStatus(value, 128)
    else if key == "data_type" then
      ValueStatus(value == "bool" || value == "int16" || value == "int32" || value == "uint32" || value == "double")
    else if key == "access" then ValueStatus(value == "read" || value == "read_write")
    else if key == "source" then ValueStatus(value == "modbus")
    else if key == "modbus_unit" then ValueStatus(NumberWithin(lib, value, 1, 247))
    else if key == "modbus_register" then ValueStatus(NumberWithin(lib, value, 0, 4294967295))
    else if key == "scale" then ValueStatus(ParseDouble(lib, value).Some?)
    else Invalid
  }

  function EventStatus(lib: Libraries, kv: KeyValue): Status {
    var KeyValue(key, value) := kv;
    if key == "asset" || key == "id" || key == "source_node" then TextStatus(value, 64)
    else if key == "condition" then ValueStatus(value == "greater_than" || value == "less_than")
    else if key == "threshold" then ValueStatus(ParseDouble(lib, value).Some?)
    else if key == "severity" then ValueStatus(NumberWithin(lib, value, 0, 65535))
    else Invalid
  }

  // Which pairs a section takes, and the status of one it does not take: a text of the wrong
  // length is over a limit, and anything else is invalid. What the section already holds does
  // not matter.
  function PairStatus(lib: Libraries, kind: Section, kv: KeyValue): Status {
    match kind
    case NoSection => Invalid
    case PlantSection => PlantStatus(kv)
    case AssetSection => AssetStatus(kv)
    case NodeSection => NodeStatus(lib, kv)
    case EventSection => EventStatus(lib, kv)
  }

  predicate PairOk(lib: Libraries, kind: Section, kv: KeyValue) { PairStatus(lib, kind, kv) == Ok }

  function MaxRecords(kind: Section): nat {
    match kind
    case AssetSection => 1024
    case NodeSection => 65536
    case EventSection => 4096
    case _ => 0
  }

  predicate RoomFor(t: seq<Part>, kind: Section) {
    kind == PlantSection || |OfKind(t, kind)| < MaxRecords(kind)
  }

  // The line below these sections: Ok, or the status that it ends the loading with.
  function LineStatus(lib: Libraries, t: seq<Part>, raw: string): Status {
    var line := TrimNewline(raw);
    if |raw| + 2 > 512 then Limit
    else if IsBlank(line) then Ok
    else if HeaderKind(line) != NoSection then (if RoomFor(t, HeaderKind(line)) then Ok else Limit)
    else if IsPair(line) then PairStatus(lib, KindOf(t), SplitAt(line))
    else Invalid
  }

  predicate LineOk(lib: Libraries, t: seq<Part>, raw: string) { LineStatus(lib, t, raw) == Ok }

  ghost predicate AllLinesOk(lib: Libraries, lines: seq<string>) {
    forall i :: 0 <= i < |lines| ==> LineOk(lib, SectionsOf(lines[..i]), lines[i])
  }

  // ---- One pair, one record ---------------------------------------------

  // What a record becomes, or the status of the pair.
  function Result<T>(status: Status, value: T): Parsed<T> { if status == Ok then Done(value) else Failed(status) }

  lemma PlantPair(d: Draft, m: Dict, kv: KeyValue)
    requires d.id == Given(m, "id") && d.name == Given(m, "name")
    ensures var m' := m[kv.key := kv.value];
      ParsePlantKey(d, kv.key, kv.value)
        == Result(PlantStatus(kv), d.(id := Given(m', "id"), name := Given(m', "name")))
  {
  }

  lemma AssetPair(m: Dict, kv: KeyValue)
    ensures ParseAssetKey(AssetOf(m), kv.key, kv.value) == Result(AssetStatus(kv), AssetOf(m[kv.key := kv.value]))
  {
  }

  lemma GivenAfter(lib: Libraries, m: Dict, kv: KeyValue, key: string, default: Double)
    ensures var m' := m[kv.key := kv.value];
      && Given(m', key) == (if kv.key == key then kv.value else Given(m, key))
      && (kv.key != key ==> GivenNumber(lib, m', key) == GivenNumber(lib, m, key))
      && (kv.key != key ==> GivenDouble(lib, m', key, default) == GivenDouble(lib, m, key, default))
      && (kv.key == key && ParseUnsigned(lib, kv.value).Some? ==>
            GivenNumber(lib, m', key) == ParseUnsigned(lib, kv.value).value)
      && (kv.key == key && ParseDouble(lib, kv.value).Some? ==>
            GivenDouble(lib, m', key, default) == ParseDouble(lib, kv.value).value)
  {
    hide ParseUnsigned, ParseDouble;
  }

  // What the words of a template mean.
  lemma TypeWords(word: string)
    ensures ParseDataType(word) == Bool <==> word == "bool"
    ensures ParseDataType(word) == Int16Type <==> word == "int16"
    ensures ParseDataType(word) == Int32Type <==> word == "int32"
    ensures ParseDataType(word) == UInt32Type <==> word == "uint32"
    ensures ParseDataType(word) == DoubleType <==> word == "double"
  {
    assert "int16"[3] != "int32"[3] && "uint32"[0] != "double"[0];
  }

  lemma ConditionWords(word: string)
    ensures ParseCondition(word) == GreaterThan <==> word == "greater_than"
    ensures ParseCondition(word) == LessThan <==> word == "less_than"
  {
  }

  lemma NodePair(lib: Libraries, m: Dict, kv: KeyValue)
    ensures ParseNodeKey(lib, NodeOf(lib, m), kv.key, kv.value)
      == Result(NodeStatus(lib, kv), NodeOf(lib, m[kv.key := kv.value]))
  {
    TypeWords(kv.value);
    hide ParseUnsigned, ParseDouble, ParseDataType, Given, GivenNumber, GivenDouble;
    var one := Finite(1.0);
    GivenAfter(lib, m, kv, "asset", one);
    GivenAfter(lib, m, kv, "id", one);
    GivenAfter(lib, m, kv, "name", one);
    GivenAfter(lib, m, kv, "data_type", one);
    GivenAfter(lib, m, kv, "access", one);
    GivenAfter(lib, m, kv, "modbus_unit", one);
    GivenAfter(lib, m, kv, "modbus_register", one);
    GivenAfter(lib, m, kv, "scale", one);
    assert "asset"[0] != "scale"[0] && "access"[0] != "source"[0];
  }

  lemma EventPair(lib: Libraries, m: Dict, kv: KeyValue)
    ensures ParseEventKey(lib, EventOf(lib, m), kv.key, kv.value)
      == Result(EventStatus(lib, kv), EventOf(lib, m[kv.key := kv.value]))
  {
    ConditionWords(kv.value);
    hide ParseUnsigned, ParseDouble, ParseCondition, Given, GivenNumber, GivenDouble;
    var zero := Finite(0.0);
    GivenAfter(lib, m, kv, "asset", zero);
    GivenAfter(lib, m, kv, "id", zero);
    GivenAfter(lib, m, kv, "source_node", zero);
    GivenAfter(lib, m, kv, "condition", zero);
    GivenAfter(lib, m, kv, "threshold", zero);
    GivenAfter(lib, m, kv, "severity", zero);
    assert "condition"[0] != "threshold"[0];
  }

  // ---- One line ---------------------------------------------------------

  lemma DictionaryGrows(kvs: seq<KeyValue>, kv: KeyValue)
    ensures Dictionary(kvs + [kv]) == Dictionary(kvs)[kv.key := kv.value]
  {
    assert (kvs + [kv])[..|kvs|] == kvs;
  }

  function WithRecord(d: Draft, kind: Section): Draft {
    match kind
    case AssetSection => d.(assets := d.assets + [EMPTY_ASSET])
    case NodeSection => d.(nodes := d.nodes + [EMPTY_NODE])
    case EventSection => d.(events := d.events + [EMPTY_EVENT])
    case _ => d
  }

  lemma HeaderOpens(lib: Libraries, t: seq<Part>, kind: Section)
    ensures DraftOf(lib, t + [Part(kind, [])]) == WithRecord(DraftOf(lib, t), kind)
  {
    OfKindOpens(t, kind, AssetSection);
    OfKindOpens(t, kind, NodeSection);
    OfKindOpens(t, kind, EventSection);
    hide OfKind, PlantPairs;
    assert forall k: Section :: OfKind(t, k) + [] == OfKind(t, k);
    assert Dictionary([]) == map[];
  }

  // The draft after the pair, by the kind of the section it falls in.
  lemma PairEdits(lib: Libraries, t: seq<Part>, kv: KeyValue)
    ensures var r := EditLatest(lib, Loading(DraftOf(lib, t), KindOf(t)), kv);
      var status := PairStatus(lib, KindOf(t), kv);
      && (status == Ok ==> t != [] && r == Done(Loading(DraftOf(lib, WithPair(t, kv)), KindOf(t))))
      && (status != Ok ==> r == Failed(status))
  {
    hide ParsePlantKey, ParseAssetKey, ParseNodeKey, ParseEventKey, AssetsOf, NodesOf, EventsOf, Dictionary, PairAdded;
    hide OfKind, PlantPairs, WithPair, PlantStatus, AssetStatus, NodeStatus, EventStatus;
    if t != [] {
      assert PlantPairs(t) + [] == PlantPairs(t);
      OfKindGrows(t, kv, AssetSection);
      OfKindGrows(t, kv, NodeSection);
      OfKindGrows(t, kv, EventSection);
      match KindOf(t)
      case PlantSection => PlantPairEdits(lib, t, kv);
      case AssetSection => AssetPairEdits(OfKind(t, AssetSection), kv);
      case NodeSection => NodePairEdits(lib, OfKind(t, NodeSection), kv);
      case EventSection => EventPairEdits(lib, OfKind(t, EventSection), kv);
      case NoSection =>
    }
  }

  lemma PlantPairEdits(lib: Libraries, t: seq<Part>, kv: KeyValue)
    ensures var d, m := DraftOf(lib, t), Dictionary(PlantPairs(t) + [kv]);
      ParsePlantKey(d, kv.key, kv.value) == Result(PlantStatus(kv), d.(id := Given(m, "id"), name := Given(m, "name")))
  {
    DictionaryGrows(PlantPairs(t), kv);
    PlantPair(DraftOf(lib, t), Dictionary(PlantPairs(t)), kv);
  }

  lemma AssetPairEdits(sections: seq<seq<KeyValue>>, kv: KeyValue)
    requires sections != []
    ensures var n, assets := |sections| - 1, AssetsOf(sections);
      var r := ParseAssetKey(assets[n], kv.key, kv.value);
      && (r.Done? <==> AssetStatus(kv) == Ok) && (r.Failed? ==> r.status == AssetStatus(kv))
      && (r.Done? ==> assets[n := r.value] == AssetsOf(PairAdded(sections, kv)))
  {
    hide ParseAssetKey, AssetOf, Dictionary, AssetStatus;
    var last := sections[|sections| - 1];
    DictionaryGrows(last, kv);
    AssetPair(Dictionary(last), kv);
    assert AssetsOf(PairAdded(sections, kv))
      == AssetsOf(sections)[|sections| - 1 := AssetOf(Dictionary(last + [kv]))];
  }

  lemma NodePairEdits(lib: Libraries, sections: seq<seq<KeyValue>>, kv: KeyValue)
    requires sections != []
    ensures var n, nodes := |sections| - 1, NodesOf(lib, sections);
      var r := ParseNodeKey(lib, nodes[n], kv.key, kv.value);
      && (r.Done? <==> NodeStatus(lib, kv) == Ok) && (r.Failed? ==> r.status == NodeStatus(lib, kv))
      && (r.Done? ==> nodes[n := r.value] == NodesOf(lib, PairAdded(sections, kv)))
  {
    hide ParseNodeKey, NodeOf, Dictionary, NodeStatus;
    var last := sections[|sections| - 1];
    DictionaryGrows(last, kv);
    NodePair(lib, Dictionary(last), kv);
    assert NodesOf(lib, PairAdded(sections, kv))
      == NodesOf(lib, sections)[|sections| - 1 := NodeOf(lib, Dictionary(last + [kv]))];
  }

  lemma EventPairEdits(lib: Libraries, sections: seq<seq<KeyValue>>, kv: KeyValue)
    requires sections != []
    ensures var n, events := |sections| - 1, EventsOf(lib, sections);
      var r := ParseEventKey(lib, events[n], kv.key, kv.value);
      && (r.Done? <==> EventStatus(lib, kv) == Ok) && (r.Failed? ==> r.status == EventStatus(lib, kv))
      && (r.Done? ==> events[n := r.value] == EventsOf(lib, PairAdded(sections, kv)))
  {
    hide ParseEventKey, EventOf, Dictionary, EventStatus;
    var last := sections[|sections| - 1];
    DictionaryGrows(last, kv);
    EventPair(lib, Dictionary(last), kv);
    assert EventsOf(lib, PairAdded(sections, kv))
      == EventsOf(lib, sections)[|sections| - 1 := EventOf(lib, Dictionary(last + [kv]))];
  }

  function LoadingOf(lib: Libraries, t: seq<Part>): Loading { Loading(DraftOf(lib, t), KindOf(t)) }

  lemma RecordCounts(lib: Libraries, t: seq<Part>)
    ensures var d := DraftOf(lib, t);
      && |d.assets| == |OfKind(t, AssetSection)| && |d.nodes| == |OfKind(t, NodeSection)|
      && |d.events| == |OfKind(t, EventSection)|
  {
  }

  lemma LineStep(lib: Libraries, t: seq<Part>, raw: string)
    ensures var r := LoadLine(lib, LoadingOf(lib, t), raw);
      var status := LineStatus(lib, t, raw);
      r == if status == Ok then Done(LoadingOf(lib, SectionLine(t, TrimNewline(raw)))) else Failed(status)
  {
    hide EditLatest, DraftOf, PairStatus, TrimNewline, FirstEquals, OfKind;
    var line := TrimNewline(raw);
    var kind := HeaderKind(line);
    if kind != NoSection { HeaderOpens(lib, t, kind); }
    if kind == NoSection && !IsBlank(line) && IsPair(line) { PairEdits(lib, t, SplitAt(line)); }
    RecordCounts(lib, t);
  }

  // ---- The whole template -----------------------------------------------

  // The loader accepts a template exactly when each of its lines is good below the sections
  // before it, and then it has built the model of the sections.
  lemma {:induction false} LoaderFollowsSections(lib: Libraries, lines: seq<string>)
    ensures var r := LoadLines(lib, EMPTY_DRAFT, lines);
      && (r.Done? <==> AllLinesOk(lib, lines))
      && (r.Done? ==> r.value == LoadingOf(lib, SectionsOf(lines)))
  {
    if lines == [] {
      assert Dictionary([]) == map[];
    } else {
      var n := |lines| - 1;
      LoaderFollowsSections(lib, lines[..n]);
      LineStep(lib, SectionsOf(lines[..n]), lines[n]);
      OneMoreLine(lib, lines);
      hide LoadLine, LineOk, LoadingOf, SectionLine, AllLinesOk;
    }
  }

  // Otherwise it stops at the first line that is not, with the status of that line.
  lemma {:induction false} LoaderStopsAtBadLine(lib: Libraries, lines: seq<string>) returns (i: nat)
    requires LoadLines(lib, EMPTY_DRAFT, lines).Failed?
    ensures i < |lines| && AllLinesOk(lib, lines[..i])
    ensures LoadLines(lib, EMPTY_DRAFT, lines).status == LineStatus(lib, SectionsOf(lines[..i]), lines[i]) != Ok
  {
    hide LoadLine, LineStatus, AllLinesOk, LoadingOf, SectionsOf;
    if lines == [] {
      assert false;
    } else {
      var n := |lines| - 1;
      if LoadLines(lib, EMPTY_DRAFT, lines[..n]).Failed? {
        i := LoaderStopsAtBadLine(lib, lines[..n]);
        assert lines[..n][..i] == lines[..i];
      } else {
        i := n;
        LoaderFollowsSections(lib, lines[..n]);
        LineStep(lib, SectionsOf(lines[..n]), lines[n]);
      }
    }
  }

  lemma OneMoreLine(lib: Libraries, lines: seq<string>)
    requires lines != []
    ensures var n := |lines| - 1;
      AllLinesOk(lib, lines) <==> AllLinesOk(lib, lines[..n]) && LineOk(lib, SectionsOf(lines[..n]), lines[n])
  {
    hide LineOk, SectionsOf;
    var n := |lines| - 1;
    assert forall i :: 0 <= i < n ==> lines[..n][..i] == lines[..i];
  }

  ghost predicate PairsOk(lib: Libraries, kind: Section, pairs: seq<KeyValue>) {
    forall q :: 0 <= q < |pairs| ==> PairOk(lib, kind, pairs[q])
  }

  // Every pair of an accepted template is one its section takes.
  lemma {:induction false} AcceptedPairs(lib: Libraries, lines: seq<string>)
    requires AllLinesOk(lib, lines)
    ensures forall p :: 0 <= p < |SectionsOf(lines)| ==>
      PairsOk(lib, SectionsOf(lines)[p].kind, SectionsOf(lines)[p].pairs)
  {
    if lines != [] {
      var n := |lines| - 1;
      OneMoreLine(lib, lines);
      AcceptedPairs(lib, lines[..n]);
      AcceptedLine(lib, SectionsOf(lines[..n]), lines[n]);
      hide AllLinesOk, PairsOk, LineOk, SectionLine;
    }
  }

  lemma AcceptedLine(lib: Libraries, t: seq<Part>, raw: string)
    requires LineOk(lib, t, raw) && forall p :: 0 <= p < |t| ==> PairsOk(lib, t[p].kind, t[p].pairs)
    ensures var t' := SectionLine(t, TrimNewline(raw));
      forall p :: 0 <= p < |t'| ==> PairsOk(lib, t'[p].kind, t'[p].pairs)
  {
    hide PairStatus, TrimNewline, FirstEquals, RoomFor;
  }

  // ---- Writing a template -----------------------------------------------

  function HeaderLine(kind: Section): string {
    match kind
    case NoSection => ""
    case PlantSection => "[plant]"
    case AssetSection => "[asset]"
    case NodeSection => "[node]"
    case EventSection => "[event]"
  }

  function PairLine(kv: KeyValue): string { kv.key + "=" + kv.value }

  // The last line of a template, and the template without it.
  function LastLine(t: seq<Part>): string
    requires t != []
  {
    var Part(kind, pairs) := t[|t| - 1];
    if pairs == [] then HeaderLine(kind) else PairLine(pairs[|pairs| - 1])
  }

  function Shorter(t: seq<Part>): seq<Part>
    requires t != []
  {
    var n := |t| - 1;
    var Part(kind, pairs) := t[n];
    if pairs == [] then t[..n] else t[n := Part(kind, pairs[..|pairs| - 1])]
  }

  function Render(t: seq<Part>): seq<string>
    decreases |t|, if t == [] then 0 else |t[|t| - 1].pairs|
  {
    if t == [] then [] else Render(Shorter(t)) + [LastLine(t)]
  }

  // A pair that a line can carry.
  predicate CanWritePair(kv: KeyValue) {
    && kv.key != "" && kv.key[0] != '#' && kv.key[0] != '[' && '=' !in kv.key
    && (kv.value == "" || !IsLineEnd(kv.value[|kv.value| - 1]))
  }

  ghost predicate CanWritePart(part: Part) {
    part.kind != NoSection && forall q :: 0 <= q < |part.pairs| ==> CanWritePair(part.pairs[q])
  }

  ghost predicate CanWrite(t: seq<Part>) { forall p :: 0 <= p < |t| ==> CanWritePart(t[p]) }

  lemma HeaderReadsBack(kind: Section)
    requires kind != NoSection
    ensures var line := HeaderLine(kind);
      TrimNewline(line) == line && !IsBlank(line) && HeaderKind(line) == kind && |line| + 2 <= MAX_LINE_LEN
  {
  }

  lemma PairReadsBack(kv: KeyValue)
    requires CanWritePair(kv)
    ensures var line := PairLine(kv);
      && TrimNewline(line) == line && !IsBlank(line) && HeaderKind(line) == NoSection
      && IsPair(line) && SplitAt(line) == kv
  {
    var line := PairLine(kv);
    assert line[0] == kv.key[0] && line[|kv.key|] == '=';
    assert forall i :: 0 <= i < |kv.key| ==> line[i] == kv.key[i];
    assert FirstEquals(line) == |kv.key|;
  }

  lemma ShorterParts(t: seq<Part>)
    requires t != []
    ensures var before, pairs := Shorter(t), t[|t| - 1].pairs;
      if pairs == [] then t == before + [Part(KindOf(t), [])]
      else before != [] && KindOf(before) == KindOf(t) && t == WithPair(before, pairs[|pairs| - 1])
  {
    var pairs := t[|t| - 1].pairs;
    if pairs != [] { assert pairs == pairs[..|pairs| - 1] + [pairs[|pairs| - 1]]; }
  }

  lemma ShorterWrites(t: seq<Part>)
    requires t != [] && CanWrite(t)
    ensures CanWrite(Shorter(t))
  {
    hide CanWritePair;
    assert CanWritePart(t[|t| - 1]);
  }

  lemma LastLineReadsBack(t: seq<Part>)
    requires t != [] && CanWrite(t)
    ensures SectionLine(Shorter(t), TrimNewline(LastLine(t))) == t
  {
    var Part(kind, pairs) := t[|t| - 1];
    hide IsPair, IsBlank, HeaderLine, PairLine, CanWritePair, TrimNewline, HeaderKind, FirstEquals, WithPair, Shorter;
    assert CanWritePart(t[|t| - 1]);
    ShorterParts(t);
    if pairs == [] {
      HeaderReadsBack(kind);
    } else {
      PairReadsBack(pairs[|pairs| - 1]);
    }
  }

  lemma SectionsOneMore(lines: seq<string>, line: string)
    ensures SectionsOf(lines + [line]) == SectionLine(SectionsOf(lines), TrimNewline(line))
  {
    assert (lines + [line])[..|lines|] == lines;
  }

  // Reading undoes writing.
  lemma {:induction false} WrittenReadsBack(t: seq<Part>)
    requires CanWrite(t)
    ensures SectionsOf(Render(t)) == t
    decreases |t|, if t == [] then 0 else |t[|t| - 1].pairs|
  {
    hide SectionLine, TrimNewline, LastLine, CanWrite;
    if t != [] {
      ShorterWrites(t);
      LastLineReadsBack(t);
      WrittenReadsBack(Shorter(t));
      SectionsOneMore(Render(Shorter(t)), LastLine(t));
    }
  }

  ghost predicate PartLoads(lib: Libraries, part: Part) {
    PairsOk(lib, part.kind, part.pairs)
    && forall q :: 0 <= q < |part.pairs| ==> |PairLine(part.pairs[q])| + 2 <= MAX_LINE_LEN
  }

  ghost predicate WithinLimits(t: seq<Part>) {
    && |OfKind(t, AssetSection)| <= MAX_ASSETS && |OfKind(t, NodeSection)| <= MAX_NODES
    && |OfKind(t, EventSection)| <= MAX_EVENTS
  }

  ghost predicate Loadable(lib: Libraries, t: seq<Part>) {
    WithinLimits(t) && forall p :: 0 <= p < |t| ==> PartLoads(lib, t[p])
  }

  lemma EmptyLoads(lib: Libraries)
    ensures LoadLines(lib, EMPTY_DRAFT, []) == Done(LoadingOf(lib, [])) && Loadable(lib, [])
  {
    assert Dictionary([]) == map[];
  }

  lemma LoadOneMore(lib: Libraries, lines: seq<string>, line: string)
    ensures var before := LoadLines(lib, EMPTY_DRAFT, lines);
      LoadLines(lib, EMPTY_DRAFT, lines + [line]) ==
        if before.Failed? then before else LoadLine(lib, before.value, line)
  {
    assert (lines + [line])[..|lines|] == lines;
  }

  // A template written from sections loads exactly when each section takes each of its pairs,
  // every line fits the buffer and no kind has too many records; it gives their model.
  lemma {:induction false} WrittenLoads(lib: Libraries, t: seq<Part>)
    requires CanWrite(t)
    ensures var r := LoadLines(lib, EMPTY_DRAFT, Render(t));
      && (r.Done? <==> Loadable(lib, t))
      && (r.Done? ==> r.value == LoadingOf(lib, t))
    decreases |t|, if t == [] then 0 else |t[|t| - 1].pairs|
  {
    if t == [] {
      EmptyLoads(lib);
    } else {
      hide LoadLine, LoadLines, LineOk, LoadingOf, SectionLine, Loadable, LastLine, CanWrite, TrimNewline;
      var before := Shorter(t);
      ShorterWrites(t);
      LastLineReadsBack(t);
      WrittenLoads(lib, before);
      LoadOneMore(lib, Render(before), LastLine(t));
      LineStep(lib, before, LastLine(t));
      LastLineLoads(lib, t);
    }
  }

  lemma LastLineLoads(lib: Libraries, t: seq<Part>)
    requires t != [] && CanWrite(t)
    ensures Loadable(lib, t) <==> Loadable(lib, Shorter(t)) && LineOk(lib, Shorter(t), LastLine(t))
  {
    var Part(kind, pairs) := t[|t| - 1];
    assert CanWritePart(t[|t| - 1]);
    ShorterParts(t);
    hide CanWritePart, Loadable, LineOk, Shorter;
    if pairs == [] {
      HeaderLoads(lib, Shorter(t), kind);
    } else {
      PairLoads(lib, Shorter(t), pairs[|pairs| - 1]);
    }
  }

  lemma HeaderLoads(lib: Libraries, t: seq<Part>, kind: Section)
    requires kind != NoSection
    ensures Loadable(lib, t + [Part(kind, [])]) <==> Loadable(lib, t) && LineOk(lib, t, HeaderLine(kind))
  {
    hide IsPair, IsBlank, HeaderLine, TrimNewline, HeaderKind, OfKind, PairStatus;
    HeaderReadsBack(kind);
    OfKindOpens(t, kind, AssetSection);
    OfKindOpens(t, kind, NodeSection);
    OfKindOpens(t, kind, EventSection);
    var t' := t + [Part(kind, [])];
    assert forall p :: 0 <= p < |t| ==> t'[p] == t[p];
    assert PartLoads(lib, t'[|t|]);
  }

  lemma PairLoads(lib: Libraries, t: seq<Part>, kv: KeyValue)
    requires t != [] && CanWritePair(kv)
    ensures Loadable(lib, WithPair(t, kv)) <==> Loadable(lib, t) && LineOk(lib, t, PairLine(kv))
  {
    hide IsPair, IsBlank, PairLine, CanWritePair, TrimNewline, HeaderKind, OfKind, PairStatus, FirstEquals;
    PairReadsBack(kv);
    OfKindGrows(t, kv, AssetSection);
    OfKindGrows(t, kv, NodeSection);
    OfKindGrows(t, kv, EventSection);
    var n, t' := |t| - 1, WithPair(t, kv);
    assert forall p :: 0 <= p < n ==> t'[p] == t[p];
    assert PartLoads(lib, t'[n]) <==>
      PartLoads(lib, t[n]) && PairOk(lib, t[n].kind, kv) && |PairLine(kv)| + 2 <= MAX_LINE_LEN by
    {
      PartLoadsMore(lib, t[n], kv);
    }
  }

  lemma PartLoadsMore(lib: Libraries, part: Part, kv: KeyValue)
    ensures PartLoads(lib, Part(part.kind, part.pairs + [kv])) <==>
      PartLoads(lib, part) && PairOk(lib, part.kind, kv) && |PairLine(kv)| + 2 <= MAX_LINE_LEN
  {
    hide PairOk, PairLine;
    var n, pairs := |part.pairs|, part.pairs + [kv];
    assert pairs[n] == kv && forall q :: 0 <= q < n ==> pairs[q] == part.pairs[q];
  }
}
