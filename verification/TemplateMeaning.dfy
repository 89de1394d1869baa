/**
 What an accepted template says, in the words of the template: each field of each record by
 the value of its key, and the required fields by the keys that must be given.
 */
module TemplateMeaning {
  import opened EdgeTypes
  import opened TemplateText
  import opened TemplateLoader
  import opened TemplateSections
  import opened TemplateValidation

  // ---- Accepted values --------------------------------------------------

  // Every value of the dictionary is one that such a section takes.
  ghost predicate ValuesOk(lib: Libraries, kind: Section, m: Dict) {
    forall key :: key in m ==> PairOk(lib, kind, KeyValue(key, m[key]))
  }

  lemma {:induction false} PairsGiveValues(lib: Libraries, kind: Section, kvs: seq<KeyValue>)
    requires PairsOk(lib, kind, kvs)
    ensures ValuesOk(lib, kind, Dictionary(kvs))
  {
    hide PairOk;
    if kvs != [] {
      var n := |kvs| - 1;
      assert PairOk(lib, kind, kvs[n]);
      PairsGiveValues(lib, kind, kvs[..n]);
    }
  }

  ghost predicate AllPairsOk(lib: Libraries, kind: Section, sections: seq<seq<KeyValue>>) {
    forall k :: 0 <= k < |sections| ==> PairsOk(lib, kind, sections[k])
  }

  lemma {:induction false} KindKeepsPairs(lib: Libraries, t: seq<Part>, kind: Section)
    requires forall p :: 0 <= p < |t| ==> PairsOk(lib, t[p].kind, t[p].pairs)
    ensures AllPairsOk(lib, kind, OfKind(t, kind))
  {
    hide PairsOk;
    if t != [] {
      KindKeepsPairs(lib, t[..|t| - 1], kind);
      assert PairsOk(lib, t[|t| - 1].kind, t[|t| - 1].pairs);
    }
  }

  // The dictionary of section k of a kind.
  function SectionOf(lines: seq<string>, kind: Section, k: nat): Dict
    requires k < |OfKind(SectionsOf(lines), kind)|
  {
    Dictionary(OfKind(SectionsOf(lines), kind)[k])
  }

  lemma AcceptedValues(lib: Libraries, lines: seq<string>, kind: Section, k: nat)
    requires LoadLines(lib, EMPTY_DRAFT, lines).Done? && k < |OfKind(SectionsOf(lines), kind)|
    ensures ValuesOk(lib, kind, SectionOf(lines, kind, k))
  {
    hide SectionsOf, LoadLines, AllLinesOk, OfKind, PairOk;
    LoaderFollowsSections(lib, lines);
    AcceptedPairs(lib, lines);
    KindKeepsPairs(lib, SectionsOf(lines), kind);
    PairsGiveValues(lib, kind, OfKind(SectionsOf(lines), kind)[k]);
  }

  // ---- The fields of a loaded record ------------------------------------

  // The number given for a key, or the default when there is none.
  ghost predicate NumberFrom(lib: Libraries, m: Dict, key: string, low: nat, high: nat, n: nat) {
    if key in m then ParseUnsigned(lib, m[key]) == Some(n) && low <= n <= high else n == 0
  }

  ghost predicate DoubleFrom(lib: Libraries, m: Dict, key: string, default: Double, d: Double) {
    if key in m then ParseDouble(lib, m[key]) == Some(d) else d == default
  }

  ghost predicate AssetSays(a: Asset, m: Dict) {
    && a.id == Given(m, "id") && a.kind == Given(m, "type") && a.name == Given(m, "name")
    && a.parentId == Given(m, "parent") && a.parentIndex == INVALID_INDEX
  }

  ghost predicate NodeSays(lib: Libraries, n: NodeSpec, m: Dict) {
    && n.assetId == Given(m, "asset") && n.id == Given(m, "id") && n.name == Given(m, "name")
    && (n.dataType == Bool <==> Given(m, "data_type") == "bool")
    && (n.dataType == Int16Type <==> Given(m, "data_type") == "int16")
    && (n.dataType == Int32Type <==> Given(m, "data_type") == "int32")
    && (n.dataType == UInt32Type <==> Given(m, "data_type") == "uint32")
    && (n.dataType == DoubleType <==> Given(m, "data_type") == "double")
    && (n.writable <==> Given(m, "access") == "read_write")
    && NumberFrom(lib, m, "modbus_unit", 1, 247, n.unit)
    && NumberFrom(lib, m, "modbus_register", 0, 4294967295, n.register)
    && DoubleFrom(lib, m, "scale", Finite(1.0), n.scale)
    && n.assetIndex == INVALID_INDEX
  }

  ghost predicate EventSays(lib: Libraries, e: Event, m: Dict) {
    && e.id == Given(m, "id") && e.assetId == Given(m, "asset") && e.sourceNodeId == Given(m, "source_node")
    && (e.condition == GreaterThan <==> Given(m, "condition") == "greater_than")
    && (e.condition == LessThan <==> Given(m, "condition") == "less_than")
    && DoubleFrom(lib, m, "threshold", Finite(0.0), e.threshold)
    && NumberFrom(lib, m, "severity", 0, 65535, e.severity)
    && !e.active && e.assetIndex == INVALID_INDEX && e.sourceIndex == INVALID_INDEX
  }

  // The plant, and asset k, node k and event k, of an accepted template say what their own
  // sections say.
  lemma LoadedPlant(lib: Libraries, lines: seq<string>)
    requires LoadLines(lib, EMPTY_DRAFT, lines).Done?
    ensures var d, m := LoadLines(lib, EMPTY_DRAFT, lines).value.draft, Dictionary(PlantPairs(SectionsOf(lines)));
      && d.id == Given(m, "id") && d.name == Given(m, "name")
      && |d.assets| == |OfKind(SectionsOf(lines), AssetSection)|
      && |d.nodes| == |OfKind(SectionsOf(lines), NodeSection)|
      && |d.events| == |OfKind(SectionsOf(lines), EventSection)|
  {
    hide LoadLines, SectionsOf, OfKind, Dictionary, PlantPairs;
    LoaderFollowsSections(lib, lines);
  }

  lemma LoadedAsset(lib: Libraries, lines: seq<string>, k: nat)
    requires LoadLines(lib, EMPTY_DRAFT, lines).Done? && k < |OfKind(SectionsOf(lines), AssetSection)|
    ensures var d := LoadLines(lib, EMPTY_DRAFT, lines).value.draft;
      k < |d.assets| && AssetSays(d.assets[k], SectionOf(lines, AssetSection, k))
  {
    hide LoadLines, SectionsOf, OfKind, Dictionary, PlantPairs;
    LoaderFollowsSections(lib, lines);
  }

  lemma LoadedNode(lib: Libraries, lines: seq<string>, k: nat)
    requires LoadLines(lib, EMPTY_DRAFT, lines).Done? && k < |OfKind(SectionsOf(lines), NodeSection)|
    ensures var d := LoadLines(lib, EMPTY_DRAFT, lines).value.draft;
      k < |d.nodes| && NodeSays(lib, d.nodes[k], SectionOf(lines, NodeSection, k))
  {
    hide LoadLines, SectionsOf, OfKind, Dictionary, PlantPairs, NodeOf, NodeSays, ValuesOk;
    LoaderFollowsSections(lib, lines);
    AcceptedValues(lib, lines, NodeSection, k);
    NodeWords(lib, SectionOf(lines, NodeSection, k));
  }

  lemma LoadedEvent(lib: Libraries, lines: seq<string>, k: nat)
    requires LoadLines(lib, EMPTY_DRAFT, lines).Done? && k < |OfKind(SectionsOf(lines), EventSection)|
    ensures var d := LoadLines(lib, EMPTY_DRAFT, lines).value.draft;
      k < |d.events| && EventSays(lib, d.events[k], SectionOf(lines, EventSection, k))
  {
    hide LoadLines, SectionsOf, OfKind, Dictionary, PlantPairs, EventOf, EventSays, ValuesOk;
    LoaderFollowsSections(lib, lines);
    AcceptedValues(lib, lines, EventSection, k);
    EventWords(lib, SectionOf(lines, EventSection, k));
  }

  lemma NodeWords(lib: Libraries, m: Dict)
    requires ValuesOk(lib, NodeSection, m)
    ensures NodeSays(lib, NodeOf(lib, m), m)
  {
    TypeWords(Given(m, "data_type"));
    NodeNumbers(lib, m);
    hide ParseDataType, GivenNumber, GivenDouble, NumberFrom, DoubleFrom, ValuesOk;
  }

  lemma NodeNumbers(lib: Libraries, m: Dict)
    requires ValuesOk(lib, NodeSection, m)
    ensures NumberFrom(lib, m, "modbus_unit", 1, 247, GivenNumber(lib, m, "modbus_unit"))
    ensures NumberFrom(lib, m, "modbus_register", 0, 4294967295, GivenNumber(lib, m, "modbus_register"))
    ensures DoubleFrom(lib, m, "scale", Finite(1.0), GivenDouble(lib, m, "scale", Finite(1.0)))
  {
    hide ParseUnsigned, ParseDouble;
    if "modbus_unit" in m { assert PairOk(lib, NodeSection, KeyValue("modbus_unit", m["modbus_unit"])); }
    if "modbus_register" in m { assert PairOk(lib, NodeSection, KeyValue("modbus_register", m["modbus_register"])); }
    if "scale" in m { assert PairOk(lib, NodeSection, KeyValue("scale", m["scale"])); }
  }

  lemma EventWords(lib: Libraries, m: Dict)
    requires ValuesOk(lib, EventSection, m)
    ensures EventSays(lib, EventOf(lib, m), m)
  {
    ConditionWords(Given(m, "condition"));
    hide ParseCondition, ParseUnsigned, ParseDouble;
    if "threshold" in m { assert PairOk(lib, EventSection, KeyValue("threshold", m["threshold"])); }
    if "severity" in m { assert PairOk(lib, EventSection, KeyValue("severity", m["severity"])); }
  }

  // ---- Required keys ----------------------------------------------------

  predicate AssetGiven(m: Dict) { "id" in m && "type" in m && "name" in m }

  predicate NodeGiven(lib: Libraries, m: Dict) {
    && "asset" in m && "id" in m && "name" in m && "data_type" in m && "modbus_unit" in m
    && "modbus_register" in m && ParseUnsigned(lib, m["modbus_register"]) != Some(0)
  }

  predicate EventGiven(lib: Libraries, m: Dict) {
    && "asset" in m && "id" in m && "source_node" in m && "condition" in m
    && "severity" in m && ParseUnsigned(lib, m["severity"]) != Some(0)
  }

  // A template whose lines are all accepted has every required field exactly when the plant gives
  // its id and name and every section gives the required keys of its kind, with a register and
  // a severity that are not 0. Scale, access, source, parent and threshold may be left out.
  lemma RequiredKeys(lib: Libraries, lines: seq<string>)
    requires LoadLines(lib, EMPTY_DRAFT, lines).Done?
    ensures var t := SectionsOf(lines);
      var plant := Dictionary(PlantPairs(t));
      RequiredFields(LoadLines(lib, EMPTY_DRAFT, lines).value.draft) <==>
        && "id" in plant && "name" in plant
        && (forall k :: 0 <= k < |OfKind(t, AssetSection)| ==> AssetGiven(SectionOf(lines, AssetSection, k)))
        && (forall k :: 0 <= k < |OfKind(t, NodeSection)| ==> NodeGiven(lib, SectionOf(lines, NodeSection, k)))
        && (forall k :: 0 <= k < |OfKind(t, EventSection)| ==> EventGiven(lib, SectionOf(lines, EventSection, k)))
  {
    hide SectionsOf, LoadLines, AllLinesOk, OfKind, PlantPairs, PairsOk, ValuesOk, Dictionary;
    hide AssetGiven, NodeGiven, EventGiven, AssetComplete, NodeComplete, EventComplete, AssetOf, NodeOf, EventOf, Given;
    var t := SectionsOf(lines);
    LoaderFollowsSections(lib, lines);
    AcceptedPairs(lib, lines);
    PlantNeeds(lib, t);
    forall k | 0 <= k < |OfKind(t, AssetSection)|
      ensures AssetComplete(DraftOf(lib, t).assets[k]) <==> AssetGiven(SectionOf(lines, AssetSection, k))
    {
      AcceptedValues(lib, lines, AssetSection, k);
      AssetNeeds(lib, SectionOf(lines, AssetSection, k));
    }
    forall k | 0 <= k < |OfKind(t, NodeSection)|
      ensures NodeComplete(DraftOf(lib, t).nodes[k]) <==> NodeGiven(lib, SectionOf(lines, NodeSection, k))
    {
      AcceptedValues(lib, lines, NodeSection, k);
      NodeNeeds(lib, SectionOf(lines, NodeSection, k));
    }
    forall k | 0 <= k < |OfKind(t, EventSection)|
      ensures EventComplete(DraftOf(lib, t).events[k]) <==> EventGiven(lib, SectionOf(lines, EventSection, k))
    {
      AcceptedValues(lib, lines, EventSection, k);
      EventNeeds(lib, SectionOf(lines, EventSection, k));
    }
  }

  lemma {:induction false} PlantNeeds(lib: Libraries, t: seq<Part>)
    requires forall p :: 0 <= p < |t| ==> PairsOk(lib, t[p].kind, t[p].pairs)
    ensures var m := Dictionary(PlantPairs(t));
      && (Given(m, "id") != "" <==> "id" in m) && (Given(m, "name") != "" <==> "name" in m)
  {
    var m := Dictionary(PlantPairs(t));
    PlantKeepsPairs(lib, t);
    PairsGiveValues(lib, PlantSection, PlantPairs(t));
    if "id" in m { assert PairOk(lib, PlantSection, KeyValue("id", m["id"])); }
    if "name" in m { assert PairOk(lib, PlantSection, KeyValue("name", m["name"])); }
  }

  lemma {:induction false} PlantKeepsPairs(lib: Libraries, t: seq<Part>)
    requires forall p :: 0 <= p < |t| ==> PairsOk(lib, t[p].kind, t[p].pairs)
    ensures PairsOk(lib, PlantSection, PlantPairs(t))
  {
    hide PairOk;
    if t != [] {
      PlantKeepsPairs(lib, t[..|t| - 1]);
      assert PairsOk(lib, t[|t| - 1].kind, t[|t| - 1].pairs);
    }
  }

  lemma AssetNeeds(lib: Libraries, m: Dict)
    requires ValuesOk(lib, AssetSection, m)
    ensures AssetComplete(AssetOf(m)) <==> AssetGiven(m)
  {
    if "id" in m { assert PairOk(lib, AssetSection, KeyValue("id", m["id"])); }
    if "type" in m { assert PairOk(lib, AssetSection, KeyValue("type", m["type"])); }
    if "name" in m { assert PairOk(lib, AssetSection, KeyValue("name", m["name"])); }
  }

  lemma NodeNeeds(lib: Libraries, m: Dict)
    requires ValuesOk(lib, NodeSection, m)
    ensures NodeComplete(NodeOf(lib, m)) <==> NodeGiven(lib, m)
  {
    TypeWords(Given(m, "data_type"));
    NodeWords(lib, m);
    hide ParseDataType, ParseUnsigned, ParseDouble;
    if "asset" in m { assert PairOk(lib, NodeSection, KeyValue("asset", m["asset"])); }
    if "id" in m { assert PairOk(lib, NodeSection, KeyValue("id", m["id"])); }
    if "name" in m { assert PairOk(lib, NodeSection, KeyValue("name", m["name"])); }
    if "data_type" in m { assert PairOk(lib, NodeSection, KeyValue("data_type", m["data_type"])); }
  }

  lemma EventNeeds(lib: Libraries, m: Dict)
    requires ValuesOk(lib, EventSection, m)
    ensures EventComplete(EventOf(lib, m)) <==> EventGiven(lib, m)
  {
    ConditionWords(Given(m, "condition"));
    EventWords(lib, m);
    hide ParseCondition, ParseUnsigned, ParseDouble;
    if "asset" in m { assert PairOk(lib, EventSection, KeyValue("asset", m["asset"])); }
    if "id" in m { assert PairOk(lib, EventSection, KeyValue("id", m["id"])); }
    if "source_node" in m { assert PairOk(lib, EventSection, KeyValue("source_node", m["source_node"])); }
    if "condition" in m { assert PairOk(lib, EventSection, KeyValue("condition", m["condition"])); }
  }
}
