/**
 The benchmark's synthetic plant: identical pumps, each with eleven nodes in a row and four
 optional events whose sources are looked up in the pump's own slice of the node table.
 */
module SyntheticPumps {
  import opened EdgeTypes
  import opened TemplateText
  import opened TemplateLoader
  import opened TemplateValidation
  import opened TemplateWiring

  datatype Tag = Tag(id: string, name: string, dataType: DataType, writable: bool)

  datatype EventSpec = EventSpec(sourceId: string, condition: Condition, threshold: real, severity: nat, suffix: string)

  const TAG_COUNT: nat := 11
  const EVENT_COUNT: nat := 4

  function TagAt(i: nat): Tag
    requires i < TAG_COUNT
  {
    if i == 0 then Tag("flow_rate", "FlowRate", DoubleType, false)
    else if i == 1 then Tag("suction_pressure", "SuctionPressure", DoubleType, false)
    else if i == 2 then Tag("discharge_pressure", "DischargePressure", DoubleType, false)
    else if i == 3 then Tag("motor_current", "MotorCurrent", DoubleType, false)
    else if i == 4 then Tag("motor_voltage", "MotorVoltage", DoubleType, false)
    else if i == 5 then Tag("vibration", "Vibration", DoubleType, false)
    else if i == 6 then Tag("bearing_temperature", "BearingTemperature", DoubleType, false)
    else if i == 7 then Tag("speed_rpm", "SpeedRPM", Int32Type, false)
    else if i == 8 then Tag("status", "Status", Int16Type, false)
    else if i == 9 then Tag("command_start", "CommandStart", Bool, true)
    else Tag("command_stop", "CommandStop", Bool, true)
  }

  function EventSpecAt(i: nat): EventSpec
    requires i < EVENT_COUNT
  {
    if i == 0 then EventSpec("vibration", GreaterThan, 8.5, 700, "high_vibration")
    else if i == 1 then EventSpec("bearing_temperature", GreaterThan, 85.0, 750, "high_bearing_temperature")
    else if i == 2 then EventSpec("suction_pressure", LessThan, 1.0, 600, "low_suction_pressure")
    else EventSpec("motor_current", GreaterThan, 850.0, 800, "overload_current")
  }

  // The tag that event i of a pump watches.
  function SourceTag(i: nat): (t: nat)
    requires i < EVENT_COUNT
    ensures t < TAG_COUNT && TagAt(t).id == EventSpecAt(i).sourceId
  {
    if i == 0 then 5 else if i == 1 then 6 else if i == 2 then 1 else 3
  }

  // ---- Names ------------------------------------------------------------

  function Decimal(n: nat): string {
    if n < 10 then [Digit(n)] else Decimal(n / 10) + [Digit(n % 10)]
  }

  function Digit(d: nat): char
    requires d < 10
  {
    "0123456789"[d]
  }

  function Pow10(k: nat): nat { if k == 0 then 1 else 10 * Pow10(k - 1) }

  lemma {:induction false} DecimalLength(n: nat, k: nat)
    requires k >= 1 && n < Pow10(k)
    ensures |Decimal(n)| <= k
  {
    if n >= 10 {
      assert Pow10(1) == 10;
      DecimalLength(n / 10, k - 1);
    }
  }

  // A number reads back as itself.
  lemma {:induction false} DecimalReadsBack(n: nat)
    ensures AllDigits(Decimal(n)) && DecimalValue(Decimal(n)) == n
  {
    DigitReadsBack(n % 10);
    if n < 10 {
      assert Decimal(n)[..0] == "";
    } else {
      DecimalReadsBack(n / 10);
      assert Decimal(n)[..|Decimal(n)| - 1] == Decimal(n / 10);
    }
  }

  lemma DigitReadsBack(d: nat)
    requires d < 10
    ensures IsDigit(Digit(d)) && Digit(d) as int - '0' as int == d
  {
  }

  // A pump number below 2^32 prints in at most ten digits.
  lemma PumpNumberFits(n: nat)
    requires n < 0x1_0000_0000
    ensures |Decimal(n)| <= 10
  {
    assert Pow10(1) == 10 && Pow10(2) == 100 && Pow10(3) == 1000 && Pow10(4) == 1_0000 && Pow10(5) == 10_0000;
    assert Pow10(6) == 100_0000 && Pow10(7) == 1000_0000 && Pow10(8) == 1_0000_0000;
    assert Pow10(9) == 10_0000_0000 && Pow10(10) == 100_0000_0000;
    DecimalLength(n, 10);
  }

  function PumpId(p: nat): string { "bench_pump_" + Decimal(p) }

  function PumpName(p: nat): string { "Bench Pump " + Decimal(p) }

  function EventId(p: nat, i: nat): string
    requires i < EVENT_COUNT
  {
    EventSpecAt(i).suffix + "_p" + Decimal(p)
  }

  // ---- The records, by their place in the tables ------------------------

  function AssetAt(p: nat): Asset {
    Asset(PumpId(p), "pump", PumpName(p), "bench_plant", INVALID_INDEX, p * TAG_COUNT, TAG_COUNT)
  }

  function NodeAt(j: nat): NodeSpec {
    var p, t := j / TAG_COUNT, j % TAG_COUNT;
    NodeSpec(PumpId(p), TagAt(t).id, TagAt(t).name, TagAt(t).dataType, TagAt(t).writable,
             p % 250 + 1, REGISTER_BASE + p * TAG_COUNT + t, Finite(1.0), p)
  }

  function EventAt(e: nat): Event {
    var p, spec := e / EVENT_COUNT, EventSpecAt(e % EVENT_COUNT);
    Event(EventId(p, e % EVENT_COUNT), PumpId(p), spec.sourceId, p, INVALID_INDEX,
          spec.condition, Finite(spec.threshold), spec.severity, false)
  }

  // The tables hold p pumps and, with events, their events.
  ghost predicate Pumps(m: Draft, p: nat, withEvents: bool) {
    && |m.assets| == p && |m.nodes| == p * TAG_COUNT && |m.events| == (if withEvents then p * EVENT_COUNT else 0)
    && (forall a :: 0 <= a < |m.assets| ==> m.assets[a] == AssetAt(a))
    && (forall j :: 0 <= j < |m.nodes| ==> m.nodes[j] == NodeAt(j))
    && (forall e :: 0 <= e < |m.events| ==> m.events[e] == EventAt(e))
  }

  // A copy fits when it leaves room for the terminator.
  predicate Copies(text: string, size: nat) { |text| + 1 <= size }

  method AddPump(m: TemplateModel, p: nat, withEvents: bool) returns (status: Status)
    requires Pumps(m.State(), p, withEvents) && m.id == "bench_plant" && p < 0x1_0000_0000
    modifies m`assets, m`nodes, m`events
    ensures status == if p < MAX_ASSETS then Ok else Limit
    ensures status == Ok ==> Pumps(m.State(), p + 1, withEvents)
  {
    PumpNumberFits(p);
    PumpNamesFit(p);
    hide PumpId, PumpName, NodeAt, EventAt, Decimal;
    if |m.assets| >= MAX_ASSETS {
      return Limit;
    }
    if |m.nodes| + TAG_COUNT > MAX_NODES {
      return Limit;
    }
    var assetId, assetName := PumpId(p), PumpName(p);
    if |assetId| >= MAX_ID_LEN || |assetName| >= MAX_NAME_LEN {
      return Limit;
    }
    if !Copies(assetId, MAX_ID_LEN) || !Copies(assetName, MAX_NAME_LEN) || !Copies(m.id, MAX_ID_LEN) {
      return Limit;
    }
    var asset := Asset(assetId, "pump", assetName, m.id, INVALID_INDEX, |m.nodes|, TAG_COUNT);
    assert asset == AssetAt(p);
    hide AssetAt;
    status := AddTags(m, p, assetId);
    if status != Ok {
      return;
    }
    m.assets := m.assets + [asset];
    if !withEvents {
      return Ok;
    }
    status := AddEvents(m, p, assetId);
  }

  method AddTags(m: TemplateModel, p: nat, assetId: string) returns (status: Status)
    requires |m.nodes| == p * TAG_COUNT && |m.assets| == p && assetId == PumpId(p) && |assetId| < MAX_ID_LEN
    requires forall j :: 0 <= j < |m.nodes| ==> m.nodes[j] == NodeAt(j)
    modifies m`nodes
    ensures status == Ok && |m.nodes| == (p + 1) * TAG_COUNT
    ensures forall j :: 0 <= j < |m.nodes| ==> m.nodes[j] == NodeAt(j)
  {
    hide TagAt, PumpId;
    for i := 0 to TAG_COUNT
      invariant |m.nodes| == p * TAG_COUNT + i
      invariant forall j :: 0 <= j < |m.nodes| ==> m.nodes[j] == NodeAt(j)
    {
      var tag := TagAt(i);
      TagFits(i);
      if !Copies(tag.id, MAX_ID_LEN) || !Copies(tag.name, MAX_NAME_LEN) || !Copies(assetId, MAX_ID_LEN) {
        assert false;
        return Limit;
      }
      var node := NodeSpec(assetId, tag.id, tag.name, tag.dataType, tag.writable,
                           p % 250 + 1, REGISTER_BASE + p * TAG_COUNT + i, Finite(1.0), |m.assets|);
      PlaceOf(p, i);
      assert node == NodeAt(p * TAG_COUNT + i);
      hide NodeAt;
      m.nodes := m.nodes + [node];
    }
    return Ok;
  }

  lemma PlaceOf(p: nat, i: nat)
    requires i < TAG_COUNT
    ensures (p * TAG_COUNT + i) / TAG_COUNT == p && (p * TAG_COUNT + i) % TAG_COUNT == i
  {
  }

  lemma EventPlaceOf(p: nat, i: nat)
    requires i < EVENT_COUNT
    ensures (p * EVENT_COUNT + i) / EVENT_COUNT == p && (p * EVENT_COUNT + i) % EVENT_COUNT == i
  {
  }

  lemma TagFits(i: nat)
    requires i < TAG_COUNT
    ensures |TagAt(i).id| < MAX_ID_LEN && |TagAt(i).name| < MAX_ID_LEN
  {
  }

  lemma PumpNamesFit(p: nat)
    requires |Decimal(p)| <= 10
    ensures |PumpId(p)| < MAX_ID_LEN && |PumpName(p)| < MAX_NAME_LEN
  {
  }

  lemma EventNamesFit(p: nat, i: nat)
    requires i < EVENT_COUNT && |Decimal(p)| <= 10
    ensures |EventId(p, i)| < MAX_ID_LEN && |EventSpecAt(i).sourceId| < MAX_ID_LEN - 1
  {
  }

  method AddEvents(m: TemplateModel, p: nat, assetId: string) returns (status: Status)
    requires |m.events| == p * EVENT_COUNT && |m.assets| == p + 1 && p < MAX_ASSETS
    requires assetId == PumpId(p) && |assetId| < MAX_ID_LEN && |Decimal(p)| <= 10
    requires forall e :: 0 <= e < |m.events| ==> m.events[e] == EventAt(e)
    modifies m`events
    ensures status == Ok && |m.events| == (p + 1) * EVENT_COUNT
    ensures forall e :: 0 <= e < |m.events| ==> m.events[e] == EventAt(e)
  {
    hide EventSpecAt, EventId, PumpId;
    for i := 0 to EVENT_COUNT
      invariant |m.events| == p * EVENT_COUNT + i
      invariant forall e :: 0 <= e < |m.events| ==> m.events[e] == EventAt(e)
    {
      var spec, id := EventSpecAt(i), EventId(p, i);
      EventNamesFit(p, i);
      if |m.events| >= MAX_EVENTS || |id| >= MAX_ID_LEN || !Copies(spec.sourceId, MAX_ID_LEN) {
        assert false;
        return Limit;
      }
      var event := Event(id, assetId, spec.sourceId, |m.assets| - 1, INVALID_INDEX,
                         spec.condition, Finite(spec.threshold), spec.severity, false);
      EventPlaceOf(p, i);
      assert event == EventAt(p * EVENT_COUNT + i);
      hide EventAt;
      m.events := m.events + [event];
    }
    return Ok;
  }

  // ---- Event sources ----------------------------------------------------

  // An asset's slice of the node table is exactly its nodes.
  lemma SliceIsNodes(j: nat, p: nat)
    ensures NodeAt(j).assetIndex == p <==> p * TAG_COUNT <= j < p * TAG_COUNT + TAG_COUNT
  {
  }

  // The source of an event: the node that carries the tag it watches, in the event's pump.
  function SourceAt(e: nat): nat { e / EVENT_COUNT * TAG_COUNT + SourceTag(e % EVENT_COUNT) }

  lemma TagIdsDiffer(i: nat, k: nat)
    requires i < k < TAG_COUNT
    ensures TagAt(i).id != TagAt(k).id
  {
  }

  // No two pumps share an asset id, no two nodes an asset and an id, and no two events an id.
  lemma GeneratedIsUnique(m: Draft, p: nat, withEvents: bool)
    requires Pumps(m, p, withEvents)
    ensures NoDuplicates(m)
  {
    hide Decimal;
    forall i, j | 0 <= i < j < |m.assets|
      ensures m.assets[i].id != m.assets[j].id
    {
      PumpIdsDiffer(i, j);
    }
    forall i, j | 0 <= i < j < |m.nodes|
      ensures !SameNode(m.nodes[i], m.nodes[j])
    {
      NodesDiffer(i, j);
    }
    forall i, j | 0 <= i < j < |m.events|
      ensures m.events[i].id != m.events[j].id
    {
      EventsDiffer(i, j);
    }
    hide AssetAt, NodeAt, EventAt;
  }

  lemma PumpIdsDiffer(p: nat, q: nat)
    requires p != q
    ensures PumpId(p) != PumpId(q)
  {
    DecimalReadsBack(p);
    DecimalReadsBack(q);
    assert PumpId(p)[11..] == Decimal(p) && PumpId(q)[11..] == Decimal(q);
  }

  lemma NodesDiffer(i: nat, j: nat)
    requires i < j
    ensures !SameNode(NodeAt(i), NodeAt(j))
  {
    hide PumpId, TagAt;
    if i / TAG_COUNT != j / TAG_COUNT {
      PumpIdsDiffer(i / TAG_COUNT, j / TAG_COUNT);
    } else {
      assert i % TAG_COUNT < j % TAG_COUNT;
      TagIdsDiffer(i % TAG_COUNT, j % TAG_COUNT);
    }
  }

  // An event id ends in the pump's number, behind the last p; its suffix is before it.
  lemma EventsDiffer(i: nat, j: nat)
    requires i < j
    ensures EventAt(i).id != EventAt(j).id
  {
    var p, q, k, l := i / EVENT_COUNT, j / EVENT_COUNT, i % EVENT_COUNT, j % EVENT_COUNT;
    DecimalReadsBack(p);
    DecimalReadsBack(q);
    EventIdParts(p, k);
    EventIdParts(q, l);
    hide EventId, EventSpecAt, Decimal, AllDigits;
    if EventId(p, k) == EventId(q, l) {
      SameTail(EventSpecAt(k).suffix + "_", Decimal(p), EventSpecAt(l).suffix + "_", Decimal(q));
      SuffixesDiffer(k, l);
    }
  }

  lemma EventIdParts(p: nat, i: nat)
    requires i < EVENT_COUNT
    ensures EventId(p, i) == (EventSpecAt(i).suffix + "_") + "p" + Decimal(p)
  {
    hide EventSpecAt, Decimal;
    var suffix := EventSpecAt(i).suffix;
    assert "_p" == "_" + "p";
    assert suffix + "_p" + Decimal(p) == (suffix + "_") + "p" + Decimal(p);
  }

  // Digits behind a p are split off at one place only.
  lemma SameTail(a: string, m: string, b: string, n: string)
    requires AllDigits(m) && AllDigits(n) && a + "p" + m == b + "p" + n
    ensures a == b && m == n
  {
    var s, t := a + "p" + m, b + "p" + n;
    assert s[|a|] == 'p' && t[|b|] == 'p';
    assert forall k :: |a| < k < |s| ==> s[k] == m[k - |a| - 1];
    assert forall k :: |b| < k < |t| ==> t[k] == n[k - |b| - 1];
    assert |a| == |b|;
    assert s[..|a|] == a && t[..|b|] == b && s[|a| + 1..] == m && t[|b| + 1..] == n;
  }

  lemma SuffixesDiffer(k: nat, l: nat)
    requires k < EVENT_COUNT && l < EVENT_COUNT
    requires EventSpecAt(k).suffix + "_" == EventSpecAt(l).suffix + "_"
    ensures k == l
  {
    assert |EventSpecAt(k).suffix| == |EventSpecAt(l).suffix|;
  }

  // Looking the source up in the pump's slice finds what a scan of all nodes would find.
  method WireEventSources(m: TemplateModel, p: nat, withEvents: bool)
    requires Pumps(m.State(), p, withEvents)
    modifies m`events
    ensures |m.events| == old(|m.events|)
    ensures forall e :: 0 <= e < |m.events| ==> m.events[e] == EventAt(e).(sourceIndex := SourceAt(e))
  {
    for e := 0 to |m.events|
      invariant |m.events| == old(|m.events|)
      invariant forall k :: 0 <= k < e ==> m.events[k] == EventAt(k).(sourceIndex := SourceAt(k))
      invariant forall k :: e <= k < |m.events| ==> m.events[k] == EventAt(k)
    {
      WireOne(m, e, p);
      hide EventAt, SourceAt;
    }
  }

  // The search for one event's source, through its asset's slice.
  method WireOne(m: TemplateModel, e: nat, p: nat)
    requires e < |m.events| && m.events[e] == EventAt(e)
    requires |m.assets| == p && |m.nodes| == p * TAG_COUNT && e < p * EVENT_COUNT
    requires forall a :: 0 <= a < |m.assets| ==> m.assets[a] == AssetAt(a)
    requires forall j :: 0 <= j < |m.nodes| ==> m.nodes[j] == NodeAt(j)
    modifies m`events
    ensures m.events == old(m.events)[e := EventAt(e).(sourceIndex := SourceAt(e))]
  {
    var event := m.events[e];
    ghost var q, tag := e / EVENT_COUNT, SourceTag(e % EVENT_COUNT);
    assert event.assetIndex == q < p && event.sourceNodeId == TagAt(tag).id;
    var asset := m.assets[event.assetIndex];
    assert asset.firstNode == q * TAG_COUNT && asset.nodeCount == TAG_COUNT;
    assert q * TAG_COUNT + tag == SourceAt(e);
    hide EventAt, AssetAt, SourceTag, EventSpecAt, SourceAt, TagAt, NodeAt;
    var n := 0;
    while n < asset.nodeCount
      invariant n <= tag && m.events == old(m.events)
    {
      var index := asset.firstNode + n;
      TagOf(m.nodes, q, n);
      if n < tag { TagIdsDiffer(n, tag); }
      if m.nodes[index].id == event.sourceNodeId {
        m.events := m.events[e := event.(sourceIndex := index)];
        return;
      }
      n := n + 1;
    }
  }

  lemma TagOf(nodes: seq<NodeSpec>, q: nat, n: nat)
    requires n < TAG_COUNT && q * TAG_COUNT + n < |nodes| && forall j :: 0 <= j < |nodes| ==> nodes[j] == NodeAt(j)
    ensures nodes[q * TAG_COUNT + n].id == TagAt(n).id
  {
    PlaceOf(q, n);
  }

  // The slice lookup agrees with the loader's scan over all nodes, and finds a source.
  lemma SourceIsFullScan(nodes: seq<NodeSpec>, p: nat, e: nat)
    requires |nodes| == p * TAG_COUNT && forall j :: 0 <= j < |nodes| ==> nodes[j] == NodeAt(j)
    requires e < p * EVENT_COUNT
    ensures SourceAt(e) < |nodes|
    ensures FindsNode(nodes, EventAt(e).assetIndex, EventAt(e).sourceNodeId, SourceAt(e))
  {
    var q, t := e / EVENT_COUNT, SourceTag(e % EVENT_COUNT);
    assert q < p;
    forall k | 0 <= k < SourceAt(e)
      ensures !IsNodeOf(nodes[k], EventAt(e).assetIndex, EventAt(e).sourceNodeId)
    {
      assert nodes[k] == NodeAt(k);
      if k / TAG_COUNT == q { TagIdsDiffer(k % TAG_COUNT, t); }
    }
    assert nodes[SourceAt(e)] == NodeAt(SourceAt(e));
  }

  // ---- The whole model --------------------------------------------------

  method GeneratePumps(m: TemplateModel, pumpCount: nat, withEvents: bool) returns (status: Status)
    requires pumpCount < 0x1_0000_0000
    modifies m
    ensures status == if pumpCount == 0 then Invalid else if pumpCount <= MAX_ASSETS then Ok else Limit
    ensures status == Ok ==>
      && |m.assets| == pumpCount && |m.nodes| == pumpCount * TAG_COUNT
      && |m.events| == (if withEvents then pumpCount * EVENT_COUNT else 0)
      && (forall a :: 0 <= a < |m.assets| ==> m.assets[a] == AssetAt(a) && Wired(m.assets[a], m.nodes, a, |m.nodes|))
      && (forall j :: 0 <= j < |m.nodes| ==> m.nodes[j] == NodeAt(j))
      && (forall e :: 0 <= e < |m.events| ==>
            && m.events[e] == EventAt(e).(sourceIndex := SourceAt(e))
            && m.events[e].sourceIndex < |m.nodes|
            && FindsNode(m.nodes, m.events[e].assetIndex, m.events[e].sourceNodeId, m.events[e].sourceIndex))
  {
    if pumpCount == 0 {
      return Invalid;
    }
    m.id, m.name := "bench_plant", "Synthetic Benchmark Plant";
    m.assets, m.nodes, m.events := [], [], [];
    for i := 0 to pumpCount
      invariant m.id == "bench_plant" && i <= MAX_ASSETS && Pumps(m.State(), i, withEvents)
    {
      status := AddPump(m, i, withEvents);
      if status != Ok {
        return;
      }
    }
    WireEventSources(m, pumpCount, withEvents);
    forall a | 0 <= a < |m.assets|
      ensures Wired(m.assets[a], m.nodes, a, |m.nodes|)
    {
      SliceCounts(m.nodes, a, |m.nodes|);
      SliceFirst(m.nodes, a);
    }
    forall e | 0 <= e < |m.events|
      ensures SourceAt(e) < |m.nodes| && FindsNode(m.nodes, EventAt(e).assetIndex, EventAt(e).sourceNodeId, SourceAt(e))
    {
      SourceIsFullScan(m.nodes, pumpCount, e);
    }
    status := Ok;
  }

  // Counting a pump's nodes gives its slice.
  lemma {:induction false} SliceCounts(nodes: seq<NodeSpec>, a: nat, n: nat)
    requires n <= |nodes| && forall j :: 0 <= j < |nodes| ==> nodes[j] == NodeAt(j)
    ensures NodesOf(nodes, a, n)
         == if n <= a * TAG_COUNT then 0 else if n <= a * TAG_COUNT + TAG_COUNT then n - a * TAG_COUNT else TAG_COUNT
  {
    hide NodeAt;
    if n > 0 {
      SliceCounts(nodes, a, n - 1);
      SliceIsNodes(n - 1, a);
      assert nodes[n - 1] == NodeAt(n - 1);
    }
  }

  lemma SliceFirst(nodes: seq<NodeSpec>, a: nat)
    requires a * TAG_COUNT < |nodes| && forall j :: 0 <= j < |nodes| ==> nodes[j] == NodeAt(j)
    ensures FirstOf(nodes, a, |nodes|, a * TAG_COUNT)
  {
    SliceIsNodes(a * TAG_COUNT, a);
    forall k | 0 <= k < a * TAG_COUNT
      ensures nodes[k].assetIndex != a
    {
      SliceIsNodes(k, a);
    }
  }
}
