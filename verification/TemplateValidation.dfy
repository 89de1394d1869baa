/**
 The loader's validators. Together they accept a parsed template exactly when it is well
 formed, and then every stored index is the unique match it stands for.
 */
module TemplateValidation {
  import opened EdgeTypes
  import opened TemplateText
  import opened TemplateLoader

  // ---- Well-formedness, declared ----------------------------------------

  ghost predicate Bounded(d: Draft) {
    |d.assets| <= MAX_ASSETS && |d.nodes| <= MAX_NODES && |d.events| <= MAX_EVENTS
  }

  predicate AssetComplete(a: Asset) { a.id != "" && a.kind != "" && a.name != "" }

  predicate NodeComplete(n: NodeSpec) {
    n.assetId != "" && n.id != "" && n.name != "" && n.dataType != Unset && n.unit != 0 && n.register != 0
  }

  predicate EventComplete(e: Event) {
    e.assetId != "" && e.id != "" && e.sourceNodeId != "" && e.condition != NoCondition && e.severity != 0
  }

  ghost predicate RequiredFields(d: Draft) {
    && d.id != "" && d.name != ""
    && (forall i :: 0 <= i < |d.assets| ==> AssetComplete(d.assets[i]))
    && (forall i :: 0 <= i < |d.nodes| ==> NodeComplete(d.nodes[i]))
    && (forall i :: 0 <= i < |d.events| ==> EventComplete(d.events[i]))
  }

  ghost predicate UniqueAssets(assets: seq<Asset>) {
    forall i, j :: 0 <= i < j < |assets| ==> assets[i].id != assets[j].id
  }

  predicate SameNode(a: NodeSpec, b: NodeSpec) { a.assetId == b.assetId && a.id == b.id }

  ghost predicate UniqueNodes(nodes: seq<NodeSpec>) {
    forall i, j :: 0 <= i < j < |nodes| ==> !SameNode(nodes[i], nodes[j])
  }

  ghost predicate UniqueEvents(events: seq<Event>) {
    forall i, j :: 0 <= i < j < |events| ==> events[i].id != events[j].id
  }

  ghost predicate NoDuplicates(d: Draft) {
    UniqueAssets(d.assets) && UniqueNodes(d.nodes) && UniqueEvents(d.events)
  }

  // An asset hangs below the plant or below an asset declared before it.
  ghost predicate ParentDeclared(plant: string, assets: seq<Asset>, i: nat)
    requires i < |assets|
  {
    assets[i].parentId == "" || assets[i].parentId == plant || NamesAsset(assets[..i], assets[i].parentId)
  }

  ghost predicate NamesAsset(assets: seq<Asset>, id: string) {
    exists j :: 0 <= j < |assets| && assets[j].id == id
  }

  // An event names a node of its own asset.
  ghost predicate NamesNode(nodes: seq<NodeSpec>, assetId: string, id: string) {
    exists n :: 0 <= n < |nodes| && nodes[n].assetId == assetId && nodes[n].id == id
  }

  ghost predicate ReferencesDeclared(d: Draft) {
    && (forall i :: 0 <= i < |d.assets| ==> ParentDeclared(d.id, d.assets, i))
    && (forall i :: 0 <= i < |d.nodes| ==> NamesAsset(d.assets, d.nodes[i].assetId))
    && (forall i :: 0 <= i < |d.events| ==>
          NamesAsset(d.assets, d.events[i].assetId) &&
          NamesNode(d.nodes, d.events[i].assetId, d.events[i].sourceNodeId))
  }

  ghost predicate WellFormed(d: Draft) { RequiredFields(d) && NoDuplicates(d) && ReferencesDeclared(d) }

  // ---- Lookup -----------------------------------------------------------

  // j is the first asset with this id, or INVALID_INDEX if there is none.
  ghost predicate FindsAsset(assets: seq<Asset>, id: string, j: nat) {
    if j < |assets| then assets[j].id == id && forall k :: 0 <= k < j ==> assets[k].id != id
    else j == INVALID_INDEX && forall k :: 0 <= k < |assets| ==> assets[k].id != id
  }

  method FindAsset(m: TemplateModel, id: string) returns (j: nat)
    requires Bounded(m.State())
    ensures FindsAsset(m.assets, id, j)
  {
    for i := 0 to |m.assets|
      invariant forall k :: 0 <= k < i ==> m.assets[k].id != id
    {
      if m.assets[i].id == id {
        return i;
      }
    }
    return INVALID_INDEX;
  }

  ghost predicate FindsEvent(events: seq<Event>, id: string, j: nat) {
    if j < |events| then events[j].id == id && forall k :: 0 <= k < j ==> events[k].id != id
    else j == INVALID_INDEX && forall k :: 0 <= k < |events| ==> events[k].id != id
  }

  method FindEvent(m: TemplateModel, id: string) returns (j: nat)
    requires Bounded(m.State())
    ensures FindsEvent(m.events, id, j)
  {
    for i := 0 to |m.events|
      invariant forall k :: 0 <= k < i ==> m.events[k].id != id
    {
      if m.events[i].id == id {
        return i;
      }
    }
    return INVALID_INDEX;
  }

  predicate IsNodeOf(n: NodeSpec, assetIndex: nat, id: string) { n.assetIndex == assetIndex && n.id == id }

  ghost predicate FindsNode(nodes: seq<NodeSpec>, assetIndex: nat, id: string, j: nat) {
    if j < |nodes| then IsNodeOf(nodes[j], assetIndex, id)
      && forall k :: 0 <= k < j ==> !IsNodeOf(nodes[k], assetIndex, id)
    else j == INVALID_INDEX && forall k :: 0 <= k < |nodes| ==> !IsNodeOf(nodes[k], assetIndex, id)
  }

  method FindNodeForAsset(m: TemplateModel, assetIndex: nat, id: string) returns (j: nat)
    requires Bounded(m.State())
    ensures FindsNode(m.nodes, assetIndex, id, j)
  {
    for i := 0 to |m.nodes|
      invariant forall k :: 0 <= k < i ==> !IsNodeOf(m.nodes[k], assetIndex, id)
    {
      if IsNodeOf(m.nodes[i], assetIndex, id) {
        return i;
      }
    }
    return INVALID_INDEX;
  }

  // ---- Required fields and duplicates -----------------------------------

  method ValidateRequiredFields(m: TemplateModel) returns (status: Status)
    ensures status == if RequiredFields(m.State()) then Ok else Invalid
  {
    if m.id == "" || m.name == "" {
      return Invalid;
    }
    for i := 0 to |m.assets|
      invariant forall k :: 0 <= k < i ==> AssetComplete(m.assets[k])
    {
      if !AssetComplete(m.assets[i]) {
        return Invalid;
      }
    }
    for i := 0 to |m.nodes|
      invariant forall k :: 0 <= k < i ==> NodeComplete(m.nodes[k])
    {
      if !NodeComplete(m.nodes[i]) {
        return Invalid;
      }
    }
    for i := 0 to |m.events|
      invariant forall k :: 0 <= k < i ==> EventComplete(m.events[k])
    {
      if !EventComplete(m.events[i]) {
        return Invalid;
      }
    }
    return Ok;
  }

  // Events are compared through the lookup: an id is unique when the first event that
  // carries it is the event itself, for every event.
  method ValidateDuplicates(m: TemplateModel) returns (status: Status)
    requires Bounded(m.State())
    ensures status == if NoDuplicates(m.State()) then Ok else Invalid
  {
    for i := 0 to |m.assets|
      invariant forall k, j :: 0 <= k < i && k < j < |m.assets| ==> m.assets[k].id != m.assets[j].id
    {
      for j := i + 1 to |m.assets|
        invariant forall k :: i < k < j ==> m.assets[i].id != m.assets[k].id
      {
        if m.assets[i].id == m.assets[j].id {
          return Invalid;
        }
      }
    }
    for i := 0 to |m.nodes|
      invariant forall k, j :: 0 <= k < i && k < j < |m.nodes| ==> !SameNode(m.nodes[k], m.nodes[j])
    {
      for j := i + 1 to |m.nodes|
        invariant forall k :: i < k < j ==> !SameNode(m.nodes[i], m.nodes[k])
      {
        if SameNode(m.nodes[i], m.nodes[j]) {
          return Invalid;
        }
      }
    }
    for i := 0 to |m.events|
      invariant forall j, k :: 0 <= j < k < i ==> m.events[j].id != m.events[k].id
    {
      var first := FindEvent(m, m.events[i].id);
      if first != i {
        assert first < i && m.events[first].id == m.events[i].id;
        return Invalid;
      }
    }
    return Ok;
  }

  // ---- References -------------------------------------------------------

  // Equal but for the index that resolution fills in.
  ghost predicate SameAssets(a: seq<Asset>, b: seq<Asset>) {
    |a| == |b| && forall i :: 0 <= i < |a| ==> a[i].(parentIndex := 0) == b[i].(parentIndex := 0)
  }

  ghost predicate SameNodes(a: seq<NodeSpec>, b: seq<NodeSpec>) {
    |a| == |b| && forall i :: 0 <= i < |a| ==> a[i].(assetIndex := 0) == b[i].(assetIndex := 0)
  }

  ghost predicate SameEvents(a: seq<Event>, b: seq<Event>) {
    |a| == |b| && forall i :: 0 <= i < |a| ==>
      a[i].(assetIndex := 0, sourceIndex := 0) == b[i].(assetIndex := 0, sourceIndex := 0)
  }

  ghost predicate ParentResolved(plant: string, assets: seq<Asset>, i: nat)
    requires i < |assets|
  {
    var a := assets[i];
    if a.parentId == "" || a.parentId == plant then a.parentIndex == INVALID_INDEX
    else a.parentIndex < i && FindsAsset(assets, a.parentId, a.parentIndex)
  }

  ghost predicate NodeResolved(assets: seq<Asset>, n: NodeSpec) {
    n.assetIndex < |assets| && FindsAsset(assets, n.assetId, n.assetIndex)
  }

  ghost predicate EventResolved(assets: seq<Asset>, nodes: seq<NodeSpec>, e: Event) {
    && e.assetIndex < |assets| && FindsAsset(assets, e.assetId, e.assetIndex)
    && e.sourceIndex < |nodes| && FindsNode(nodes, e.assetIndex, e.sourceNodeId, e.sourceIndex)
  }

  ghost predicate Resolved(d: Draft) {
    && (forall i :: 0 <= i < |d.assets| ==> ParentResolved(d.id, d.assets, i))
    && (forall i :: 0 <= i < |d.nodes| ==> NodeResolved(d.assets, d.nodes[i]))
    && (forall i :: 0 <= i < |d.events| ==> EventResolved(d.assets, d.nodes, d.events[i]))
  }

  method ResolveParents(m: TemplateModel) returns (status: Status)
    requires Bounded(m.State())
    modifies m`assets
    ensures SameAssets(old(m.assets), m.assets)
    ensures status == if forall i :: 0 <= i < |m.assets| ==> ParentDeclared(m.id, old(m.assets), i) then Ok else Invalid
    ensures status == Ok ==> forall i :: 0 <= i < |m.assets| ==> ParentResolved(m.id, m.assets, i)
  {
    ghost var before := m.assets;
    for i := 0 to |m.assets|
      invariant SameAssets(before, m.assets)
      invariant forall k :: 0 <= k < i ==> ParentDeclared(m.id, before, k)
      invariant forall k :: 0 <= k < i ==> ParentResolved(m.id, m.assets, k)
    {
      var asset := m.assets[i];
      var parent := INVALID_INDEX;
      if asset.parentId != "" && asset.parentId != m.id {
        parent := FindAsset(m, asset.parentId);
      }
      ghost var known := m.assets;
      m.assets := m.assets[i := asset.(parentIndex := parent)];
      ResolvedStays(m.id, known, m.assets, i);
      if asset.parentId != "" && asset.parentId != m.id {
        assert FindsAsset(m.assets, asset.parentId, parent);
        assert FindsAsset(before, asset.parentId, parent);
        if parent == INVALID_INDEX || parent == i || parent > i {
          assert !ParentDeclared(m.id, before, i);
          return Invalid;
        }
        assert before[..i][parent].id == asset.parentId;
      }
    }
    return Ok;
  }

  lemma ResolvedStays(plant: string, a: seq<Asset>, b: seq<Asset>, i: nat)
    requires SameAssets(a, b) && i <= |a| && forall k :: 0 <= k < i ==> a[k] == b[k] && ParentResolved(plant, a, k)
    ensures forall k :: 0 <= k < i ==> ParentResolved(plant, b, k)
    ensures forall id, j :: FindsAsset(a, id, j) ==> FindsAsset(b, id, j)
  {
    assert forall k :: 0 <= k < |a| ==> a[k].id == b[k].id;
  }

  // The number of parents above an asset. A parent index is smaller than its child's, so the
  // chain ends at the plant after at most i hops.
  function Hops(assets: seq<Asset>, i: nat): (h: nat)
    requires i < |assets| && forall k :: 0 <= k < |assets| ==>
      assets[k].parentIndex == INVALID_INDEX || assets[k].parentIndex < k
    ensures h <= i
  {
    if assets[i].parentIndex == INVALID_INDEX then 0 else 1 + Hops(assets, assets[i].parentIndex)
  }

  // The cycle check after resolution: it ends, and it never rejects.
  method CheckParentChains(m: TemplateModel) returns (status: Status)
    requires |m.assets| <= MAX_ASSETS
    requires forall k :: 0 <= k < |m.assets| ==> m.assets[k].parentIndex == INVALID_INDEX || m.assets[k].parentIndex < k
    ensures status == Ok
  {
    for i := 0 to |m.assets| {
      var cursor: nat := m.assets[i].parentIndex;
      var hops := 0;
      while cursor != INVALID_INDEX
        invariant cursor == INVALID_INDEX || cursor < i
        invariant cursor == INVALID_INDEX ==> hops == Hops(m.assets, i)
        invariant cursor != INVALID_INDEX ==> hops + 1 + Hops(m.assets, cursor) == Hops(m.assets, i)
        decreases if cursor == INVALID_INDEX then 0 else cursor + 1
      {
        if cursor == i || hops > |m.assets| {
          assert false;
          return Invalid;
        }
        cursor := m.assets[cursor].parentIndex;
        hops := hops + 1;
      }
    }
    return Ok;
  }

  method ResolveNodes(m: TemplateModel) returns (status: Status)
    requires Bounded(m.State())
    modifies m`nodes
    ensures SameNodes(old(m.nodes), m.nodes)
    ensures status ==
      if forall i :: 0 <= i < |m.nodes| ==> NamesAsset(m.assets, old(m.nodes)[i].assetId) then Ok else Invalid
    ensures status == Ok ==> forall i :: 0 <= i < |m.nodes| ==> NodeResolved(m.assets, m.nodes[i])
  {
    for i := 0 to |m.nodes|
      invariant SameNodes(old(m.nodes), m.nodes)
      invariant forall k :: 0 <= k < i ==>
        NamesAsset(m.assets, old(m.nodes)[k].assetId) && NodeResolved(m.assets, m.nodes[k])
    {
      var j := FindAsset(m, m.nodes[i].assetId);
      assert m.nodes[i].assetId == old(m.nodes)[i].assetId;
      m.nodes := m.nodes[i := m.nodes[i].(assetIndex := j)];
      if j == INVALID_INDEX {
        return Invalid;
      }
    }
    return Ok;
  }

  method ResolveEvents(m: TemplateModel) returns (status: Status)
    requires Bounded(m.State()) && forall i :: 0 <= i < |m.nodes| ==> NodeResolved(m.assets, m.nodes[i])
    modifies m`events
    ensures SameEvents(old(m.events), m.events)
    ensures status == if forall i :: 0 <= i < |m.events| ==>
        NamesAsset(m.assets, old(m.events)[i].assetId) &&
        NamesNode(m.nodes, old(m.events)[i].assetId, old(m.events)[i].sourceNodeId)
      then Ok else Invalid
    ensures status == Ok ==> forall i :: 0 <= i < |m.events| ==> EventResolved(m.assets, m.nodes, m.events[i])
  {
    hide NamesAsset, NamesNode, EventResolved, NodeResolved;
    for i := 0 to |m.events|
      invariant SameEvents(old(m.events), m.events)
      invariant forall k :: 0 <= k < i ==>
        && NamesAsset(m.assets, old(m.events)[k].assetId)
        && NamesNode(m.nodes, old(m.events)[k].assetId, old(m.events)[k].sourceNodeId)
        && EventResolved(m.assets, m.nodes, m.events[k])
    {
      assert m.events[i].assetId == old(m.events)[i].assetId
        && m.events[i].sourceNodeId == old(m.events)[i].sourceNodeId;
      status := ResolveEvent(m, i);
      if status != Ok {
        return;
      }
    }
    return Ok;
  }

  method ResolveEvent(m: TemplateModel, i: nat) returns (status: Status)
    requires Bounded(m.State()) && i < |m.events|
    requires forall k :: 0 <= k < |m.nodes| ==> NodeResolved(m.assets, m.nodes[k])
    modifies m`events
    ensures |m.events| == old(|m.events|)
    ensures forall k :: 0 <= k < |m.events| && k != i ==> m.events[k] == old(m.events)[k]
    ensures m.events[i].(assetIndex := 0, sourceIndex := 0) == old(m.events)[i].(assetIndex := 0, sourceIndex := 0)
    ensures status ==
      if NamesAsset(m.assets, m.events[i].assetId) && NamesNode(m.nodes, m.events[i].assetId, m.events[i].sourceNodeId)
      then Ok else Invalid
    ensures status == Ok ==> EventResolved(m.assets, m.nodes, m.events[i])
  {
    var event := m.events[i];
    var j := FindAsset(m, event.assetId);
    m.events := m.events[i := event.(assetIndex := j)];
    if j == INVALID_INDEX {
      return Invalid;
    }
    var n := FindNodeForAsset(m, j, event.sourceNodeId);
    m.events := m.events[i := event.(assetIndex := j, sourceIndex := n)];
    SourceLookup(m.assets, m.nodes, event.assetId, event.sourceNodeId, j, n);
    if n == INVALID_INDEX {
      return Invalid;
    }
    return Ok;
  }

  // Looking a node up by asset index is looking it up by asset id.
  lemma SourceLookup(assets: seq<Asset>, nodes: seq<NodeSpec>, assetId: string, id: string, j: nat, n: nat)
    requires |nodes| <= MAX_NODES && j < |assets| && FindsAsset(assets, assetId, j) && FindsNode(nodes, j, id, n)
    requires forall i :: 0 <= i < |nodes| ==> NodeResolved(assets, nodes[i])
    ensures NamesNode(nodes, assetId, id) <==> n < |nodes|
  {
    forall i | 0 <= i < |nodes|
      ensures nodes[i].assetId == assetId <==> nodes[i].assetIndex == j
    {
      assert NodeResolved(assets, nodes[i]);
    }
  }

  method ValidateAndResolveReferences(m: TemplateModel) returns (status: Status)
    requires Bounded(m.State())
    modifies m
    ensures status == if ReferencesDeclared(old(m.State())) then Ok else Invalid
    ensures m.id == old(m.id) && m.name == old(m.name)
    ensures SameAssets(old(m.assets), m.assets) && SameNodes(old(m.nodes), m.nodes)
    ensures SameEvents(old(m.events), m.events)
    ensures status == Ok ==> Resolved(m.State())
  {
    ghost var d := m.State();
    status := ResolveParents(m);
    if status != Ok {
      return;
    }
    SameAssetNames(d.assets, m.assets);
    forall k | 0 <= k < |m.assets|
      ensures m.assets[k].parentIndex == INVALID_INDEX || m.assets[k].parentIndex < k
    {
      assert ParentResolved(m.id, m.assets, k);
    }
    // always Ok, as its contract says
    status := CheckParentChains(m);
    status := ResolveNodes(m);
    if status != Ok {
      return;
    }
    SameNodeNames(d.nodes, m.nodes);
    status := ResolveEvents(m);
  }

  lemma SameAssetNames(a: seq<Asset>, b: seq<Asset>)
    requires SameAssets(a, b)
    ensures forall id :: NamesAsset(a, id) <==> NamesAsset(b, id)
  {
    assert forall i :: 0 <= i < |a| ==> a[i].id == b[i].id;
  }

  lemma SameNodeNames(a: seq<NodeSpec>, b: seq<NodeSpec>)
    requires SameNodes(a, b)
    ensures forall assetId, id :: NamesNode(a, assetId, id) <==> NamesNode(b, assetId, id)
  {
    assert forall i :: 0 <= i < |a| ==> a[i].assetId == b[i].assetId && a[i].id == b[i].id;
  }

  // ---- The whole load ---------------------------------------------------

  lemma {:induction false} LoadStaysBounded(lib: Libraries, d: Draft, lines: seq<string>)
    requires Bounded(d)
    ensures LoadLines(lib, d, lines).Done? ==> Bounded(LoadLines(lib, d, lines).value.draft)
  {
    if lines != [] {
      var n := |lines| - 1;
      LoadStaysBounded(lib, d, lines[..n]);
      var before := LoadLines(lib, d, lines[..n]);
      hide LoadLine, TrimNewline;
      if before.Done? && LoadLine(lib, before.value, lines[n]).Done? { LineOpensRecord(lib, before.value, lines[n]); }
    }
  }

  // Loading succeeds exactly when every line parses and the result is well formed. Otherwise
  // the status is that of the first bad line, or Invalid.
  method LoadTemplate(lib: Libraries, m: TemplateModel, lines: seq<string>) returns (status: Status)
    requires Bounded(m.State())
    modifies m
    ensures match LoadLines(lib, old(m.State()), lines)
      case Failed(why) => status == why && why != Ok
      case Done(s) => status == if WellFormed(s.draft) then Ok else Invalid
    ensures status == Ok ==>
      var d := LoadLines(lib, old(m.State()), lines).value.draft;
      && m.id == d.id && m.name == d.name
      && SameAssets(d.assets, m.assets) && SameNodes(d.nodes, m.nodes) && SameEvents(d.events, m.events)
      && Bounded(m.State()) && Resolved(m.State()) && NoDuplicates(m.State())
  {
    LoadStaysBounded(lib, m.State(), lines);
    status := m.ReadLines(lib, lines);
    if status != Ok {
      return;
    }
    ghost var d := m.State();
    var required := ValidateRequiredFields(m);
    if required != Ok {
      return Invalid;
    }
    var duplicates := ValidateDuplicates(m);
    if duplicates != Ok {
      return Invalid;
    }
    var references := ValidateAndResolveReferences(m);
    if references != Ok {
      return Invalid;
    }
    StillUnique(d, m.State());
    status := Ok;
  }

  lemma StillUnique(d: Draft, d': Draft)
    requires SameAssets(d.assets, d'.assets) && SameNodes(d.nodes, d'.nodes) && SameEvents(d.events, d'.events)
    requires NoDuplicates(d)
    ensures NoDuplicates(d')
  {
    assert forall i :: 0 <= i < |d.assets| ==> d.assets[i].id == d'.assets[i].id;
    assert forall i :: 0 <= i < |d.nodes| ==>
      d.nodes[i].id == d'.nodes[i].id && d.nodes[i].assetId == d'.nodes[i].assetId;
    assert forall i :: 0 <= i < |d.events| ==> d.events[i].id == d'.events[i].id;
  }

  // On a loaded model each stored index is the only match of the name it stands for.
  lemma IndexesAreUniqueMatches(d: Draft)
    requires Bounded(d) && NoDuplicates(d) && Resolved(d)
    ensures forall i, j :: 0 <= i < |d.nodes| && 0 <= j < |d.assets| ==>
      (d.assets[j].id == d.nodes[i].assetId <==> j == d.nodes[i].assetIndex)
    ensures forall i, j :: 0 <= i < |d.assets| && 0 <= j < |d.assets| && d.assets[i].parentIndex != INVALID_INDEX ==>
      (d.assets[j].id == d.assets[i].parentId <==> j == d.assets[i].parentIndex)
    ensures forall i, n :: 0 <= i < |d.events| && 0 <= n < |d.nodes| ==>
      (d.nodes[n].assetId == d.events[i].assetId && d.nodes[n].id == d.events[i].sourceNodeId
       <==> n == d.events[i].sourceIndex)
    ensures forall i, j :: 0 <= i < |d.events| && 0 <= j < |d.assets| ==>
      (d.assets[j].id == d.events[i].assetId <==> j == d.events[i].assetIndex)
  {
    forall i | 0 <= i < |d.events|
      ensures forall j :: 0 <= j < |d.assets| ==>
        (d.assets[j].id == d.events[i].assetId <==> j == d.events[i].assetIndex)
    {
      assert EventResolved(d.assets, d.nodes, d.events[i]);
    }
    forall i | 0 <= i < |d.nodes|
      ensures forall j :: 0 <= j < |d.assets| ==> (d.assets[j].id == d.nodes[i].assetId <==> j == d.nodes[i].assetIndex)
    {
      assert NodeResolved(d.assets, d.nodes[i]);
    }
    forall i | 0 <= i < |d.assets| && d.assets[i].parentIndex != INVALID_INDEX
      ensures forall j :: 0 <= j < |d.assets| ==>
        (d.assets[j].id == d.assets[i].parentId <==> j == d.assets[i].parentIndex)
    {
      assert ParentResolved(d.id, d.assets, i);
    }
    forall i, n | 0 <= i < |d.events| && 0 <= n < |d.nodes|
      ensures d.nodes[n].assetId == d.events[i].assetId && d.nodes[n].id == d.events[i].sourceNodeId
        <==> n == d.events[i].sourceIndex
    {
      var e := d.events[i];
      assert EventResolved(d.assets, d.nodes, e);
      SourceMatches(d, e);
      assert n != e.sourceIndex ==> !SameNode(d.nodes[n], d.nodes[e.sourceIndex]);
    }
  }

  lemma SourceMatches(d: Draft, e: Event)
    requires Resolved(d) && EventResolved(d.assets, d.nodes, e)
    ensures d.nodes[e.sourceIndex].assetId == e.assetId && d.nodes[e.sourceIndex].id == e.sourceNodeId
    ensures d.nodes[e.sourceIndex].assetIndex == e.assetIndex
  {
    assert NodeResolved(d.assets, d.nodes[e.sourceIndex]);
  }
}
