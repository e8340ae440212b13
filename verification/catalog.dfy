/** The node manager's model tables (alloyai_client/node_manager.py): `_index_models`, which
    turns one node's grouped `/models` response into a table keyed by model id plus the
    modalities each id was listed under, and `_combined_models_response`, which merges
    every node's table into one grouped response sorted by model id. */
module Catalog {
  import opened Wrappers
  import opened AlloyTypes
  import opened StringOrder

  type ModelTable = map<string, AlloyModel>

  /** Every entry is filed under its own model id. */
  predicate WellKeyed(t: ModelTable) {
    forall id :: id in t ==> t[id].modelId == id
  }

  // ---------------------------------------------------------------------------
  // Merging the entries that share one model id

  /** The capabilities of the first entry whose list is not empty, or none. */
  function FirstCapabilities(occ: seq<AlloyModel>): (caps: seq<ModelCapability>)
    ensures caps == [] <==> forall i :: 0 <= i < |occ| ==> occ[i].capabilities == []
    ensures caps != [] ==>
      exists j :: 0 <= j < |occ| && caps == occ[j].capabilities && (forall i :: 0 <= i < j ==> occ[i].capabilities == [])
  {
    if |occ| == 0 then []
    else if occ[0].capabilities != [] then occ[0].capabilities
    else
      var caps := FirstCapabilities(occ[1..]);
      assert forall i :: 1 <= i < |occ| ==> occ[i] == occ[1..][i - 1];
      caps
  }

  lemma FirstCapabilitiesSnoc(occ: seq<AlloyModel>, m: AlloyModel)
    ensures FirstCapabilities(occ + [m]) ==
      if FirstCapabilities(occ) != [] then FirstCapabilities(occ) else m.capabilities
  {
    var caps := FirstCapabilities(occ + [m]);
    if FirstCapabilities(occ) != [] {
      var j :| 0 <= j < |occ| && FirstCapabilities(occ) == occ[j].capabilities
        && forall i :: 0 <= i < j ==> occ[i].capabilities == [];
      var k :| 0 <= k < |occ| + 1 && caps == (occ + [m])[k].capabilities
        && forall i :: 0 <= i < k ==> (occ + [m])[i].capabilities == [];
      assert (occ + [m])[j] == occ[j];
      assert forall i :: 0 <= i < |occ| ==> (occ + [m])[i] == occ[i];
      assert k == j;
    } else {
      assert forall i :: 0 <= i < |occ| ==> (occ + [m])[i] == occ[i];
      assert (occ + [m])[|occ|] == m;
      if caps != [] {
        var k :| 0 <= k < |occ| + 1 && caps == (occ + [m])[k].capabilities
          && forall i :: 0 <= i < k ==> (occ + [m])[i].capabilities == [];
        assert k == |occ|;
      }
    }
  }

  /** `_index_models` keeps the first entry of an id and fills its capabilities from the
      first later entry that has some. */
  function FillCapabilities(existing: AlloyModel, m: AlloyModel): AlloyModel {
    if existing.capabilities == [] && m.capabilities != [] then existing.(capabilities := m.capabilities)
    else existing
  }

  /** The entry `_index_models` ends with for entries `occ` of one id, in the order seen. */
  function FirstFilled(occ: seq<AlloyModel>): (r: AlloyModel)
    requires |occ| > 0
    ensures r == occ[0].(capabilities := FirstCapabilities(occ))
    decreases |occ|
  {
    if |occ| == 1 then occ[0]
    else
      var init := occ[..|occ| - 1];
      var prev := FirstFilled(init);
      FirstCapabilitiesSnoc(init, occ[|occ| - 1]);
      assert init + [occ[|occ| - 1]] == occ;
      FillCapabilities(prev, occ[|occ| - 1])
  }

  /** Ranking of allocation states: deallocated < queue < allocated. */
  function Rank(a: AllocationStatus): nat {
    match a
    case Deallocated => 0
    case Queue => 1
    case Allocated => 2
  }

  /** The status rule of `_combined_models_response`: allocated wins, and queue wins over
      deallocated. */
  function MergeStatus(existing: AllocationStatus, other: AllocationStatus): (r: AllocationStatus)
    ensures Rank(r) == if Rank(existing) >= Rank(other) then Rank(existing) else Rank(other)
    ensures r == existing || r == other
  {
    if existing != Allocated then
      if other == Allocated then Allocated
      else if existing == Deallocated && other == Queue then Queue
      else existing
    else existing
  }

  /** The merged status does not depend on which node came first. */
  lemma MergeStatusCommutes(a: AllocationStatus, b: AllocationStatus)
    ensures MergeStatus(a, b) == MergeStatus(b, a)
  {
  }

  /** One step of `_combined_models_response`: `existing` absorbs another node's entry. */
  function Merge(existing: AlloyModel, m: AlloyModel): AlloyModel {
    existing.(
      activeRequests := existing.activeRequests + m.activeRequests,
      isSupported := existing.isSupported || m.isSupported,
      supportsConcurrentRequests := existing.supportsConcurrentRequests || m.supportsConcurrentRequests,
      allocationStatus := MergeStatus(existing.allocationStatus, m.allocationStatus),
      capabilities := if existing.capabilities == [] && m.capabilities != [] then m.capabilities else existing.capabilities)
  }

  function SumActive(occ: seq<AlloyModel>): int {
    if |occ| == 0 then 0 else SumActive(occ[..|occ| - 1]) + occ[|occ| - 1].activeRequests
  }

  /** The summary of one id's entries across nodes, in node order: the first entry's id,
      the sum of active requests, the highest status, and the first non-empty
      capabilities. `MergeAllFlags` states the rest. */
  function MergeAll(occ: seq<AlloyModel>): (r: AlloyModel)
    requires |occ| > 0
    ensures r.modelId == occ[0].modelId
    ensures r.activeRequests == SumActive(occ)
    ensures forall i :: 0 <= i < |occ| ==> Rank(occ[i].allocationStatus) <= Rank(r.allocationStatus)
    ensures r.capabilities == FirstCapabilities(occ)
    decreases |occ|
  {
    if |occ| == 1 then
      assert SumActive(occ) == SumActive(occ[..0]) + occ[0].activeRequests;
      occ[0]
    else
      var init := occ[..|occ| - 1];
      var last := occ[|occ| - 1];
      var prev := MergeAll(init);
      FirstCapabilitiesSnoc(init, last);
      assert init + [last] == occ;
      assert forall i :: 0 <= i < |init| ==> occ[i] == init[i];
      Merge(prev, last)
  }

  /** The merged model is supported, or accepts concurrent requests, exactly when some
      node's entry does, and its status is one of the entries' statuses. */
  lemma {:induction false} MergeAllFlags(occ: seq<AlloyModel>)
    requires |occ| > 0
    ensures MergeAll(occ).isSupported <==> exists i :: 0 <= i < |occ| && occ[i].isSupported
    ensures MergeAll(occ).supportsConcurrentRequests <==> exists i :: 0 <= i < |occ| && occ[i].supportsConcurrentRequests
    ensures exists i :: 0 <= i < |occ| && MergeAll(occ).allocationStatus == occ[i].allocationStatus
  {
    if |occ| > 1 {
      var init := occ[..|occ| - 1];
      var last := occ[|occ| - 1];
      MergeAllFlags(init);
      assert forall i :: 0 <= i < |init| ==> occ[i] == init[i];
      var prev := MergeAll(init);
      if MergeAll(occ).allocationStatus == last.allocationStatus {
        assert occ[|occ| - 1] == last;
      } else {
        var j :| 0 <= j < |init| && prev.allocationStatus == init[j].allocationStatus;
        assert MergeAll(occ).allocationStatus == occ[j].allocationStatus;
      }
    }
  }

  // ---------------------------------------------------------------------------
  // `_index_models`

  datatype Entry = Entry(modality: Modality, model: AlloyModel)

  function Tag(m: Modality, xs: seq<AlloyModel>): (es: seq<Entry>)
    ensures |es| == |xs| && forall i :: 0 <= i < |xs| ==> es[i] == Entry(m, xs[i])
  {
    seq(|xs|, i requires 0 <= i < |xs| => Entry(m, xs[i]))
  }

  /** The response's four lists in the order `_index_models` visits them: image, audio,
      video, text. */
  function Entries(r: ModelsResponse): (es: seq<Entry>)
    ensures |es| == |r.image| + |r.audio| + |r.video| + |r.text|
    ensures forall i :: 0 <= i < |es| ==> es[i].model in Listing(r, es[i].modality)
    ensures forall m, x :: x in Listing(r, m) ==> Entry(m, x) in es
  {
    var es := Tag(Image, r.image) + Tag(Audio, r.audio) + Tag(Video, r.video) + Tag(Text, r.text);
    assert forall m, x :: x in Listing(r, m) ==> Entry(m, x) in es by {
      forall m, x | x in Listing(r, m) ensures Entry(m, x) in es {
        var xs := Listing(r, m);
        var k :| 0 <= k < |xs| && xs[k] == x;
        var off := match m
          case Image => 0
          case Audio => |r.image|
          case Video => |r.image| + |r.audio|
          case Text => |r.image| + |r.audio| + |r.video|;
        assert es[off + k] == Entry(m, x);
      }
    }
    es
  }

  datatype ModelIndex = ModelIndex(models: ModelTable, categories: map<string, set<Modality>>)

  /** The loop body of `_index_models` for one listed entry. */
  function IndexStep(ix: ModelIndex, e: Entry): ModelIndex {
    var id := e.model.modelId;
    var models := if id in ix.models then ix.models else ix.models[id := e.model];
    var cats := if id in ix.categories then ix.categories[id] else {};
    ModelIndex(models[id := FillCapabilities(models[id], e.model)], ix.categories[id := cats + {e.modality}])
  }

  function IndexEntries(es: seq<Entry>): ModelIndex {
    if |es| == 0 then ModelIndex(map[], map[])
    else IndexStep(IndexEntries(es[..|es| - 1]), es[|es| - 1])
  }

  /** The entries filed under `id`, in order. */
  function Occurrences(es: seq<Entry>, id: string): (occ: seq<AlloyModel>)
    ensures forall i :: 0 <= i < |occ| ==> occ[i].modelId == id
    ensures |occ| == 0 <==> forall i :: 0 <= i < |es| ==> es[i].model.modelId != id
  {
    if |es| == 0 then []
    else
      var init := Occurrences(es[..|es| - 1], id);
      assert forall i :: 0 <= i < |es| - 1 ==> es[..|es| - 1][i] == es[i];
      if es[|es| - 1].model.modelId == id then init + [es[|es| - 1].model] else init
  }

  /** The modalities under which `id` is listed. */
  function ListedUnder(es: seq<Entry>, id: string): set<Modality> {
    set i | 0 <= i < |es| && es[i].model.modelId == id :: es[i].modality
  }

  /** What `_index_models` computes, entry by entry: an id has a row exactly when it is
      listed somewhere, the row is its first listing with capabilities filled from the first
      listing that has some, and its categories are exactly the lists it appears in. */
  lemma {:induction false} IndexEntriesReference(es: seq<Entry>, id: string)
    ensures var ix := IndexEntries(es);
      && (id in ix.models <==> |Occurrences(es, id)| > 0)
      && (id in ix.categories <==> id in ix.models)
      && (id in ix.models ==> ix.models[id] == FirstFilled(Occurrences(es, id)))
      && (id in ix.categories ==> ix.categories[id] == ListedUnder(es, id))
  {
    if |es| > 0 {
      var init := es[..|es| - 1];
      var e := es[|es| - 1];
      IndexEntriesReference(init, id);
      var occ := Occurrences(init, id);
      assert ListedUnder(es, id) == ListedUnder(init, id) + (if e.model.modelId == id then {e.modality} else {}) by {
        assert forall i :: 0 <= i < |init| ==> init[i] == es[i];
      }
      if e.model.modelId == id && |occ| > 0 {
        assert Occurrences(es, id) == occ + [e.model];
        var full := occ + [e.model];
        assert full[..|full| - 1] == occ;
      }
    }
  }

  /** `_index_models(response)`. */
  function IndexModels(r: ModelsResponse): (ix: ModelIndex)
    ensures ix.models.Keys == ix.categories.Keys
    ensures WellKeyed(ix.models)
  {
    var es := Entries(r);
    var ix := IndexEntries(es);
    forall id ensures (id in ix.categories <==> id in ix.models) && (id in ix.models ==> ix.models[id].modelId == id) {
      IndexEntriesReference(es, id);
    }
    ix
  }

  /** An id is in the index exactly when it appears in one of the four lists. */
  lemma IndexModelsKeys(r: ModelsResponse, id: string)
    ensures id in IndexModels(r).models <==> exists m, x :: x in Listing(r, m) && x.modelId == id
  {
    var es := Entries(r);
    IndexEntriesReference(es, id);
    if exists m, x :: x in Listing(r, m) && x.modelId == id {
      var m, x :| x in Listing(r, m) && x.modelId == id;
      var k :| 0 <= k < |es| && es[k] == Entry(m, x);
    }
    if id in IndexModels(r).models {
      var k :| 0 <= k < |es| && es[k].model.modelId == id;
      assert es[k].model in Listing(r, es[k].modality);
    }
  }

  /** A listed id is filed under modality `m` exactly when it appears in list `m`. */
  lemma IndexModelsCategories(r: ModelsResponse, id: string, m: Modality)
    requires id in IndexModels(r).categories
    ensures m in IndexModels(r).categories[id] <==> exists x :: x in Listing(r, m) && x.modelId == id
  {
    var es := Entries(r);
    IndexEntriesReference(es, id);
    assert IndexModels(r).categories[id] == ListedUnder(es, id);
    if exists x :: x in Listing(r, m) && x.modelId == id {
      var x :| x in Listing(r, m) && x.modelId == id;
      var k :| 0 <= k < |es| && es[k] == Entry(m, x);
      assert m in ListedUnder(es, id);
    }
    if m in ListedUnder(es, id) {
      var k :| 0 <= k < |es| && es[k].model.modelId == id && es[k].modality == m;
      assert es[k].model in Listing(r, m);
    }
  }

  // ---------------------------------------------------------------------------
  // Totals over a node's table (`refresh_nodes`)

  /** The sum of `f` over a table's entries, taken key by key in increasing key order. */
  function SumBy(t: ModelTable, f: AlloyModel -> int): int
    decreases |t|
  {
    if |t| == 0 then 0
    else
      var k := Least(t.Keys);
      f(t[k]) + SumBy(t - {k}, f)
  }

  /** The order of summation does not matter: any entry can be taken out first. */
  lemma {:induction false} SumByRemove(t: ModelTable, f: AlloyModel -> int, k: string)
    requires k in t
    ensures SumBy(t, f) == f(t[k]) + SumBy(t - {k}, f)
    decreases |t|
  {
    var j := Least(t.Keys);
    assert SumBy(t, f) == f(t[j]) + SumBy(t - {j}, f);
    if j != k {
      var tj, tk, rest := t - {j}, t - {k}, t - {j, k};
      assert tj - {k} == rest && tk - {j} == rest;
      assert k in tj && tj[k] == t[k];
      SumByRemove(tj, f, k);
      assert SumBy(tj, f) == f(t[k]) + SumBy(rest, f);
      assert j in tk && tk[j] == t[j];
      SumByRemove(tk, f, j);
      assert SumBy(tk, f) == f(t[j]) + SumBy(rest, f);
    }
  }

  function SupportedOne(m: AlloyModel): int {
    if m.isSupported then 1 else 0
  }

  function Active(m: AlloyModel): int {
    m.activeRequests
  }

  /** `sum(1 for model in models.values() if model.is_supported)`. */
  function SupportedCount(t: ModelTable): int {
    SumBy(t, SupportedOne)
  }

  /** `sum(int(model.active_requests) for model in models.values())`. */
  function ActiveTotal(t: ModelTable): int {
    SumBy(t, Active)
  }

  function SupportedIds(t: ModelTable): set<string> {
    set id | id in t && t[id].isSupported
  }

  /** The supported-model count is the number of ids whose entry is supported. */
  lemma {:induction false} SupportedCountIsCardinality(t: ModelTable)
    ensures SupportedCount(t) == |SupportedIds(t)|
    decreases |t|
  {
    if |t| > 0 {
      var k := Least(t.Keys);
      var rest := t - {k};
      SupportedCountIsCardinality(rest);
      if t[k].isSupported {
        assert SupportedIds(t) == SupportedIds(rest) + {k};
      } else {
        assert SupportedIds(t) == SupportedIds(rest);
      }
    }
  }

  /** Replacing or adding one entry changes the active total by the difference. */
  lemma ActiveTotalUpdate(t: ModelTable, k: string, x: AlloyModel)
    ensures ActiveTotal(t[k := x]) ==
      ActiveTotal(t) - (if k in t then t[k].activeRequests else 0) + x.activeRequests
  {
    SumByRemove(t[k := x], Active, k);
    assert t[k := x] - {k} == t - {k};
    if k in t {
      SumByRemove(t, Active, k);
    } else {
      assert t - {k} == t;
    }
  }

  // ---------------------------------------------------------------------------
  // `_combined_models_response`

  /** One node's turn of the merge loop: each id of its table absorbs the node's entry, or
      starts from a copy of it. */
  function SummaryStep(acc: ModelTable, t: ModelTable): (r: ModelTable)
    ensures r.Keys == acc.Keys + t.Keys
  {
    map id | id in acc.Keys + t.Keys ::
      if id in t then (if id in acc then Merge(acc[id], t[id]) else t[id]) else acc[id]
  }

  function Summaries(tables: seq<ModelTable>): ModelTable {
    if |tables| == 0 then map[] else SummaryStep(Summaries(tables[..|tables| - 1]), tables[|tables| - 1])
  }

  /** The entries of `id` in the node tables, in node order. */
  function NodeOccurrences(tables: seq<ModelTable>, id: string): (occ: seq<AlloyModel>)
    ensures |occ| == 0 <==> forall i :: 0 <= i < |tables| ==> id !in tables[i]
    ensures forall i :: 0 <= i < |occ| ==> exists j :: 0 <= j < |tables| && id in tables[j] && occ[i] == tables[j][id]
  {
    if |tables| == 0 then []
    else
      var init := NodeOccurrences(tables[..|tables| - 1], id);
      assert forall i :: 0 <= i < |tables| - 1 ==> tables[..|tables| - 1][i] == tables[i];
      if id in tables[|tables| - 1] then init + [tables[|tables| - 1][id]] else init
  }

  /** The merge loop summarises each id independently: an id has a summary exactly when
      some node lists it, and the summary is `MergeAll` of its entries in node order. */
  lemma {:induction false} SummariesReference(tables: seq<ModelTable>, id: string)
    ensures id in Summaries(tables) <==> |NodeOccurrences(tables, id)| > 0
    ensures id in Summaries(tables) ==> Summaries(tables)[id] == MergeAll(NodeOccurrences(tables, id))
  {
    if |tables| > 0 {
      var init := tables[..|tables| - 1];
      SummariesReference(init, id);
      var occ := NodeOccurrences(init, id);
      var t := tables[|tables| - 1];
      if id in t && |occ| > 0 {
        var full := occ + [t[id]];
        assert full[..|full| - 1] == occ;
      }
    }
  }

  /** A summary keeps the id of the entry it started from. */
  lemma {:induction false} SummariesWellKeyed(tables: seq<ModelTable>)
    requires forall i :: 0 <= i < |tables| ==> WellKeyed(tables[i])
    ensures WellKeyed(Summaries(tables))
  {
    if |tables| > 0 {
      SummariesWellKeyed(tables[..|tables| - 1]);
    }
  }

  /** The aggregation scenario: one active request on an allocated, non-concurrent entry
      and two on a deallocated, concurrent entry of the same id merge into three active
      requests, allocated and concurrent. */
  lemma TwoNodeSummary(id: string, a: AlloyModel, b: AlloyModel)
    requires a.modelId == id && b.modelId == id
    requires a.activeRequests == 1 && a.allocationStatus == Allocated && !a.supportsConcurrentRequests
    requires b.activeRequests == 2 && b.allocationStatus == Deallocated && b.supportsConcurrentRequests
    ensures var s := Summaries([map[id := a], map[id := b]]);
      && id in s && s.Keys == {id}
      && s[id].modelId == id && s[id].activeRequests == 3
      && s[id].allocationStatus == Allocated && s[id].supportsConcurrentRequests
  {
    var tables := [map[id := a], map[id := b]];
    assert tables[..1] == [map[id := a]];
    assert tables[..1][..0] == [];
    assert Summaries(tables[..1]) == map[id := a];
  }

  /** The categories gathered for the ids of one node's table. */
  function CategoryStep(acc: map<string, set<Modality>>, ix: ModelIndex): map<string, set<Modality>> {
    map id | id in acc.Keys + ix.models.Keys ::
      (if id in acc then acc[id] else {})
      + (if id in ix.models && id in ix.categories then ix.categories[id] else {})
  }

  function Categories(nodes: seq<ModelIndex>): map<string, set<Modality>> {
    if |nodes| == 0 then map[] else CategoryStep(Categories(nodes[..|nodes| - 1]), nodes[|nodes| - 1])
  }

  /** An id's gathered categories are the union of the categories every node that lists
      it has recorded for it. */
  lemma {:induction false} CategoriesReference(nodes: seq<ModelIndex>, id: string, m: Modality)
    ensures id in Categories(nodes) <==> exists i :: 0 <= i < |nodes| && id in nodes[i].models
    ensures id in Categories(nodes) ==> (m in Categories(nodes)[id] <==>
      exists i :: 0 <= i < |nodes| && id in nodes[i].models && id in nodes[i].categories && m in nodes[i].categories[id])
  {
    if |nodes| > 0 {
      var init := nodes[..|nodes| - 1];
      CategoriesReference(init, id, m);
      assert forall i :: 0 <= i < |init| ==> init[i] == nodes[i];
    }
  }

  function TablesOf(nodes: seq<ModelIndex>): (tables: seq<ModelTable>)
    ensures |tables| == |nodes| && forall i :: 0 <= i < |nodes| ==> tables[i] == nodes[i].models
  {
    seq(|nodes|, i requires 0 <= i < |nodes| => nodes[i].models)
  }

  /** The union of the output modalities of a capability list. */
  function Outputs(caps: seq<ModelCapability>): (r: set<Modality>)
    ensures forall m :: m in r <==> exists i :: 0 <= i < |caps| && m in caps[i].outputs
  {
    set i, m | 0 <= i < |caps| && m in caps[i].outputs :: m
  }

  /** The groups a summary goes into: its gathered categories, or the outputs of its
      capabilities when none were gathered. */
  function Effective(x: AlloyModel, cats: set<Modality>): set<Modality> {
    if cats != {} then cats else Outputs(x.capabilities)
  }

  function CategoriesOf(cats: map<string, set<Modality>>, id: string): set<Modality> {
    if id in cats then cats[id] else {}
  }

  /** The ids that go into group `m`, sorted. */
  function GroupIds(summary: ModelTable, cats: map<string, set<Modality>>, m: Modality): (ids: seq<string>)
    ensures StrictlySorted(ids)
    ensures forall id :: id in ids <==> id in summary && m in Effective(summary[id], CategoriesOf(cats, id))
  {
    SortedKeys(set id | id in summary && m in Effective(summary[id], CategoriesOf(cats, id)))
  }

  function Group(summary: ModelTable, cats: map<string, set<Modality>>, m: Modality): (g: seq<AlloyModel>) {
    var ids := GroupIds(summary, cats, m);
    seq(|ids|, i requires 0 <= i < |ids| => summary[ids[i]])
  }

  /** `_combined_models_response()` over the nodes' tables. */
  function CombinedResponse(nodes: seq<ModelIndex>): ModelsResponse {
    var summary := Summaries(TablesOf(nodes));
    var cats := Categories(nodes);
    ModelsResponse(Group(summary, cats, Image), Group(summary, cats, Audio), Group(summary, cats, Video), Group(summary, cats, Text))
  }

  /** A group holds exactly the summaries whose effective categories include `m`, in
      increasing order of model id. */
  lemma GroupContents(summary: ModelTable, cats: map<string, set<Modality>>, m: Modality)
    requires WellKeyed(summary)
    ensures var g := Group(summary, cats, m);
      && (forall x :: x in g <==> x.modelId in summary && x == summary[x.modelId] && m in Effective(x, CategoriesOf(cats, x.modelId)))
      && (forall i, j :: 0 <= i < j < |g| ==> Less(g[i].modelId, g[j].modelId))
  {
    var ids := GroupIds(summary, cats, m);
    var g := Group(summary, cats, m);
    assert forall i :: 0 <= i < |g| ==> g[i] == summary[ids[i]] && g[i].modelId == ids[i];
    forall x: AlloyModel | x.modelId in summary && x == summary[x.modelId] && m in Effective(x, CategoriesOf(cats, x.modelId))
      ensures x in g
    {
      var k :| 0 <= k < |ids| && ids[k] == x.modelId;
      assert g[k] == x;
    }
  }

  /** A model is listed in group `m` of the combined response exactly when `m` is among its
      effective categories; each group is sorted by model id without repeats. */
  lemma CombinedGroups(nodes: seq<ModelIndex>, m: Modality)
    requires forall i :: 0 <= i < |nodes| ==> WellKeyed(nodes[i].models)
    ensures var summary := Summaries(TablesOf(nodes));
      var cats := Categories(nodes);
      var g := Listing(CombinedResponse(nodes), m);
      && (forall x :: x in g <==> x.modelId in summary && x == summary[x.modelId] && m in Effective(x, CategoriesOf(cats, x.modelId)))
      && (forall i, j :: 0 <= i < j < |g| ==> Less(g[i].modelId, g[j].modelId))
  {
    var tables := TablesOf(nodes);
    SummariesWellKeyed(tables);
    var summary := Summaries(tables);
    var cats := Categories(nodes);
    assert Listing(CombinedResponse(nodes), m) == Group(summary, cats, m);
    GroupContents(summary, cats, m);
  }
}
