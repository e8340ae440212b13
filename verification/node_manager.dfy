/** `AlloyNodeManager` (alloyai_client/node_manager.py): a pool of Alloy nodes addressed as
    one client. The manager keeps a state per node, refreshes those states from each node's
    `/models` listing, routes each request to the lowest-scoring node that supports the
    model, and counts the requests it has in flight per node.

    What the network returns is a parameter: a `Fetch` gives, for each node index, either
    the node's parsed `/models` response or the text of the exception its client raised.
    The clock is a parameter too. */
module NodeManager {
  import opened Wrappers
  import opened Json
  import opened Text
  import opened AlloyTypes
  import opened Catalog
  import opened Scoring
  import opened Ranking
  import Client

  // ---------------------------------------------------------------------------
  // Configuration

  /** `NodeQueryMode`. */
  datatype QueryMode = LocalOnly | QueryEverytime | ControlledQuerying

  function ModeValue(q: QueryMode): string {
    match q
    case LocalOnly => "local_only"
    case QueryEverytime => "query_everytime"
    case ControlledQuerying => "controlled_querying"
  }

  /** `NodeQueryMode(value)`: only the three enum values are accepted. */
  function ParseQueryMode(s: string): (r: Option<QueryMode>)
    ensures r.Some? ==> ModeValue(r.value) == s
    ensures forall q :: ModeValue(q) == s ==> r == Some(q)
  {
    if s == "local_only" then Some(LocalOnly)
    else if s == "query_everytime" then Some(QueryEverytime)
    else if s == "controlled_querying" then Some(ControlledQuerying)
    else None
  }

  /** One entry of the `nodes` argument: a bare base URL or a `NodeConfig`. */
  datatype NodeSpec = BareUrl(url: string) | Config(baseUrl: string, name: Option<string>, weight: real)

  function DefaultName(index: nat): string {
    "node-" + IntToString(index)
  }

  /** The node's name: the configured one when it is present and not empty, otherwise
      `node-<index>`. */
  function NodeName(spec: NodeSpec, index: nat): (name: string)
    ensures name != ""
    ensures spec.Config? && spec.name.Some? && spec.name.value != "" ==> name == spec.name.value
    ensures spec.BareUrl? || spec.name.None? || spec.name.value == "" ==> name == DefaultName(index)
  {
    match spec
    case BareUrl(_) => DefaultName(index)
    case Config(_, name, _) => if name.Some? && name.value != "" then name.value else DefaultName(index)
  }

  /** A node's state as the constructor first builds it: nothing known, nothing in flight. */
  function InitialNode(spec: NodeSpec, index: nat): (n: NodeState)
    ensures n.name == NodeName(spec, index)
    ensures n.baseUrl == Client.NormalizeBaseUrl(if spec.BareUrl? then spec.url else spec.baseUrl)
    ensures n.weight == if spec.BareUrl? then 1.0 else spec.weight
    ensures n.models == map[] && n.categories == map[]
    ensures n.localInflightTotal == 0 && n.localInflightByModel == map[]
    ensures n.lastRefreshError.None?
  {
    var url := if spec.BareUrl? then spec.url else spec.baseUrl;
    var weight := if spec.BareUrl? then 1.0 else spec.weight;
    NodeState(NodeName(spec, index), Client.NewClient(url, 0.0).baseUrl, weight, map[], map[], 0, 0, 0, map[], 0.0, None)
  }

  /** What the manager keeps true of every node state: the table is keyed by model id, the
      categories cover exactly the listed models, the summary counts agree with the table,
      and the in-flight counters are sane. */
  predicate NodeValid(n: NodeState) {
    && WellKeyed(n.models)
    && n.models.Keys == n.categories.Keys
    && n.supportedModelCount == |SupportedIds(n.models)|
    && n.remoteActiveTotal == ActiveTotal(n.models)
    && CountersValid(n)
  }

  lemma InitialNodeValid(spec: NodeSpec, index: nat)
    ensures NodeValid(InitialNode(spec, index))
  {
    var n := InitialNode(spec, index);
    assert SupportedIds(n.models) == {};
  }

  datatype Manager = Manager(nodes: seq<NodeState>, mode: QueryMode, maxNodesToQuery: nat)

  predicate Valid(m: Manager) {
    |m.nodes| > 0 && m.maxNodesToQuery > 0 && forall i :: 0 <= i < |m.nodes| ==> NodeValid(m.nodes[i])
  }

  // ---------------------------------------------------------------------------
  // refresh_nodes

  /** What the `/models` call of each node (by index) returns or raises. */
  type Fetch = nat -> Result<ModelsResponse, string>

  /** A later node has the same name, so the name-keyed dict the refresh builds holds the
      later one and this node is never refreshed. */
  predicate Shadowed(nodes: seq<NodeState>, i: nat)
    requires i < |nodes|
  {
    exists j :: i < j < |nodes| && nodes[j].name == nodes[i].name
  }

  /** No names, or an empty list of names, asks for every node. */
  predicate Requested(names: Option<seq<string>>, name: string) {
    names.None? || |names.value| == 0 || name in names.value
  }

  predicate Selected(nodes: seq<NodeState>, names: Option<seq<string>>, i: nat)
    requires i < |nodes|
  {
    !Shadowed(nodes, i) && Requested(names, nodes[i].name)
  }

  /** Applies one node's `/models` outcome: on success the node takes the indexed table and
      its summary counts, on failure only the error is recorded. */
  function RefreshNode(n: NodeState, outcome: Result<ModelsResponse, string>, now: real): (r: NodeState)
    ensures outcome.Failure? ==> r == n.(lastRefreshError := Some(outcome.error))
    ensures outcome.Success? ==>
      && r.models == IndexModels(outcome.value).models
      && r.categories == IndexModels(outcome.value).categories
      && r.lastRefreshTs == now && r.lastRefreshError.None?
    ensures r.name == n.name && r.baseUrl == n.baseUrl && r.weight == n.weight
    ensures r.localInflightTotal == n.localInflightTotal && r.localInflightByModel == n.localInflightByModel
    ensures outcome.Success? ==>
      && r.supportedModelCount == |SupportedIds(r.models)|
      && r.remoteActiveTotal == ActiveTotal(r.models)
    ensures NodeValid(n) ==> NodeValid(r)
  {
    match outcome
    case Failure(e) => n.(lastRefreshError := Some(e))
    case Success(response) =>
      var ix := IndexModels(response);
      SupportedCountIsCardinality(ix.models);
      n.(models := ix.models, categories := ix.categories,
         supportedModelCount := SupportedCount(ix.models), remoteActiveTotal := ActiveTotal(ix.models),
         lastRefreshTs := now, lastRefreshError := None)
  }

  datatype Refreshed = Refreshed(nodes: seq<NodeState>, errors: map<string, string>)

  /** The refresh's result dict: the exception text of each selected node whose call failed,
      under the node's name. Selected nodes have distinct names. */
  function RefreshErrors(nodes: seq<NodeState>, names: Option<seq<string>>, fetch: Fetch): (e: map<string, string>)
    ensures forall i :: 0 <= i < |nodes| && Selected(nodes, names, i) ==> (nodes[i].name in e <==> fetch(i).Failure?)
    ensures forall i :: 0 <= i < |nodes| && Selected(nodes, names, i) && fetch(i).Failure? ==> e[nodes[i].name] == fetch(i).error
    ensures forall nm :: nm in e ==> exists i :: 0 <= i < |nodes| && Selected(nodes, names, i) && nodes[i].name == nm
  {
    assert forall i, j :: (0 <= i < |nodes| && 0 <= j < |nodes| && Selected(nodes, names, i) && Selected(nodes, names, j)
      && nodes[i].name == nodes[j].name) ==> i == j;
    map i | 0 <= i < |nodes| && Selected(nodes, names, i) && fetch(i).Failure? :: nodes[i].name := fetch(i).error
  }

  /** `refresh_nodes(node_names=names)`: the states after the refresh and the errors it
      reports. */
  function Refresh(nodes: seq<NodeState>, names: Option<seq<string>>, fetch: Fetch, now: real): (r: Refreshed)
    ensures |r.nodes| == |nodes|
    ensures forall i :: 0 <= i < |nodes| && !Selected(nodes, names, i) ==> r.nodes[i] == nodes[i]
    ensures forall i :: 0 <= i < |nodes| && Selected(nodes, names, i) ==> r.nodes[i] == RefreshNode(nodes[i], fetch(i), now)
    ensures r.errors == RefreshErrors(nodes, names, fetch)
  {
    var updated := seq(|nodes|, i requires 0 <= i < |nodes| =>
      if Selected(nodes, names, i) then RefreshNode(nodes[i], fetch(i), now) else nodes[i]);
    Refreshed(updated, RefreshErrors(nodes, names, fetch))
  }

  /** Each reported error names a refreshed node and is the error that node now records. */
  lemma ErrorsRecorded(nodes: seq<NodeState>, names: Option<seq<string>>, fetch: Fetch, now: real, nm: string)
    requires nm in Refresh(nodes, names, fetch, now).errors
    ensures var r := Refresh(nodes, names, fetch, now);
      exists i :: 0 <= i < |nodes| && Selected(nodes, names, i) && nodes[i].name == nm
        && r.nodes[i].lastRefreshError == Some(r.errors[nm])
  {
    var r := Refresh(nodes, names, fetch, now);
    var i :| 0 <= i < |nodes| && Selected(nodes, names, i) && nodes[i].name == nm;
    assert fetch(i).Failure?;
    assert r.nodes[i].lastRefreshError == Some(fetch(i).error);
  }

  /** The per-node in-flight counters, in node order. */
  function Counters(nodes: seq<NodeState>): seq<(int, map<string, int>)> {
    seq(|nodes|, i requires 0 <= i < |nodes| => (nodes[i].localInflightTotal, nodes[i].localInflightByModel))
  }

  /** A refresh keeps every node's identity and in-flight counters and keeps the states
      valid. */
  lemma RefreshPreserves(nodes: seq<NodeState>, names: Option<seq<string>>, fetch: Fetch, now: real)
    ensures var r := Refresh(nodes, names, fetch, now).nodes;
      && Counters(r) == Counters(nodes)
      && (forall i :: 0 <= i < |nodes| ==> r[i].name == nodes[i].name && r[i].weight == nodes[i].weight)
      && ((forall i :: 0 <= i < |nodes| ==> NodeValid(nodes[i])) ==> forall i :: 0 <= i < |nodes| ==> NodeValid(r[i]))
  {
    var r := Refresh(nodes, names, fetch, now).nodes;
    assert forall i :: 0 <= i < |nodes| ==> Counters(r)[i] == Counters(nodes)[i];
  }

  /** An empty error dict means every selected node's call succeeded. */
  lemma NoErrorsAllSucceeded(nodes: seq<NodeState>, names: Option<seq<string>>, fetch: Fetch, now: real)
    requires Refresh(nodes, names, fetch, now).errors == map[]
    ensures forall i :: 0 <= i < |nodes| && Selected(nodes, names, i) ==> fetch(i).Success?
  {
    var r := Refresh(nodes, names, fetch, now);
    forall i | 0 <= i < |nodes| && Selected(nodes, names, i)
      ensures fetch(i).Success?
    {
      assert nodes[i].name !in r.errors;
    }
  }

  /** Of several nodes with one name only the last is ever refreshed. */
  lemma ShadowedNeverRefreshed(nodes: seq<NodeState>, names: Option<seq<string>>, fetch: Fetch, now: real, i: nat, j: nat)
    requires i < j < |nodes| && nodes[i].name == nodes[j].name
    ensures Refresh(nodes, names, fetch, now).nodes[i] == nodes[i]
  {
    assert Shadowed(nodes, i);
  }

  predicate UniqueNames(nodes: seq<NodeState>) {
    forall i, j :: 0 <= i < j < |nodes| ==> nodes[i].name != nodes[j].name
  }

  /** With distinct node names, a refresh for a non-empty list of names refreshes exactly
      the nodes named, and its errors are keyed by names from the list. */
  lemma RefreshNamed(nodes: seq<NodeState>, names: seq<string>, fetch: Fetch, now: real)
    requires UniqueNames(nodes) && |names| > 0
    ensures var r := Refresh(nodes, Some(names), fetch, now);
      && (forall i :: 0 <= i < |nodes| && nodes[i].name in names ==> r.nodes[i] == RefreshNode(nodes[i], fetch(i), now))
      && (forall i :: 0 <= i < |nodes| && nodes[i].name !in names ==> r.nodes[i] == nodes[i])
      && (forall nm :: nm in r.errors ==> nm in names)
  {
    forall i | 0 <= i < |nodes|
      ensures !Shadowed(nodes, i)
    {
      assert forall j :: i < j < |nodes| ==> nodes[j].name != nodes[i].name;
    }
  }

  // ---------------------------------------------------------------------------
  // Construction

  datatype InitError =
    | ValueError(message: string)
      /** `strict_init` and some node failed its first refresh: the failures by node name. */
    | InitFailed(errors: map<string, string>)
      /** "No nodes provided a valid /models response". */
    | NoValidModels

  /** The node states before the first refresh. */
  function InitialNodes(specs: seq<NodeSpec>): (nodes: seq<NodeState>)
    ensures |nodes| == |specs|
    ensures forall i :: 0 <= i < |specs| ==> nodes[i] == InitialNode(specs[i], i)
  {
    seq(|specs|, i requires 0 <= i < |specs| => InitialNode(specs[i], i))
  }

  /** The constructor after its argument checks: build the states, refresh every node,
      and fail on an error under `strict_init` or when no node listed any model. */
  function Start(specs: seq<NodeSpec>, q: QueryMode, maxNodes: nat, strictInit: bool, fetch: Fetch, now: real): (r: Result<Manager, InitError>)
    requires |specs| > 0 && maxNodes > 0
    ensures r.Failure? ==> r.error.InitFailed? || r.error.NoValidModels?
    ensures r.Failure? && r.error.InitFailed? ==> strictInit && r.error.errors != map[]
    ensures r.Success? ==>
      && Valid(r.value)
      && |r.value.nodes| == |specs| && r.value.mode == q && r.value.maxNodesToQuery == maxNodes
      && (forall i :: 0 <= i < |specs| ==> r.value.nodes[i].name == NodeName(specs[i], i))
      && (exists i :: 0 <= i < |specs| && r.value.nodes[i].models != map[])
      && (strictInit ==> forall i :: 0 <= i < |specs| && Selected(InitialNodes(specs), None, i) ==> fetch(i).Success?)
    ensures var res := Refresh(InitialNodes(specs), None, fetch, now);
      && (r.Failure? <==> (strictInit && res.errors != map[]) || forall i :: 0 <= i < |specs| ==> res.nodes[i].models == map[])
      && (strictInit && res.errors != map[] ==> r == Failure(InitFailed(res.errors)))
      && (r.Success? ==> r.value.nodes == res.nodes)
  {
    var initial := InitialNodes(specs);
    var res := Refresh(initial, None, fetch, now);
    RefreshPreserves(initial, None, fetch, now);
    assert forall i :: 0 <= i < |specs| ==> NodeValid(initial[i]) by {
      forall i | 0 <= i < |specs| ensures NodeValid(initial[i]) {
        InitialNodeValid(specs[i], i);
      }
    }
    if strictInit && res.errors != map[] then Failure(InitFailed(res.errors))
    else
      assert strictInit ==> forall i :: 0 <= i < |specs| && Selected(initial, None, i) ==> fetch(i).Success? by {
        if strictInit {
          NoErrorsAllSucceeded(initial, None, fetch, now);
        }
      }
      if forall i :: 0 <= i < |specs| ==> res.nodes[i].models == map[] then Failure(NoValidModels)
      else Success(Manager(res.nodes, q, maxNodes))
  }

  /** `AlloyNodeManager(nodes, mode=mode, max_nodes_to_query=maxNodes, strict_init=strictInit)`
      with its first refresh of every node. */
  function Create(specs: seq<NodeSpec>, mode: string, maxNodes: int, strictInit: bool, fetch: Fetch, now: real): (r: Result<Manager, InitError>)
    ensures |specs| == 0 ==> r == Failure(ValueError("nodes must include at least one node"))
    ensures |specs| > 0 && maxNodes <= 0 ==> r == Failure(ValueError("max_nodes_to_query must be positive"))
    ensures |specs| > 0 && maxNodes > 0 && ParseQueryMode(mode).None? ==>
      r == Failure(ValueError("'" + mode + "' is not a valid NodeQueryMode"))
    ensures |specs| > 0 && maxNodes > 0 && ParseQueryMode(mode).Some? ==>
      r == Start(specs, ParseQueryMode(mode).value, maxNodes, strictInit, fetch, now)
  {
    if |specs| == 0 then Failure(ValueError("nodes must include at least one node"))
    else if maxNodes <= 0 then Failure(ValueError("max_nodes_to_query must be positive"))
    else match ParseQueryMode(mode)
      case None => Failure(ValueError("'" + mode + "' is not a valid NodeQueryMode"))
      case Some(q) => Start(specs, q, maxNodes, strictInit, fetch, now)
  }

  // ---------------------------------------------------------------------------
  // _select_node_for_model

  /** The indices of the first `n` nodes that support the model, in node order. */
  function CandidatesUpTo(nodes: seq<NodeState>, id: string, n: nat): (c: seq<nat>)
    requires n <= |nodes|
    ensures forall k :: 0 <= k < |c| ==> c[k] < n && IsModelSupported(nodes[c[k]], id)
    ensures forall i :: 0 <= i < n && IsModelSupported(nodes[i], id) ==> i in c
    ensures Increasing(c)
  {
    if n == 0 then []
    else
      var c := CandidatesUpTo(nodes, id, n - 1);
      if IsModelSupported(nodes[n - 1], id) then c + [n - 1] else c
  }

  /** `[node for node in nodes if _is_model_supported(node, model_id)]`, as indices. */
  function Candidates(nodes: seq<NodeState>, id: string): (c: seq<nat>)
    ensures forall k :: 0 <= k < |c| ==> c[k] < |nodes| && IsModelSupported(nodes[c[k]], id)
    ensures forall i :: 0 <= i < |nodes| && IsModelSupported(nodes[i], id) ==> i in c
    ensures Increasing(c)
  {
    CandidatesUpTo(nodes, id, |nodes|)
  }

  /** No node supports the model, so there are no candidates. */
  lemma {:induction false} NoCandidates(nodes: seq<NodeState>, id: string, n: nat)
    requires n <= |nodes| && forall i :: 0 <= i < n ==> !IsModelSupported(nodes[i], id)
    ensures CandidatesUpTo(nodes, id, n) == []
  {
    if n > 0 {
      NoCandidates(nodes, id, n - 1);
    }
  }

  function Scores(nodes: seq<NodeState>, id: string): (s: seq<Score>)
    ensures |s| == |nodes|
  {
    seq(|nodes|, i requires 0 <= i < |nodes| => NodeScore(nodes[i], id))
  }

  function NamesOf(nodes: seq<NodeState>, idx: seq<nat>): (names: seq<string>)
    requires forall k :: 0 <= k < |idx| ==> idx[k] < |nodes|
    ensures |names| == |idx|
  {
    seq(|idx|, k requires 0 <= k < |idx| => nodes[idx[k]].name)
  }

  /** The names the mode refreshes before choosing, or `None` for no refresh. */
  function ModeTargets(q: QueryMode, limit: nat, nodes: seq<NodeState>, id: string): (r: Option<seq<string>>)
    ensures q.LocalOnly? <==> r.None?
    ensures q.QueryEverytime? ==> r == Some(NamesOf(nodes, Candidates(nodes, id)))
    ensures q.ControlledQuerying? ==> r.Some? && |r.value| == Min(limit, |Candidates(nodes, id)|)
    ensures q.ControlledQuerying? ==>
      var cs := Candidates(nodes, id);
      && (forall k :: 0 <= k < |cs| ==> cs[k] < |Scores(nodes, id)|)
      && r == Some(NamesOf(nodes, ToQuery(cs, Scores(nodes, id), limit)))
  {
    var c := Candidates(nodes, id);
    match q
    case LocalOnly => None
    case QueryEverytime => Some(NamesOf(nodes, c))
    case ControlledQuerying =>
      var q := ToQuery(c, Scores(nodes, id), limit);
      ToQueryFromCandidates(c, Scores(nodes, id), limit);
      Some(NamesOf(nodes, q))
  }

  /** With distinct names, a node's name is among the names of some nodes exactly when the
      node is one of them. */
  lemma NameAmongIff(nodes: seq<NodeState>, idx: seq<nat>, i: nat)
    requires UniqueNames(nodes) && i < |nodes|
    requires forall k :: 0 <= k < |idx| ==> idx[k] < |nodes|
    ensures nodes[i].name in NamesOf(nodes, idx) <==> i in idx
  {
    var names := NamesOf(nodes, idx);
    if nodes[i].name in names {
      var k :| 0 <= k < |names| && names[k] == nodes[i].name;
      assert nodes[idx[k]].name == nodes[i].name;
      assert idx[k] == i;
    }
    if i in idx {
      var k :| 0 <= k < |idx| && idx[k] == i;
      assert names[k] == nodes[i].name;
    }
  }

  /** Controlled querying names the lowest-scoring candidates: with distinct node names,
      every node whose name it targets supports the model and comes before every supporting
      node it leaves out, by score and then by position. */
  lemma ControlledTargetsLowest(limit: nat, nodes: seq<NodeState>, id: string, t: nat, c: nat)
    requires UniqueNames(nodes)
    requires t < |nodes| && c < |nodes| && IsModelSupported(nodes[c], id)
    requires var targets := ModeTargets(ControlledQuerying, limit, nodes, id).value;
      nodes[t].name in targets && nodes[c].name !in targets
    ensures IsModelSupported(nodes[t], id) && Before(Scores(nodes, id), t, c)
  {
    var cs := Candidates(nodes, id);
    var q := ToQuery(cs, Scores(nodes, id), limit);
    ToQueryFromCandidates(cs, Scores(nodes, id), limit);
    NameAmongIff(nodes, q, t);
    NameAmongIff(nodes, q, c);
    assert c in cs;
    ToQueryLowest(cs, Scores(nodes, id), limit, t, c);
  }

  function NoCandidateMessage(id: string): string {
    "No candidate node supports model '" + id + "'"
  }

  /** The node states after selection (refreshes change them even when selection fails)
      and the chosen node's index, if any. */
  datatype Selection = Selection(nodes: seq<NodeState>, chosen: Option<nat>)

  /** The candidate `min` picks scores no higher than any node and strictly lower than
      every node before it. */
  lemma ArgMinBest(nodes: seq<NodeState>, id: string)
    requires |Candidates(nodes, id)| > 0
    ensures var best := ArgMin(Candidates(nodes, id), Scores(nodes, id));
      && (forall i :: 0 <= i < |nodes| ==> ScoreLe(Scores(nodes, id)[best], Scores(nodes, id)[i]))
      && (forall i :: 0 <= i < best ==> ScoreLess(Scores(nodes, id)[best], Scores(nodes, id)[i]))
  {
    var c := Candidates(nodes, id);
    var s := Scores(nodes, id);
    var best := ArgMin(c, s);
    assert s[best].Finite?;
    forall i | 0 <= i < |nodes|
      ensures ScoreLe(s[best], s[i])
    {
      if IsModelSupported(nodes[i], id) {
        var k :| 0 <= k < |c| && c[k] == i;
        assert ScoreLe(s[best], s[c[k]]);
      } else {
        assert s[i].Infinite?;
      }
    }
    forall i | 0 <= i < best
      ensures ScoreLess(s[best], s[i])
    {
      if IsModelSupported(nodes[i], id) {
        var k :| 0 <= k < |c| && c[k] == i;
        ArgMinStrictlyBeforeEarlier(c, s, k);
      } else {
        assert s[i].Infinite?;
      }
    }
  }

  /** The lowest-scoring supporting node, first among equals, or none. */
  function Choose(nodes: seq<NodeState>, id: string): (r: Option<nat>)
    ensures r.None? <==> forall i :: 0 <= i < |nodes| ==> !IsModelSupported(nodes[i], id)
    ensures r.Some? ==>
      && r.value < |nodes| && IsModelSupported(nodes[r.value], id)
      && (forall i :: 0 <= i < |nodes| ==> ScoreLe(NodeScore(nodes[r.value], id), NodeScore(nodes[i], id)))
      && (forall i :: 0 <= i < r.value ==> ScoreLess(NodeScore(nodes[r.value], id), NodeScore(nodes[i], id)))
  {
    var c := Candidates(nodes, id);
    if |c| == 0 then None
    else
      var s := Scores(nodes, id);
      ArgMinBest(nodes, id);
      assert forall i :: 0 <= i < |nodes| ==> s[i] == NodeScore(nodes[i], id);
      Some(ArgMin(c, s))
  }

  /** `_select_node_for_model(model_id)`: refresh every node when none supports the model,
      then refresh as the mode says, then choose. `fetchAll` and `fetchMode` are the
      outcomes of the two refreshes. */
  /** The states the mode's refresh starts from: as they were when some node supports the
      model, otherwise as a refresh of every node left them. */
  function AfterFallback(nodes: seq<NodeState>, id: string, fetchAll: Fetch, now1: real): (r: seq<NodeState>)
    ensures (exists i :: 0 <= i < |nodes| && IsModelSupported(nodes[i], id)) ==> r == nodes
    ensures (forall i :: 0 <= i < |nodes| ==> !IsModelSupported(nodes[i], id)) ==>
      r == Refresh(nodes, None, fetchAll, now1).nodes
  {
    var c := Candidates(nodes, id);
    if |c| == 0 then Refresh(nodes, None, fetchAll, now1).nodes
    else
      assert IsModelSupported(nodes[c[0]], id);
      nodes
  }

  function Select(m: Manager, id: string, fetchAll: Fetch, fetchMode: Fetch, now1: real, now2: real): (r: Selection)
    ensures |r.nodes| == |m.nodes|
    ensures r.chosen == Choose(r.nodes, id)
    ensures Counters(r.nodes) == Counters(m.nodes)
    ensures forall i :: 0 <= i < |m.nodes| ==> r.nodes[i].name == m.nodes[i].name && r.nodes[i].weight == m.nodes[i].weight
    ensures Valid(m) ==> Valid(m.(nodes := r.nodes))
  {
    var nodes1 := AfterFallback(m.nodes, id, fetchAll, now1);
    RefreshPreserves(m.nodes, None, fetchAll, now1);
    assert nodes1 == m.nodes || nodes1 == Refresh(m.nodes, None, fetchAll, now1).nodes by {
      if |Candidates(m.nodes, id)| > 0 {
        assert IsModelSupported(m.nodes[Candidates(m.nodes, id)[0]], id);
      } else {
        NoCandidates(m.nodes, id, |m.nodes|);
      }
    }
    if |Candidates(nodes1, id)| == 0 then
      Selection(nodes1, Choose(nodes1, id))
    else
      var nodes2 := match ModeTargets(m.mode, m.maxNodesToQuery, nodes1, id)
        case None => nodes1
        case Some(names) => Refresh(nodes1, Some(names), fetchMode, now2).nodes;
      RefreshPreserves(nodes1, ModeTargets(m.mode, m.maxNodesToQuery, nodes1, id), fetchMode, now2);
      Selection(nodes2, Choose(nodes2, id))
  }

  /** In local-only mode, when some node already supports the model, selection makes no
      network call and leaves every state as it was. */
  lemma LocalOnlyNoRefresh(m: Manager, id: string, fetchAll: Fetch, fetchMode: Fetch, now1: real, now2: real)
    requires m.mode == LocalOnly && exists i :: 0 <= i < |m.nodes| && IsModelSupported(m.nodes[i], id)
    ensures Select(m, id, fetchAll, fetchMode, now1, now2).nodes == m.nodes
    ensures Select(m, id, fetchAll, fetchMode, now1, now2).chosen.Some?
  {
    var i :| 0 <= i < |m.nodes| && IsModelSupported(m.nodes[i], id);
    assert i in Candidates(m.nodes, id);
  }

  /** In local-only mode the fallback refresh of every node is the only refresh: the
      states are those the fallback left, and the choice is made over them. */
  lemma LocalOnlyRefreshesOnlyOnFallback(m: Manager, id: string, fetchAll: Fetch, fetchMode: Fetch, now1: real, now2: real)
    requires m.mode == LocalOnly
    ensures var nodes1 := AfterFallback(m.nodes, id, fetchAll, now1);
      Select(m, id, fetchAll, fetchMode, now1, now2) == Selection(nodes1, Choose(nodes1, id))
  {
  }

  /** When no node supports the model, selection refreshes every node; if still none does,
      it fails and keeps the states that refresh produced. */
  lemma UnsupportedRefreshesAll(m: Manager, id: string, fetchAll: Fetch, fetchMode: Fetch, now1: real, now2: real)
    requires forall i :: 0 <= i < |m.nodes| ==> !IsModelSupported(m.nodes[i], id)
    requires var after := Refresh(m.nodes, None, fetchAll, now1).nodes;
      forall i :: 0 <= i < |after| ==> !IsModelSupported(after[i], id)
    ensures Select(m, id, fetchAll, fetchMode, now1, now2) == Selection(Refresh(m.nodes, None, fetchAll, now1).nodes, None)
  {
    NoCandidates(m.nodes, id, |m.nodes|);
    NoCandidates(Refresh(m.nodes, None, fetchAll, now1).nodes, id, |m.nodes|);
  }

  /** Past the fallback, the query modes refresh exactly the nodes that the name-keyed
      refresh selects for the mode's target names, with the mode refresh's outcomes; every
      other state stays as the fallback left it. */
  lemma SelectRefreshesTargets(m: Manager, id: string, fetchAll: Fetch, fetchMode: Fetch, now1: real, now2: real)
    requires m.mode != LocalOnly
    requires var nodes1 := AfterFallback(m.nodes, id, fetchAll, now1);
      exists i :: 0 <= i < |nodes1| && IsModelSupported(nodes1[i], id)
    ensures var nodes1 := AfterFallback(m.nodes, id, fetchAll, now1);
      var targets := ModeTargets(m.mode, m.maxNodesToQuery, nodes1, id);
      var r := Select(m, id, fetchAll, fetchMode, now1, now2);
      && |nodes1| == |m.nodes|
      && (forall i :: 0 <= i < |nodes1| && Selected(nodes1, targets, i) ==> r.nodes[i] == RefreshNode(nodes1[i], fetchMode(i), now2))
      && (forall i :: 0 <= i < |nodes1| && !Selected(nodes1, targets, i) ==> r.nodes[i] == nodes1[i])
  {
    var nodes1 := AfterFallback(m.nodes, id, fetchAll, now1);
    var i :| 0 <= i < |nodes1| && IsModelSupported(nodes1[i], id);
    assert i in Candidates(nodes1, id);
  }

  /** A refresh before choosing keeps the names, so distinct names stay distinct. */
  lemma FallbackKeepsNames(nodes: seq<NodeState>, id: string, fetchAll: Fetch, now1: real)
    requires UniqueNames(nodes)
    ensures UniqueNames(AfterFallback(nodes, id, fetchAll, now1))
  {
    RefreshPreserves(nodes, None, fetchAll, now1);
    var c := Candidates(nodes, id);
    if |c| > 0 {
      assert IsModelSupported(nodes[c[0]], id);
    }
  }

  /** In query-every-time mode, with distinct node names, selection refreshes exactly the
      nodes that support the model once the fallback is done. */
  lemma EverytimeRefreshesCandidates(m: Manager, id: string, fetchAll: Fetch, fetchMode: Fetch, now1: real, now2: real)
    requires m.mode == QueryEverytime && UniqueNames(m.nodes)
    requires var nodes1 := AfterFallback(m.nodes, id, fetchAll, now1);
      exists i :: 0 <= i < |nodes1| && IsModelSupported(nodes1[i], id)
    ensures var nodes1 := AfterFallback(m.nodes, id, fetchAll, now1);
      var r := Select(m, id, fetchAll, fetchMode, now1, now2);
      && |nodes1| == |m.nodes|
      && (forall i :: 0 <= i < |nodes1| && IsModelSupported(nodes1[i], id) ==> r.nodes[i] == RefreshNode(nodes1[i], fetchMode(i), now2))
      && (forall i :: 0 <= i < |nodes1| && !IsModelSupported(nodes1[i], id) ==> r.nodes[i] == nodes1[i])
  {
    var nodes1 := AfterFallback(m.nodes, id, fetchAll, now1);
    var cs := Candidates(nodes1, id);
    var targets := ModeTargets(m.mode, m.maxNodesToQuery, nodes1, id);
    SelectRefreshesTargets(m, id, fetchAll, fetchMode, now1, now2);
    FallbackKeepsNames(m.nodes, id, fetchAll, now1);
    var w :| 0 <= w < |nodes1| && IsModelSupported(nodes1[w], id);
    assert w in cs;
    forall i | 0 <= i < |nodes1|
      ensures Selected(nodes1, targets, i) <==> IsModelSupported(nodes1[i], id)
    {
      assert !Shadowed(nodes1, i);
      NameAmongIff(nodes1, cs, i);
    }
  }

  /** In controlled-querying mode, with distinct node names and a positive limit,
      selection refreshes exactly the `min(limit, n)` lowest-scoring supporting nodes that
      `ToQuery` ranks first, and no other node. */
  lemma ControlledRefreshesLowest(m: Manager, id: string, fetchAll: Fetch, fetchMode: Fetch, now1: real, now2: real)
    requires m.mode == ControlledQuerying && UniqueNames(m.nodes) && m.maxNodesToQuery > 0
    requires var nodes1 := AfterFallback(m.nodes, id, fetchAll, now1);
      exists i :: 0 <= i < |nodes1| && IsModelSupported(nodes1[i], id)
    ensures var nodes1 := AfterFallback(m.nodes, id, fetchAll, now1);
      var cs := Candidates(nodes1, id);
      var q := ToQuery(cs, Scores(nodes1, id), m.maxNodesToQuery);
      var r := Select(m, id, fetchAll, fetchMode, now1, now2);
      && |nodes1| == |m.nodes|
      && |q| == Min(m.maxNodesToQuery, |cs|)
      && (forall t :: t in q ==> t in cs)
      && (forall i :: 0 <= i < |nodes1| && i in q ==> r.nodes[i] == RefreshNode(nodes1[i], fetchMode(i), now2))
      && (forall i :: 0 <= i < |nodes1| && i !in q ==> r.nodes[i] == nodes1[i])
  {
    var nodes1 := AfterFallback(m.nodes, id, fetchAll, now1);
    SelectRefreshesTargets(m, id, fetchAll, fetchMode, now1, now2);
    FallbackKeepsNames(m.nodes, id, fetchAll, now1);
    ControlledSelectsRanked(nodes1, id, m.maxNodesToQuery);
  }

  /** With distinct names and a positive limit, the refresh for controlled querying's
      target names selects exactly the nodes `ToQuery` ranks first. */
  lemma ControlledSelectsRanked(nodes: seq<NodeState>, id: string, limit: nat)
    requires UniqueNames(nodes) && limit > 0
    requires exists i :: 0 <= i < |nodes| && IsModelSupported(nodes[i], id)
    ensures var cs := Candidates(nodes, id);
      var q := ToQuery(cs, Scores(nodes, id), limit);
      && |q| == Min(limit, |cs|)
      && (forall t :: t in q ==> t in cs)
      && forall i :: 0 <= i < |nodes| ==> (Selected(nodes, ModeTargets(ControlledQuerying, limit, nodes, id), i) <==> i in q)
  {
    var cs := Candidates(nodes, id);
    var q := ToQuery(cs, Scores(nodes, id), limit);
    var targets := ModeTargets(ControlledQuerying, limit, nodes, id);
    ToQueryFromCandidates(cs, Scores(nodes, id), limit);
    var w :| 0 <= w < |nodes| && IsModelSupported(nodes[w], id);
    assert w in cs;
    assert |targets.value| > 0;
    forall i | 0 <= i < |nodes|
      ensures Selected(nodes, targets, i) <==> i in q
    {
      assert !Shadowed(nodes, i);
      NameAmongIff(nodes, q, i);
    }
  }

  // ---------------------------------------------------------------------------
  // _dispatch and _wrap_stream_result

  /** What the chosen node's client call did: raised, or returned a value, which for a
      streaming image request is an iterator of events. */
  datatype Invocation = Raised(error: string) | Returned(value: Json, isIterator: bool)

  datatype Outcome =
    | NoCandidate(message: string)
    | Failed(error: string)
    | Completed(value: Json)
      /** A stream still being read from node `node`; its request stays counted until
          `FinishStream`. */
    | Streaming(node: nat, value: Json)

  datatype Dispatched = Dispatched(manager: Manager, outcome: Outcome)

  function ReplaceNode(m: Manager, i: nat, n: NodeState): Manager
    requires i < |m.nodes|
  {
    m.(nodes := m.nodes[i := n])
  }

  /** The part of `_dispatch` after selection, on the manager `m` whose states selection
      left and the node it chose: count the request in flight, invoke, and uncount it
      unless a stream was handed back. */
  function Invoke(m: Manager, chosen: Option<nat>, id: string, stream: bool, invoke: nat -> Invocation): (d: Dispatched)
    requires chosen.Some? ==> chosen.value < |m.nodes|
    ensures |d.manager.nodes| == |m.nodes|
    ensures chosen.None? <==> d.outcome == NoCandidate(NoCandidateMessage(id))
    ensures chosen.None? ==> d.manager == m
    ensures d.outcome.Failed? ==> invoke(chosen.value) == Raised(d.outcome.error)
    ensures d.outcome.Completed? ==> invoke(chosen.value).Returned? && invoke(chosen.value).value == d.outcome.value
    ensures d.outcome.Streaming? <==> stream && chosen.Some? && invoke(chosen.value).Returned? && invoke(chosen.value).isIterator
    ensures d.outcome.Streaming? ==> d.outcome.node == chosen.value && d.outcome.value == invoke(chosen.value).value
    ensures chosen.Some? && invoke(chosen.value).Raised? ==> d.outcome == Failed(invoke(chosen.value).error)
    ensures chosen.Some? && invoke(chosen.value).Returned? && !(stream && invoke(chosen.value).isIterator) ==>
      d.outcome == Completed(invoke(chosen.value).value)
    ensures d.manager.mode == m.mode && d.manager.maxNodesToQuery == m.maxNodesToQuery
  {
    match chosen
    case None => Dispatched(m, NoCandidate(NoCandidateMessage(id)))
    case Some(i) =>
      var busy := ReplaceNode(m, i, IncrementInflight(m.nodes[i], id));
      var idle := ReplaceNode(busy, i, DecrementInflight(busy.nodes[i], id));
      match invoke(i)
      case Raised(e) => Dispatched(idle, Failed(e))
      case Returned(v, isIterator) =>
        if stream && isIterator then Dispatched(busy, Streaming(i, v)) else Dispatched(idle, Completed(v))
  }

  /** `_dispatch(model_id, stream, invoke)`: select, then invoke on the node selection
      chose. Selection's failure is the only `NoCandidate` outcome; otherwise the outcome is
      what the chosen node's call did. Every request is uncounted exactly once: unless a
      stream is handed back the counters end as they were, and a stream holds one count for
      the model on its node until `FinishStream` restores them. Valid states stay valid. */
  function Dispatch(m: Manager, id: string, stream: bool, invoke: nat -> Invocation,
                    fetchAll: Fetch, fetchMode: Fetch, now1: real, now2: real): (d: Dispatched)
    ensures var sel := Select(m, id, fetchAll, fetchMode, now1, now2);
      && |d.manager.nodes| == |m.nodes|
      && d.manager.mode == m.mode && d.manager.maxNodesToQuery == m.maxNodesToQuery
      && (d.outcome.NoCandidate? <==> sel.chosen.None?)
      && (sel.chosen.None? ==> d.manager.nodes == sel.nodes && d.outcome == NoCandidate(NoCandidateMessage(id)))
    ensures var sel := Select(m, id, fetchAll, fetchMode, now1, now2);
      var chosen := Choose(sel.nodes, id);
      chosen.Some? ==>
        && chosen.value < |m.nodes|
        && (invoke(chosen.value).Raised? ==> d.outcome == Failed(invoke(chosen.value).error))
        && (invoke(chosen.value).Returned? && stream && invoke(chosen.value).isIterator ==>
              d.outcome == Streaming(chosen.value, invoke(chosen.value).value))
        && (invoke(chosen.value).Returned? && !(stream && invoke(chosen.value).isIterator) ==>
              d.outcome == Completed(invoke(chosen.value).value))
    ensures (forall i :: 0 <= i < |m.nodes| ==> CountersValid(m.nodes[i])) ==>
      && (!d.outcome.Streaming? ==> Counters(d.manager.nodes) == Counters(m.nodes))
      && (d.outcome.Streaming? ==>
            && d.outcome.node < |d.manager.nodes|
            && InflightOf(d.manager.nodes[d.outcome.node], id) >= 1
            && Counters(FinishStream(d.manager, d.outcome.node, id).nodes) == Counters(m.nodes))
    ensures Valid(m) ==>
      && Valid(d.manager)
      && (d.outcome.Streaming? ==> d.outcome.node < |d.manager.nodes| && Valid(FinishStream(d.manager, d.outcome.node, id)))
  {
    var sel := Select(m, id, fetchAll, fetchMode, now1, now2);
    var m1 := m.(nodes := sel.nodes);
    var d := Invoke(m1, sel.chosen, id, stream, invoke);
    assert (forall i :: 0 <= i < |m.nodes| ==> CountersValid(m.nodes[i])) ==>
      && (!d.outcome.Streaming? ==> d.manager.nodes == m1.nodes)
      && (d.outcome.Streaming? ==>
            && InflightOf(d.manager.nodes[d.outcome.node], id) >= 1
            && FinishStream(d.manager, d.outcome.node, id).nodes == m1.nodes) by {
      if forall i :: 0 <= i < |m.nodes| ==> CountersValid(m.nodes[i]) {
        if sel.chosen.Some? {
          SameCountersValid(m.nodes, sel.nodes, sel.chosen.value);
        }
        InvokeBalanced(m1, sel.chosen, id, stream, invoke);
      }
    }
    assert Valid(m) ==> Valid(d.manager) && (d.outcome.Streaming? ==> Valid(FinishStream(d.manager, d.outcome.node, id))) by {
      if Valid(m) {
        InvokeKeepsValid(m1, sel.chosen, id, stream, invoke);
      }
    }
    d
  }

  /** The `finally` of `_wrap_stream_result`: the stream is exhausted, closed or failed. */
  function FinishStream(m: Manager, node: nat, id: string): (r: Manager)
    requires node < |m.nodes|
    ensures |r.nodes| == |m.nodes|
    ensures forall i :: 0 <= i < |m.nodes| && i != node ==> r.nodes[i] == m.nodes[i]
    ensures r.(nodes := m.nodes) == m
    ensures var before, after := m.nodes[node], r.nodes[node];
      && after.localInflightTotal == (if before.localInflightTotal > 0 then before.localInflightTotal - 1 else before.localInflightTotal)
      && (id in after.localInflightByModel <==> InflightOf(before, id) > 1)
      && (InflightOf(before, id) > 0 ==> InflightOf(after, id) == InflightOf(before, id) - 1)
      && (forall k :: k != id ==> (k in after.localInflightByModel <==> k in before.localInflightByModel) && InflightOf(after, k) == InflightOf(before, k))
      && SameExceptCounters(after, before)
  {
    ReplaceNode(m, node, DecrementInflight(m.nodes[node], id))
  }

  /** Valid counters depend on the counters alone. */
  lemma SameCountersValid(a: seq<NodeState>, b: seq<NodeState>, i: nat)
    requires Counters(a) == Counters(b) && i < |a| && CountersValid(a[i])
    ensures i < |b| && CountersValid(b[i])
  {
    assert Counters(a)[i] == Counters(b)[i];
  }

  /** Every invoked request is uncounted exactly once: unless a stream is handed back the
      counters end as they were, and a stream holds one count for the model on its node
      until it finishes, which restores them. */
  lemma InvokeBalanced(m: Manager, chosen: Option<nat>, id: string, stream: bool, invoke: nat -> Invocation)
    requires chosen.Some? ==> chosen.value < |m.nodes| && CountersValid(m.nodes[chosen.value])
    ensures var d := Invoke(m, chosen, id, stream, invoke);
      && (!d.outcome.Streaming? ==> d.manager.nodes == m.nodes)
      && (d.outcome.Streaming? ==>
            && InflightOf(d.manager.nodes[d.outcome.node], id) >= 1
            && FinishStream(d.manager, d.outcome.node, id).nodes == m.nodes)
  {
    if chosen.Some? {
      var i := chosen.value;
      IncrementThenDecrement(m.nodes[i], id);
      var busy := m.nodes[i := IncrementInflight(m.nodes[i], id)];
      assert busy[i := DecrementInflight(busy[i], id)] == m.nodes;
    }
  }

  /** Counting a request in or out keeps a node state valid. */
  lemma InflightKeepsNodeValid(n: NodeState, id: string)
    requires NodeValid(n)
    ensures NodeValid(IncrementInflight(n, id)) && NodeValid(DecrementInflight(n, id))
  {
    assert IncrementInflight(n, id).models == n.models;
    assert DecrementInflight(n, id).models == n.models;
  }

  lemma ReplaceKeepsValid(m: Manager, i: nat, n: NodeState)
    requires Valid(m) && i < |m.nodes| && NodeValid(n)
    ensures Valid(ReplaceNode(m, i, n))
  {
  }

  /** Invoking on a chosen node keeps valid states valid, and so does finishing a stream. */
  lemma InvokeKeepsValid(m: Manager, chosen: Option<nat>, id: string, stream: bool, invoke: nat -> Invocation)
    requires Valid(m) && (chosen.Some? ==> chosen.value < |m.nodes|)
    ensures var d := Invoke(m, chosen, id, stream, invoke);
      && Valid(d.manager)
      && (d.outcome.Streaming? ==> Valid(FinishStream(d.manager, d.outcome.node, id)))
  {
    if chosen.Some? {
      var i := chosen.value;
      InflightKeepsNodeValid(m.nodes[i], id);
      var busy := ReplaceNode(m, i, IncrementInflight(m.nodes[i], id));
      ReplaceKeepsValid(m, i, IncrementInflight(m.nodes[i], id));
      InflightKeepsNodeValid(busy.nodes[i], id);
      ReplaceKeepsValid(busy, i, DecrementInflight(busy.nodes[i], id));
    }
  }

  // ---------------------------------------------------------------------------
  // models

  function IndexesOf(nodes: seq<NodeState>): (ixs: seq<ModelIndex>)
    ensures |ixs| == |nodes|
    ensures forall i :: 0 <= i < |nodes| ==> ixs[i].models == nodes[i].models && ixs[i].categories == nodes[i].categories
  {
    seq(|nodes|, i requires 0 <= i < |nodes| => ModelIndex(nodes[i].models, nodes[i].categories))
  }

  datatype Listed = Listed(manager: Manager, response: ModelsResponse)

  /** `models()`: refresh every node, then merge their tables into one response. */
  function Models(m: Manager, fetch: Fetch, now: real): (r: Listed)
    ensures |r.manager.nodes| == |m.nodes|
    ensures r.manager == m.(nodes := Refresh(m.nodes, None, fetch, now).nodes)
    ensures Counters(r.manager.nodes) == Counters(m.nodes)
    ensures Valid(m) ==> Valid(r.manager)
  {
    var nodes := Refresh(m.nodes, None, fetch, now).nodes;
    RefreshPreserves(m.nodes, None, fetch, now);
    Listed(m.(nodes := nodes), CombinedResponse(IndexesOf(nodes)))
  }

  /** Each group of the combined listing names every model once, in increasing order of
      model id, and holds exactly the merged summaries whose effective categories include
      the group's modality. */
  lemma ModelsGroups(m: Manager, fetch: Fetch, now: real, md: Modality)
    requires Valid(m)
    ensures var r := Models(m, fetch, now);
      var g := Listing(r.response, md);
      var cats := Categories(IndexesOf(r.manager.nodes));
      var summary := Summaries(TablesOf(IndexesOf(r.manager.nodes)));
      && (forall i, j :: 0 <= i < j < |g| ==> StringOrder.Less(g[i].modelId, g[j].modelId))
      && (forall x :: x in g <==> x.modelId in summary && x == summary[x.modelId] && md in Effective(x, CategoriesOf(cats, x.modelId)))
  {
    var r := Models(m, fetch, now);
    CombinedGroups(IndexesOf(r.manager.nodes), md);
  }
}
