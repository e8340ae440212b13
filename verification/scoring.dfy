/** One node's state in the node manager (`_NodeState` in alloyai_client/node_manager.py),
    the score `_node_score` gives it for a model, and its local in-flight counters. Floats
    are reals and `float("inf")` is the constructor `Infinite`. */
module Scoring {
  import opened Wrappers
  import opened AlloyTypes
  import opened Catalog

  datatype NodeState = NodeState(
    name: string,
    baseUrl: string,
    weight: real,
    models: ModelTable,
    categories: map<string, set<Modality>>,
    supportedModelCount: int,
    remoteActiveTotal: int,
    localInflightTotal: int,
    localInflightByModel: map<string, int>,
    lastRefreshTs: real,
    lastRefreshError: Option<string>)

  /** `_is_model_supported(node, model_id)`. */
  predicate IsModelSupported(n: NodeState, id: string) {
    id in n.models && n.models[id].isSupported
  }

  datatype Score = Finite(value: real) | Infinite

  /** `a < b` on scores; infinity is above every finite score and not below itself. */
  predicate ScoreLess(a: Score, b: Score) {
    a.Finite? && (b.Infinite? || a.value < b.value)
  }

  predicate ScoreLe(a: Score, b: Score) {
    !ScoreLess(b, a)
  }

  function Max(a: real, b: real): real {
    if a >= b then a else b
  }

  /** The penalty for the model's allocation state. The enum has three members, so the
      source's fallback of 1.5 for any other value is never taken. */
  function StatusPenalty(a: AllocationStatus): real {
    match a
    case Allocated => 0.0
    case Deallocated => 1.0
    case Queue => 4.0
  }

  /** `local_inflight_by_model.get(model_id, 0)`. */
  function InflightOf(n: NodeState, id: string): int {
    if id in n.localInflightByModel then n.localInflightByModel[id] else 0
  }

  /** The load term: remote plus local requests for the model, ten times as heavy when the
      model cannot serve requests concurrently. */
  function LoadScore(n: NodeState, x: AlloyModel, id: string): real {
    var active := (x.activeRequests + InflightOf(n, id)) as real;
    if x.supportsConcurrentRequests then active else active * 10.0
  }

  /** The terms that do not depend on the model: scarcity, local and remote node load,
      and the weight bonus. */
  function NodeBias(n: NodeState): real {
    Max(n.supportedModelCount as real, 1.0) * 0.01
    + (n.localInflightTotal as real) * 0.1
    + (n.remoteActiveTotal as real) * 0.01
    - Max(n.weight, 0.0) * 0.25
  }

  /** `_node_score(node, model_id)`. */
  function NodeScore(n: NodeState, id: string): (s: Score)
    ensures s.Infinite? <==> !IsModelSupported(n, id)
    ensures s.Finite? ==> s.value == LoadScore(n, n.models[id], id) + StatusPenalty(n.models[id].allocationStatus) + NodeBias(n)
  {
    if !IsModelSupported(n, id) then Infinite
    else
      var x := n.models[id];
      Finite(LoadScore(n, x, id) + StatusPenalty(x.allocationStatus) + NodeBias(n))
  }

  /** A node that lacks the model, or has it unsupported, scores above every node that
      supports it. */
  lemma UnsupportedScoresHighest(a: NodeState, b: NodeState, id: string)
    requires !IsModelSupported(a, id) && IsModelSupported(b, id)
    ensures ScoreLess(NodeScore(b, id), NodeScore(a, id))
  {
  }

  /** Two nodes that differ only in the remote load of the model: the busier one scores
      strictly higher. */
  lemma MoreLoadScoresHigher(a: NodeState, id: string, more: int)
    requires IsModelSupported(a, id) && more > 0
    ensures var x := a.models[id];
      var b := a.(models := a.models[id := x.(activeRequests := x.activeRequests + more)]);
      ScoreLess(NodeScore(a, id), NodeScore(b, id))
  {
  }

  /** The non-concurrency factor: with at least one active request, losing concurrency
      raises the score. */
  lemma NonConcurrentScoresHigher(a: NodeState, id: string)
    requires IsModelSupported(a, id) && a.models[id].supportsConcurrentRequests
    requires a.models[id].activeRequests + InflightOf(a, id) > 0
    ensures var x := a.models[id];
      var b := a.(models := a.models[id := x.(supportsConcurrentRequests := false)]);
      ScoreLess(NodeScore(a, id), NodeScore(b, id))
  {
  }

  /** The allocation penalties order the states allocated < deallocated < queue. */
  lemma StatusPenaltyOrder()
    ensures StatusPenalty(Allocated) < StatusPenalty(Deallocated) < StatusPenalty(Queue)
  {
  }

  /** A larger positive weight lowers the score; a negative weight counts as zero. */
  lemma WeightLowersScore(a: NodeState, id: string, w: real)
    requires IsModelSupported(a, id)
    ensures w > Max(a.weight, 0.0) ==> ScoreLess(NodeScore(a.(weight := w), id), NodeScore(a, id))
    ensures w <= 0.0 && a.weight <= 0.0 ==> NodeScore(a.(weight := w), id) == NodeScore(a, id)
  {
  }

  /** The scenario of the lower-load test: two nodes alike except that the model has four
      active requests on one and one on the other; the second scores lower. */
  lemma LowerLoadWins(a: NodeState, b: NodeState, id: string)
    requires IsModelSupported(a, id) && IsModelSupported(b, id)
    requires a.models[id].activeRequests == 4 && b.models[id].activeRequests == 1
    requires a.models[id].allocationStatus == b.models[id].allocationStatus
    requires a.models[id].supportsConcurrentRequests == b.models[id].supportsConcurrentRequests
    requires a.remoteActiveTotal == 4 && b.remoteActiveTotal == 1
    requires a.(models := b.models, remoteActiveTotal := 1) == b
    ensures ScoreLess(NodeScore(b, id), NodeScore(a, id))
  {
  }

  /** The scenario of the penalty test: one active request on a node whose model is not
      concurrent outweighs two on a node whose model is; all else equal. */
  lemma NonConcurrentPenaltyOutweighsLoad(a: NodeState, b: NodeState, id: string)
    requires IsModelSupported(a, id) && IsModelSupported(b, id)
    requires a.models[id].activeRequests == 1 && !a.models[id].supportsConcurrentRequests
    requires b.models[id].activeRequests == 2 && b.models[id].supportsConcurrentRequests
    requires a.models[id].allocationStatus == Allocated && b.models[id].allocationStatus == Allocated
    requires a.remoteActiveTotal == 1 && b.remoteActiveTotal == 2
    requires a.supportedModelCount == b.supportedModelCount && a.weight == b.weight
    requires a.localInflightTotal == 0 && b.localInflightTotal == 0
    requires InflightOf(a, id) == 0 && InflightOf(b, id) == 0
    ensures ScoreLess(NodeScore(b, id), NodeScore(a, id))
  {
  }

  // ---------------------------------------------------------------------------
  // In-flight counters

  /** What increments and decrements keep: a non-negative total and no zero or negative
      per-model count left behind. */
  predicate CountersValid(n: NodeState) {
    n.localInflightTotal >= 0 && forall k :: k in n.localInflightByModel ==> n.localInflightByModel[k] >= 1
  }

  /** The counters only. */
  predicate SameExceptCounters(a: NodeState, b: NodeState) {
    a.(localInflightTotal := 0, localInflightByModel := map[]) == b.(localInflightTotal := 0, localInflightByModel := map[])
  }

  /** `_increment_inflight(node, model_id)`. */
  function IncrementInflight(n: NodeState, id: string): (r: NodeState)
    ensures r.localInflightTotal == n.localInflightTotal + 1
    ensures InflightOf(r, id) == InflightOf(n, id) + 1
    ensures r.localInflightByModel.Keys == n.localInflightByModel.Keys + {id}
    ensures forall k :: k != id ==> InflightOf(r, k) == InflightOf(n, k)
    ensures SameExceptCounters(r, n)
    ensures CountersValid(n) ==> CountersValid(r)
  {
    n.(localInflightTotal := n.localInflightTotal + 1,
       localInflightByModel := n.localInflightByModel[id := InflightOf(n, id) + 1])
  }

  /** `_decrement_inflight(node, model_id)`: the total never goes below zero, and the
      model's count is dropped once it would reach zero. */
  function DecrementInflight(n: NodeState, id: string): (r: NodeState)
    ensures n.localInflightTotal > 0 ==> r.localInflightTotal == n.localInflightTotal - 1
    ensures n.localInflightTotal <= 0 ==> r.localInflightTotal == n.localInflightTotal
    ensures id in r.localInflightByModel <==> InflightOf(n, id) > 1
    ensures InflightOf(n, id) > 1 ==> InflightOf(r, id) == InflightOf(n, id) - 1
    ensures forall k :: k != id ==> (k in r.localInflightByModel <==> k in n.localInflightByModel) && InflightOf(r, k) == InflightOf(n, k)
    ensures SameExceptCounters(r, n)
    ensures CountersValid(n) ==> CountersValid(r)
  {
    var total := if n.localInflightTotal > 0 then n.localInflightTotal - 1 else n.localInflightTotal;
    var active := InflightOf(n, id);
    if active <= 1 then
      n.(localInflightTotal := total, localInflightByModel := n.localInflightByModel - {id})
    else
      n.(localInflightTotal := total, localInflightByModel := n.localInflightByModel[id := active - 1])
  }

  /** An increment followed by a decrement of the same model restores the node exactly. */
  lemma IncrementThenDecrement(n: NodeState, id: string)
    requires CountersValid(n)
    ensures DecrementInflight(IncrementInflight(n, id), id) == n
  {
    var r := DecrementInflight(IncrementInflight(n, id), id);
    if id in n.localInflightByModel {
      assert r.localInflightByModel == n.localInflightByModel;
    } else {
      assert r.localInflightByModel == n.localInflightByModel;
    }
  }
}
