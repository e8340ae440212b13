/** Ranking candidate nodes by score (alloyai_client/node_manager.py, `_select_node_for_model`):
    Python's stable `sorted(candidates, key=score)`, the prefix of it that controlled
    querying refreshes, and `min(candidates, key=score)`, which keeps the first of equal
    minima. Candidates are node indices; `scores[i]` is node `i`'s score. */
module Ranking {
  import opened Scoring

  predicate InRange(xs: seq<nat>, scores: seq<Score>) {
    forall k :: 0 <= k < |xs| ==> xs[k] < |scores|
  }

  /** Scores are totally preordered. */
  lemma ScoreTotal(a: Score, b: Score)
    ensures ScoreLess(a, b) || ScoreLess(b, a) || a == b
  {
  }

  lemma ScoreLessLe(a: Score, b: Score, c: Score)
    requires ScoreLess(a, b) && ScoreLe(b, c)
    ensures ScoreLess(a, c)
  {
  }

  /** `x` comes before `y` in a stable sort of increasing indices: a lower score, or an
      equal score and an earlier index. */
  predicate Before(scores: seq<Score>, x: nat, y: nat)
    requires x < |scores| && y < |scores|
  {
    ScoreLess(scores[x], scores[y]) || (scores[x] == scores[y] && x < y)
  }

  predicate Ranked(r: seq<nat>, scores: seq<Score>)
    requires InRange(r, scores)
  {
    forall i, j :: 0 <= i < j < |r| ==> Before(scores, r[i], r[j])
  }

  predicate Increasing(xs: seq<nat>) {
    forall i, j :: 0 <= i < j < |xs| ==> xs[i] < xs[j]
  }

  /** One insertion step of the stable sort: `x` goes after every element that does not
      score strictly higher. */
  function Insert(x: nat, s: seq<nat>, scores: seq<Score>): (r: seq<nat>)
    requires x < |scores| && InRange(s, scores)
    ensures |r| == |s| + 1
    ensures multiset(r) == multiset(s) + multiset{x}
    ensures InRange(r, scores)
  {
    if |s| == 0 then [x]
    else if ScoreLess(scores[x], scores[s[0]]) then [x] + s
    else
      var rest := Insert(x, s[1..], scores);
      assert s == [s[0]] + s[1..];
      [s[0]] + rest
  }

  /** A ranked tail stays ranked under a head that comes before each of its elements. */
  lemma RankedCons(h: nat, t: seq<nat>, scores: seq<Score>)
    requires h < |scores| && InRange(t, scores) && Ranked(t, scores)
    requires forall j :: 0 <= j < |t| ==> Before(scores, h, t[j])
    ensures InRange([h] + t, scores) && Ranked([h] + t, scores)
  {
    var r := [h] + t;
    assert forall j :: 1 <= j < |r| ==> r[j] == t[j - 1];
  }

  lemma BeforeTransitive(scores: seq<Score>, x: nat, y: nat, z: nat)
    requires x < |scores| && y < |scores| && z < |scores|
    requires Before(scores, x, y) && Before(scores, y, z)
    ensures Before(scores, x, z)
  {
  }

  /** Inserting an element that scores strictly below the head of a ranked sequence. */
  lemma InsertAtFront(x: nat, s: seq<nat>, scores: seq<Score>)
    requires x < |scores| && InRange(s, scores) && Ranked(s, scores) && |s| > 0
    requires ScoreLess(scores[x], scores[s[0]])
    ensures Ranked([x] + s, scores)
  {
    forall j | 0 <= j < |s|
      ensures Before(scores, x, s[j])
    {
      if j > 0 {
        assert Before(scores, s[0], s[j]);
      }
    }
    RankedCons(x, s, scores);
  }

  /** Every element of `Insert(x, s, _)` is `x` or an element of `s`. */
  lemma InsertMember(x: nat, s: seq<nat>, scores: seq<Score>, j: nat)
    requires x < |scores| && InRange(s, scores) && j < |Insert(x, s, scores)|
    ensures Insert(x, s, scores)[j] == x || Insert(x, s, scores)[j] in s
  {
    var r := Insert(x, s, scores);
    assert r[j] in multiset(r);
  }

  lemma {:induction false} InsertRanked(x: nat, s: seq<nat>, scores: seq<Score>)
    requires x < |scores| && InRange(s, scores)
    requires Ranked(s, scores)
    requires forall k :: 0 <= k < |s| ==> s[k] < x
    ensures Ranked(Insert(x, s, scores), scores)
  {
    if |s| > 0 {
      if ScoreLess(scores[x], scores[s[0]]) {
        InsertAtFront(x, s, scores);
      } else {
        var t := s[1..];
        var rest := Insert(x, t, scores);
        InsertRanked(x, t, scores);
        forall j | 0 <= j < |rest|
          ensures Before(scores, s[0], rest[j])
        {
          InsertMember(x, t, scores, j);
          if rest[j] != x {
            var k :| 0 <= k < |t| && t[k] == rest[j];
            assert s[k + 1] == rest[j];
          } else {
            ScoreTotal(scores[x], scores[s[0]]);
          }
        }
        RankedCons(s[0], rest, scores);
      }
    }
  }

  /** `sorted(xs, key=lambda i: scores[i])`, stable. */
  function SortByScore(xs: seq<nat>, scores: seq<Score>): (r: seq<nat>)
    requires InRange(xs, scores)
    ensures |r| == |xs|
    ensures multiset(r) == multiset(xs)
    ensures InRange(r, scores)
  {
    if |xs| == 0 then []
    else
      assert xs == xs[..|xs| - 1] + [xs[|xs| - 1]];
      Insert(xs[|xs| - 1], SortByScore(xs[..|xs| - 1], scores), scores)
  }

  /** Sorting increasing indices orders them by score, equal scores by index, so the
      result is a stable sort. */
  lemma {:induction false} SortByScoreRanked(xs: seq<nat>, scores: seq<Score>)
    requires InRange(xs, scores) && Increasing(xs)
    ensures Ranked(SortByScore(xs, scores), scores)
  {
    if |xs| > 0 {
      var init := xs[..|xs| - 1];
      var x := xs[|xs| - 1];
      SortByScoreRanked(init, scores);
      var s := SortByScore(init, scores);
      forall k | 0 <= k < |s|
        ensures s[k] < x
      {
        assert s[k] in multiset(init);
      }
      InsertRanked(x, s, scores);
    }
  }

  function Min(a: int, b: int): int {
    if a <= b then a else b
  }

  /** `ranked[:min(limit, len(ranked))]`: the candidates controlled querying refreshes. */
  function ToQuery(xs: seq<nat>, scores: seq<Score>, limit: nat): (q: seq<nat>)
    requires InRange(xs, scores)
    ensures |q| == Min(limit, |xs|)
  {
    SortByScore(xs, scores)[..Min(limit, |xs|)]
  }

  /** Controlled querying refreshes the lowest-scoring candidates: each one it picks scores
      no higher than any it leaves out, and between equal scores the earlier node is picked. */
  lemma ToQueryLowest(xs: seq<nat>, scores: seq<Score>, limit: nat, t: nat, c: nat)
    requires InRange(xs, scores) && Increasing(xs)
    requires t in ToQuery(xs, scores, limit) && c in xs && c !in ToQuery(xs, scores, limit)
    ensures Before(scores, t, c)
  {
    var r := SortByScore(xs, scores);
    SortByScoreRanked(xs, scores);
    var n := Min(limit, |xs|);
    var i :| 0 <= i < n && r[i] == t;
    assert c in multiset(r);
    var j :| 0 <= j < |r| && r[j] == c;
    assert forall k :: 0 <= k < n ==> r[..n][k] == r[k];
  }

  /** Each candidate is refreshed at most once and only candidates are refreshed. */
  lemma ToQueryFromCandidates(xs: seq<nat>, scores: seq<Score>, limit: nat)
    requires InRange(xs, scores)
    ensures forall t :: t in ToQuery(xs, scores, limit) ==> t in xs
    ensures multiset(ToQuery(xs, scores, limit)) <= multiset(xs)
  {
    var r := SortByScore(xs, scores);
    var n := Min(limit, |xs|);
    assert r == r[..n] + r[n..];
    assert multiset(r) == multiset(r[..n]) + multiset(r[n..]);
    forall t | t in r[..n] ensures t in xs {
      assert t in multiset(r);
    }
  }

  /** `min(xs, key=lambda i: scores[i])`: a candidate with the lowest score, and of those
      the first. */
  function ArgMin(xs: seq<nat>, scores: seq<Score>): (best: nat)
    requires |xs| > 0 && InRange(xs, scores)
    ensures best in xs && best < |scores|
    ensures forall k :: 0 <= k < |xs| ==> ScoreLe(scores[best], scores[xs[k]])
    ensures exists p :: 0 <= p < |xs| && xs[p] == best && forall k :: 0 <= k < p ==> ScoreLess(scores[best], scores[xs[k]])
  {
    if |xs| == 1 then xs[0]
    else
      var init := xs[..|xs| - 1];
      var last := xs[|xs| - 1];
      var b := ArgMin(init, scores);
      assert forall k :: 0 <= k < |init| ==> init[k] == xs[k];
      ScoreTotal(scores[last], scores[b]);
      if ScoreLess(scores[last], scores[b]) then
        assert forall k :: 0 <= k < |init| ==> ScoreLess(scores[last], scores[xs[k]]) by {
          forall k | 0 <= k < |init| ensures ScoreLess(scores[last], scores[xs[k]]) {
            ScoreLessLe(scores[last], scores[b], scores[xs[k]]);
          }
        }
        last
      else
        b
  }

  /** Among increasing candidate indices, the chosen one scores strictly lower than every
      candidate before it. */
  lemma ArgMinStrictlyBeforeEarlier(xs: seq<nat>, scores: seq<Score>, k: nat)
    requires |xs| > 0 && InRange(xs, scores) && Increasing(xs)
    requires k < |xs| && xs[k] < ArgMin(xs, scores)
    ensures ScoreLess(scores[ArgMin(xs, scores)], scores[xs[k]])
  {
    var best := ArgMin(xs, scores);
    var p :| 0 <= p < |xs| && xs[p] == best && forall k :: 0 <= k < p ==> ScoreLess(scores[best], scores[xs[k]]);
    assert xs[k] < xs[p];
  }

  /** Among increasing candidate indices, the chosen one precedes every other candidate
      with the same score. */
  lemma ArgMinFirstOfTies(xs: seq<nat>, scores: seq<Score>, k: nat)
    requires |xs| > 0 && InRange(xs, scores) && Increasing(xs)
    requires k < |xs| && scores[xs[k]] == scores[ArgMin(xs, scores)]
    ensures ArgMin(xs, scores) <= xs[k]
  {
    var best := ArgMin(xs, scores);
    var p :| 0 <= p < |xs| && xs[p] == best && forall k :: 0 <= k < p ==> ScoreLess(scores[best], scores[xs[k]]);
    assert !ScoreLess(scores[best], scores[xs[k]]);
  }
}
