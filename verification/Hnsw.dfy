/**
 The layered neighbour graph of the vector index: scores, pruning, linking, and what a
 well-formed graph is.
 */
module Hnsw {
  import opened Common
  import opened Keys
  import opened Cosine
  import opened Candidates

  const MAX_LEVEL := 8
  const M := 8
  const NEIGHBOR_CAP := 16
  const EF_CONSTRUCTION := 32
  const EF_SEARCH := 64
  const MAX_TOPK := 128

  /** links[l] is the neighbour list of level l, for every level up to the entry's own. */
  datatype Entry = Entry(
    question: Key, answer: bytes, vector: Vector, norm: real,
    level: nat, deleted: bool, links: seq<seq<int>>)

  // ---------- Scores ----------

  function EntryScore(e: Entry, query: Vector, norm: real): real {
    if e.deleted || |e.vector| != |query| then UNSCORED
    else Similarity(query, e.vector, norm, e.norm)
  }

  function IdScore(items: seq<Entry>, id: int, query: Vector, norm: real): real {
    if id < 0 || id >= |items| then UNSCORED else EntryScore(items[id], query, norm)
  }

  predicate EntryOk(e: Entry) {
    IsNorm(e.vector, e.norm) && e.norm > 0.0 && e.level < MAX_LEVEL && |e.links| == e.level + 1
  }

  /** -2 marks exactly the deleted, the missing and those of another dimension; every other score is in [-1, 1]. */
  lemma UnscoredIff(items: seq<Entry>, id: int, query: Vector, norm: real)
    requires IsNorm(query, norm) && norm > 0.0
    requires 0 <= id < |items| ==> EntryOk(items[id])
    ensures IdScore(items, id, query, norm) == -2.0 <==>
            id < 0 || id >= |items| || items[id].deleted || |items[id].vector| != |query|
    ensures IdScore(items, id, query, norm) == -2.0 || -1.0 <= IdScore(items, id, query, norm) <= 1.0
  {
    if 0 <= id < |items| && |items[id].vector| == |query| {
      SimilarityBounded(query, items[id].vector, norm, items[id].norm);
    }
  }

  // ---------- Pruning ----------

  /** The ids that can be scored against the query, with their scores. */
  function Scored(items: seq<Entry>, ids: seq<int>, query: Vector, norm: real): (r: seq<Cand>)
    ensures |r| <= |ids|
    ensures forall x :: x in r ==> x.id in ids && x.score == IdScore(items, x.id, query, norm) && x.score > UNSCORED
  {
    if ids == [] then []
    else
      var n := |ids| - 1;
      var rest, score := Scored(items, ids[..n], query, norm), IdScore(items, ids[n], query, norm);
      if score > UNSCORED then rest + [Cand(ids[n], score)] else rest
  }

  function Ids(c: seq<Cand>): (r: seq<int>)
    ensures |r| == |c| && forall i :: 0 <= i < |c| ==> r[i] == c[i].id
  {
    seq(|c|, i requires 0 <= i < |c| => c[i].id)
  }

  /** What is left of a neighbour list of e. */
  function Pruned(items: seq<Entry>, e: Entry, list: seq<int>): seq<int> {
    var kept := Offered(Scored(items, list, e.vector, e.norm), NEIGHBOR_CAP);
    Ids(kept[..Min(M, |kept|)])
  }

  predicate Distinct(list: seq<int>) {
    forall i, j :: 0 <= i < j < |list| ==> list[i] != list[j]
  }

  lemma {:induction false} ScoredDistinct(items: seq<Entry>, ids: seq<int>, query: Vector, norm: real)
    requires Distinct(ids)
    ensures DistinctIds(Scored(items, ids, query, norm))
  {
    if ids != [] {
      var n := |ids| - 1;
      ScoredDistinct(items, ids[..n], query, norm);
      var rest := Scored(items, ids[..n], query, norm);
      forall i | 0 <= i < |rest|
        ensures rest[i].id != ids[n]
      {
        assert rest[i] in rest;
      }
    }
  }

  /** Every scorable id is among the scored ones. */
  lemma {:induction false} ScoredComplete(items: seq<Entry>, ids: seq<int>, query: Vector, norm: real, id: int)
    requires id in ids && IdScore(items, id, query, norm) > UNSCORED
    ensures Cand(id, IdScore(items, id, query, norm)) in Scored(items, ids, query, norm)
  {
    var n := |ids| - 1;
    if ids[n] != id {
      ScoredComplete(items, ids[..n], query, norm, id);
    }
  }

  lemma PrunedIsRank(items: seq<Entry>, e: Entry, list: seq<int>)
    requires Distinct(list) && |list| <= NEIGHBOR_CAP
    ensures var ranked := Rank(Scored(items, list, e.vector, e.norm));
            Pruned(items, e, list) == Ids(ranked[..Min(M, |ranked|)])
  {
    var offers := Scored(items, list, e.vector, e.norm);
    ScoredDistinct(items, list, e.vector, e.norm);
    assert forall x :: x in offers ==> x.id >= 0;
    KeepsTheTop(offers, NEIGHBOR_CAP);
    assert Rank(offers)[..|offers|] == Rank(offers);
  }

  /**
   Pruning keeps exactly the M best of the neighbours that can still be scored: every scorable
   neighbour competes, and one that is left out scores no more than any of the M kept.
   */
  lemma PruneKeepsTheBest(items: seq<Entry>, e: Entry, list: seq<int>)
    requires Distinct(list) && |list| <= 16
    ensures var ranked := Rank(Scored(items, list, e.vector, e.norm));
            Pruned(items, e, list) == Ids(ranked[..Min(8, |ranked|)])
    ensures forall id :: id in list && IdScore(items, id, e.vector, e.norm) > -2.0 ==>
              Cand(id, IdScore(items, id, e.vector, e.norm)) in Scored(items, list, e.vector, e.norm)
              && Competed(items, e, Pruned(items, e, list), id)
  {
    PrunedIsRank(items, e, list);
    hide Pruned, Rank, IdScore, Scored;
    forall id | id in list && IdScore(items, id, e.vector, e.norm) > UNSCORED
      ensures Cand(id, IdScore(items, id, e.vector, e.norm)) in Scored(items, list, e.vector, e.norm)
      ensures Competed(items, e, Pruned(items, e, list), id)
    {
      LeftOutIsWorse(items, e, list, id);
    }
  }

  /** The entry is among the kept ones, or all 8 kept ones score at least as much. */
  predicate Competed(items: seq<Entry>, e: Entry, kept: seq<int>, id: int) {
    id in kept ||
    (|kept| == 8 && forall i :: 0 <= i < 8 ==>
        IdScore(items, kept[i], e.vector, e.norm) >= IdScore(items, id, e.vector, e.norm))
  }

  lemma LeftOutIsWorse(items: seq<Entry>, e: Entry, list: seq<int>, id: int)
    requires Distinct(list) && |list| <= NEIGHBOR_CAP
    requires id in list && IdScore(items, id, e.vector, e.norm) > UNSCORED
    ensures Cand(id, IdScore(items, id, e.vector, e.norm)) in Scored(items, list, e.vector, e.norm)
    ensures Competed(items, e, Pruned(items, e, list), id)
  {
    PrunedIsRank(items, e, list);
    ScoredComplete(items, list, e.vector, e.norm, id);
    var offers := Scored(items, list, e.vector, e.norm);
    var ranked, x := Rank(offers), Cand(id, IdScore(items, id, e.vector, e.norm));
    var kept := ranked[..Min(M, |ranked|)];
    assert forall y :: y in offers ==> y.score == IdScore(items, y.id, e.vector, e.norm);
    hide Pruned, Rank, IdScore, Scored;
    RankSorts(offers);
    assert x in multiset(ranked) && x in ranked;
    var j :| 0 <= j < |ranked| && ranked[j] == x;
    if j < |kept| {
      assert Ids(kept)[j] == id;
    } else {
      forall i | 0 <= i < M
        ensures IdScore(items, Ids(kept)[i], e.vector, e.norm) >= x.score
      {
        assert ranked[i] in multiset(ranked) && ranked[i] in offers;
      }
    }
  }

  // ---------- Well-formed graphs ----------

  /** A neighbour of entry id at level l. */
  predicate NeighborOk(items: seq<Entry>, id: nat, l: nat, n: int)
    requires id < |items|
  {
    0 <= n < |items| && n != id && |items[n].vector| == |items[id].vector| && items[n].level >= l
  }

  predicate ListOk(items: seq<Entry>, id: nat, l: nat, list: seq<int>)
    requires id < |items|
  {
    |list| <= M && Distinct(list) && forall i :: 0 <= i < |list| ==> NeighborOk(items, id, l, list[i])
  }

  predicate NodeOk(items: seq<Entry>, id: nat)
    requires id < |items|
  {
    EntryOk(items[id]) && forall l :: 0 <= l <= items[id].level ==> ListOk(items, id, l, items[id].links[l])
  }

  predicate GraphOk(items: seq<Entry>) {
    forall id :: 0 <= id < |items| ==> NodeOk(items, id)
  }

  /** The entries are the same except for their neighbour lists. */
  predicate SameBut(items: seq<Entry>, next: seq<Entry>) {
    |next| == |items| && forall i :: 0 <= i < |items| ==> items[i] == next[i].(links := items[i].links)
  }

  function WithList(items: seq<Entry>, id: nat, l: nat, list: seq<int>): (r: seq<Entry>)
    requires id < |items| && l < |items[id].links|
    ensures SameBut(items, r)
  {
    items[id := items[id].(links := items[id].links[l := list])]
  }

  lemma WithListOk(items: seq<Entry>, id: nat, l: nat, list: seq<int>)
    requires GraphOk(items) && id < |items| && l <= items[id].level && NodeOk(items, id) && ListOk(items, id, l, list)
    ensures GraphOk(WithList(items, id, l, list))
  {
    var next := WithList(items, id, l, list);
    forall k | 0 <= k < |next|
      ensures NodeOk(next, k)
    {
      assert NodeOk(items, k);
      forall j | 0 <= j <= next[k].level
        ensures ListOk(next, k, j, next[k].links[j])
      {
        SameListOk(items, next, k, j, next[k].links[j]);
      }
    }
  }

  lemma SameListOk(items: seq<Entry>, next: seq<Entry>, id: nat, l: nat, list: seq<int>)
    requires SameBut(items, next) && id < |items| && ListOk(items, id, l, list)
    ensures ListOk(next, id, l, list)
  {
    forall i | 0 <= i < |list|
      ensures NeighborOk(next, id, l, list[i])
    {
      assert NeighborOk(items, id, l, list[i]);
    }
  }

  /** A pruned list is well-formed whenever its candidates point to other entries of the level. */
  lemma PrunedOk(items: seq<Entry>, id: nat, l: nat, list: seq<int>)
    requires id < |items| && Distinct(list) && |list| <= NEIGHBOR_CAP
    requires forall i :: 0 <= i < |list| ==> list[i] != id && (0 <= list[i] < |items| ==> items[list[i]].level >= l)
    ensures ListOk(items, id, l, Pruned(items, items[id], list))
  {
    var e := items[id];
    var offers := Scored(items, list, e.vector, e.norm);
    var ranked := Rank(offers);
    PrunedIsRank(items, e, list);
    ScoredDistinct(items, list, e.vector, e.norm);
    RankDistinct(offers);
    var r := Pruned(items, e, list);
    hide Pruned;
    forall i | 0 <= i < |r|
      ensures NeighborOk(items, id, l, r[i])
    {
      assert ranked[i] in ranked;
      MemberOfRank(offers, ranked[i]);
    }
  }

  // ---------- Linking ----------

  /** First index of the lowest score, among those from i on and the best so far at w. */
  function Worst(items: seq<Entry>, e: Entry, list: seq<int>, i: nat, w: nat): (r: nat)
    requires w < i <= |list|
    ensures r < |list|
    decreases |list| - i
  {
    if i == |list| then w
    else Worst(items, e, list, i + 1,
               if IdScore(items, list[i], e.vector, e.norm) < IdScore(items, list[w], e.vector, e.norm) then i else w)
  }

  /** The list of `source` after adding `to` to a list that may be full. */
  function Extended(items: seq<Entry>, e: Entry, list: seq<int>, to: int): seq<int> {
    if to in list then list
    else if |list| < NEIGHBOR_CAP then Pruned(items, e, list + [to])
    else
      var w := Worst(items, e, list, 1, 0);
      if IdScore(items, to, e.vector, e.norm) > IdScore(items, list[w], e.vector, e.norm)
      then Pruned(items, e, list[w := to]) else list
  }

  predicate CanLink(items: seq<Entry>, source: int, to: int, l: nat) {
    && 0 <= source < |items| && 0 <= to < |items| && source != to && l < MAX_LEVEL
    && !items[source].deleted && l <= items[source].level && l < |items[source].links|
  }

  function Linked(items: seq<Entry>, source: int, to: int, l: nat): (r: seq<Entry>)
    ensures SameBut(items, r)
  {
    if CanLink(items, source, to, l)
    then WithList(items, source, l, Extended(items, items[source], items[source].links[l], to))
    else items
  }

  /** Linking to an entry of the level keeps the graph well-formed, and never meets a full list. */
  lemma LinkedOk(items: seq<Entry>, source: int, to: int, l: nat)
    requires GraphOk(items) && (0 <= to < |items| ==> items[to].level >= l)
    ensures GraphOk(Linked(items, source, to, l))
    ensures CanLink(items, source, to, l) ==> |items[source].links[l]| <= M < NEIGHBOR_CAP
  {
    if CanLink(items, source, to, l) {
      assert NodeOk(items, source);
      var list := items[source].links[l];
      assert ListOk(items, source, l, list);
      if to !in list {
        var longer := list + [to];
        forall i | 0 <= i < |longer|
          ensures longer[i] != source && (0 <= longer[i] < |items| ==> items[longer[i]].level >= l)
        {
          assert i < |list| ==> NeighborOk(items, source, l, list[i]);
        }
        PrunedOk(items, source, l, longer);
      }
      hide Pruned, ListOk;
      WithListOk(items, source, l, Extended(items, items[source], list, to));
    }
  }

  /**
   After linking a new neighbour the list holds the 8 best of the old list and the new id: nothing
   else is in it, and every one of them that can be scored, the new one included, has competed.
   */
  lemma LinkCompetes(items: seq<Entry>, source: int, to: int, l: nat)
    requires GraphOk(items) && CanLink(items, source, to, l) && items[to].level >= l
    requires to !in items[source].links[l]
    ensures var e, list := items[source], items[source].links[l] + [to];
            var now := Linked(items, source, to, l)[source].links[l];
            && |now| <= 8 && Distinct(now) && (forall id :: id in now ==> id in list)
            && (forall i, j :: 0 <= i < j < |now| ==>
                  IdScore(items, now[i], e.vector, e.norm) >= IdScore(items, now[j], e.vector, e.norm))
            && (forall id :: id in list && IdScore(items, id, e.vector, e.norm) > -2.0 ==> Competed(items, e, now, id))
  {
    var e, list := items[source], items[source].links[l] + [to];
    assert NodeOk(items, source) && ListOk(items, source, l, e.links[l]);
    PruneKeepsTheBest(items, e, list);
    LinkedOk(items, source, to, l);
    var now := Linked(items, source, to, l)[source].links[l];
    assert now == Pruned(items, e, list);
    assert NodeOk(Linked(items, source, to, l), source) && ListOk(Linked(items, source, to, l), source, l, now);
    hide Pruned, Rank, IdScore, Scored, GraphOk, Linked, Extended;
    RankedOrder(items, e, list);
  }

  lemma RankedOrder(items: seq<Entry>, e: Entry, list: seq<int>)
    requires Distinct(list) && |list| <= NEIGHBOR_CAP
    ensures var now := Pruned(items, e, list);
            && (forall id :: id in now ==> id in list)
            && (forall i, j :: 0 <= i < j < |now| ==>
                  IdScore(items, now[i], e.vector, e.norm) >= IdScore(items, now[j], e.vector, e.norm))
  {
    PrunedIsRank(items, e, list);
    var offers := Scored(items, list, e.vector, e.norm);
    var ranked := Rank(offers);
    RankSorts(offers);
    var now := Pruned(items, e, list);
    hide Pruned, Rank, IdScore;
    forall i | 0 <= i < |now|
      ensures now[i] in list && ranked[i].score == IdScore(items, now[i], e.vector, e.norm) && now[i] == ranked[i].id
    {
      assert ranked[i] in ranked;
      MemberOfRank(offers, ranked[i]);
    }
  }

  /** Tombstones, levels above the entry's own, unknown ids and the entry itself get no links. */
  lemma LinkRefused(items: seq<Entry>, source: int, to: int, l: nat)
    requires GraphOk(items)
    requires source < 0 || source >= |items| || to < 0 || to >= |items| || source == to
             || items[source].deleted || l > items[source].level || l >= 8
             || (l < |items[source].links| && to in items[source].links[l])
    ensures Linked(items, source, to, l) == items
  {
    if CanLink(items, source, to, l) {
      var e := items[source];
      assert e.links[l := e.links[l]] == e.links;
      assert items[source := e] == items;
    }
  }

  // ---------- Reachability along one level ----------

  predicate Edge(items: seq<Entry>, l: nat, a: int, b: int) {
    0 <= a < |items| && 0 <= b < |items| && l < |items[a].links| && b in items[a].links[l]
  }

  predicate IsPath(items: seq<Entry>, l: nat, p: seq<int>) {
    && p != [] && 0 <= p[0] < |items|
    && forall i :: 0 <= i < |p| - 1 ==> Edge(items, l, p[i], p[i + 1])
  }

  ghost predicate Reach(items: seq<Entry>, l: nat, a: int, b: int) {
    exists p :: IsPath(items, l, p) && p[0] == a && p[|p| - 1] == b
  }

  lemma ReachSelf(items: seq<Entry>, l: nat, a: int)
    requires 0 <= a < |items|
    ensures Reach(items, l, a, a)
  {
    assert IsPath(items, l, [a]);
  }

  lemma ReachNext(items: seq<Entry>, l: nat, a: int, b: int, c: int)
    requires Reach(items, l, a, b) && Edge(items, l, b, c)
    ensures Reach(items, l, a, c)
  {
    var p :| IsPath(items, l, p) && p[0] == a && p[|p| - 1] == b;
    assert IsPath(items, l, p + [c]);
  }

  /** Edges of a level stay among entries of at least that level and of one dimension. */
  lemma ReachStays(items: seq<Entry>, l: nat, a: int, b: int)
    requires GraphOk(items) && Reach(items, l, a, b) && items[a].level >= l
    ensures 0 <= b < |items| && items[b].level >= l && |items[b].vector| == |items[a].vector|
  {
    var p :| IsPath(items, l, p) && p[0] == a && p[|p| - 1] == b;
    PathStays(items, l, p);
  }

  lemma {:induction false} PathStays(items: seq<Entry>, l: nat, p: seq<int>)
    requires GraphOk(items) && IsPath(items, l, p) && items[p[0]].level >= l
    ensures var b := p[|p| - 1]; 0 <= b < |items| && items[b].level >= l && |items[b].vector| == |items[p[0]].vector|
    decreases |p|
  {
    if |p| > 1 {
      var n := |p| - 2;
      PathStays(items, l, p[..n + 1]);
      var a, b := p[n], p[n + 1];
      assert Edge(items, l, a, b) && NodeOk(items, a);
      var i :| 0 <= i < |items[a].links[l]| && items[a].links[l][i] == b;
      assert ListOk(items, a, l, items[a].links[l]) && NeighborOk(items, a, l, items[a].links[l][i]);
    }
  }
}
