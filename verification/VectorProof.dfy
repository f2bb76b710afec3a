/**
 What the vector index promises: what a level search looks at, how a new entry is linked, how
 questions and items stay in step, and what a search result means.
 */
module VectorProof {
  import opened Common
  import opened Keys
  import opened Cosine
  import opened Candidates
  import opened Hnsw

  // ---------- Searching one level ----------

  /** Entries that score better than s; what greedy descent uses up. */
  ghost function Better(items: seq<Entry>, query: Vector, norm: real, s: real): set<int> {
    set i | 0 <= i < |items| && IdScore(items, i, query, norm) > s
  }

  lemma FewerBetter(items: seq<Entry>, query: Vector, norm: real, s: real, id: int)
    requires 0 <= id < |items| && IdScore(items, id, query, norm) > s
    ensures Better(items, query, norm, IdScore(items, id, query, norm)) < Better(items, query, norm, s)
  {
    assert id in Better(items, query, norm, s);
    assert id !in Better(items, query, norm, IdScore(items, id, query, norm));
  }

  predicate ItemsOk(items: seq<Entry>) {
    forall i :: 0 <= i < |items| ==> EntryOk(items[i])
  }

  /** No neighbour at the level scores better. */
  predicate LocalBest(items: seq<Entry>, l: nat, id: int, query: Vector, norm: real) {
    0 <= id < |items| && l <= items[id].level && l < |items[id].links| ==>
      forall i :: 0 <= i < |items[id].links[l]| ==>
        IdScore(items, items[id].links[l][i], query, norm) <= IdScore(items, id, query, norm)
  }

  /** The neighbours of an entry at the level are all in the set. */
  predicate NeighborsIn(items: seq<Entry>, l: nat, id: int, s: set<int>) {
    0 <= id < |items| && l <= items[id].level && l < |items[id].links| ==>
      forall i :: 0 <= i < |items[id].links[l]| && 0 <= items[id].links[l][i] < |items| ==> items[id].links[l][i] in s
  }

  /** What a search of one level has looked at. */
  datatype Seen = Seen(visited: set<int>, offers: seq<Cand>)

  /** Each visited entry is reached along the level, and is on offer exactly if it can be scored or is the start. */
  ghost predicate SeenOk(items: seq<Entry>, l: nat, start: int, query: Vector, norm: real, s: Seen) {
    && start in s.visited && s.offers != [] && s.offers[0].id == start
    && (forall v :: v in s.visited ==> Reach(items, l, start, v))
    && DistinctIds(s.offers)
    && (forall x :: x in s.offers ==>
       0 <= x.id < |items| && x.id in s.visited && x.score == IdScore(items, x.id, query, norm))
    && (forall i :: 0 < i < |s.offers| ==> s.offers[i].score > UNSCORED)
    && (forall v :: v in s.visited && IdScore(items, v, query, norm) > UNSCORED ==> HasId(s.offers, v))
  }

  ghost function Visit(items: seq<Entry>, query: Vector, norm: real, s: Seen, id: int): Seen {
    var score := IdScore(items, id, query, norm);
    Seen(s.visited + {id}, if score > UNSCORED then s.offers + [Cand(id, score)] else s.offers)
  }

  /** A neighbour is visited unless it was visited before or is no entry. */
  ghost function VisitNew(items: seq<Entry>, query: Vector, norm: real, s: Seen, id: int): Seen {
    if 0 <= id < |items| && id !in s.visited then Visit(items, query, norm, s, id) else s
  }

  ghost function VisitAll(items: seq<Entry>, query: Vector, norm: real, s: Seen, list: seq<int>): Seen {
    if list == [] then s
    else VisitNew(items, query, norm, VisitAll(items, query, norm, s, list[..|list| - 1]), list[|list| - 1])
  }

  lemma VisitNone(items: seq<Entry>, query: Vector, norm: real, s: Seen, list: seq<int>)
    ensures VisitAll(items, query, norm, s, list[..0]) == s
  {
  }

  lemma VisitNext(items: seq<Entry>, query: Vector, norm: real, s: Seen, list: seq<int>, i: nat)
    requires i < |list|
    ensures VisitAll(items, query, norm, s, list[..i + 1]) ==
            VisitNew(items, query, norm, VisitAll(items, query, norm, s, list[..i]), list[i])
  {
    assert list[..i + 1][..i] == list[..i];
  }

  /** The neighbours of entry id at the level are visited. */
  ghost function Expanded(items: seq<Entry>, l: nat, query: Vector, norm: real, s: Seen, id: int): Seen {
    if 0 <= id < |items| && l <= items[id].level && l < |items[id].links|
    then VisitAll(items, query, norm, s, items[id].links[l]) else s
  }

  /** The whole search: a cursor runs over the list of the ef best while expansion changes the list under it. */
  ghost function Explored(items: seq<Entry>, l: nat, query: Vector, norm: real, ef: nat, s: Seen, cursor: nat): Seen
    decreases Max(0, ef - cursor)
  {
    var best := Offered(s.offers, ef);
    if cursor >= ef || cursor >= |best| then s
    else Explored(items, l, query, norm, ef, Expanded(items, l, query, norm, s, best[cursor].id), cursor + 1)
  }

  ghost function Begun(items: seq<Entry>, query: Vector, norm: real, start: int): Seen {
    Seen({start}, [Cand(start, IdScore(items, start, query, norm))])
  }

  lemma ExploreFirst(items: seq<Entry>, l: nat, query: Vector, norm: real, ef: nat, start: int)
    requires ef > 0 && start >= 0
    ensures var s := Begun(items, query, norm, start);
            Explored(items, l, query, norm, ef, s, 0) ==
            Explored(items, l, query, norm, ef, Expanded(items, l, query, norm, s, start), 1)
  {
    var s := Begun(items, query, norm, start);
    FirstOffer(s.offers[0], ef);
    hide Offered, Expanded, IdScore;
  }

  lemma ExploreNext(items: seq<Entry>, l: nat, query: Vector, norm: real, ef: nat, s: Seen, cursor: nat)
    ensures cursor < ef && cursor < |Offered(s.offers, ef)| ==>
              Explored(items, l, query, norm, ef, s, cursor) ==
              Explored(items, l, query, norm, ef, Expanded(items, l, query, norm, s, Offered(s.offers, ef)[cursor].id),
                  cursor + 1)
    ensures cursor >= |Offered(s.offers, ef)| ==> Explored(items, l, query, norm, ef, s, cursor) == s
  {
  }

  // ---------- What a whole search of one level has looked at ----------

  /** The entries listed as neighbours of id at the level. */
  ghost function Neighbors(items: seq<Entry>, l: nat, id: int): set<int> {
    if 0 <= id < |items| && l <= items[id].level && l < |items[id].links|
    then set v | v in items[id].links[l] && 0 <= v < |items| else {}
  }

  ghost function AllNeighbors(items: seq<Entry>, l: nat, order: seq<int>): set<int> {
    if order == [] then {} else Neighbors(items, l, order[0]) + AllNeighbors(items, l, order[1..])
  }

  lemma {:induction false} VisitAllVisits(items: seq<Entry>, query: Vector, norm: real, s: Seen, list: seq<int>)
    ensures VisitAll(items, query, norm, s, list).visited == s.visited + set v | v in list && 0 <= v < |items|
    ensures s.offers <= VisitAll(items, query, norm, s, list).offers
  {
    hide IdScore;
    if list != [] {
      VisitAllVisits(items, query, norm, s, list[..|list| - 1]);
      assert list == list[..|list| - 1] + [list[|list| - 1]];
    }
  }

  lemma ExpandVisits(items: seq<Entry>, l: nat, query: Vector, norm: real, s: Seen, id: int)
    ensures Expanded(items, l, query, norm, s, id).visited == s.visited + Neighbors(items, l, id)
    ensures s.offers <= Expanded(items, l, query, norm, s, id).offers
  {
    hide VisitAll;
    if 0 <= id < |items| && l <= items[id].level && l < |items[id].links| {
      VisitAllVisits(items, query, norm, s, items[id].links[l]);
    }
  }

  lemma {:induction false} OfferedBounded(offers: seq<Cand>, cap: nat)
    requires cap > 0
    ensures |Offered(offers, cap)| <= cap
  {
    hide HasId;
    if offers != [] {
      OfferedBounded(offers[..|offers| - 1], cap);
    }
  }

  /** No candidate found later scores better than one found earlier. */
  predicate Orderly(offers: seq<Cand>) {
    Sorted(offers) && DistinctIds(offers) && forall x :: x in offers ==> x.id >= 0
  }

  /** Offers that come in descending order are kept in that order. */
  lemma SortedOffers(offers: seq<Cand>, all: seq<Cand>, cap: nat)
    requires offers <= all && Orderly(all) && cap > 0
    ensures Offered(offers, cap) == all[..Min(cap, |offers|)]
  {
    hide Offered, Rank, Sorted, DistinctIds;
    assert offers == all[..|offers|];
    OrderlyPrefix(offers, all);
    KeepsTheTop(offers, cap);
    RankOfSorted(offers);
  }

  lemma OrderlyPrefix(offers: seq<Cand>, all: seq<Cand>)
    requires offers <= all && Orderly(all)
    ensures Orderly(offers)
  {
    forall x | x in offers
      ensures x.id >= 0
    {
      assert x in all;
    }
  }

  /** The entries are those on offer from the cursor on, one after the other. */
  predicate InTurn(offers: seq<Cand>, cursor: nat, order: seq<int>) {
    cursor + |order| <= |offers| && forall i :: 0 <= i < |order| ==> order[i] == offers[cursor + i].id
  }

  lemma TurnNext(offers: seq<Cand>, before: seq<Cand>, cursor: nat, ef: nat, rest: seq<int>)
    requires ef > 0 && before <= offers && cursor < |Offered(before, ef)|
    requires Orderly(offers) && InTurn(offers, cursor + 1, rest)
    ensures InTurn(offers, cursor, [Offered(before, ef)[cursor].id] + rest)
  {
    hide Offered, Sorted, DistinctIds;
    var order := [Offered(before, ef)[cursor].id] + rest;
    SortedOffers(before, offers, ef);
    forall i | 0 <= i < |order|
      ensures order[i] == offers[cursor + i].id
    {
      if i > 0 {
        assert order[i] == rest[i - 1] == offers[cursor + 1 + (i - 1)].id;
      }
    }
  }

  /** From a state with the cursor on, the entries expanded and what they add. */
  lemma {:induction false} ExploreOrder(items: seq<Entry>, l: nat, query: Vector, norm: real, ef: nat, s: Seen,
      cursor: nat) returns (order: seq<int>)
    requires ef > 0
    ensures var r := Explored(items, l, query, norm, ef, s, cursor);
            && r.visited == s.visited + AllNeighbors(items, l, order) && s.offers <= r.offers
            && |Offered(r.offers, ef)| <= cursor + |order|
            && (Orderly(r.offers) && cursor <= |r.offers| ==> InTurn(r.offers, cursor, order))
    decreases Max(0, ef - cursor)
  {
    hide Offered, Expanded, IdScore, Neighbors, Orderly, InTurn;
    var best := Offered(s.offers, ef);
    OfferedBounded(s.offers, ef);
    order := [];
    if cursor < ef && cursor < |best| {
      var id := best[cursor].id;
      var next := Expanded(items, l, query, norm, s, id);
      ExpandVisits(items, l, query, norm, s, id);
      var rest := ExploreOrder(items, l, query, norm, ef, next, cursor + 1);
      order := [id] + rest;
      assert order[1..] == rest;
      var r := Explored(items, l, query, norm, ef, s, cursor);
      if Orderly(r.offers) && cursor <= |r.offers| {
        OrderlyRoom(s.offers, r.offers, ef);
        TurnNext(r.offers, s.offers, cursor, ef, rest);
      }
    } else if cursor <= |s.offers| {
      NoTurn(s.offers, cursor);
    }
  }

  lemma OrderlyRoom(before: seq<Cand>, offers: seq<Cand>, ef: nat)
    requires ef > 0 && before <= offers && Orderly(offers)
    ensures |Offered(before, ef)| <= |offers|
  {
    hide Offered, Sorted, DistinctIds;
    SortedOffers(before, offers, ef);
  }

  lemma NoTurn(offers: seq<Cand>, cursor: nat)
    requires cursor <= |offers|
    ensures InTurn(offers, cursor, [])
  {
  }

  /**
   A search of one level visits exactly the start and the neighbours of the entries it expands; it
   expands the start first and at least as many entries as it returns; and if no entry found later
   scores better than one found earlier, it expands every entry it returns.
   */
  lemma SearchExpands(items: seq<Entry>, l: nat, start: int, query: Vector, norm: real, ef: nat, r: Seen)
    returns (order: seq<int>)
    requires ef > 0 && 0 <= start < |items| && SeenOk(items, l, start, query, norm, r)
    requires r == Explored(items, l, query, norm, ef, Begun(items, query, norm, start), 0)
    ensures order != [] && order[0] == start && r.visited == {start} + AllNeighbors(items, l, order)
    ensures Min(ef, |r.offers|) <= |order|
    ensures Sorted(r.offers) ==>
            forall i :: 0 <= i < Min(ef, |r.offers|) ==> order[i] == Rank(r.offers)[i].id
  {
    var s := Begun(items, query, norm, start);
    hide Expanded, IdScore, Reach, Offered, Explored, Rank;
    ExploreFirst(items, l, query, norm, ef, start);
    var next := Expanded(items, l, query, norm, s, start);
    ExpandVisits(items, l, query, norm, s, start);
    var rest := ExploreOrder(items, l, query, norm, ef, next, 1);
    order := [start] + rest;
    assert order[1..] == rest;
    assert forall i :: 0 < i < |order| ==> order[i] == rest[i - 1];
    SeenTop(items, l, start, query, norm, r, ef);
    if Sorted(r.offers) {
      RankOfSorted(r.offers);
    }
  }

  lemma SeenStart(items: seq<Entry>, l: nat, start: int, query: Vector, norm: real)
    requires 0 <= start < |items|
    ensures SeenOk(items, l, start, query, norm, Seen({start}, [Cand(start, IdScore(items, start, query, norm))]))
  {
    hide IdScore;
    ReachSelf(items, l, start);
    assert [Cand(start, IdScore(items, start, query, norm))][0].id == start;
  }

  /** What the list holds is among the offers, hence visited. */
  lemma OfferedSeen(items: seq<Entry>, l: nat, start: int, query: Vector, norm: real, s: Seen, ef: nat, i: nat)
    requires ef > 0 && SeenOk(items, l, start, query, norm, s) && i < |Offered(s.offers, ef)|
    ensures var id := Offered(s.offers, ef)[i].id; 0 <= id < |items| && id in s.visited
  {
    hide IdScore, Reach;
    KeepsTheTop(s.offers, ef);
    MemberOfRank(s.offers, Rank(s.offers)[i]);
  }

  lemma SeenTop(items: seq<Entry>, l: nat, start: int, query: Vector, norm: real, s: Seen, ef: nat)
    requires ef > 0 && SeenOk(items, l, start, query, norm, s)
    ensures Offered(s.offers, ef) == Rank(s.offers)[..Min(ef, |s.offers|)]
  {
    hide IdScore, Reach;
    KeepsTheTop(s.offers, ef);
  }

  predicate Marked(flags: seq<bool>, visited: set<int>) {
    forall k :: 0 <= k < |flags| ==> (flags[k] <==> k in visited)
  }

  lemma MarkedAt(flags: seq<bool>, visited: set<int>, k: nat)
    requires Marked(flags, visited) && k < |flags|
    ensures flags[k] <==> k in visited
  {
  }

  /** Visiting a fresh neighbour of a visited entry. */
  lemma VisitKeeps(items: seq<Entry>, l: nat, start: int, query: Vector, norm: real, s: Seen, source: int, id: int)
    requires SeenOk(items, l, start, query, norm, s) && id !in s.visited && source in s.visited
             && Edge(items, l, source, id)
    ensures SeenOk(items, l, start, query, norm, Visit(items, query, norm, s, id))
  {
    hide IdScore, Reach;
    ReachNext(items, l, start, source, id);
    var t := Visit(items, query, norm, s, id);
    forall i | 0 <= i < |s.offers|
      ensures s.offers[i].id != id
    {
      assert s.offers[i] in s.offers;
    }
    forall v | v in t.visited && IdScore(items, v, query, norm) > UNSCORED
      ensures HasId(t.offers, v)
    {
      if v == id {
        assert t.offers[|s.offers|].id == v;
      } else {
        var i :| 0 <= i < |s.offers| && s.offers[i].id == v;
        assert t.offers[i].id == v;
      }
    }
  }

  lemma FirstOffer(x: Cand, cap: nat)
    requires cap > 0 && x.id >= 0
    ensures Added([], cap, x) == Offered([x], cap) == [x]
  {
    assert [x][..0] == [];
  }

  lemma NoOffers(items: seq<Entry>, e: Entry)
    ensures Scored(items, [], e.vector, e.norm) == [] && Offered([], NEIGHBOR_CAP) == []
  {
  }

  lemma ScoreMore(items: seq<Entry>, ids: seq<int>, id: int, query: Vector, norm: real)
    ensures var score := IdScore(items, id, query, norm);
            Scored(items, ids + [id], query, norm) ==
            if score > UNSCORED then Scored(items, ids, query, norm) + [Cand(id, score)]
                else Scored(items, ids, query, norm)
  {
    assert (ids + [id])[..|ids|] == ids;
  }

  lemma OfferMore(offers: seq<Cand>, x: Cand, cap: nat)
    ensures Offered(offers + [x], cap) == Added(Offered(offers, cap), cap, x)
  {
    assert (offers + [x])[..|offers|] == offers;
  }

  lemma UnscoredIsLowest(items: seq<Entry>, id: int, query: Vector, norm: real)
    requires ItemsOk(items) && IsNorm(query, norm) && norm > 0.0
    ensures IdScore(items, id, query, norm) >= UNSCORED
    ensures IdScore(items, id, query, norm) > UNSCORED ==> 0 <= id < |items|
  {
    UnscoredIff(items, id, query, norm);
  }

  lemma SameListAgain(items: seq<Entry>, id: nat, l: nat)
    requires id < |items| && l < |items[id].links|
    ensures WithList(items, id, l, items[id].links[l]) == items
  {
    assert items[id].links[l := items[id].links[l]] == items[id].links;
  }

  lemma PruneIgnoresLists(items: seq<Entry>, id: nat, l: nat, list: seq<int>)
    requires id < |items| && l < |items[id].links|
    ensures var next := WithList(items, id, l, list);
            && Pruned(next, next[id], list) == Pruned(items, items[id], list)
            && WithList(next, id, l, Pruned(items, items[id], list)) ==
               WithList(items, id, l, Pruned(items, items[id], list))
  {
    var next := WithList(items, id, l, list);
    SameScores(items, next, list, items[id].vector, items[id].norm);
    var p := Pruned(items, items[id], list);
    assert items[id].links[l := list][l := p] == items[id].links[l := p];
    assert WithList(next, id, l, p)[id] == WithList(items, id, l, p)[id];
    assert WithList(next, id, l, p) == WithList(items, id, l, p);
  }

  lemma {:induction false} SameScores(items: seq<Entry>, next: seq<Entry>, ids: seq<int>, query: Vector, norm: real)
    requires SameBut(items, next)
    ensures Scored(next, ids, query, norm) == Scored(items, ids, query, norm)
  {
    if ids != [] {
      SameScores(items, next, ids[..|ids| - 1], query, norm);
    }
  }

  // ---------- Linking one level ----------

  /** Only lists of level l may differ. */
  predicate SameAbove(items: seq<Entry>, next: seq<Entry>, l: nat) {
    && SameBut(items, next)
    && (forall i :: 0 <= i < |items| ==> |next[i].links| == |items[i].links|)
    && forall i, k :: 0 <= i < |items| && 0 <= k < |items[i].links| && k != l ==> next[i].links[k] == items[i].links[k]
  }

  lemma SameAboveTwice(items: seq<Entry>, mid: seq<Entry>, next: seq<Entry>, l: nat)
    requires SameAbove(items, mid, l) && SameAbove(mid, next, l)
    ensures SameAbove(items, next, l)
  {
  }

  lemma LinkedElsewhere(items: seq<Entry>, source: int, to: int, l: nat)
    ensures SameAbove(items, Linked(items, source, to, l), l)
    ensures forall k :: 0 <= k < |items| && k != source ==> Linked(items, source, to, l)[k] == items[k]
  {
    hide Extended;
  }

  /** Nothing links to id, nor id to anything, at the levels up to l. */
  predicate Isolated(items: seq<Entry>, id: nat, l: nat)
    requires id < |items|
  {
    && (forall k :: 0 <= k <= l && k < |items[id].links| ==> items[id].links[k] == [])
    && forall a, k :: 0 <= a < |items| && 0 <= k <= l && k < |items[a].links| ==> id !in items[a].links[k]
  }

  /** Linking entry id and each candidate both ways, best first. */
  function LinkAll(items: seq<Entry>, id: nat, l: nat, c: seq<Cand>): seq<Entry> {
    if c == [] then items
    else
      var other := c[|c| - 1].id;
      Linked(Linked(LinkAll(items, id, l, c[..|c| - 1]), id, other, l), other, id, l)
  }

  lemma LinkAllNext(items: seq<Entry>, id: nat, l: nat, c: seq<Cand>, i: nat)
    requires i < |c|
    ensures LinkAll(items, id, l, c[..i + 1]) ==
            Linked(Linked(LinkAll(items, id, l, c[..i]), id, c[i].id, l), c[i].id, id, l)
  {
    assert c[..i + 1][..i] == c[..i];
  }

  /** How one level was linked: the graph before, where its search started and what it saw. */
  datatype LevelLink = LevelLink(graph: seq<Entry>, start: int, seen: Seen)

  /** The list of entry id at level l holds the M best that an exploration of that level found. */
  ghost predicate LinkedBy(items: seq<Entry>, id: nat, l: nat, k: LevelLink) {
    && id < |items| && id < |k.graph| && l < |items[id].links|
    && var e := k.graph[id];
       && SeenOk(k.graph, l, k.start, e.vector, e.norm, k.seen)
       && k.seen == Explored(k.graph, l, e.vector, e.norm, 32, Begun(k.graph, e.vector, e.norm, k.start),
          0)
       && items[id].links[l] == Ids(Scorable(Rank(k.seen.offers)[..Min(M, |k.seen.offers|)]))
  }

  /** The levels above l, up to top, are linked as the trail says. */
  ghost predicate LinkedAbove(items: seq<Entry>, id: nat, trail: map<nat, LevelLink>, l: int, top: int) {
    forall k :: l < k <= top && 0 <= k ==> k in trail && LinkedBy(items, id, k, trail[k])
  }

  ghost predicate AllLinked(items: seq<Entry>, id: nat, trail: map<nat, LevelLink>, top: int) {
    LinkedAbove(items, id, trail, -1, top)
  }

  lemma LinkedAboveKept(items: seq<Entry>, next: seq<Entry>, id: nat, trail: map<nat, LevelLink>, l: nat, top: int,
      k: LevelLink)
    requires LinkedAbove(items, id, trail, l, top) && SameAbove(items, next, l) && LinkedBy(next, id, l, k)
    ensures LinkedAbove(next, id, trail[l := k], l - 1, top)
  {
    hide SeenOk, Explored, Rank, Scorable;
    forall j | l < j <= top && 0 <= j
      ensures LinkedBy(next, id, j, trail[j])
    {
      assert LinkedBy(items, id, j, trail[j]);
    }
  }

  /** A tombstone elsewhere leaves the lists of entry id alone. */
  lemma LinksStay(items: seq<Entry>, i: nat, id: nat, trail: map<nat, LevelLink>, top: int)
    requires i < |items| && i != id
    ensures AllLinked(items, id, trail, top) ==> AllLinked(items[i := items[i].(deleted := true)], id, trail, top)
  {
    hide SeenOk, Explored, Rank, Scorable;
    var next := items[i := items[i].(deleted := true)];
    if AllLinked(items, id, trail, top) {
      forall k | 0 <= k <= top
        ensures k in trail && LinkedBy(next, id, k, trail[k])
      {
        assert LinkedBy(items, id, k, trail[k]);
      }
    }
  }

  lemma LinkNone(items: seq<Entry>, id: nat, l: nat)
    ensures LinkAll(items, id, l, []) == items
  {
  }

  function Scorable(c: seq<Cand>): seq<Cand> {
    Kept(c, UNSCORED, true)
  }

  lemma NoneScorable()
    ensures Ids(Scorable([])) == []
  {
  }

  lemma GraphNode(items: seq<Entry>, id: nat)
    requires GraphOk(items) && id < |items|
    ensures NodeOk(items, id) && EntryOk(items[id])
  {
  }

  lemma IsolatedList(items: seq<Entry>, id: nat, l: nat)
    requires id < |items| && Isolated(items, id, l) && l < |items[id].links|
    ensures items[id].links[l] == []
  {
  }

  /** The result of searching level l for entry id: other entries of the level, best first. */
  predicate FoundList(items: seq<Entry>, id: nat, l: nat, found: seq<Cand>)
    requires id < |items|
  {
    && Sorted(found) && DistinctIds(found)
    && forall i :: 0 <= i < |found| ==>
         && 0 <= found[i].id < |items| && found[i].id != id && items[found[i].id].level >= l
         && found[i].score == IdScore(items, found[i].id, items[id].vector, items[id].norm)
  }

  lemma FoundAt(items: seq<Entry>, id: nat, l: nat, found: seq<Cand>, i: nat)
    requires id < |items| && FoundList(items, id, l, found) && i < |found|
    ensures 0 <= found[i].id < |items| && found[i].id != id && items[found[i].id].level >= l
  {
  }

  lemma FoundSame(items: seq<Entry>, next: seq<Entry>, id: nat, l: nat, found: seq<Cand>)
    requires id < |items| && FoundList(items, id, l, found) && SameBut(items, next)
    ensures FoundList(next, id, l, found)
  {
  }

  lemma {:induction false} NoWayIn(items: seq<Entry>, id: nat, l: nat, p: seq<int>)
    requires id < |items| && Isolated(items, id, l) && IsPath(items, l, p) && p[0] != id
    ensures p[|p| - 1] != id
  {
    if |p| > 1 {
      assert Edge(items, l, p[|p| - 2], p[|p| - 1]);
    }
  }

  lemma FoundIsFound(items: seq<Entry>, l: nat, ep: int, id: nat, seen: Seen, ef: nat)
    requires GraphOk(items) && id < |items| && 0 <= ep < |items| && ep != id && l <= items[ep].level
             && Isolated(items, id, l)
    requires SeenOk(items, l, ep, items[id].vector, items[id].norm, seen)
    ensures FoundList(items, id, l, Rank(seen.offers)[..Min(ef, |seen.offers|)])
  {
    hide GraphOk, IdScore;
    var offers := seen.offers;
    var ranked := Rank(offers);
    RankSorts(offers);
    RankDistinct(offers);
    forall i | 0 <= i < |ranked|
      ensures 0 <= ranked[i].id < |items| && ranked[i].id != id && items[ranked[i].id].level >= l
      ensures ranked[i].score == IdScore(items, ranked[i].id, items[id].vector, items[id].norm)
    {
      MemberOfRank(offers, ranked[i]);
      ReachStays(items, l, ep, ranked[i].id);
      var p :| IsPath(items, l, p) && p[0] == ep && p[|p| - 1] == ranked[i].id;
      NoWayIn(items, id, l, p);
    }
  }

  predicate AllScored(items: seq<Entry>, c: seq<Cand>, query: Vector, norm: real) {
    forall i :: 0 <= i < |c| ==> c[i].score == IdScore(items, c[i].id, query, norm) && c[i].score > UNSCORED
  }

  lemma IdsSplit(c: seq<Cand>)
    ensures c == [] ==> Ids(c) == []
    ensures c != [] ==> Ids(c) == Ids(c[..|c| - 1]) + [c[|c| - 1].id]
  {
  }

  lemma {:induction false} ScoredIds(items: seq<Entry>, c: seq<Cand>, query: Vector, norm: real)
    requires AllScored(items, c, query, norm)
    ensures Scored(items, Ids(c), query, norm) == c
  {
    IdsSplit(c);
    if c != [] {
      var n := |c| - 1;
      assert AllScored(items, c[..n], query, norm) && c[n].score == IdScore(items, c[n].id, query, norm) > UNSCORED;
      hide IdScore, Scored, Ids, AllScored;
      ScoredIds(items, c[..n], query, norm);
      ScoreMore(items, Ids(c[..n]), c[n].id, query, norm);
      assert c == c[..n] + [c[n]];
    }
  }

  /** Pruning a list whose scored part is sorted and short keeps that part. */
  lemma PrunedInOrder(items: seq<Entry>, e: Entry, list: seq<int>, kept: seq<Cand>)
    requires Scored(items, list, e.vector, e.norm) == kept && Sorted(kept) && |kept| <= M
    requires Distinct(list) && |list| <= NEIGHBOR_CAP
    ensures Pruned(items, e, list) == Ids(kept)
  {
    PrunedIsRank(items, e, list);
    RankOfSorted(kept);
    assert kept[..|kept|] == kept;
  }

  lemma NextIsNew(found: seq<Cand>, i: nat)
    requires DistinctIds(found) && Sorted(found) && i < |found|
    ensures found[i].id !in Ids(Scorable(found[..i])) && Distinct(Ids(Scorable(found[..i])) + [found[i].id])
  {
    var best := Scorable(found[..i]);
    KeptInOrder(found[..i], UNSCORED, true);
    forall j | 0 <= j < |best|
      ensures best[j].id != found[i].id
    {
      assert best[j] in best;
    }
  }

  lemma NextInOrder(items: seq<Entry>, id: nat, l: nat, found: seq<Cand>, i: nat)
    requires id < |items| && FoundList(items, id, l, found) && i < |found|
    ensures var list := Ids(Scorable(found[..i])) + [found[i].id];
            && found[i].id !in Ids(Scorable(found[..i])) && Distinct(list)
            && Scored(items, list, items[id].vector, items[id].norm) == Scorable(found[..i + 1])
  {
    hide IdScore, Scored;
    var e, best := items[id], Scorable(found[..i]);
    NextIsNew(found, i);
    forall j | 0 <= j < |best|
      ensures best[j].score == IdScore(items, best[j].id, e.vector, e.norm) && best[j].score > UNSCORED
    {
      assert best[j] in best;
    }
    ScoredIds(items, best, e.vector, e.norm);
    ScoreMore(items, Ids(best), found[i].id, e.vector, e.norm);
    KeptNext(found, i, UNSCORED, true);
    hide Kept, Ids;
  }

  /** Adding the next best candidate keeps the list the M best in order. */
  lemma LinkNext(items: seq<Entry>, id: nat, l: nat, found: seq<Cand>, i: nat)
    requires GraphOk(items) && id < |items| && l <= items[id].level && !items[id].deleted
    requires FoundList(items, id, l, found) && i < |found| && i < M
    requires l < |items[id].links| && items[id].links[l] == Ids(Scorable(found[..i]))
    ensures Linked(items, id, found[i].id, l)[id].links[l] == Ids(Scorable(found[..i + 1]))
  {
    NextInOrder(items, id, l, found, i);
    FoundAt(items, id, l, found, i);
    KeptInOrder(found[..i + 1], UNSCORED, true);
    assert l < MAX_LEVEL by { GraphNode(items, id); }
    hide Scorable, Scored, Pruned, GraphOk, FoundList, Distinct;
    PrunedInOrder(items, items[id], Ids(Scorable(found[..i])) + [found[i].id], Scorable(found[..i + 1]));
  }

  lemma ListBound(items: seq<Entry>, id: int, l: nat)
    requires GraphOk(items)
    ensures 0 <= id < |items| && l < |items[id].links| ==> |items[id].links[l]| <= M
  {
    if 0 <= id < |items| {
      assert NodeOk(items, id);
      assert l <= items[id].level ==> ListOk(items, id, l, items[id].links[l]);
    }
  }

  // ---------- Inserting through the levels ----------

  lemma GraphItems(items: seq<Entry>)
    requires GraphOk(items)
    ensures ItemsOk(items)
  {
    forall i | 0 <= i < |items|
      ensures EntryOk(items[i])
    {
      assert NodeOk(items, i);
    }
  }

  lemma SameButSelf(items: seq<Entry>)
    ensures SameBut(items, items)
  {
  }

  lemma SameLevels(items: seq<Entry>, next: seq<Entry>)
    requires SameBut(items, next)
    ensures |next| == |items| && forall i :: 0 <= i < |items| ==> next[i].level == items[i].level
  {
    forall i | 0 <= i < |items|
      ensures next[i].level == items[i].level
    {
      assert items[i] == next[i].(links := items[i].links);
    }
  }

  lemma SameAboveSame(items: seq<Entry>, next: seq<Entry>, l: nat, id: nat)
    requires SameAbove(items, next, l) && id < |items|
    ensures SameBut(items, next) && |next| == |items|
    ensures next[id].level == items[id].level && next[id].deleted == items[id].deleted
  {
    assert items[id] == next[id].(links := items[id].links);
  }

  lemma SameButTwice(items: seq<Entry>, mid: seq<Entry>, next: seq<Entry>)
    requires SameBut(items, mid) && SameBut(mid, next)
    ensures SameBut(items, next)
  {
  }

  lemma IsolatedDown(items: seq<Entry>, id: nat, l: nat, k: nat)
    requires id < |items| && Isolated(items, id, l) && k <= l
    ensures Isolated(items, id, k)
  {
  }

  lemma IsolatedBelow(items: seq<Entry>, next: seq<Entry>, id: nat, l: nat)
    requires id < |items| && Isolated(items, id, l) && SameAbove(items, next, l) && l > 0
    ensures Isolated(next, id, l - 1)
  {
    forall a, k | 0 <= a < |next| && 0 <= k <= l - 1 && k < |next[a].links|
      ensures id !in next[a].links[k]
    {
      assert next[a].links[k] == items[a].links[k];
    }
  }

  /** A walk never ends at an entry nothing links to. */
  lemma ReachAvoids(items: seq<Entry>, l: nat, top: nat, a: int, b: int)
    requires Reach(items, l, a, b) && l <= top
    ensures forall id :: 0 <= id < |items| && id != a && Isolated(items, id, top) ==> b != id
  {
    var p :| IsPath(items, l, p) && p[0] == a && p[|p| - 1] == b;
    forall id | 0 <= id < |items| && id != a && Isolated(items, id, top)
      ensures b != id
    {
      IsolatedDown(items, id, top, l);
      NoWayIn(items, id, l, p);
    }
  }

  // ---------- Questions and items ----------

  /** The items that are not deleted are exactly the current items of the questions. */
  predicate IndexOk(items: seq<Entry>, index: map<Key, nat>) {
    && (forall q :: q in index ==> index[q] < |items| && items[index[q]].question == q && !items[index[q]].deleted)
    && forall i :: 0 <= i < |items| && !items[i].deleted ==> items[i].question in index && index[items[i].question] == i
  }

  lemma GraphGrows(items: seq<Entry>, e: Entry)
    requires GraphOk(items) && EntryOk(e) && forall l :: 0 <= l <= e.level ==> e.links[l] == []
    ensures GraphOk(items + [e]) && Isolated(items + [e], |items|, MAX_LEVEL)
  {
    var next := items + [e];
    forall id | 0 <= id < |items|
      ensures NodeOk(next, id)
    {
      assert NodeOk(items, id);
      forall l | 0 <= l <= items[id].level
        ensures ListOk(next, id, l, next[id].links[l])
      {
        assert ListOk(items, id, l, items[id].links[l]);
      }
    }
    assert NodeOk(next, |items|);
    forall a, k | 0 <= a < |next| && 0 <= k <= MAX_LEVEL && k < |next[a].links|
      ensures |items| !in next[a].links[k]
    {
      if a < |items| {
        assert NodeOk(items, a) && ListOk(items, a, k, items[a].links[k]);
      }
    }
  }

  ghost function View(items: seq<Entry>, index: map<Key, nat>): map<Key, (bytes, Vector)>
    requires IndexOk(items, index)
  {
    map q | q in index :: (items[index[q]].answer, items[index[q]].vector)
  }

  /** The entry point is an entry of the highest level. */
  predicate PointOk(items: seq<Entry>, entryPoint: int, maxLevel: nat) {
    && (if items == [] then entryPoint == -1 else 0 <= entryPoint < |items| && items[entryPoint].level == maxLevel)
    && forall i :: 0 <= i < |items| ==> items[i].level <= maxLevel
  }

  lemma PointGrows(items: seq<Entry>, e: Entry, next: seq<Entry>, point: int, level: nat, point': int, level': nat)
    requires PointOk(items, point, level) && SameBut(items + [e], next)
    requires 0 <= point' < |next| && next[point'].level == level'
    requires level' == if point < 0 then e.level else Max(level, e.level)
    ensures PointOk(next, point', level')
  {
    forall i | 0 <= i < |next|
      ensures next[i].level == (items + [e])[i].level
    {
      assert next[i].(links := (items + [e])[i].links) == (items + [e])[i];
    }
  }

  lemma SameSize(items: seq<Entry>, next: seq<Entry>)
    requires SameBut(items, next)
    ensures |items| == |next|
  {
  }

  lemma TombstoneOk(items: seq<Entry>, i: nat, entryPoint: int, maxLevel: nat)
    requires GraphOk(items) && PointOk(items, entryPoint, maxLevel) && i < |items|
    ensures GraphOk(items[i := items[i].(deleted := true)])
    ensures PointOk(items[i := items[i].(deleted := true)], entryPoint, maxLevel)
  {
    var next := items[i := items[i].(deleted := true)];
    forall id | 0 <= id < |items|
      ensures NodeOk(next, id)
    {
      assert NodeOk(items, id);
      forall l | 0 <= l <= items[id].level
        ensures ListOk(next, id, l, next[id].links[l])
      {
        assert ListOk(items, id, l, items[id].links[l]);
      }
    }
  }

  /** The items once the new entry has taken over its question. */
  function Superseded(items: seq<Entry>, index: map<Key, nat>, question: Key): seq<Entry>
    requires question in index ==> index[question] < |items|
  {
    if question in index then items[index[question] := items[index[question]].(deleted := true)] else items
  }

  /** What the entry means for its question, links aside. */
  predicate Alike(a: Entry, b: Entry) {
    a.question == b.question && a.answer == b.answer && a.vector == b.vector
  }

  predicate TookOver(items: seq<Entry>, index: map<Key, nat>, e: Entry, next: seq<Entry>) {
    && |next| == |items| + 1 && Alike(next[|items|], e) && !next[|items|].deleted
    && (forall i :: 0 <= i < |items| ==> Alike(next[i], items[i]))
    && (forall i :: 0 <= i < |items| ==>
          next[i].deleted == (items[i].deleted || (e.question in index && i == index[e.question])))
  }

  lemma SupersededTakesOver(items: seq<Entry>, index: map<Key, nat>, e: Entry, grown: seq<Entry>)
    requires e.question in index ==> index[e.question] < |items|
    requires !e.deleted && SameBut(items + [e], grown)
    ensures TookOver(items, index, e, Superseded(grown, index, e.question))
  {
    forall i | 0 <= i < |grown|
      ensures Alike(grown[i], (items + [e])[i]) && grown[i].deleted == (items + [e])[i].deleted
    {
      assert grown[i].(links := (items + [e])[i].links) == (items + [e])[i];
    }
  }

  lemma TookOverIndex(items: seq<Entry>, index: map<Key, nat>, e: Entry, next: seq<Entry>)
    requires IndexOk(items, index) && TookOver(items, index, e, next)
    ensures IndexOk(next, index[e.question := |items|])
  {
    forall i | 0 <= i < |items| && !next[i].deleted
      ensures next[i].question != e.question
    {
      assert Alike(next[i], items[i]);
    }
  }

  lemma TookOverView(items: seq<Entry>, index: map<Key, nat>, e: Entry, next: seq<Entry>)
    requires IndexOk(items, index) && TookOver(items, index, e, next) && IndexOk(next, index[e.question := |items|])
    ensures View(next, index[e.question := |items|]) == View(items, index)[e.question := (e.answer, e.vector)]
  {
    var index' := index[e.question := |items|];
    var l, r := View(next, index'), View(items, index)[e.question := (e.answer, e.vector)];
    assert l.Keys == r.Keys;
    forall q | q in l.Keys
      ensures l[q] == r[q]
    {
      assert q != e.question ==> Alike(next[index[q]], items[index[q]]);
    }
  }

  /** Exactly one question changes its item, and the item it leaves is the only one deleted. */
  lemma Replaced(items: seq<Entry>, index: map<Key, nat>, e: Entry, grown: seq<Entry>)
    requires IndexOk(items, index) && !e.deleted && SameBut(items + [e], grown)
    ensures var next, index' := Superseded(grown, index, e.question), index[e.question := |items|];
            && IndexOk(next, index')
            && View(next, index') == View(items, index)[e.question := (e.answer, e.vector)]
            && |index'| == |index| + (if e.question in index then 0 else 1)
  {
    var next := Superseded(grown, index, e.question);
    SupersededTakesOver(items, index, e, grown);
    hide Superseded, TookOver, View, SameBut;
    TookOverIndex(items, index, e, next);
    TookOverView(items, index, e, next);
    assert index[e.question := |items|].Keys == index.Keys + {e.question};
  }

  lemma Current(items: seq<Entry>, index: map<Key, nat>, q: Key)
    requires IndexOk(items, index) && q in index
    ensures index[q] < |items| && items[index[q]].question == q && !items[index[q]].deleted
  {
  }

  // ---------- Search results ----------

  /** Level 0 was explored from an entry at least as good as the entry point and locally best one level up. */
  ghost predicate Searched(items: seq<Entry>, entryPoint: int, maxLevel: nat, query: Vector, norm: real, start: int,
      seen: Seen) {
    && SeenOk(items, 0, start, query, norm, seen)
    && seen == Explored(items, 0, query, norm, 64, Begun(items, query, norm, start), 0)
    && IdScore(items, start, query, norm) >= IdScore(items, entryPoint, query, norm)
    && (maxLevel > 0 ==> LocalBest(items, 1, start, query, norm))
  }

  datatype Hit = Hit(question: Key, answer: bytes, score: real)

  predicate AreHits(items: seq<Entry>, c: seq<Cand>, hits: seq<Hit>) {
    && |hits| == |c|
    && forall i :: 0 <= i < |c| ==>
         0 <= c[i].id < |items| && hits[i] == Hit(items[c[i].id].question, items[c[i].id].answer, c[i].score)
  }

  function Above(c: seq<Cand>, t: real): seq<Cand> {
    Kept(c, t, false)
  }

  /** The hit is what its question currently holds, and its score gives the distance from the query's direction. */
  predicate IsCurrent(items: seq<Entry>, index: map<Key, nat>, query: Vector, norm: real, h: Hit) {
    && h.question in index && index[h.question] < |items|
    && var e := items[index[h.question]];
       && h.answer == e.answer && |e.vector| == |query| && norm > 0.0 && e.norm > 0.0
       && Distance(query, e.vector, norm, e.norm) == 2.0 - 2.0 * h.score
  }

  predicate HitsOk(items: seq<Entry>, index: map<Key, nat>, query: Vector, norm: real, threshold: real,
      hits: seq<Hit>) {
    && (forall i :: 0 <= i < |hits| ==> hits[i].score >= threshold)
    && (forall i :: 0 <= i < |hits| ==> (IsCurrent(items, index, query, norm, hits[i]) <==> hits[i].score > -2.0))
    && (forall i, j :: 0 <= i < j < |hits| ==> hits[i].score >= hits[j].score)
    && (forall i, j :: 0 <= i < j < |hits| && hits[j].score > -2.0 ==> hits[i].question != hits[j].question)
  }

  lemma NoneAbove(t: real, k: nat)
    ensures Above([], t) == [] && Offered([], k) == []
  {
  }

  lemma AboveTop(found: seq<Cand>, t: real, k: nat)
    requires k > 0 && Sorted(found) && DistinctIds(found) && forall x :: x in found ==> x.id >= 0
    ensures Offered(Above(found, t), k) == Above(found, t)[..Min(k, |Above(found, t)|)]
  {
    KeptInOrder(found, t, false);
    RankOfSorted(Above(found, t));
    KeepsTheTop(Above(found, t), k);
  }

  /** Scores, order and range of what a level search finds. */
  predicate Ranked(items: seq<Entry>, query: Vector, norm: real, c: seq<Cand>) {
    Sorted(c) && DistinctIds(c) && forall x :: x in c ==>
        0 <= x.id < |items| && x.score == IdScore(items, x.id, query, norm)
  }

  lemma FoundScores(items: seq<Entry>, l: nat, start: int, query: Vector, norm: real, seen: Seen, ef: nat)
    requires SeenOk(items, l, start, query, norm, seen)
    ensures Ranked(items, query, norm, Rank(seen.offers)[..Min(ef, |seen.offers|)])
  {
    hide IdScore, Reach;
    var offers := seen.offers;
    var found := Rank(offers)[..Min(ef, |offers|)];
    RankSorts(offers);
    RankDistinct(offers);
    forall x | x in found
      ensures 0 <= x.id < |items| && x.score == IdScore(items, x.id, query, norm)
    {
      MemberOfRank(offers, x);
    }
  }

  /** The first k candidates that reach the threshold, as hits. */
  lemma SearchSound(items: seq<Entry>, index: map<Key, nat>, query: Vector, norm: real, threshold: real,
      found: seq<Cand>, k: nat)
    requires GraphOk(items) && IndexOk(items, index) && IsNorm(query, norm) && norm > 0.0
    requires Ranked(items, query, norm, found)
    ensures var top := Above(found, threshold)[..Min(k, |Above(found, threshold)|)];
            && (forall x :: x in top ==> 0 <= x.id < |items|)
            && forall hits :: AreHits(items, top, hits) ==> HitsOk(items, index, query, norm, threshold, hits)
  {
    hide GraphOk, IndexOk, IdScore;
    var good := Above(found, threshold);
    var top := good[..Min(k, |good|)];
    KeptInOrder(found, threshold, false);
    forall x | x in top
      ensures 0 <= x.id < |items| && x.score == IdScore(items, x.id, query, norm) && x.score >= threshold
    {
      assert x in good;
    }
    forall hits | AreHits(items, top, hits)
      ensures HitsOk(items, index, query, norm, threshold, hits)
    {
      HitsCurrent(items, index, query, norm, threshold, top, hits);
    }
  }

  lemma HitsCurrent(items: seq<Entry>, index: map<Key, nat>, query: Vector, norm: real, threshold: real,
      top: seq<Cand>, hits: seq<Hit>)
    requires GraphOk(items) && IndexOk(items, index) && IsNorm(query, norm) && norm > 0.0
    requires Sorted(top) && DistinctIds(top) && AreHits(items, top, hits)
    requires forall x :: x in top ==>
             0 <= x.id < |items| && x.score == IdScore(items, x.id, query, norm) && x.score >= threshold
    ensures HitsOk(items, index, query, norm, threshold, hits)
  {
    hide GraphOk, IndexOk, IdScore;
    forall i | 0 <= i < |hits|
      ensures IsCurrent(items, index, query, norm, hits[i]) <==> hits[i].score > UNSCORED
      ensures hits[i].score > UNSCORED ==> hits[i].question in index && index[hits[i].question] == top[i].id
      ensures hits[i].score >= threshold
    {
      assert top[i] in top;
      HitCurrent(items, index, query, norm, top[i]);
    }
    forall i, j | 0 <= i < j < |hits| && hits[j].score > UNSCORED
      ensures hits[i].question != hits[j].question
    {
      assert hits[i].score >= hits[j].score;
    }
  }

  lemma HitCurrent(items: seq<Entry>, index: map<Key, nat>, query: Vector, norm: real, x: Cand)
    requires GraphOk(items) && IndexOk(items, index) && IsNorm(query, norm) && norm > 0.0
    requires 0 <= x.id < |items| && x.score == IdScore(items, x.id, query, norm)
    ensures var h := Hit(items[x.id].question, items[x.id].answer, x.score);
            && (IsCurrent(items, index, query, norm, h) <==> x.score > UNSCORED)
            && (x.score > UNSCORED ==> h.question in index && index[h.question] == x.id)
  {
    var h := Hit(items[x.id].question, items[x.id].answer, x.score);
    assert NodeOk(items, x.id);
    UnscoredIff(items, x.id, query, norm);
    if h.question in index {
      var id := index[h.question];
      assert NodeOk(items, id);
      UnscoredIff(items, id, query, norm);
      if |items[id].vector| == |query| {
        hide Distance, Dot;
        DistanceLaw(query, items[id].vector, norm, items[id].norm);
        assert Similarity(query, items[id].vector, norm, items[id].norm) == IdScore(items, id, query, norm);
      }
    }
  }
}
