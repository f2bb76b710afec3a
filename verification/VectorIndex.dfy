/**
 The vector index: an item table with its neighbour graph, and the tree from questions to the
 current item.  The tree is an abstract map here; its own engine is RbEngine.
 */
module VectorEngine {
  import opened Common
  import opened Keys
  import opened Cosine
  import opened Candidates
  import opened Hnsw
  import opened VectorProof

  class VectorIndex {
    var items: seq<Entry>
    var entryPoint: int
    var maxLevel: nat
    var index: map<Key, nat>
    var count: nat

    constructor ()
      ensures items == [] && entryPoint == -1 && maxLevel == 0 && index == map[] && count == 0
    {
      items, entryPoint, maxLevel, index, count := [], -1, 0, map[], 0;
    }

    // ---------- Neighbour lists ----------

    method Prune(id: nat, l: nat)
      requires id < |items| && l < |items[id].links| && |items[id].links[l]| <= NEIGHBOR_CAP
      modifies this`items
      ensures items == WithList(old(items), id, l, Pruned(old(items), old(items[id]), old(items[id].links[l])))
    {
      hide Offered, Scored, Added, IdScore;
      var e := items[id];
      var list := e.links[l];
      var tmp := new Cand[NEIGHBOR_CAP];
      var n := 0;
      ghost var offers := Scored(items, [], e.vector, e.norm);
      NoOffers(items, e);
      assert list[..0] == [];
      for i := 0 to |list|
        invariant n <= i && items == old(items)
        invariant offers == Scored(items, list[..i], e.vector, e.norm)
        invariant tmp[..n] == Offered(offers, NEIGHBOR_CAP)
      {
        ScoreMore(items, list[..i], list[i], e.vector, e.norm);
        assert list[..i] + [list[i]] == list[..i + 1];
        var score := IdScore(items, list[i], e.vector, e.norm);
        if score > UNSCORED {
          OfferMore(offers, Cand(list[i], score), NEIGHBOR_CAP);
          offers := offers + [Cand(list[i], score)];
          n := AddSorted(tmp, n, NEIGHBOR_CAP, list[i], score);
        }
      }
      assert list[..|list|] == list;
      ghost var kept := tmp[..n];
      n := if n > M then M else n;
      assert tmp[..n] == kept[..Min(M, |kept|)];
      items := items[id := e.(links := e.links[l := Ids(tmp[..n])])];
    }

    method AddNeighbor(source: int, to: int, l: nat)
      requires 0 <= source < |items| && l < |items[source].links| ==> |items[source].links[l]| <= NEIGHBOR_CAP
      modifies this`items
      ensures items == Linked(old(items), source, to, l)
    {
      if source < 0 || to < 0 || source == to || source >= |items| || to >= |items| || l >= MAX_LEVEL {
        return;
      }
      var e := items[source];
      if e.deleted || l > e.level || l >= |e.links| {
        return;
      }
      var list := e.links[l];
      SameListAgain(items, source, l);
      if to in list {
        return;
      }
      if |list| < NEIGHBOR_CAP {
        items := WithList(items, source, l, list + [to]);
        Prune(source, l);
        PruneIgnoresLists(old(items), source, l, list + [to]);
        return;
      }
      var w := 0;
      for i := 1 to |list|
        invariant w < i && Worst(items, e, list, 1, 0) == Worst(items, e, list, i, w)
        invariant items == old(items)
      {
        if IdScore(items, list[i], e.vector, e.norm) < IdScore(items, list[w], e.vector, e.norm) {
          w := i;
        }
      }
      if IdScore(items, to, e.vector, e.norm) > IdScore(items, list[w], e.vector, e.norm) {
        items := WithList(items, source, l, list[w := to]);
        Prune(source, l);
        PruneIgnoresLists(old(items), source, l, list[w := to]);
      }
    }

    // ---------- Searching ----------

    /** Walk to ever better neighbours of one level until none is better. */
    method Greedy(start: int, l: nat, query: Vector, norm: real) returns (current: int)
      requires ItemsOk(items) && IsNorm(query, norm) && norm > 0.0
      ensures 0 <= start < |items| ==> Reach(items, l, start, current)
      ensures !(0 <= start < |items|) ==> current == start
      ensures IdScore(items, current, query, norm) >= IdScore(items, start, query, norm)
      ensures LocalBest(items, l, current, query, norm)
    {
      hide IdScore;
      current := start;
      var score := IdScore(items, current, query, norm);
      var changed := true;
      if 0 <= start < |items| {
        ReachSelf(items, l, start);
      }
      while changed
        invariant score == IdScore(items, current, query, norm) >= IdScore(items, start, query, norm)
        invariant 0 <= start < |items| ==> Reach(items, l, start, current)
        invariant !(0 <= start < |items|) ==> current == start
        invariant !changed ==> LocalBest(items, l, current, query, norm)
        decreases Better(items, query, norm, score), changed
      {
        changed := false;
        if current < 0 || current >= |items| {
          break;
        }
        var e := items[current];
        if l > e.level || l >= |e.links| {
          break;
        }
        ghost var previous, before := current, score;
        current, score, changed := BestNeighbor(current, score, l, query, norm);
        if changed {
          ReachNext(items, l, start, previous, current);
          FewerBetter(items, query, norm, before, current);
        }
      }
    }

    /** The first best of an entry and its neighbours. */
    method BestNeighbor(id: int, idScore: real, l: nat, query: Vector, norm: real)
      returns (best: int, score: real, changed: bool)
      requires ItemsOk(items) && IsNorm(query, norm) && norm > 0.0
      requires 0 <= id < |items| && l < |items[id].links| && idScore == IdScore(items, id, query, norm)
      ensures score == IdScore(items, best, query, norm)
      ensures if changed then Edge(items, l, id, best) && score > idScore else best == id && score == idScore
      ensures forall i :: 0 <= i < |items[id].links[l]| ==> IdScore(items, items[id].links[l][i], query, norm) <= score
    {
      hide IdScore, EntryOk;
      var list := items[id].links[l];
      best, score, changed := id, idScore, false;
      for i := 0 to |list|
        invariant score == IdScore(items, best, query, norm)
        invariant if changed then Edge(items, l, id, best) && score > idScore else best == id && score == idScore
        invariant forall j :: 0 <= j < i ==> IdScore(items, list[j], query, norm) <= score
      {
        var s := IdScore(items, list[i], query, norm);
        if s > score {
          UnscoredIsLowest(items, best, query, norm);
          UnscoredIsLowest(items, list[i], query, norm);
          assert list[i] in list;
          best, score, changed := list[i], s, true;
        }
      }
    }

    /** Best-first search of one level, keeping the ef best candidates. */
    method SearchLayer(query: Vector, norm: real, start: int, ef: int, l: nat)
      returns (ok: bool, found: seq<Cand>, ghost seen: Seen)
      requires start < |items|
      ensures ok == (start >= 0 && ef > 0)
      ensures ok ==> SeenOk(items, l, start, query, norm, seen)
      ensures ok ==> found == Rank(seen.offers)[..Min(ef, |seen.offers|)]
      ensures ok ==> NeighborsIn(items, l, start, seen.visited)
      ensures ok ==> seen == Explored(items, l, query, norm, ef, Begun(items, query, norm, start), 0)
    {
      seen, found := Seen({}, []), [];
      if start < 0 || ef <= 0 {
        return false, found, seen;
      }
      ok := true;
      hide IdScore, Offered, Added, SeenOk, Reach, Rank, Explored, Expanded;
      var a := new Cand[ef];
      var visited := new bool[|items|](_ => false);
      var score := IdScore(items, start, query, norm);
      var n: nat := AddSorted(a, 0, ef, start, score);
      visited[start] := true;
      seen := Begun(items, query, norm, start);
      SeenStart(items, l, start, query, norm);
      FirstOffer(Cand(start, score), ef);
      n, seen := SearchLoop(a, n, visited, query, norm, start, ef, l, seen);
      found := a[..n];
      SeenTop(items, l, start, query, norm, seen, ef);
    }

    /** The cursor's run over the candidates; the first one it meets is the start. */
    method SearchLoop(a: array<Cand>, count: nat, visited: array<bool>, query: Vector, norm: real, start: int,
                      ef: nat, l: nat, ghost before: Seen) returns (n: nat, ghost seen: Seen)
      requires a.Length == ef > 0 && count <= ef && a[..count] == Offered(before.offers, ef)
      requires visited.Length == |items| && Marked(visited[..], before.visited)
      requires 0 <= start < |items| && before == Begun(items, query, norm, start)
               && SeenOk(items, l, start, query, norm, before)
      modifies a, visited
      ensures n <= ef && a[..n] == Offered(seen.offers, ef)
      ensures SeenOk(items, l, start, query, norm, seen) && NeighborsIn(items, l, start, seen.visited)
      ensures seen == Explored(items, l, query, norm, ef, before, 0)
    {
      hide IdScore, Offered, SeenOk, Reach, Explored, Expanded, Marked;
      ExploreFirst(items, l, query, norm, ef, start);
      n, seen := Expand(a, count, visited, query, norm, start, start, ef, l, before);
      var cursor := 1;
      while cursor < n
        invariant n <= ef && a[..n] == Offered(seen.offers, ef) && Marked(visited[..], seen.visited)
        invariant SeenOk(items, l, start, query, norm, seen) && NeighborsIn(items, l, start, seen.visited)
        invariant Explored(items, l, query, norm, ef, before, 0) == Explored(items, l, query, norm, ef, seen, cursor)
        decreases ef - cursor
      {
        ExploreNext(items, l, query, norm, ef, seen, cursor);
        OfferedSeen(items, l, start, query, norm, seen, ef, cursor);
        n, seen := Expand(a, n, visited, query, norm, start, a[cursor].id, ef, l, seen);
        cursor := cursor + 1;
      }
      ExploreNext(items, l, query, norm, ef, seen, cursor);
    }

    /** Offer every neighbour of one candidate that has not been visited. */
    method Expand(a: array<Cand>, count: nat, visited: array<bool>, query: Vector, norm: real, ghost start: int,
                  id: int, ef: nat, l: nat, ghost before: Seen) returns (n: nat, ghost seen: Seen)
      requires a.Length == ef > 0 && count <= ef && a[..count] == Offered(before.offers, ef)
      requires visited.Length == |items| && Marked(visited[..], before.visited)
      requires SeenOk(items, l, start, query, norm, before) && 0 <= id < |items| && id in before.visited
      modifies a, visited
      ensures n <= ef && a[..n] == Offered(seen.offers, ef)
      ensures Marked(visited[..], seen.visited)
      ensures SeenOk(items, l, start, query, norm, seen) && before.visited <= seen.visited
      ensures NeighborsIn(items, l, id, seen.visited)
      ensures seen == Expanded(items, l, query, norm, before, id)
    {
      hide Offered, SeenOk, Marked, VisitAll;
      n, seen := count, before;
      var e := items[id];
      if l <= e.level && l < |e.links| {
        n, seen := OfferAll(a, count, visited, query, norm, start, id, e.links[l], ef, l, before);
      }
    }

    method OfferAll(a: array<Cand>, count: nat, visited: array<bool>, query: Vector, norm: real, ghost start: int,
                    ghost id: int, list: seq<int>, ef: nat, ghost l: nat, ghost before: Seen)
      returns (n: nat, ghost seen: Seen)
      requires a.Length == ef > 0 && count <= ef && a[..count] == Offered(before.offers, ef)
      requires visited.Length == |items| && Marked(visited[..], before.visited)
      requires SeenOk(items, l, start, query, norm, before) && id in before.visited
      requires forall j :: 0 <= j < |list| && 0 <= list[j] < |items| ==> Edge(items, l, id, list[j])
      modifies a, visited
      ensures n <= ef && a[..n] == Offered(seen.offers, ef)
      ensures Marked(visited[..], seen.visited)
      ensures SeenOk(items, l, start, query, norm, seen) && before.visited <= seen.visited
      ensures forall j :: 0 <= j < |list| && 0 <= list[j] < |items| ==> list[j] in seen.visited
      ensures seen == VisitAll(items, query, norm, before, list)
    {
      hide IdScore, Offered, SeenOk, Marked, Edge, VisitAll;
      n, seen := count, before;
      VisitNone(items, query, norm, before, list);
      for i := 0 to |list|
        invariant seen == VisitAll(items, query, norm, before, list[..i])
        invariant n <= ef && a[..n] == Offered(seen.offers, ef)
        invariant Marked(visited[..], seen.visited)
        invariant SeenOk(items, l, start, query, norm, seen) && before.visited <= seen.visited
        invariant forall j :: 0 <= j < i && 0 <= list[j] < |items| ==> list[j] in seen.visited
      {
        var nid := list[i];
        VisitNext(items, query, norm, before, list, i);
        if 0 <= nid < |items| {
          MarkedAt(visited[..], seen.visited, nid);
          if !visited[nid] {
            n, seen := OfferOne(a, n, visited, query, norm, start, id, nid, ef, l, seen);
          }
        }
      }
      assert list[..|list|] == list;
    }

    method OfferOne(a: array<Cand>, count: nat, visited: array<bool>, query: Vector, norm: real, ghost start: int,
                    ghost source: int, nid: nat, ef: nat, ghost l: nat, ghost before: Seen)
      returns (n: nat, ghost seen: Seen)
      requires a.Length == ef > 0 && count <= ef && a[..count] == Offered(before.offers, ef)
      requires visited.Length == |items| && Marked(visited[..], before.visited)
      requires SeenOk(items, l, start, query, norm, before) && source in before.visited && Edge(items, l, source, nid)
      requires nid !in before.visited
      modifies a, visited
      ensures n <= ef && a[..n] == Offered(seen.offers, ef)
      ensures Marked(visited[..], seen.visited) && seen == Visit(items, query, norm, before, nid)
      ensures SeenOk(items, l, start, query, norm, seen)
    {
      hide IdScore, Offered, Added, SeenOk, Reach;
      ghost var flags := visited[..];
      visited[nid] := true;
      assert visited[..] == flags[nid := true];
      n := count;
      VisitKeeps(items, l, start, query, norm, before, source, nid);
      seen := Visit(items, query, norm, before, nid);
      var score := IdScore(items, nid, query, norm);
      if score > UNSCORED {
        OfferMore(before.offers, Cand(nid, score), ef);
        n := AddSorted(a, n, ef, nid, score);
      }
    }

    // ---------- Inserting ----------

    /** Link the new entry and its i-th best candidate both ways. */
    method LinkBoth(id: nat, l: nat, found: seq<Cand>, i: nat)
      requires GraphOk(items) && id < |items| && l <= items[id].level && !items[id].deleted
      requires FoundList(items, id, l, found) && i < |found| && i < M
      requires l < |items[id].links| && items[id].links[l] == Ids(Scorable(found[..i]))
      modifies this`items
      ensures GraphOk(items) && SameAbove(old(items), items, l) && FoundList(items, id, l, found)
      ensures l < |items[id].links| && items[id].links[l] == Ids(Scorable(found[..i + 1]))
      ensures items == Linked(Linked(old(items), id, found[i].id, l), found[i].id, id, l)
    {
      hide Linked, IdScore, Scorable, GraphOk, FoundList, CanLink;
      var other := found[i].id;
      FoundAt(items, id, l, found, i);
      ListBound(items, id, l);
      LinkedOk(items, id, other, l);
      LinkNext(items, id, l, found, i);
      LinkedElsewhere(items, id, other, l);
      AddNeighbor(id, other, l);
      ghost var mid := items;
      ListBound(items, other, l);
      LinkedOk(items, other, id, l);
      LinkedElsewhere(items, other, id, l);
      AddNeighbor(other, id, l);
      SameAboveTwice(old(items), mid, items, l);
      FoundSame(old(items), items, id, l, found);
    }

    /** Connect a new entry at one level: its list becomes the M best found, and each of them is offered the entry. */
    method LinkLevel(id: nat, ep: int, l: nat) returns (next: int, ghost seen: Seen)
      requires GraphOk(items) && id < |items| && 0 <= ep < |items| && ep != id && !items[id].deleted
      requires l <= items[id].level && l <= items[ep].level && Isolated(items, id, l)
      modifies this`items
      ensures GraphOk(items) && SameAbove(old(items), items, l)
      ensures 0 <= next < |items| && next != id && l <= items[next].level
      ensures LinkedBy(items, id, l, LevelLink(old(items), ep, seen))
      ensures items == LinkAll(old(items), id, l, Rank(seen.offers)[..Min(8, |seen.offers|)])
    {
      NoneScorable();
      hide Rank, Linked, IdScore, SeenOk, Scorable, Kept, Isolated, GraphOk, FoundList, NodeOk, LinkAll, Explored;
      var e := items[id];
      GraphNode(items, id);
      IsolatedList(items, id, l);
      var ok, found;
      ok, found, seen := SearchLayer(e.vector, e.norm, ep, EF_CONSTRUCTION, l);
      FoundIsFound(items, l, ep, id, seen, EF_CONSTRUCTION);
      var links := if |found| < M then |found| else M;
      assert found[..links] == Rank(seen.offers)[..Min(M, |seen.offers|)];
      assert found[..0] == [];
      LinkNone(items, id, l);
      for i := 0 to links
        invariant GraphOk(items) && SameAbove(old(items), items, l) && FoundList(items, id, l, found)
        invariant items[id].links[l] == Ids(Scorable(found[..i])) && items == LinkAll(old(items), id, l, found[..i])
      {
        LinkAllNext(old(items), id, l, found, i);
        LinkBoth(id, l, found, i);
      }
      next := if |found| > 0 then found[0].id else ep;
      if |found| > 0 {
        FoundAt(items, id, l, found, 0);
      }
    }

    /** Greedy descent from the entry point through the levels above `bottom`. */
    method Descend(bottom: nat, query: Vector, norm: real) returns (ep: int)
      requires GraphOk(items) && 0 <= entryPoint < |items| && items[entryPoint].level == maxLevel
      requires IsNorm(query, norm) && norm > 0.0
      ensures 0 <= ep < |items| && items[ep].level >= Min(bottom, maxLevel)
      ensures forall id :: 0 <= id < |items| && id != entryPoint && Isolated(items, id, maxLevel) ==> ep != id
      ensures IdScore(items, ep, query, norm) >= IdScore(items, entryPoint, query, norm)
      ensures maxLevel > bottom ==> LocalBest(items, bottom + 1, ep, query, norm)
    {
      hide IdScore, Isolated, Reach, LocalBest;
      ep := entryPoint;
      var l := maxLevel;
      GraphItems(items);
      while l > bottom
        invariant Min(bottom, maxLevel) <= l <= maxLevel && 0 <= ep < |items| && items[ep].level >= l
        invariant forall id :: 0 <= id < |items| && id != entryPoint && Isolated(items, id, maxLevel) ==> ep != id
        invariant IdScore(items, ep, query, norm) >= IdScore(items, entryPoint, query, norm)
        invariant l < maxLevel ==> LocalBest(items, l + 1, ep, query, norm)
      {
        var next := Greedy(ep, l, query, norm);
        ReachStays(items, l, ep, next);
        ReachAvoids(items, l, maxLevel, ep, next);
        ep := next;
        l := l - 1;
      }
    }

    /** Connect the newest entry to the graph; trail records how each level was linked. */
    method Insert(id: nat) returns (ghost trail: map<nat, LevelLink>)
      requires GraphOk(items) && id < |items| && !items[id].deleted && Isolated(items, id, MAX_LEVEL)
      requires entryPoint >= 0 ==> entryPoint < |items| && entryPoint != id && items[entryPoint].level == maxLevel
      modifies this`items, this`entryPoint, this`maxLevel
      ensures GraphOk(items) && SameBut(old(items), items)
      ensures 0 <= entryPoint < |items| && items[entryPoint].level == maxLevel
      ensures maxLevel == if old(entryPoint) < 0 then items[id].level else Max(old(maxLevel), items[id].level)
      ensures old(entryPoint) >= 0 ==> AllLinked(items, id, trail, Min(items[id].level, old(maxLevel)))
    {
      var level := items[id].level;
      trail := map[];
      if entryPoint < 0 {
        entryPoint, maxLevel := id, level;
        return;
      }
      hide GraphOk, Isolated, LinkedBy, SameBut;
      GraphNode(items, id);
      GraphNode(items, entryPoint);
      IsolatedDown(items, id, MAX_LEVEL, maxLevel);
      var ep := Descend(level, items[id].vector, items[id].norm);
      var l: nat := if level < maxLevel then level else maxLevel;
      IsolatedDown(items, id, MAX_LEVEL, l);
      trail := LinkDown(id, ep, l);
      SameLevels(old(items), items);
      if level > maxLevel {
        maxLevel, entryPoint := level, id;
      }
    }

    /** Link the entry at level top and every level below. */
    method LinkDown(id: nat, start: int, top: nat) returns (ghost trail: map<nat, LevelLink>)
      requires GraphOk(items) && id < |items| && 0 <= start < |items| && start != id && !items[id].deleted
      requires top <= items[id].level && top <= items[start].level && Isolated(items, id, top)
      modifies this`items
      ensures GraphOk(items) && SameBut(old(items), items) && AllLinked(items, id, trail, top)
    {
      hide GraphOk, Isolated, LinkedBy, LinkAll, SameBut, SameAbove;
      trail := map[];
      var ep, l: int := start, top;
      SameButSelf(items);
      while l >= 0
        invariant -1 <= l <= top && GraphOk(items) && SameBut(old(items), items) && id < |items|
        invariant 0 <= ep < |items| && ep != id && items[ep].level >= l
        invariant l >= 0 ==> l <= items[id].level && !items[id].deleted && Isolated(items, id, l)
        invariant LinkedAbove(items, id, trail, l, top)
      {
        ghost var before, from, seen := items, ep, Seen({}, []);
        ep, seen := LinkLevel(id, ep, l);
        SameAboveSame(before, items, l, id);
        SameButTwice(old(items), before, items);
        LinkedAboveKept(before, items, id, trail, l, top, LevelLink(before, from, seen));
        if l > 0 {
          IsolatedBelow(before, items, id, l);
        }
        trail := trail[l := LevelLink(before, from, seen)];
        l := l - 1;
      }
    }

    // ---------- The commands ----------

    ghost predicate Valid()
      reads this
    {
      && GraphOk(items) && IndexOk(items, index) && count == |index|
      && PointOk(items, entryPoint, maxLevel)
    }

    /** The stored answer and vector of every question. */
    ghost function Answers(): map<Key, (bytes, Vector)>
      reads this
      requires IndexOk(items, index)
    {
      View(items, index)
    }

    /** VSET: parsed is the vector read from the command, norm its norm and level the random level drawn. */
    method Set(question: Key, answer: bytes, dim: int, parsed: Option<Vector>, norm: real, level: nat)
      returns (code: int, ghost trail: map<nat, LevelLink>)
      requires Valid() && level < 8
      requires parsed.Some? ==> |parsed.value| == dim && IsNorm(parsed.value, norm)
      modifies this
      ensures Valid()
      ensures code == if dim <= 0 then -1 else if parsed.None? || norm <= 0.0 then -2 else 0
      ensures Answers() == if code == 0 then old(Answers())[question := (answer, parsed.value)] else old(Answers())
      ensures code != 0 ==> unchanged(this)
      ensures code == 0 && old(items) != [] ==> AllLinked(items, |old(items)|, trail, Min(level, old(maxLevel)))
    {
      trail := map[];
      if dim <= 0 {
        return -1, trail;
      }
      if parsed.None? || norm <= 0.0 {
        return -2, trail;
      }
      hide GraphOk, IndexOk, View, PointOk, SameBut, AllLinked;
      var id := |items|;
      var e := Entry(question, answer, parsed.value, norm, level, false, seq(level + 1, _ => []));
      trail := Attach(e);
      Replaced(old(items), index, e, items);
      if question in index {
        Current(old(items), index, question);
        SameSize(old(items) + [e], items);
        TombstoneOk(items, index[question], entryPoint, maxLevel);
        LinksStay(items, index[question], id, trail, Min(level, old(maxLevel)));
        items := items[index[question] := items[index[question]].(deleted := true)];
      } else {
        count := count + 1;
      }
      index := index[question := id];
      code := 0;
    }

    /** Put an entry without links into the table and connect it. */
    method Attach(e: Entry) returns (ghost trail: map<nat, LevelLink>)
      requires GraphOk(items) && PointOk(items, entryPoint, maxLevel)
      requires EntryOk(e) && !e.deleted && forall l :: 0 <= l <= e.level ==> e.links[l] == []
      modifies this`items, this`entryPoint, this`maxLevel
      ensures GraphOk(items) && PointOk(items, entryPoint, maxLevel) && SameBut(old(items) + [e], items)
      ensures old(items) != [] ==> AllLinked(items, |old(items)|, trail, Min(e.level, old(maxLevel)))
    {
      hide GraphOk, Isolated, EntryOk;
      GraphGrows(items, e);
      items := items + [e];
      trail := Insert(|items| - 1);
      PointGrows(old(items), e, items, old(entryPoint), old(maxLevel), entryPoint, maxLevel);
    }

    method GetByKey(question: Key) returns (e: Option<Entry>)
      requires Valid()
      ensures e.Some? <==> question in Answers()
      ensures e.Some? ==> e.value.question == question && Answers()[question] == (e.value.answer, e.value.vector)
    {
      if question in index {
        return Some(items[index[question]]);
      }
      return None;
    }

    /** VSEARCH: a hit is the current answer of its question exactly if its score is above -2. */
    method Search(dim: int, parsed: Option<Vector>, norm: real, topk: int, threshold: real)
      returns (code: int, results: seq<Hit>, ghost seen: Seen, ghost start: int)
      requires Valid() && (parsed.Some? ==> |parsed.value| == dim && IsNorm(parsed.value, norm))
      ensures code == if dim <= 0 || topk <= 0 then -1 else if parsed.None? || norm <= 0.0 then -2 else |results|
      ensures code < 0 || items == [] ==> results == []
      ensures code >= 0 && items != [] ==>
                && Searched(items, entryPoint, maxLevel, parsed.value, norm, start, seen)
                && var good := Above(Rank(seen.offers)[..Min(64, |seen.offers|)], threshold);
                   AreHits(items, good[..Min(Min(topk, 128), |good|)], results)
      ensures code >= 0 ==> HitsOk(items, index, parsed.value, norm, threshold, results)
      ensures |results| <= Max(0, Min(topk, 128))
    {
      results, seen, start := [], Seen({}, []), -1;
      if dim <= 0 || topk <= 0 {
        return -1, results, seen, start;
      }
      if parsed.None? || norm <= 0.0 {
        return -2, results, seen, start;
      }
      var k := if topk > MAX_TOPK then MAX_TOPK else topk;
      var query := parsed.value;
      if entryPoint >= 0 {
        hide GraphOk, IndexOk, Searched, IdScore, Rank, Kept, HitsOk, IsNorm, Ranked;
        var found;
        found, seen, start := FindCandidates(query, norm);
        var top := PickTop(found, query, norm, threshold, k);
        SearchSound(items, index, query, norm, threshold, found, k);
        results := Report(top);
      }
      code := |results|;
    }

    /** Descend to level 0 and search it. */
    method FindCandidates(query: Vector, norm: real) returns (found: seq<Cand>, ghost seen: Seen, ghost start: int)
      requires GraphOk(items) && 0 <= entryPoint < |items| && items[entryPoint].level == maxLevel
      requires IsNorm(query, norm) && norm > 0.0
      ensures Searched(items, entryPoint, maxLevel, query, norm, start, seen)
      ensures found == Rank(seen.offers)[..Min(64, |seen.offers|)] && Ranked(items, query, norm, found)
    {
      hide GraphOk, SeenOk, IdScore, Rank, IsNorm, Explored, LocalBest, Ranked;
      var ep := Descend(0, query, norm);
      start := ep;
      var ok;
      ok, found, seen := SearchLayer(query, norm, ep, EF_SEARCH, 0);
      FoundScores(items, 0, ep, query, norm, seen, EF_SEARCH);
    }

    method Report(top: seq<Cand>) returns (results: seq<Hit>)
      requires forall x :: x in top ==> 0 <= x.id < |items|
      ensures AreHits(items, top, results)
    {
      results := [];
      for i := 0 to |top|
        invariant AreHits(items, top[..i], results)
      {
        assert top[i] in top;
        var e := items[top[i].id];
        results := results + [Hit(e.question, e.answer, top[i].score)];
      }
      assert top[..|top|] == top;
    }

    /** The first k of the candidates that reach the threshold. */
    method PickTop(found: seq<Cand>, query: Vector, norm: real, threshold: real, k: nat) returns (top: seq<Cand>)
      requires k > 0 && Ranked(items, query, norm, found)
      ensures top == Above(found, threshold)[..Min(k, |Above(found, threshold)|)]
    {
      hide IdScore, Offered, Kept, Added;
      var a := new Cand[k];
      var n: nat := 0;
      NoneAbove(threshold, k);
      assert found[..0] == [];
      for i := 0 to |found|
        invariant n <= k && a[..n] == Offered(Above(found[..i], threshold), k)
      {
        KeptNext(found, i, threshold, false);
        var score := IdScore(items, found[i].id, query, norm);
        assert found[i] in found;
        if score >= threshold {
          OfferMore(Above(found[..i], threshold), found[i], k);
          n := AddSorted(a, n, k, found[i].id, score);
        }
      }
      assert found[..|found|] == found;
      top := a[..n];
      AboveTop(found, threshold, k);
    }
  }
}
