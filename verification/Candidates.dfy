/**
 The bounded candidate list of the vector index: kept in descending order of score by shifting
 in place.  Offering candidates one by one keeps exactly the first `cap` of all of them sorted.
 */
module Candidates {
  import opened Common

  datatype Cand = Cand(id: int, score: real)

  predicate HasId(c: seq<Cand>, id: int) {
    exists i :: 0 <= i < |c| && c[i].id == id
  }

  predicate DistinctIds(c: seq<Cand>) {
    forall i, j :: 0 <= i < j < |c| ==> c[i].id != c[j].id
  }

  predicate Sorted(c: seq<Cand>) {
    forall i, j :: 0 <= i < j < |c| ==> c[i].score >= c[j].score
  }

  /** Shift from the back past every lower score. */
  function Placed(c: seq<Cand>, x: Cand): (r: seq<Cand>)
    ensures |r| == |c| + 1
  {
    if c == [] || c[|c| - 1].score >= x.score then c + [x]
    else Placed(c[..|c| - 1], x) + [c[|c| - 1]]
  }

  function Added(c: seq<Cand>, cap: int, x: Cand): (r: seq<Cand>) {
    if cap <= 0 || x.id < 0 || HasId(c, x.id) || (|c| >= cap && x.score <= c[|c| - 1].score) then c
    else Placed(if |c| >= cap then c[..cap - 1] else c, x)
  }

  /** A list without room, a negative id and an id already there change nothing. */
  lemma OfferRefused(c: seq<Cand>, cap: int, x: Cand)
    requires cap <= 0 || x.id < 0 || exists i :: 0 <= i < |c| && c[i].id == x.id
    ensures Added(c, cap, x) == c
  {
    if exists i :: 0 <= i < |c| && c[i].id == x.id {
      assert HasId(c, x.id);
    }
  }

  // ---------- In place ----------

  method Find(a: array<Cand>, count: nat, id: int) returns (found: int)
    requires count <= a.Length
    ensures -1 <= found < count
    ensures found >= 0 ==> a[found].id == id
    ensures found >= 0 <==> HasId(a[..count], id)
  {
    for i := 0 to count
      invariant forall j :: 0 <= j < i ==> a[j].id != id
    {
      if a[i].id == id {
        assert a[..count][i].id == id;
        return i;
      }
    }
    return -1;
  }

  method AddSorted(a: array<Cand>, count: nat, cap: int, id: int, score: real) returns (n: nat)
    requires count <= a.Length && cap <= a.Length && (cap > 0 ==> count <= cap)
    modifies a
    ensures count <= n <= count + 1 && n <= Max(count, cap)
    ensures a[..n] == Added(old(a[..count]), cap, Cand(id, score))
  {
    n := count;
    if cap <= 0 || id < 0 {
      return;
    }
    var found := Find(a, count, id);
    if found >= 0 || (count >= cap && score <= a[count - 1].score) {
      return;
    }
    var pos := count;
    if pos >= cap {
      pos := cap - 1;
      assert a[..count][..pos] == a[..pos];
    }
    n := ShiftIn(a, pos, Cand(id, score));
  }

  /** The shifting loop: x goes into a[..pos + 1] behind everything that scores at least as much. */
  method ShiftIn(a: array<Cand>, last: nat, x: Cand) returns (n: nat)
    requires last < a.Length
    modifies a
    ensures n == last + 1 && a[..n] == Placed(old(a[..last]), x)
  {
    hide Placed;
    ghost var base := a[..last];
    var pos := last;
    while pos > 0 && a[pos - 1].score < x.score
      invariant pos <= last
      invariant forall i :: 0 <= i < pos ==> a[i] == base[i]
      invariant forall i :: pos < i <= last ==> a[i] == base[i - 1]
      invariant forall i :: pos <= i < last ==> base[i].score < x.score
    {
      a[pos] := a[pos - 1];
      pos := pos - 1;
    }
    a[pos] := x;
    n := last + 1;
    PlacedAt(base, x, pos);
    assert a[..n] == base[..pos] + [x] + base[pos..];
  }

  /** The place of x: right behind the last score that is not lower. */
  lemma {:induction false} PlacedAt(c: seq<Cand>, x: Cand, pos: nat)
    requires pos <= |c| && (pos > 0 ==> c[pos - 1].score >= x.score)
    requires forall i :: pos <= i < |c| ==> c[i].score < x.score
    ensures Placed(c, x) == c[..pos] + [x] + c[pos..]
  {
    if pos == |c| {
      assert c[..pos] == c;
    } else {
      var n := |c| - 1;
      PlacedAt(c[..n], x, pos);
      assert c[..n][..pos] == c[..pos] && c[..n][pos..] + [c[n]] == c[pos..];
    }
  }

  // ---------- What the list holds ----------

  /** All offers sorted: each one is placed behind the equal scores before it. */
  function Rank(offers: seq<Cand>): (r: seq<Cand>)
    ensures |r| == |offers|
  {
    if offers == [] then [] else Placed(Rank(offers[..|offers| - 1]), offers[|offers| - 1])
  }

  /** What a list of capacity cap holds after the offers. */
  function Offered(offers: seq<Cand>, cap: int): (r: seq<Cand>) {
    if offers == [] then [] else Added(Offered(offers[..|offers| - 1], cap), cap, offers[|offers| - 1])
  }

  lemma {:induction false} PlacedPermutes(c: seq<Cand>, x: Cand)
    ensures multiset(Placed(c, x)) == multiset(c) + multiset{x}
  {
    if c != [] {
      var n := |c| - 1;
      assert c == c[..n] + [c[n]];
      PlacedPermutes(c[..n], x);
    }
  }

  lemma MemberOfPlaced(c: seq<Cand>, x: Cand, y: Cand)
    ensures y in Placed(c, x) <==> y in c || y == x
  {
    PlacedPermutes(c, x);
    assert y in Placed(c, x) <==> y in multiset(Placed(c, x));
    assert y in c <==> y in multiset(c);
  }

  lemma {:induction false} PlacedSorted(c: seq<Cand>, x: Cand)
    requires Sorted(c)
    ensures Sorted(Placed(c, x))
  {
    if c != [] && c[|c| - 1].score < x.score {
      var n := |c| - 1;
      PlacedSorted(c[..n], x);
      var p := Placed(c[..n], x);
      forall i | 0 <= i < |p|
        ensures p[i].score >= c[n].score
      {
        assert p[i] in p;
        MemberOfPlaced(c[..n], x, p[i]);
      }
    }
  }

  /** Rank is the descending sort of the offers. */
  lemma {:induction false} RankSorts(offers: seq<Cand>)
    ensures Sorted(Rank(offers)) && multiset(Rank(offers)) == multiset(offers)
  {
    if offers != [] {
      var n := |offers| - 1;
      assert offers == offers[..n] + [offers[n]];
      RankSorts(offers[..n]);
      PlacedSorted(Rank(offers[..n]), offers[n]);
      PlacedPermutes(Rank(offers[..n]), offers[n]);
    }
  }

  /** x was offered before y. */
  predicate OfferedBefore(offers: seq<Cand>, x: Cand, y: Cand) {
    exists a, b :: 0 <= a < b < |offers| && offers[a] == x && offers[b] == y
  }

  lemma {:induction false} PlaceOf(c: seq<Cand>, x: Cand) returns (pos: nat)
    requires Sorted(c)
    ensures pos <= |c| && Placed(c, x) == c[..pos] + [x] + c[pos..]
    ensures forall i :: pos <= i < |c| ==> c[i].score < x.score
  {
    pos := |c|;
    if c == [] || c[pos - 1].score >= x.score {
      assert c[..pos] == c && c[pos..] == [];
    } else {
      var n := |c| - 1;
      pos := PlaceOf(c[..n], x);
      assert c[..n][..pos] == c[..pos] && c[..n][pos..] + [c[n]] == c[pos..];
    }
  }

  /** Candidates of equal score stay in the order in which they were offered. */
  lemma {:induction false} RankStable(offers: seq<Cand>, i: nat, j: nat)
    requires i < j < |offers| && Rank(offers)[i].score == Rank(offers)[j].score
    ensures OfferedBefore(offers, Rank(offers)[i], Rank(offers)[j])
    decreases |offers|
  {
    hide Rank, Placed, OfferedBefore, Sorted;
    var n := |offers| - 1;
    var o, x := offers[..n], offers[n];
    assert offers == o + [x];
    var c := Rank(o);
    RankSorts(o);
    var pos := PlaceOf(c, x);
    RankNext(offers);
    if j == pos {
      LastOffered(o, x, c[i]);
    } else {
      StableRest(offers, o, x, c, pos, i, j);
      var a, b := if i < pos then i else i - 1, if j < pos then j else j - 1;
      RankStable(o, a, b);
      StillBefore(o, x, c[a], c[b]);
    }
  }

  lemma RankNext(offers: seq<Cand>)
    requires offers != []
    ensures Rank(offers) == Placed(Rank(offers[..|offers| - 1]), offers[|offers| - 1])
  {
  }

  lemma StableRest(offers: seq<Cand>, o: seq<Cand>, x: Cand, c: seq<Cand>, pos: nat, i: nat, j: nat)
    requires offers == o + [x] && |c| == |o| && pos <= |c| && Rank(offers) == c[..pos] + [x] + c[pos..]
    requires forall k :: pos <= k < |c| ==> c[k].score < x.score
    requires i < j < |offers| && j != pos && Rank(offers)[i].score == Rank(offers)[j].score
    ensures i != pos
    ensures var a, b := if i < pos then i else i - 1, if j < pos then j else j - 1;
            0 <= a < b < |c| && Rank(offers)[i] == c[a] && Rank(offers)[j] == c[b]
  {
    hide Rank;
    var r := Rank(offers);
    assert forall k :: pos < k < |r| ==> r[k] == c[k - 1];
  }

  lemma LastOffered(o: seq<Cand>, x: Cand, y: Cand)
    requires y in Rank(o)
    ensures OfferedBefore(o + [x], y, x)
  {
    MemberOfRank(o, y);
    var a :| 0 <= a < |o| && o[a] == y;
    assert (o + [x])[a] == y && (o + [x])[|o|] == x;
  }

  lemma StillBefore(o: seq<Cand>, x: Cand, y: Cand, z: Cand)
    requires OfferedBefore(o, y, z)
    ensures OfferedBefore(o + [x], y, z)
  {
    var a, b :| 0 <= a < b < |o| && o[a] == y && o[b] == z;
    assert (o + [x])[a] == y && (o + [x])[b] == z;
  }

  lemma MemberOfRank(offers: seq<Cand>, y: Cand)
    ensures y in Rank(offers) <==> y in offers
  {
    RankSorts(offers);
    assert y in offers <==> y in multiset(offers);
    assert y in Rank(offers) <==> y in multiset(Rank(offers));
  }

  /** The first k of the list with x placed, in terms of the first k of the list. */
  lemma {:induction false} PlacedPrefix(c: seq<Cand>, x: Cand, k: nat)
    requires Sorted(c) && 0 < k <= |c|
    ensures Placed(c, x)[..k] == if x.score <= c[k - 1].score then c[..k] else Placed(c[..k - 1], x)
  {
    var n := |c| - 1;
    if c[n].score >= x.score {
      assert c[k - 1].score >= x.score;
    } else if k == |c| {
      assert Placed(c, x)[..k] == Placed(c[..n], x);
    } else {
      PlacedPrefix(c[..n], x, k);
      assert Placed(c, x)[..k] == Placed(c[..n], x)[..k];
      assert c[..n][..k] == c[..k] && c[..n][..k - 1] == c[..k - 1];
    }
  }

  /** A list of capacity cap holds exactly the first cap of the sorted offers. */
  lemma {:induction false} KeepsTheTop(offers: seq<Cand>, cap: nat)
    requires cap > 0 && DistinctIds(offers) && forall x :: x in offers ==> x.id >= 0
    ensures Offered(offers, cap) == Rank(offers)[..Min(cap, |offers|)]
  {
    if offers != [] {
      var n := |offers| - 1;
      var rest, x := offers[..n], offers[n];
      KeepsTheTop(rest, cap);
      RankSorts(rest);
      NewIdAbsent(offers, Min(cap, n));
      AddedKeepsTop(Rank(rest), cap, x);
    }
  }

  lemma AddedKeepsTop(c: seq<Cand>, cap: nat, x: Cand)
    requires cap > 0 && Sorted(c) && x.id >= 0 && !HasId(c[..Min(cap, |c|)], x.id)
    ensures Added(c[..Min(cap, |c|)], cap, x) == Placed(c, x)[..Min(cap, |c| + 1)]
  {
    hide Placed, HasId, Sorted;
    if |c| >= cap {
      PlacedPrefix(c, x, cap);
      assert c[..cap][..cap - 1] == c[..cap - 1];
      assert c[..cap][cap - 1] == c[cap - 1];
    } else {
      assert c[..|c|] == c;
    }
  }

  lemma NewIdAbsent(offers: seq<Cand>, k: nat)
    requires offers != [] && DistinctIds(offers) && k < |offers|
    ensures !HasId(Rank(offers[..|offers| - 1])[..k], offers[|offers| - 1].id)
  {
    var n := |offers| - 1;
    var r := Rank(offers[..n]);
    forall i | 0 <= i < k
      ensures r[..k][i].id != offers[n].id
    {
      assert r[i] in r;
      MemberOfRank(offers[..n], r[i]);
    }
  }

  lemma RankDistinct(offers: seq<Cand>)
    requires DistinctIds(offers)
    ensures DistinctIds(Rank(offers))
  {
    var r := Rank(offers);
    RankSorts(offers);
    forall i, j | 0 <= i < j < |r|
      ensures r[i].id != r[j].id
    {
      MemberOfRank(offers, r[i]);
      MemberOfRank(offers, r[j]);
      var p :| 0 <= p < |offers| && offers[p] == r[i];
      var q :| 0 <= q < |offers| && offers[q] == r[j];
      if p == q {
        TwiceInMultiset(r, i, j);
        OnceInMultiset(offers, p);
      }
    }
  }

  lemma TwiceInMultiset(c: seq<Cand>, i: nat, j: nat)
    requires i < j < |c| && c[i] == c[j]
    ensures multiset(c)[c[i]] >= 2
  {
    assert c == c[..j] + [c[j]] + c[j + 1..];
    assert c[i] in c[..j];
  }

  lemma OnceInMultiset(c: seq<Cand>, p: nat)
    requires p < |c| && DistinctIds(c)
    ensures multiset(c)[c[p]] == 1
  {
    assert c == c[..p] + [c[p]] + c[p + 1..];
    assert c[p] !in c[..p] && c[p] !in c[p + 1..];
  }

  /** A list that is already sorted is its own ranking. */
  lemma {:induction false} RankOfSorted(c: seq<Cand>)
    requires Sorted(c)
    ensures Rank(c) == c
  {
    if c != [] {
      hide Placed;
      var n := |c| - 1;
      RankOfSorted(c[..n]);
      RankNext(c);
      PlacedBehind(c[..n], c[n]);
      assert c == c[..n] + [c[n]];
    }
  }

  lemma PlacedBehind(c: seq<Cand>, x: Cand)
    requires c == [] || c[|c| - 1].score >= x.score
    ensures Placed(c, x) == c + [x]
  {
  }

  // ---------- Candidates that reach a score ----------

  predicate Passes(x: Cand, t: real, strict: bool) {
    if strict then x.score > t else x.score >= t
  }

  function Kept(c: seq<Cand>, t: real, strict: bool): (r: seq<Cand>)
    ensures |r| <= |c|
    ensures forall x :: x in r <==> x in c && Passes(x, t, strict)
  {
    if c == [] then []
    else if Passes(c[|c| - 1], t, strict) then Kept(c[..|c| - 1], t, strict) + [c[|c| - 1]]
    else Kept(c[..|c| - 1], t, strict)
  }

  lemma KeptNext(c: seq<Cand>, i: nat, t: real, strict: bool)
    requires i < |c|
    ensures Kept(c[..i + 1], t, strict) ==
            if Passes(c[i], t, strict) then Kept(c[..i], t, strict) + [c[i]] else Kept(c[..i], t, strict)
  {
    assert c[..i + 1][..i] == c[..i];
  }

  lemma {:induction false} KeptInOrder(c: seq<Cand>, t: real, strict: bool)
    requires Sorted(c) && DistinctIds(c)
    ensures Sorted(Kept(c, t, strict)) && DistinctIds(Kept(c, t, strict))
  {
    if c != [] {
      var n := |c| - 1;
      KeptInOrder(c[..n], t, strict);
      var rest := Kept(c[..n], t, strict);
      forall i | 0 <= i < |rest|
        ensures rest[i].score >= c[n].score && rest[i].id != c[n].id
      {
        assert rest[i] in rest;
      }
    }
  }
}
