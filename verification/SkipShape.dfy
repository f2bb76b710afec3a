/**
 Skip lists as a heap of nodes and the chain of its level-0 nodes.  At every level a node points
 to the next node of the chain that is tall enough.
 */
module SkipShape {
  import opened OrderedMap

  type Ref = nat

  const NULL: Ref := 0
  const MAX_LEVEL := 16

  datatype Node = Node(e: Entry, forward: seq<Ref>)

  type Heap = map<Ref, Node>

  predicate Tall(h: Heap, r: Ref, i: nat) {
    r in h && i < |h[r].forward|
  }

  predicate AnyTall(h: Heap, s: seq<Ref>, i: nat) {
    exists m :: 0 <= m < |s| && Tall(h, s[m], i)
  }

  /** The first node of s that reaches level i. */
  function NextRef(h: Heap, s: seq<Ref>, i: nat): Ref {
    if s == [] then NULL else if Tall(h, s[0], i) then s[0] else NextRef(h, s[1..], i)
  }

  /** The last node of s that reaches level i. */
  function LastTall(h: Heap, s: seq<Ref>, i: nat): Ref {
    if s == [] then NULL else if Tall(h, s[|s| - 1], i) then s[|s| - 1] else LastTall(h, s[..|s| - 1], i)
  }

  predicate Distinct(s: seq<Ref>) {
    forall i, j :: 0 <= i < j < |s| ==> s[i] != s[j]
  }

  predicate Nodes(h: Heap, s: seq<Ref>) {
    forall j :: 0 <= j < |s| ==> s[j] != NULL && s[j] in h && 1 <= |h[s[j]].forward| <= MAX_LEVEL + 1
  }

  /** Every pointer of the node at position j leads to the next node that reaches its level. */
  predicate NodeLinked(h: Heap, chain: seq<Ref>, j: nat)
    requires j < |chain| && chain[j] in h
  {
    forall i :: 0 <= i < |h[chain[j]].forward| ==> h[chain[j]].forward[i] == NextRef(h, chain[j + 1..], i)
  }

  predicate Links(h: Heap, chain: seq<Ref>) {
    && Distinct(chain) && Nodes(h, chain)
    && forall j :: 0 <= j < |chain| ==> NodeLinked(h, chain, j)
  }

  // ---------- Next and last nodes of a level ----------

  lemma {:induction false} NextIs(h: Heap, s: seq<Ref>, i: nat) returns (k: nat)
    requires Nodes(h, s)
    ensures k <= |s| && NextRef(h, s, i) == (if k < |s| then s[k] else NULL)
    ensures k < |s| ==> Tall(h, s[k], i)
    ensures forall j :: 0 <= j < k ==> !Tall(h, s[j], i)
  {
    if s == [] {
      k := 0;
    } else if Tall(h, s[0], i) {
      k := 0;
    } else {
      k := NextIs(h, s[1..], i);
      k := k + 1;
    }
  }

  lemma {:induction false} LastIs(h: Heap, s: seq<Ref>, i: nat, k: nat)
    requires k < |s| && Tall(h, s[k], i) && forall j :: k < j < |s| ==> !Tall(h, s[j], i)
    ensures LastTall(h, s, i) == s[k]
  {
    if k < |s| - 1 {
      LastIs(h, s[..|s| - 1], i, k);
    }
  }

  lemma {:induction false} NextJoin(h: Heap, a: seq<Ref>, b: seq<Ref>, i: nat)
    ensures NextRef(h, a + b, i) == if AnyTall(h, a, i) then NextRef(h, a, i) else NextRef(h, b, i)
  {
    if a == [] {
      assert a + b == b;
    } else {
      assert (a + b)[1..] == a[1..] + b;
      NextJoin(h, a[1..], b, i);
      if j :| 0 <= j < |a| && Tall(h, a[j], i) && j > 0 {
        assert a[1..][j - 1] == a[j];
      }
    }
  }

  lemma {:induction false} NextSame(h: Heap, h': Heap, s: seq<Ref>, i: nat)
    requires forall j :: 0 <= j < |s| ==> (Tall(h, s[j], i) <==> Tall(h', s[j], i))
    ensures NextRef(h', s, i) == NextRef(h, s, i)
  {
    if s != [] {
      NextSame(h, h', s[1..], i);
    }
  }

  // ---------- Changing the pointers of the predecessors ----------

  /** Same nodes of the same height, up to pointers. */
  predicate SameHeights(h: Heap, h': Heap, s: seq<Ref>) {
    forall j :: 0 <= j < |s| ==>
        s[j] in h && s[j] in h' && |h'[s[j]].forward| == |h[s[j]].forward| && h'[s[j]].e == h[s[j]].e
  }

  /** Splicing in n after a: exactly the last tall nodes of the levels of n now point to it. */
  predicate Spliced(h: Heap, h': Heap, a: seq<Ref>, n: Ref, b: seq<Ref>) {
    && SameHeights(h, h', a) && SameHeights(h, h', b) && n in h' && n !in a + b
    && (forall i :: 0 <= i < |h'[n].forward| ==> h'[n].forward[i] == NextRef(h, b, i))
    && (forall j, i :: 0 <= j < |a| && 0 <= i < |h[a[j]].forward| ==>
          h'[a[j]].forward[i] == if i < |h'[n].forward| && a[j] == LastTall(h, a, i) then n else h[a[j]].forward[i])
    && forall j :: 0 <= j < |b| ==> h'[b[j]] == h[b[j]]
  }

  lemma SplicedBefore(h: Heap, h': Heap, a: seq<Ref>, n: Ref, b: seq<Ref>, j: nat)
    requires Links(h, a + b) && Spliced(h, h', a, n, b) && j < |a|
    ensures a[j] in h' && NodeLinked(h', a + [n] + b, j)
  {
    var later := a[j + 1..];
    DistinctParts(a, b);
    assert (a + b)[j] == a[j] && (a + b)[j + 1..] == later + b;
    assert (a + [n] + b)[j + 1..] == later + ([n] + b);
    assert NodeLinked(h, a + b, j);
    forall i | 0 <= i < |h[a[j]].forward|
      ensures h'[a[j]].forward[i] == NextRef(h', later + ([n] + b), i)
    {
      HeightsAgree(h, h', a, b, i);
      NextSame(h, h', later, i);
      NextSame(h, h', b, i);
      NextJoin(h, later, b, i);
      NextJoin(h', later, [n] + b, i);
      assert ([n] + b)[1..] == b;
      assert Tall(h, a[j], i);
      if m :| 0 <= m < |later| && Tall(h, later[m], i) {
        LastIsLater(h, a, i, j, j + 1 + m);
        assert Tall(h', later[m], i);
      } else {
        LastIs(h, a, i, j);
      }
    }
  }

  lemma HeightsAgree(h: Heap, h': Heap, a: seq<Ref>, b: seq<Ref>, i: nat)
    requires SameHeights(h, h', a) && SameHeights(h, h', b)
    ensures forall j :: 0 <= j < |a| ==> (Tall(h, a[j], i) <==> Tall(h', a[j], i))
    ensures forall j :: 0 <= j < |b| ==> (Tall(h, b[j], i) <==> Tall(h', b[j], i))
  {
  }

  lemma DistinctParts(a: seq<Ref>, b: seq<Ref>)
    requires Distinct(a + b)
    ensures Distinct(a) && Distinct(b) && forall i, j :: 0 <= i < |a| && 0 <= j < |b| ==> a[i] != b[j]
  {
    forall i, j | 0 <= i < j < |a|
      ensures a[i] != a[j]
    {
      assert (a + b)[i] == a[i] && (a + b)[j] == a[j];
    }
    forall i, j | 0 <= i < j < |b|
      ensures b[i] != b[j]
    {
      assert (a + b)[|a| + i] == b[i] && (a + b)[|a| + j] == b[j];
    }
    forall i, j | 0 <= i < |a| && 0 <= j < |b|
      ensures a[i] != b[j]
    {
      assert (a + b)[i] == a[i] && (a + b)[|a| + j] == b[j];
    }
  }

  /** With a tall node behind position j, the last tall node is another one. */
  lemma LastIsLater(h: Heap, s: seq<Ref>, i: nat, j: nat, m: nat)
    requires j < m < |s| && Tall(h, s[m], i) && Distinct(s)
    ensures LastTall(h, s, i) != s[j]
  {
    var k := m;
    while exists p :: k < p < |s| && Tall(h, s[p], i)
      invariant m <= k < |s| && Tall(h, s[k], i)
      decreases |s| - k
    {
      var p :| k < p < |s| && Tall(h, s[p], i);
      k := p;
    }
    LastIs(h, s, i, k);
  }

  lemma SplicedLinks(h: Heap, h': Heap, a: seq<Ref>, n: Ref, b: seq<Ref>)
    requires Links(h, a + b) && Spliced(h, h', a, n, b) && n != NULL && 1 <= |h'[n].forward| <= MAX_LEVEL + 1
    ensures Links(h', a + [n] + b)
  {
    var c := a + [n] + b;
    SplicedNodes(h, h', a, n, b);
    forall j | 0 <= j < |c|
      ensures NodeLinked(h', c, j)
    {
      if j < |a| {
        SplicedBefore(h, h', a, n, b, j);
      } else if j == |a| {
        SplicedAt(h, h', a, n, b);
      } else {
        SplicedAfter(h, h', a, n, b, j - |a| - 1);
      }
    }
  }

  lemma SplicedNodes(h: Heap, h': Heap, a: seq<Ref>, n: Ref, b: seq<Ref>)
    requires Links(h, a + b) && Spliced(h, h', a, n, b) && n != NULL && 1 <= |h'[n].forward| <= MAX_LEVEL + 1
    ensures Distinct(a + [n] + b) && Nodes(h', a + [n] + b)
  {
    var c := a + [n] + b;
    forall j | 0 <= j < |c|
      ensures c[j] != NULL && c[j] in h' && 1 <= |h'[c[j]].forward| <= MAX_LEVEL + 1
      ensures j != |a| ==> c[j] != n
    {
      assert j < |a| ==> c[j] == (a + b)[j];
      assert j > |a| ==> c[j] == (a + b)[j - 1];
    }
    forall i, j | 0 <= i < j < |c|
      ensures c[i] != c[j]
    {
      assert i < |a| ==> c[i] == (a + b)[i];
      assert i > |a| ==> c[i] == (a + b)[i - 1];
      assert j < |a| ==> c[j] == (a + b)[j];
      assert j > |a| ==> c[j] == (a + b)[j - 1];
    }
  }

  lemma SplicedAt(h: Heap, h': Heap, a: seq<Ref>, n: Ref, b: seq<Ref>)
    requires Spliced(h, h', a, n, b)
    ensures NodeLinked(h', a + [n] + b, |a|)
  {
    assert (a + [n] + b)[|a| + 1..] == b;
    forall i | 0 <= i < |h'[n].forward|
      ensures h'[n].forward[i] == NextRef(h', b, i)
    {
      HeightsAgree(h, h', a, b, i);
      NextSame(h, h', b, i);
    }
  }

  lemma SplicedAfter(h: Heap, h': Heap, a: seq<Ref>, n: Ref, b: seq<Ref>, j: nat)
    requires Links(h, a + b) && Spliced(h, h', a, n, b) && j < |b|
    ensures b[j] in h' && NodeLinked(h', a + [n] + b, |a| + 1 + j)
  {
    var later := b[j + 1..];
    assert (a + b)[|a| + j] == b[j] && (a + b)[|a| + j + 1..] == later;
    assert (a + [n] + b)[|a| + 1 + j] == b[j] && (a + [n] + b)[|a| + 1 + j + 1..] == later;
    assert NodeLinked(h, a + b, |a| + j);
    forall i | 0 <= i < |h[b[j]].forward|
      ensures h'[b[j]].forward[i] == NextRef(h', later, i)
    {
      HeightsAgree(h, h', a, b, i);
      NextSame(h, h', later, i);
    }
  }

  // ---------- Taking a node out ----------

  /** Unlinking t between a and b: exactly the pointers that led to it now lead past it. */
  predicate Unspliced(h: Heap, h': Heap, a: seq<Ref>, t: Ref, b: seq<Ref>) {
    && SameHeights(h, h', a) && SameHeights(h, h', b) && t in h
    && (forall j, i :: 0 <= j < |a| && 0 <= i < |h[a[j]].forward| ==>
          h'[a[j]].forward[i] == if i < |h[t].forward| && a[j] == LastTall(h, a, i) then h[t].forward[i]
              else h[a[j]].forward[i])
    && forall j :: 0 <= j < |b| ==> h'[b[j]] == h[b[j]]
  }

  /** The pointers to t are those of the last tall nodes before it, at the levels of t. */
  lemma PointsAt(h: Heap, a: seq<Ref>, t: Ref, b: seq<Ref>, j: nat, i: nat)
    requires Links(h, a + [t] + b) && j < |a| && a[j] in h && i < |h[a[j]].forward|
    ensures a[j] == LastTall(h, a, i) ==> h[a[j]].forward[i] == if Tall(h, t, i) then t else NextRef(h, b, i)
    ensures a[j] != LastTall(h, a, i) ==> h[a[j]].forward[i] == NextRef(h, a[j + 1..], i) != NULL
    ensures a[j] == LastTall(h, a, i) <==> !AnyTall(h, a[j + 1..], i)
  {
    var c, later := a + [t] + b, a[j + 1..];
    assert c[j] == a[j] && c[j + 1..] == later + ([t] + b) && c[|a|] == t;
    assert c == a + ([t] + b);
    DistinctParts(a, [t] + b);
    assert NodeLinked(h, c, j);
    NextJoin(h, later, [t] + b, i);
    assert ([t] + b)[1..] == b;
    if m :| 0 <= m < |later| && Tall(h, later[m], i) {
      LastIsLater(h, a, i, j, j + 1 + m);
      assert Nodes(h, later) by {
        assert forall p :: 0 <= p < |later| ==> later[p] == c[j + 1 + p];
      }
      var k := NextIs(h, later, i);
    } else {
      LastIs(h, a, i, j);
    }
  }

  lemma UnsplicedBefore(h: Heap, h': Heap, a: seq<Ref>, t: Ref, b: seq<Ref>, j: nat)
    requires Links(h, a + [t] + b) && Unspliced(h, h', a, t, b) && j < |a|
    ensures a[j] in h' && NodeLinked(h', a + b, j)
  {
    var later := a[j + 1..];
    assert (a + b)[j] == a[j] && (a + b)[j + 1..] == later + b;
    forall i | 0 <= i < |h[a[j]].forward|
      ensures h'[a[j]].forward[i] == NextRef(h', later + b, i)
    {
      HeightsAgree(h, h', a, b, i);
      NextSame(h, h', later, i);
      NextSame(h, h', b, i);
      NextJoin(h', later, b, i);
      PointsAt(h, a, t, b, j, i);
      if Tall(h, t, i) {
        NextOfTarget(h, a, t, b, i);
      }
    }
  }

  lemma NextOfTarget(h: Heap, a: seq<Ref>, t: Ref, b: seq<Ref>, i: nat)
    requires Links(h, a + [t] + b) && Tall(h, t, i)
    ensures h[t].forward[i] == NextRef(h, b, i)
  {
    var c := a + [t] + b;
    assert c[|a|] == t && c[|a| + 1..] == b && NodeLinked(h, c, |a|);
  }

  lemma UnsplicedAfter(h: Heap, h': Heap, a: seq<Ref>, t: Ref, b: seq<Ref>, j: nat)
    requires Links(h, a + [t] + b) && Unspliced(h, h', a, t, b) && j < |b|
    ensures b[j] in h' && NodeLinked(h', a + b, |a| + j)
  {
    var c, later := a + [t] + b, b[j + 1..];
    assert (a + b)[|a| + j] == b[j] && (a + b)[|a| + j + 1..] == later;
    assert c[|a| + 1 + j] == b[j] && c[|a| + 1 + j + 1..] == later;
    assert NodeLinked(h, c, |a| + 1 + j);
    forall i | 0 <= i < |h[b[j]].forward|
      ensures h'[b[j]].forward[i] == NextRef(h', later, i)
    {
      HeightsAgree(h, h', a, b, i);
      NextSame(h, h', later, i);
    }
  }

  lemma UnsplicedNodes(h: Heap, h': Heap, a: seq<Ref>, t: Ref, b: seq<Ref>)
    requires Links(h, a + [t] + b) && Unspliced(h, h', a, t, b)
    ensures Distinct(a + b) && Nodes(h', a + b) && t !in a + b
  {
    var c, r := a + [t] + b, a + b;
    assert c[|a|] == t;
    forall j | 0 <= j < |r|
      ensures r[j] != t && r[j] != NULL && r[j] in h' && 1 <= |h'[r[j]].forward| <= MAX_LEVEL + 1
    {
      assert r[j] == c[if j < |a| then j else j + 1];
    }
    forall i, j | 0 <= i < j < |r|
      ensures r[i] != r[j]
    {
      assert r[i] == c[if i < |a| then i else i + 1] && r[j] == c[if j < |a| then j else j + 1];
    }
  }

  lemma UnsplicedLinks(h: Heap, h': Heap, a: seq<Ref>, t: Ref, b: seq<Ref>)
    requires Links(h, a + [t] + b) && Unspliced(h, h', a, t, b)
    ensures Links(h', a + b) && t !in a + b
  {
    var r := a + b;
    UnsplicedNodes(h, h', a, t, b);
    forall j | 0 <= j < |r|
      ensures NodeLinked(h', r, j)
    {
      if j < |a| {
        UnsplicedBefore(h, h', a, t, b, j);
      } else {
        UnsplicedAfter(h, h', a, t, b, j - |a|);
      }
    }
  }

  // ---------- The loops over the levels ----------

  /** upd[i] is the last node of a that reaches level i, for the levels from lo up to hi. */
  predicate Preds(h: Heap, a: seq<Ref>, upd: seq<Ref>, lo: nat, hi: nat) {
    hi <= |upd| && forall i :: lo <= i < hi ==> upd[i] == LastTall(h, a, i) && Tall(h, upd[i], i)
  }

  lemma PredsExtend(h: Heap, a: seq<Ref>, upd: seq<Ref>, i: nat, hi: nat, r: Ref)
    requires Preds(h, a, upd, i + 1, hi) && i < hi && r == LastTall(h, a, i) && Tall(h, r, i)
    ensures Preds(h, a, upd[i := r], i, hi)
  {
  }

  lemma {:induction false} LastIn(h: Heap, s: seq<Ref>, i: nat)
    requires LastTall(h, s, i) != NULL
    ensures LastTall(h, s, i) in s
  {
    if !Tall(h, s[|s| - 1], i) {
      LastIn(h, s[..|s| - 1], i);
    }
  }

  /** The pointer of r at level k, once the predecessors of the first i levels point to n. */
  predicate RedirectedAt(h: Heap, h': Heap, upd: seq<Ref>, n: Ref, i: nat, r: Ref, k: nat) {
    r in h && r in h' && k < |h[r].forward| && k < |h'[r].forward| && i <= |upd| ==>
      h'[r].forward[k] == if k < i && upd[k] == r then n else h[r].forward[k]
  }

  /** The new node n holds copies of the first i pointers, and the predecessors of those levels point to it. */
  ghost predicate Redirected(h: Heap, h': Heap, upd: seq<Ref>, n: Ref, e: Entry, top: nat, i: nat) {
    && i <= top + 1 <= |upd| && n !in h && h'.Keys == h.Keys + {n} && h'[n].e == e && |h'[n].forward| == top + 1
    && (forall k :: 0 <= k < i ==> Tall(h, upd[k], k) && h'[n].forward[k] == h[upd[k]].forward[k])
    && (forall r :: r in h ==> h'[r].e == h[r].e && |h'[r].forward| == |h[r].forward|)
    && forall r, k {:trigger RedirectedAt(h, h', upd, n, i, r, k)} :: RedirectedAt(h, h', upd, n, i, r, k)
  }

  function Redirect(h': Heap, upd: seq<Ref>, n: Ref, i: nat): Heap
    requires i < |upd| && Tall(h', upd[i], i) && Tall(h', n, i) && n != upd[i]
  {
    var u := upd[i];
    h'[n := h'[n].(forward := h'[n].forward[i := h'[u].forward[i]])]
      [u := h'[u].(forward := h'[u].forward[i := n])]
  }

  lemma RedirectNext(h: Heap, h': Heap, upd: seq<Ref>, n: Ref, e: Entry, top: nat, i: nat)
    requires Redirected(h, h', upd, n, e, top, i) && i <= top && Tall(h, upd[i], i)
    ensures Tall(h', upd[i], i) && Tall(h', n, i) && n != upd[i]
    ensures Redirected(h, Redirect(h', upd, n, i), upd, n, e, top, i + 1)
  {
    var next, more := Redirect(h', upd, n, i), i + 1;
    assert RedirectedAt(h, h', upd, n, i, upd[i], i);
    forall r, k
      ensures RedirectedAt(h, next, upd, n, more, r, k)
    {
      assert RedirectedAt(h, h', upd, n, i, r, k);
    }
  }

  lemma RedirectBehind(h: Heap, h': Heap, a: seq<Ref>, b: seq<Ref>, upd: seq<Ref>, n: Ref, e: Entry, top: nat, j: nat)
    requires NULL !in h && Links(h, a + b) && Preds(h, a, upd, 0, top + 1) && Redirected(h, h', upd, n, e, top, top + 1)
    requires j < |b|
    ensures b[j] in h && b[j] in h' && h'[b[j]] == h[b[j]]
  {
    PartsIn(h, a, b);
    var r := b[j];
    hide Links;
    forall k | 0 <= k < |h[r].forward|
      ensures h'[r].forward[k] == h[r].forward[k]
    {
      assert RedirectedAt(h, h', upd, n, top + 1, r, k);
      if k <= top {
        PredPointsPast(h, a, b, upd[k], k);
      }
    }
    assert h'[r].forward == h[r].forward;
  }

  lemma RedirectDone(h: Heap, h': Heap, a: seq<Ref>, b: seq<Ref>, upd: seq<Ref>, n: Ref, e: Entry, top: nat)
    requires NULL !in h && Links(h, a + b) && Preds(h, a, upd, 0, top + 1) && Redirected(h, h', upd, n, e, top, top + 1)
    ensures Spliced(h, h', a, n, b)
  {
    PartsIn(h, a, b);
    hide Links, LastTall;
    forall i | 0 <= i <= top
      ensures h'[n].forward[i] == NextRef(h, b, i)
    {
      PredPointsPast(h, a, b, upd[i], i);
    }
    forall j, i | 0 <= j < |a| && 0 <= i < |h[a[j]].forward|
      ensures h'[a[j]].forward[i] == if i < |h'[n].forward| && a[j] == LastTall(h, a, i) then n else h[a[j]].forward[i]
    {
      assert RedirectedAt(h, h', upd, n, top + 1, a[j], i);
      if i <= top {
        assert upd[i] == LastTall(h, a, i);
      }
    }
    forall j | 0 <= j < |b|
      ensures h'[b[j]] == h[b[j]]
    {
      RedirectBehind(h, h', a, b, upd, n, e, top, j);
    }
  }

  lemma PartsIn(h: Heap, a: seq<Ref>, b: seq<Ref>)
    requires Links(h, a + b)
    ensures (forall j :: 0 <= j < |a| ==> a[j] in h && a[j] != NULL) && forall j :: 0 <= j < |b| ==>
            b[j] in h && b[j] != NULL
  {
    assert forall j :: 0 <= j < |a| ==> a[j] == (a + b)[j];
    assert forall j :: 0 <= j < |b| ==> b[j] == (a + b)[|a| + j];
  }

  /** The last tall node of a points to the first tall node of b. */
  lemma PredPointsPast(h: Heap, a: seq<Ref>, b: seq<Ref>, u: Ref, i: nat)
    requires NULL !in h && Links(h, a + b) && u == LastTall(h, a, i) && Tall(h, u, i)
    ensures u in a && u !in b && h[u].forward[i] == NextRef(h, b, i)
  {
    LastIn(h, a, i);
    var j :| 0 <= j < |a| && a[j] == u;
    DistinctParts(a, b);
    LinkAt(h, a, b, j);
    hide Links, NodeLinked, LastTall, NextRef;
    NextJoin(h, a[j + 1..], b, i);
    NoneBehindLast(h, a, i, j);
  }

  lemma LinkAt(h: Heap, a: seq<Ref>, b: seq<Ref>, j: nat)
    requires Links(h, a + b) && j < |a|
    ensures a[j] in h
    ensures forall i :: 0 <= i < |h[a[j]].forward| ==> h[a[j]].forward[i] == NextRef(h, a[j + 1..] + b, i)
  {
    assert (a + b)[j] == a[j] && (a + b)[j + 1..] == a[j + 1..] + b;
    assert NodeLinked(h, a + b, j);
  }

  lemma NoneBehindLast(h: Heap, s: seq<Ref>, i: nat, j: nat)
    requires j < |s| && Distinct(s) && LastTall(h, s, i) == s[j]
    ensures !AnyTall(h, s[j + 1..], i)
  {
    var later := s[j + 1..];
    if AnyTall(h, later, i) {
      var m :| 0 <= m < |later| && Tall(h, later[m], i);
      LastIsLater(h, s, i, j, j + 1 + m);
    }
  }

  /** The pointer of r at level k, once the first i levels have been unlinked from t. */
  predicate BypassedAt(h: Heap, h': Heap, upd: seq<Ref>, t: Ref, i: nat, r: Ref, k: nat) {
    t in h && r in h && r in h' && k < |h[r].forward| && k < |h'[r].forward| && i <= |upd| ==>
      h'[r].forward[k] ==
      if k < i && upd[k] == r && h[r].forward[k] == t && k < |h[t].forward| then h[t].forward[k] else h[r].forward[k]
  }

  /** The first i levels have been unlinked from t. */
  ghost predicate Bypassed(h: Heap, h': Heap, upd: seq<Ref>, t: Ref, i: nat) {
    && i <= |upd| && t in h && h'.Keys == h.Keys && h'[t] == h[t]
    && (forall r :: r in h ==> h'[r].e == h[r].e && |h'[r].forward| == |h[r].forward|)
    && forall r, k {:trigger BypassedAt(h, h', upd, t, i, r, k)} :: BypassedAt(h, h', upd, t, i, r, k)
  }

  lemma BypassNext(h: Heap, h': Heap, upd: seq<Ref>, t: Ref, i: nat)
    requires Bypassed(h, h', upd, t, i) && i < |upd| && Tall(h, upd[i], i) && upd[i] != t
    requires h[upd[i]].forward[i] == t ==> i < |h[t].forward|
    ensures Tall(h', upd[i], i) && h'[upd[i]].forward[i] == h[upd[i]].forward[i]
    ensures Bypassed(h, if h'[upd[i]].forward[i] == t
                        then h'[upd[i] := h'[upd[i]].(forward := h'[upd[i]].forward[i := h'[t].forward[i]])]
                            else h', upd, t, i + 1)
  {
    assert BypassedAt(h, h', upd, t, i, upd[i], i);
    var more := i + 1;
    var next := if h'[upd[i]].forward[i] == t
                then h'[upd[i] := h'[upd[i]].(forward := h'[upd[i]].forward[i := h'[t].forward[i]])] else h';
    forall r, k
      ensures BypassedAt(h, next, upd, t, more, r, k)
    {
      assert BypassedAt(h, h', upd, t, i, r, k);
    }
  }

  lemma BypassBehind(h: Heap, h': Heap, a: seq<Ref>, t: Ref, b: seq<Ref>, upd: seq<Ref>, top: nat, j: nat)
    requires NULL !in h && Links(h, a + [t] + b) && Preds(h, a, upd, 0, top) && Bypassed(h, h', upd, t, top)
    requires j < |b|
    ensures b[j] in h && b[j] in h' && h'[b[j]] == h[b[j]]
  {
    var rest := [t] + b;
    assert a + [t] + b == a + rest && rest[j + 1] == b[j];
    PartsIn(h, a, rest);
    hide Links;
    forall k | 0 <= k < |h[b[j]].forward|
      ensures h'[b[j]].forward[k] == h[b[j]].forward[k]
    {
      assert BypassedAt(h, h', upd, t, top, b[j], k);
      if k < top {
        PredPointsPast(h, a, rest, upd[k], k);
      }
    }
    assert h'[b[j]].forward == h[b[j]].forward;
  }

  lemma BypassBefore(h: Heap, h': Heap, a: seq<Ref>, t: Ref, b: seq<Ref>, upd: seq<Ref>, top: nat, j: nat, i: nat)
    requires Links(h, a + [t] + b) && Preds(h, a, upd, 0, top) && Bypassed(h, h', upd, t, top)
    requires |h[t].forward| <= top && j < |a| && a[j] in h && i < |h[a[j]].forward| && t !in a
    ensures h'[a[j]].forward[i] == if i < |h[t].forward| && a[j] == LastTall(h, a, i) then h[t].forward[i]
            else h[a[j]].forward[i]
  {
    PointsAt(h, a, t, b, j, i);
    assert BypassedAt(h, h', upd, t, top, a[j], i);
    if i < top {
      assert upd[i] == LastTall(h, a, i);
    }
  }

  lemma LinkedParts(h: Heap, a: seq<Ref>, b: seq<Ref>)
    requires Links(h, a + b)
    ensures forall i, j :: 0 <= i < |a| && 0 <= j < |b| ==> a[i] != b[j]
  {
    DistinctParts(a, b);
  }

  lemma BypassHeights(h: Heap, h': Heap, upd: seq<Ref>, t: Ref, top: nat, s: seq<Ref>)
    requires Bypassed(h, h', upd, t, top) && forall j :: 0 <= j < |s| ==> s[j] in h
    ensures SameHeights(h, h', s) && t in h
  {
  }

  lemma BypassDone(h: Heap, h': Heap, a: seq<Ref>, t: Ref, b: seq<Ref>, upd: seq<Ref>, top: nat)
    requires NULL !in h && Links(h, a + [t] + b) && Preds(h, a, upd, 0, top) && Bypassed(h, h', upd, t, top)
    requires |h[t].forward| <= top
    ensures Unspliced(h, h', a, t, b)
  {
    hide Links, Preds, LastTall, Bypassed;
    var rest := [t] + b;
    assert a + [t] + b == a + rest && forall j :: 0 <= j < |b| ==> b[j] == rest[j + 1];
    PartsIn(h, a, rest);
    LinkedParts(h, a, rest);
    assert t !in a by { assert rest[0] == t; }
    BypassHeights(h, h', upd, t, top, a);
    BypassHeights(h, h', upd, t, top, b);
    forall j, i | 0 <= j < |a| && 0 <= i < |h[a[j]].forward|
      ensures h'[a[j]].forward[i] == if i < |h[t].forward| && a[j] == LastTall(h, a, i) then h[t].forward[i]
              else h[a[j]].forward[i]
    {
      BypassBefore(h, h', a, t, b, upd, top, j, i);
    }
    forall j | 0 <= j < |b|
      ensures h'[b[j]] == h[b[j]]
    {
      BypassBehind(h, h', a, t, b, upd, top, j);
    }
  }
}
