/**
 What the skip list promises: walking the levels finds the cut of a key, and splicing a node in
 or out keeps every level the chain of the nodes that reach it.
 */
module SkipProof {
  import opened Common
  import opened Keys
  import opened OrderedMap
  import opened SkipShape

  function Entries(h: Heap, nodes: seq<Ref>): (es: seq<Entry>)
    requires forall j :: 0 <= j < |nodes| ==> nodes[j] in h
    ensures |es| == |nodes| && forall j :: 0 <= j < |nodes| ==> es[j] == h[nodes[j]].e
  {
    seq(|nodes|, j requires 0 <= j < |nodes| => h[nodes[j]].e)
  }

  /** How many entries come before the key. */
  function CutOf(es: seq<Entry>, key: Key): (c: nat)
    ensures c <= |es|
  {
    if es == [] || !Less(es[0].key, key) then 0 else 1 + CutOf(es[1..], key)
  }

  predicate FoundAt(es: seq<Entry>, key: Key) {
    var c := CutOf(es, key);
    c < |es| && es[c].key == key
  }

  lemma {:induction false} CutBounds(es: seq<Entry>, key: Key)
    requires Sorted(es)
    ensures var c := CutOf(es, key); AllBelow(es[..c], key) && forall j :: c <= j < |es| ==> !Less(es[j].key, key)
  {
    if es != [] {
      if Less(es[0].key, key) {
        assert Sorted(es[1..]);
        CutBounds(es[1..], key);
        var c := CutOf(es[1..], key);
        assert es[..c + 1] == [es[0]] + es[1..][..c];
        assert forall j :: c + 1 <= j < |es| ==> es[j] == es[1..][j - 1];
      } else {
        forall j | 0 < j < |es|
          ensures !Less(es[j].key, key)
        {
          if Less(es[j].key, key) {
            LessTransitive(es[0].key, es[j].key, key);
          }
        }
      }
    }
  }

  /** The key is in the dictionary exactly if it stands at the cut. */
  lemma FoundIff(es: seq<Entry>, key: Key)
    requires Sorted(es)
    ensures key in Dict(es) <==> FoundAt(es, key)
    ensures !FoundAt(es, key) ==> AllBelow(es[..CutOf(es, key)], key) && AllAbove(es[CutOf(es, key)..], key)
  {
    var c := CutOf(es, key);
    CutBounds(es, key);
    DictKeys(es, key);
    forall j | c < j < |es|
      ensures Less(key, es[j].key)
    {
      LessTrichotomy(es[c].key, key);
      if es[c].key != key {
        LessTransitive(key, es[c].key, es[j].key);
      }
    }
    LessTrichotomy(key, key);
    assert forall j :: 0 <= j < c ==> es[..c][j] == es[j];
    if c < |es| && es[c].key != key {
      LessTrichotomy(es[c].key, key);
    }
    assert forall j :: 0 <= j < |es[c..]| ==> es[c..][j] == es[c + j];
  }

  // ---------- The list ----------

  /** Levels are tight: no node is taller than the list, and some node reaches its level. */
  predicate LevelOk(h: Heap, nodes: seq<Ref>, level: nat) {
    && level <= MAX_LEVEL
    && (forall j :: 0 <= j < |nodes| ==> nodes[j] in h && |h[nodes[j]].forward| <= level + 1)
    && (level > 0 ==> AnyTall(h, nodes, level))
  }

  ghost predicate ListOk(h: Heap, header: Ref, nodes: seq<Ref>, level: nat) {
    && Links(h, [header] + nodes) && header in h && |h[header].forward| == MAX_LEVEL + 1
    && NULL !in h
    && LevelOk(h, nodes, level)
    && Sorted(Entries(h, nodes))
  }

  // ---------- Walking ----------

  /** Where the pointer of level i leads from position q of the full list. */
  lemma NextStep(h: Heap, full: seq<Ref>, q: nat, i: nat) returns (k: nat)
    requires Links(h, full) && q < |full| && Tall(h, full[q], i)
    ensures q < k <= |full| && h[full[q]].forward[i] == (if k < |full| then full[k] else NULL)
    ensures k < |full| ==> full[k] != NULL && Tall(h, full[k], i)
    ensures forall j :: q < j < k ==> !Tall(h, full[j], i)
  {
    assert NodeLinked(h, full, q);
    var rest := full[q + 1..];
    assert forall j :: 0 <= j < |rest| ==> rest[j] == full[q + 1 + j];
    assert Nodes(h, rest);
    k := NextIs(h, rest, i);
    assert forall j :: q < j < q + 1 + k ==> full[j] == rest[j - q - 1];
    k := q + 1 + k;
  }

  /** Standing at q with the next tall node past the cut, q is the last tall node before it. */
  lemma LastBeforeCut(h: Heap, full: seq<Ref>, q: nat, c: nat, i: nat, k: nat)
    requires q <= c < k <= |full| && Tall(h, full[q], i) && forall j :: q < j < k ==> !Tall(h, full[j], i)
    ensures LastTall(h, full[..c + 1], i) == full[q]
  {
    LastIs(h, full[..c + 1], i, q);
  }

  ghost function CutIn(h: Heap, header: Ref, nodes: seq<Ref>, level: nat, key: Key): (c: nat)
    requires ListOk(h, header, nodes, level)
    ensures c <= |nodes|
  {
    CutOf(Entries(h, nodes), key)
  }

  /** Exactly the nodes up to the cut have smaller keys. */
  lemma CutOrders(h: Heap, header: Ref, nodes: seq<Ref>, level: nat, key: Key, k: nat)
    requires ListOk(h, header, nodes, level) && 0 < k <= |nodes|
    ensures var full := [header] + nodes;
            full[k] in h && (Less(h[full[k]].e.key, key) <==> k <= CutIn(h, header, nodes, level, key))
  {
    var es := Entries(h, nodes);
    var c := CutOf(es, key);
    CutBounds(es, key);
    assert es[k - 1] == h[nodes[k - 1]].e;
    if k <= c {
      assert es[..c][k - 1] == es[k - 1];
    }
  }

  /** One look at the pointer of level i from position q: the next tall node, and whether to go on. */
  lemma Look(h: Heap, header: Ref, nodes: seq<Ref>, level: nat, key: Key, q: nat, i: nat) returns (k: nat)
    requires ListOk(h, header, nodes, level) && q <= CutIn(h, header, nodes, level, key)
    requires Tall(h, ([header] + nodes)[q], i)
    ensures var full, c := [header] + nodes, CutIn(h, header, nodes, level, key);
            var next := h[full[q]].forward[i];
            && q < k <= |full| && next == (if k < |full| then full[k] else NULL)
            && (next != NULL <==> k < |full|) && (next != NULL ==> Tall(h, next, i))
            && (next != NULL && Less(h[next].e.key, key) <==> k <= c)
            && (k > c ==> full[q] == LastTall(h, full[..c + 1], i))
  {
    var full, c := [header] + nodes, CutIn(h, header, nodes, level, key);
    assert Links(h, full);
    hide ListOk, CutIn, Links, LastTall, Less;
    k := NextStep(h, full, q, i);
    if k < |full| {
      CutOrders(h, header, nodes, level, key, k);
    }
    if k > c {
      LastBeforeCut(h, full, q, c, i, k);
    }
  }

  lemma HeaderTall(h: Heap, header: Ref, nodes: seq<Ref>, level: nat)
    requires ListOk(h, header, nodes, level)
    ensures level <= MAX_LEVEL && forall i :: 0 <= i <= MAX_LEVEL ==> Tall(h, header, i)
  {
  }

  lemma AllReachZero(h: Heap, header: Ref, nodes: seq<Ref>, level: nat)
    requires ListOk(h, header, nodes, level)
    ensures Links(h, [header] + nodes) && forall j :: 0 <= j <= |nodes| ==> Tall(h, ([header] + nodes)[j], 0)
  {
    hide LevelOk, Sorted, NodeLinked, Distinct;
  }

  /** At level 0 the last node before the key points to the node at the cut. */
  lemma AtCut(h: Heap, header: Ref, nodes: seq<Ref>, level: nat, key: Key)
    requires ListOk(h, header, nodes, level)
    ensures var c := CutIn(h, header, nodes, level, key);
            var last := LastTall(h, ([header] + nodes)[..c + 1], 0);
            && last == ([header] + nodes)[c] && Tall(h, last, 0)
            && h[last].forward[0] == if c < |nodes| then nodes[c] else NULL
  {
    hide ListOk, Links, CutIn, Tall, LastTall;
    var full, c := [header] + nodes, CutIn(h, header, nodes, level, key);
    AllReachZero(h, header, nodes, level);
    LastIs(h, full[..c + 1], 0, c);
    var k := NextStep(h, full, c, 0);
    if c < |nodes| {
      assert Tall(h, full[c + 1], 0);
    }
  }

  // ---------- What the operations keep ----------

  lemma CutFinds(h: Heap, header: Ref, nodes: seq<Ref>, level: nat, key: Key)
    requires ListOk(h, header, nodes, level)
    ensures var c := CutIn(h, header, nodes, level, key);
            && (c < |nodes| ==> nodes[c] in h && nodes[c] != NULL)
            && (key in Dict(Entries(h, nodes)) <==> c < |nodes| && h[nodes[c]].e.key == key)
  {
    FoundIff(Entries(h, nodes), key);
    ListNodes(h, header, nodes, level);
  }

  lemma ListNodes(h: Heap, header: Ref, nodes: seq<Ref>, level: nat)
    requires ListOk(h, header, nodes, level)
    ensures NULL !in h && forall j :: 0 <= j < |nodes| ==> nodes[j] in h && nodes[j] != NULL && nodes[j] != header
  {
    var full := [header] + nodes;
    forall j | 0 <= j < |nodes|
      ensures nodes[j] in h && nodes[j] != NULL && nodes[j] != header
    {
      assert full[j + 1] == nodes[j] && full[0] == header;
    }
  }

  /** Pointers alone decide the links. */
  lemma LinksSame(h: Heap, h': Heap, full: seq<Ref>)
    requires Links(h, full) && forall j :: 0 <= j < |full| ==>
             full[j] in h' && h'[full[j]].forward == h[full[j]].forward
    ensures Links(h', full)
  {
    forall j | 0 <= j < |full|
      ensures NodeLinked(h', full, j)
    {
      assert NodeLinked(h, full, j);
      var later := full[j + 1..];
      forall i | 0 <= i < |h[full[j]].forward|
        ensures NextRef(h', later, i) == NextRef(h, later, i)
      {
        NextSame(h, h', later, i);
      }
    }
  }

  lemma RewriteKeeps(h: Heap, header: Ref, nodes: seq<Ref>, level: nat, c: nat, e: Entry)
    requires ListOk(h, header, nodes, level) && c < |nodes| && h[nodes[c]].e.key == e.key
    ensures var h' := h[nodes[c] := h[nodes[c]].(e := e)];
            && ListOk(h', header, nodes, level)
            && Dict(Entries(h', nodes)) == Dict(Entries(h, nodes))[e.key := Item(e.value, e.expire)]
  {
    var h', full, es := h[nodes[c] := h[nodes[c]].(e := e)], [header] + nodes, Entries(h, nodes);
    LinksSame(h, h', full);
    EntriesRewritten(h, header, nodes, level, c, e);
    DictReplaced(es, c, e);
    assert LevelOk(h', nodes, level) by {
      hide Links;
      if level > 0 {
        var m :| 0 <= m < |nodes| && Tall(h, nodes[m], level);
        assert Tall(h', nodes[m], level);
      }
    }
  }

  lemma EntriesRewritten(h: Heap, header: Ref, nodes: seq<Ref>, level: nat, c: nat, e: Entry)
    requires ListOk(h, header, nodes, level) && c < |nodes|
    ensures Entries(h[nodes[c] := h[nodes[c]].(e := e)], nodes) == Entries(h, nodes)[c := e]
  {
    var full := [header] + nodes;
    forall j | 0 <= j < |nodes| && j != c
      ensures nodes[j] != nodes[c]
    {
      assert full[j + 1] == nodes[j] && full[c + 1] == nodes[c];
    }
  }

  lemma HeaderIsLast(h: Heap, header: Ref, nodes: seq<Ref>, level: nat, c: nat, i: nat)
    requires ListOk(h, header, nodes, level) && level < i <= MAX_LEVEL && c <= |nodes|
    ensures LastTall(h, ([header] + nodes)[..c + 1], i) == header && Tall(h, header, i)
  {
    var a := ([header] + nodes)[..c + 1];
    assert forall j :: 0 < j < |a| ==> a[j] == nodes[j - 1];
    LastIs(h, a, i, 0);
  }

  lemma PredsAppend(h: Heap, a: seq<Ref>, upd: seq<Ref>, i: nat, r: Ref)
    requires Preds(h, a, upd, 0, i) && i < |upd| && r == LastTall(h, a, i) && Tall(h, r, i)
    ensures Preds(h, a, upd[i := r], 0, i + 1)
  {
  }

  lemma SplitAt(h: Heap, header: Ref, nodes: seq<Ref>, level: nat, c: nat)
    requires ListOk(h, header, nodes, level) && c <= |nodes|
    ensures NULL !in h && Links(h, ([header] + nodes)[..c + 1] + nodes[c..])
    ensures ([header] + nodes)[..c + 1] == [header] + nodes[..c]
    ensures c < |nodes| ==> Links(h, ([header] + nodes)[..c + 1] + [nodes[c]] + nodes[c + 1..])
  {
    ListNodes(h, header, nodes, level);
    var a := ([header] + nodes)[..c + 1];
    assert a + nodes[c..] == [header] + nodes;
    assert c < |nodes| ==> a + [nodes[c]] + nodes[c + 1..] == [header] + nodes;
  }

  lemma InsertLevels(h: Heap, h': Heap, nodes: seq<Ref>, level: nat, c: nat, n: Ref, top: nat)
    requires LevelOk(h, nodes, level) && c <= |nodes| && top <= MAX_LEVEL
    requires SameHeights(h, h', nodes[..c]) && SameHeights(h, h', nodes[c..]) && n in h' && |h'[n].forward| == top + 1
    ensures LevelOk(h', nodes[..c] + [n] + nodes[c..], Max(level, top))
  {
    var next := nodes[..c] + [n] + nodes[c..];
    forall j | 0 <= j < |next|
      ensures next[j] in h' && |h'[next[j]].forward| <= Max(level, top) + 1
    {
      if j < c {
        assert next[j] == nodes[..c][j];
      } else if j > c {
        assert next[j] == nodes[c..][j - c - 1];
      }
    }
    if top >= level {
      assert Tall(h', next[c], top);
    } else {
      var m :| 0 <= m < |nodes| && Tall(h, nodes[m], level);
      if m < c {
        assert next[m] == nodes[..c][m] && Tall(h', next[m], level);
      } else {
        assert next[m + 1] == nodes[c..][m - c] && Tall(h', next[m + 1], level);
      }
    }
  }

  lemma InsertEntries(h: Heap, h': Heap, nodes: seq<Ref>, c: nat, n: Ref)
    requires c <= |nodes| && n in h' && SameHeights(h, h', nodes[..c]) && SameHeights(h, h', nodes[c..])
    requires forall j :: 0 <= j < |nodes| ==> nodes[j] in h
    ensures forall j :: 0 <= j <= |nodes| ==> (nodes[..c] + [n] + nodes[c..])[j] in h'
    ensures Entries(h', nodes[..c] + [n] + nodes[c..]) == Entries(h, nodes)[..c] + [h'[n].e] + Entries(h, nodes)[c..]
  {
    var next := nodes[..c] + [n] + nodes[c..];
    forall j | 0 <= j < |next|
      ensures next[j] in h' && h'[next[j]].e == (Entries(h, nodes)[..c] + [h'[n].e] + Entries(h, nodes)[c..])[j]
    {
      if j < c {
        assert next[j] == nodes[..c][j];
      } else if j > c {
        assert next[j] == nodes[c..][j - c - 1];
      }
    }
  }

  lemma SpliceParts(h: Heap, h': Heap, header: Ref, nodes: seq<Ref>, c: nat, n: Ref)
    requires c <= |nodes| && Spliced(h, h', [header] + nodes[..c], n, nodes[c..])
    ensures SameHeights(h, h', [header]) && SameHeights(h, h', nodes[..c]) && SameHeights(h, h', nodes[c..])
  {
    var a := [header] + nodes[..c];
    assert a[0] == header && forall j :: 0 <= j < c ==> a[j + 1] == nodes[..c][j];
  }

  lemma InsertShape(h: Heap, h': Heap, header: Ref, nodes: seq<Ref>, level: nat, c: nat, n: Ref, top: nat)
    requires ListOk(h, header, nodes, level) && n != NULL && h'.Keys == h.Keys + {n} && c <= |nodes| && top <= MAX_LEVEL
    requires |h'[n].forward| == top + 1 && Spliced(h, h', ([header] + nodes)[..c + 1], n, nodes[c..])
    ensures var next := nodes[..c] + [n] + nodes[c..];
            && NULL !in h' && Links(h', [header] + next) && header in h' && |h'[header].forward| == MAX_LEVEL + 1
            && LevelOk(h', next, Max(level, top))
            && Entries(h', next) == Entries(h, nodes)[..c] + [h'[n].e] + Entries(h, nodes)[c..]
  {
    SplitAt(h, header, nodes, level, c);
    ListNodes(h, header, nodes, level);
    assert LevelOk(h, nodes, level) && |h[header].forward| == MAX_LEVEL + 1;
    hide Links, LevelOk, ListOk, SameHeights, Sorted;
    var a := [header] + nodes[..c];
    SplicedLinks(h, h', a, n, nodes[c..]);
    assert a + [n] + nodes[c..] == [header] + (nodes[..c] + [n] + nodes[c..]);
    SpliceParts(h, h', header, nodes, c, n);
    hide Spliced;
    InsertEntries(h, h', nodes, c, n);
    InsertLevels(h, h', nodes, level, c, n, top);
    HeaderKept(h, h', header);
  }

  lemma HeaderKept(h: Heap, h': Heap, header: Ref)
    requires SameHeights(h, h', [header])
    ensures header in h && header in h' && |h'[header].forward| == |h[header].forward|
  {
    assert [header][0] == header;
  }

  lemma InsertKeeps(h: Heap, h': Heap, header: Ref, nodes: seq<Ref>, level: nat, key: Key, n: Ref, e: Entry, top: nat)
    requires ListOk(h, header, nodes, level) && n != NULL && h'.Keys == h.Keys + {n} && top <= MAX_LEVEL
    requires key == e.key && h'[n].e == e && |h'[n].forward| == top + 1 && key !in Dict(Entries(h, nodes))
    requires Spliced(h, h', ([header] + nodes)[..CutIn(h, header, nodes, level, key) + 1], n,
             nodes[CutIn(h, header, nodes, level, key)..])
    ensures var c := CutIn(h, header, nodes, level, key);
            var next := nodes[..c] + [n] + nodes[c..];
            && ListOk(h', header, next, Max(level, top))
            && Dict(Entries(h', next)) == Dict(Entries(h, nodes))[key := Item(e.value, e.expire)]
  {
    var c, es := CutIn(h, header, nodes, level, key), Entries(h, nodes);
    InsertShape(h, h', header, nodes, level, c, n, top);
    hide Links, LevelOk, Spliced, Dict;
    FoundIff(es, key);
    SortedParts(es, c);
    hide CutOf, Sorted, AllBelow, AllAbove;
    SortedJoin(es[..c], e, es[c..]);
    assert es[..c] + es[c..] == es;
    DictAround(es[..c], e, es[c..]);
  }

  lemma SortedParts(es: seq<Entry>, c: nat)
    requires Sorted(es) && c <= |es|
    ensures Sorted(es[..c]) && Sorted(es[c..])
  {
  }

  // ---------- Deleting ----------

  predicate Capped(h: Heap, nodes: seq<Ref>, level: nat) {
    level <= MAX_LEVEL && forall j :: 0 <= j < |nodes| ==> nodes[j] in h && |h[nodes[j]].forward| <= level + 1
  }

  /** The header has a pointer at a level exactly if some node reaches it. */
  lemma EmptyLevel(h: Heap, header: Ref, nodes: seq<Ref>, level: nat)
    requires Links(h, [header] + nodes) && header in h && level < |h[header].forward|
    ensures h[header].forward[level] == NULL <==> !AnyTall(h, nodes, level)
  {
    var full := [header] + nodes;
    assert NodeLinked(h, full, 0) && full[1..] == nodes;
    assert Nodes(h, nodes) by {
      assert forall j :: 0 <= j < |nodes| ==> nodes[j] == full[j + 1];
    }
    var k := NextIs(h, nodes, level);
  }

  lemma NodeHeight(h: Heap, header: Ref, nodes: seq<Ref>, level: nat, c: nat)
    requires ListOk(h, header, nodes, level) && c < |nodes|
    ensures nodes[c] in h && |h[nodes[c]].forward| <= level + 1
  {
  }

  /** A predecessor is not the node itself, and points to it only at the levels of the node. */
  lemma PredAside(h: Heap, a: seq<Ref>, t: Ref, b: seq<Ref>, u: Ref, i: nat)
    requires NULL !in h && Links(h, a + [t] + b) && u == LastTall(h, a, i) && Tall(h, u, i) && t in h
    ensures u != t && (h[u].forward[i] == t ==> i < |h[t].forward|)
  {
    var rest := [t] + b;
    assert a + [t] + b == a + rest && rest[0] == t && rest[1..] == b;
    PredPointsPast(h, a, rest, u, i);
    PartsIn(h, a, rest);
    assert Nodes(h, b) && Distinct(rest) by {
      DistinctParts(a, rest);
      assert forall j :: 0 <= j < |b| ==> b[j] == (a + rest)[|a| + 1 + j];
    }
    var k := NextIs(h, b, i);
    assert k < |b| ==> rest[k + 1] == b[k] != rest[0];
  }

  lemma DeleteShape(h: Heap, h': Heap, header: Ref, nodes: seq<Ref>, level: nat, c: nat)
    requires ListOk(h, header, nodes, level) && c < |nodes| && h'.Keys == h.Keys
    requires Unspliced(h, h', ([header] + nodes)[..c + 1], nodes[c], nodes[c + 1..])
    ensures var next := nodes[..c] + nodes[c + 1..];
            && Links(h', [header] + next) && nodes[c] !in [header] + next && header in h'
               && |h'[header].forward| == MAX_LEVEL + 1
            && Capped(h', next, level)
            && Entries(h', next) == Entries(h, nodes)[..c] + Entries(h, nodes)[c + 1..]
  {
    SplitAt(h, header, nodes, level, c);
    ListNodes(h, header, nodes, level);
    assert Capped(h, nodes, level) && |h[header].forward| == MAX_LEVEL + 1;
    hide Links, LevelOk, ListOk, Sorted;
    var a, b := [header] + nodes[..c], nodes[c + 1..];
    UnsplicedLinks(h, h', a, nodes[c], b);
    assert a + b == [header] + (nodes[..c] + b);
    assert a[0] == header;
    var next := nodes[..c] + b;
    forall j | 0 <= j < |next|
      ensures next[j] in h' && h'[next[j]].e == (Entries(h, nodes)[..c] + Entries(h, nodes)[c + 1..])[j]
      ensures |h'[next[j]].forward| <= level + 1
    {
      if j < c {
        assert next[j] == a[j + 1] == nodes[j];
      } else {
        assert next[j] == b[j - c] == nodes[j + 1];
      }
    }
  }

  lemma DeleteKeeps(h: Heap, h': Heap, header: Ref, nodes: seq<Ref>, level: nat, key: Key)
    requires ListOk(h, header, nodes, level) && h'.Keys == h.Keys
    requires CutIn(h, header, nodes, level, key) < |nodes| && h[nodes[CutIn(h, header, nodes, level, key)]].e.key == key
    requires var c := CutIn(h, header, nodes, level, key);
             Unspliced(h, h', ([header] + nodes)[..c + 1], nodes[c], nodes[c + 1..])
    ensures var c := CutIn(h, header, nodes, level, key);
            var next := nodes[..c] + nodes[c + 1..];
            && Links(h', [header] + next) && header in h' && |h'[header].forward| == MAX_LEVEL + 1
               && Capped(h', next, level)
            && forall l :: LevelOk(h', next, l) ==>
                 && ListOk(h' - {nodes[c]}, header, next, l)
                 && Entries(h' - {nodes[c]}, next) == Entries(h, nodes)[..c] + Entries(h, nodes)[c + 1..]
                 && Dict(Entries(h' - {nodes[c]}, next)) == Dict(Entries(h, nodes)) - {key}
  {
    var c, es := CutIn(h, header, nodes, level, key), Entries(h, nodes);
    var next := nodes[..c] + nodes[c + 1..];
    DeleteShape(h, h', header, nodes, level, c);
    DictWithout(es, c);
    hide Unspliced, Dict, Sorted;
    var h'' := h' - {nodes[c]};
    forall l | LevelOk(h', next, l)
      ensures ListOk(h'', header, next, l) && Entries(h'', next) == es[..c] + es[c + 1..]
      ensures Dict(Entries(h'', next)) == Dict(es) - {key}
    {
      FreeKeeps(h', header, next, nodes[c], l);
    }
  }

  lemma FreeKeeps(h: Heap, header: Ref, nodes: seq<Ref>, t: Ref, level: nat)
    requires Links(h, [header] + nodes) && header in h && t !in [header] + nodes && LevelOk(h, nodes, level)
    ensures Links(h - {t}, [header] + nodes) && header in h - {t} && (h - {t})[header] == h[header]
            && LevelOk(h - {t}, nodes, level)
    ensures Entries(h - {t}, nodes) == Entries(h, nodes)
  {
    var full, h' := [header] + nodes, h - {t};
    assert full[0] == header && forall j :: 0 <= j < |nodes| ==> full[j + 1] == nodes[j];
    LinksSame(h, h', full);
    if level > 0 {
      var m :| 0 <= m < |nodes| && Tall(h, nodes[m], level);
      assert Tall(h', nodes[m], level);
    }
  }

  // ---------- Reading ----------

  lemma EntryAt(h: Heap, header: Ref, nodes: seq<Ref>, level: nat, c: nat)
    requires ListOk(h, header, nodes, level) && c < |nodes|
    ensures var es := Entries(h, nodes);
            && nodes[c] in h && es[c] == h[nodes[c]].e
            && es[c].key in Dict(es) && Dict(es)[es[c].key] == Item(es[c].value, es[c].expire)
  {
    DictWithout(Entries(h, nodes), c);
  }

  /** At level 0 every node is linked to the next. */
  lemma ZeroLinks(h: Heap, header: Ref, nodes: seq<Ref>, level: nat)
    requires ListOk(h, header, nodes, level)
    ensures Tall(h, header, 0) && h[header].forward[0] == (if nodes == [] then NULL else nodes[0])
    ensures forall j :: 0 <= j < |nodes| ==>
              nodes[j] != NULL && Tall(h, nodes[j], 0) && h[nodes[j]].forward[0] == PointsTo(nodes, j)
  {
    var full := [header] + nodes;
    AllReachZero(h, header, nodes, level);
    ListNodes(h, header, nodes, level);
    hide ListOk;
    forall j | 0 <= j < |full|
      ensures Tall(h, full[j], 0) && h[full[j]].forward[0] == PointsTo(full, j)
    {
      var k := NextStep(h, full, j, 0);
      assert j + 1 < |full| ==> Tall(h, full[j + 1], 0);
    }
    assert full[0] == header && PointsTo(full, 0) == if nodes == [] then NULL else nodes[0];
    forall j | 0 <= j < |nodes|
      ensures Tall(h, nodes[j], 0) && h[nodes[j]].forward[0] == PointsTo(nodes, j)
    {
      assert full[j + 1] == nodes[j] && PointsTo(full, j + 1) == PointsTo(nodes, j);
    }
  }

  lemma {:induction false} CutAtOwnKey(es: seq<Entry>, p: nat)
    requires Sorted(es) && p < |es|
    ensures CutOf(es, es[p].key) == p
  {
    LessTrichotomy(es[p].key, es[p].key);
    if p > 0 {
      assert Sorted(es[1..]) && es[1..][p - 1] == es[p];
      CutAtOwnKey(es[1..], p - 1);
    }
  }

  lemma CutOfEntry(h: Heap, header: Ref, nodes: seq<Ref>, level: nat, p: nat)
    requires ListOk(h, header, nodes, level) && p < |nodes|
    ensures nodes[p] in h && CutIn(h, header, nodes, level, h[nodes[p]].e.key) == p
  {
    CutAtOwnKey(Entries(h, nodes), p);
  }

  function RefAt(nodes: seq<Ref>, p: nat): Ref {
    if p < |nodes| then nodes[p] else NULL
  }

  predicate FreshUpTo(es: seq<Entry>, p: nat, now: int) {
    p <= |es| && forall j :: 0 <= j < p ==> !Expired(Item(es[j].value, es[j].expire), now)
  }

  lemma FreshStep(es: seq<Entry>, p: nat, now: int)
    requires FreshUpTo(es, p, now) && p < |es|
    ensures FreshUpTo(es[..p] + es[p + 1..], p, now)
    ensures !Expired(Item(es[p].value, es[p].expire), now) ==> FreshUpTo(es, p + 1, now)
  {
  }

  lemma {:induction false} FreshAll(es: seq<Entry>, now: int)
    requires FreshUpTo(es, |es|, now)
    ensures forall k :: k in Dict(es) ==> !Expired(Dict(es)[k], now)
  {
    if es != [] {
      assert forall j :: 0 <= j < |es| - 1 ==> es[1..][j] == es[j + 1];
      FreshAll(es[1..], now);
    }
  }

  // ---------- The lists of the higher levels ----------

  /** The nodes of s that reach level i, in order. */
  function AtLevel(h: Heap, s: seq<Ref>, i: nat): seq<Ref> {
    if s == [] then [] else if Tall(h, s[0], i) then [s[0]] + AtLevel(h, s[1..], i) else AtLevel(h, s[1..], i)
  }

  lemma {:induction false} NextIsFirst(h: Heap, s: seq<Ref>, i: nat)
    ensures NextRef(h, s, i) == if AtLevel(h, s, i) == [] then NULL else AtLevel(h, s, i)[0]
  {
    if s != [] {
      NextIsFirst(h, s[1..], i);
    }
  }

  lemma LinksTail(h: Heap, s: seq<Ref>)
    requires Links(h, s) && s != []
    ensures Links(h, s[1..])
  {
    forall j | 0 <= j < |s[1..]|
      ensures s[1..][j] in h && NodeLinked(h, s[1..], j)
    {
      assert NodeLinked(h, s, j + 1) && s[1..][j + 1..] == s[j + 2..];
    }
  }

  lemma {:induction false} AtLevelIff(h: Heap, s: seq<Ref>, i: nat, r: Ref)
    ensures r in AtLevel(h, s, i) <==> r in s && Tall(h, r, i)
  {
    if s != [] {
      AtLevelIff(h, s[1..], i, r);
      assert s == [s[0]] + s[1..];
    }
  }

  /** Following the pointers of level i visits exactly the level-0 nodes that reach it, in order. */
  lemma LevelIsSubsequence(h: Heap, s: seq<Ref>, i: nat)
    requires Links(h, s)
    ensures ChainedAt(h, AtLevel(h, s, i), i)
    ensures forall r :: r in AtLevel(h, s, i) <==> r in s && Tall(h, r, i)
    ensures forall a, b :: 0 <= a < b < |AtLevel(h, s, i)| ==> InOrder(s, AtLevel(h, s, i)[a], AtLevel(h, s, i)[b])
  {
    LevelChained(h, s, i);
    hide AtLevel, Links, Tall, ChainedAt;
    forall r: Ref
      ensures r in AtLevel(h, s, i) <==> r in s && Tall(h, r, i)
    {
      AtLevelIff(h, s, i, r);
    }
    forall a, b | 0 <= a < b < |AtLevel(h, s, i)|
      ensures InOrder(s, AtLevel(h, s, i)[a], AtLevel(h, s, i)[b])
    {
      AtLevelInOrder(h, s, i, a, b);
    }
  }

  /** x stands before y in s. */
  predicate InOrder(s: seq<Ref>, x: Ref, y: Ref) {
    exists j, k :: 0 <= j < k < |s| && s[j] == x && s[k] == y
  }

  lemma {:induction false} AtLevelInOrder(h: Heap, s: seq<Ref>, i: nat, a: nat, b: nat)
    requires a < b < |AtLevel(h, s, i)|
    ensures InOrder(s, AtLevel(h, s, i)[a], AtLevel(h, s, i)[b])
  {
    var t, list := s[1..], AtLevel(h, s, i);
    hide Tall;
    if Tall(h, s[0], i) && a == 0 {
      AtLevelIff(h, t, i, list[b]);
      var k :| 0 <= k < |t| && t[k] == list[b];
      assert s[0] == list[0] && s[k + 1] == list[b];
    } else {
      var d := if Tall(h, s[0], i) then 1 else 0;
      AtLevelInOrder(h, t, i, a - d, b - d);
      var j, k :| 0 <= j < k < |t| && t[j] == list[a] && t[k] == list[b];
      assert s[j + 1] == list[a] && s[k + 1] == list[b];
    }
  }

  lemma {:induction false} LevelChained(h: Heap, s: seq<Ref>, i: nat)
    requires Links(h, s)
    ensures ChainedAt(h, AtLevel(h, s, i), i)
  {
    if s != [] {
      LinksTail(h, s);
      LevelChained(h, s[1..], i);
      NextIsFirst(h, s[1..], i);
      assert NodeLinked(h, s, 0);
      var list, rest := AtLevel(h, s, i), AtLevel(h, s[1..], i);
      if Tall(h, s[0], i) {
        assert list == [s[0]] + rest;
        forall k | 0 <= k < |list|
          ensures Tall(h, list[k], i) && h[list[k]].forward[i] == PointsTo(list, k)
        {
          if k > 0 {
            assert list[k] == rest[k - 1] && PointsTo(list, k) == PointsTo(rest, k - 1);
          }
        }
      }
    }
  }

  function PointsTo(list: seq<Ref>, k: nat): Ref {
    if k + 1 < |list| then list[k + 1] else NULL
  }

  /** Each node of the list points to the next one at level i. */
  predicate ChainedAt(h: Heap, list: seq<Ref>, i: nat) {
    forall k :: 0 <= k < |list| ==> Tall(h, list[k], i) && h[list[k]].forward[i] == PointsTo(list, k)
  }
}
