/**
 The skip list engine: forward arrays, level and size are updated in place.  For every choice of
 random levels its operations act on the dictionary with expiry times that its level 0 spells out.
 */
module SkipEngine {
  import opened Common
  import opened Keys
  import opened OrderedMap
  import opened SkipShape
  import opened SkipProof

  class SkipList {
    var h: Heap
    var header: Ref
    var level: nat
    var size: nat
    ghost var nodes: seq<Ref>

    ghost predicate Holds()
      reads this
    {
      ListOk(h, header, nodes, level) && size == |nodes|
    }

    /** The entries along level 0. */
    ghost function Content(): seq<Entry>
      reads this
      requires Holds()
    {
      Entries(h, nodes)
    }

    ghost function Items(): map<Key, Item>
      reads this
      requires Holds()
    {
      Dict(Content())
    }

    /** The size counts the keys. */
    lemma SizeCounts()
      requires Holds()
      ensures size == |Items()|
    {
      DictSize(Content());
    }

    constructor (head: Ref)
      requires head != NULL
      ensures Holds() && Items() == map[]
    {
      h := map[head := Node(Entry([], [], -1), seq(MAX_LEVEL + 1, _ => NULL))];
      header, level, size, nodes := head, 0, 0, [];
      new;
      assert [head][1..] == [];
    }

    ghost function Cut(key: Key): (c: nat)
      reads this
      requires Holds()
      ensures c <= |nodes|
    {
      CutIn(h, header, nodes, level, key)
    }

    /** The nodes up to the last one before the key, header included. */
    ghost function Prefix(key: Key): (a: seq<Ref>)
      reads this
      requires Holds()
    {
      ([header] + nodes)[..Cut(key) + 1]
    }

    /** Follow the pointers of level i as long as they lead to smaller keys. */
    method WalkLevel(start: Ref, i: nat, key: Key, ghost p: nat) returns (r: Ref, ghost q: nat)
      requires Holds() && p <= Cut(key) && start == ([header] + nodes)[p] && Tall(h, start, i)
      ensures p <= q <= Cut(key) && r == ([header] + nodes)[q] && Tall(h, r, i)
      ensures r == LastTall(h, Prefix(key), i)
    {
      hide ListOk, CutIn, LastTall;
      ghost var full := [header] + nodes;
      r, q := start, p;
      ghost var k := Look(h, header, nodes, level, key, q, i);
      while h[r].forward[i] != NULL && Less(h[h[r].forward[i]].e.key, key)
        invariant p <= q <= Cut(key) && r == full[q] && Tall(h, r, i)
        invariant q < k <= |full| && h[r].forward[i] == (if k < |full| then full[k] else NULL)
        invariant h[r].forward[i] != NULL ==> Tall(h, h[r].forward[i], i)
        invariant h[r].forward[i] != NULL && Less(h[h[r].forward[i]].e.key, key) <==> k <= Cut(key)
        invariant k > Cut(key) ==> r == LastTall(h, Prefix(key), i)
        decreases |full| - q
      {
        r, q := h[r].forward[i], k;
        k := Look(h, header, nodes, level, key, q, i);
      }
    }

    /** The last node before the key at every level of the list. */
    method FindPredecessors(key: Key) returns (update: array<Ref>)
      requires Holds()
      ensures fresh(update) && update.Length == MAX_LEVEL + 1
      ensures Preds(h, Prefix(key), update[..], 0, level + 1)
    {
      HeaderTall(h, header, nodes, level);
      hide ListOk, CutIn, LastTall;
      update := new Ref[MAX_LEVEL + 1];
      var current, i := header, level + 1;
      ghost var q, a := 0, Prefix(key);
      while i > 0
        invariant 0 <= i <= level + 1 && q <= Cut(key) && current == ([header] + nodes)[q]
        invariant i > 0 ==> Tall(h, current, i - 1)
        invariant Preds(h, a, update[..], i, level + 1)
      {
        i := i - 1;
        current, q := WalkLevel(current, i, key, q);
        PredsExtend(h, a, update[..], i, level + 1, current);
        update[i] := current;
        assert i > 0 ==> Tall(h, current, i - 1);
      }
    }

    /** The node at the cut, if any. */
    method Find(key: Key) returns (r: Ref)
      requires Holds()
      ensures r == if Cut(key) < |nodes| then nodes[Cut(key)] else NULL
    {
      HeaderTall(h, header, nodes, level);
      hide ListOk, CutIn, LastTall;
      var current, i := header, level + 1;
      ghost var q := 0;
      while i > 0
        invariant 0 <= i <= level + 1 && q <= Cut(key) && current == ([header] + nodes)[q]
        invariant i > 0 ==> Tall(h, current, i - 1)
        invariant i <= level ==> current == LastTall(h, Prefix(key), i) && Tall(h, current, i)
      {
        i := i - 1;
        current, q := WalkLevel(current, i, key, q);
      }
      AtCut(h, header, nodes, level, key);
      r := h[current].forward[0];
    }

    // ---------- Operations ----------

    /** SET: replace the entry at the cut, or splice in a node of the level drawn. */
    method Set(key: Key, value: bytes, expire: int, drawn: nat, node: Ref) returns (ret: int)
      requires Holds() && drawn <= 16 && node != NULL && node !in h
      modifies this
      ensures Holds() && ret == 0 && Items() == old(Items())[key := Item(value, expire)]
      ensures key !in old(Items()) ==>
              && node in h && h[node] == Node(Entry(key, value, expire), h[node].forward)
              && |h[node].forward| == drawn + 1
    {
      hide ListOk, CutIn, LastTall, Dict;
      ghost var c := Cut(key);
      var update := FindPredecessors(key);
      AtCut(h, header, nodes, level, key);
      CutFinds(h, header, nodes, level, key);
      var target := h[update[0]].forward[0];
      if target != NULL && h[target].e.key == key {
        Rewrite(c, target, Entry(key, value, expire));
      } else {
        Insert(key, Entry(key, value, expire), drawn, node, update);
      }
      ret := 0;
    }

    /** Overwrite the entry of the c-th node, key unchanged. */
    method Rewrite(ghost c: nat, target: Ref, e: Entry)
      requires Holds() && c < |nodes| && target == nodes[c] && target in h && h[target].e.key == e.key
      modifies this`h
      ensures Holds() && Items() == old(Items())[e.key := Item(e.value, e.expire)]
    {
      RewriteKeeps(h, header, nodes, level, c, e);
      h := h[target := h[target].(e := e)];
    }

    /** Splice in a new node behind its predecessors. */
    method Insert(key: Key, e: Entry, drawn: nat, node: Ref, update: array<Ref>)
      requires Holds() && drawn <= 16 && node != NULL && node !in h && e.key == key && key !in Items()
      requires update.Length == MAX_LEVEL + 1 && Preds(h, Prefix(key), update[..], 0, level + 1)
      modifies this, update
      ensures Holds() && Items() == old(Items())[key := Item(e.value, e.expire)]
      ensures node in h && h[node].e == e && |h[node].forward| == drawn + 1
    {
      hide ListOk, LastTall, Dict, Links, Spliced, CutIn;
      ghost var c, a, b := Cut(key), Prefix(key), nodes[Cut(key)..];
      if drawn > level {
        FillHeader(update, drawn, c);
      }
      SplitAt(h, header, nodes, level, c);
      LinkNew(update, drawn, node, e, a, b);
      InsertKeeps(old(h), h, header, nodes, level, key, node, e, drawn);
      if drawn > level {
        level := drawn;
      }
      nodes := nodes[..c] + [node] + b;
      size := size + 1;
    }

    /** Above the levels of the list the header is the predecessor. */
    method FillHeader(update: array<Ref>, drawn: nat, ghost c: nat)
      requires Holds() && level < drawn <= MAX_LEVEL && c <= |nodes| && update.Length == MAX_LEVEL + 1
      requires Preds(h, ([header] + nodes)[..c + 1], update[..], 0, level + 1)
      modifies update
      ensures Preds(h, ([header] + nodes)[..c + 1], update[..], 0, drawn + 1)
    {
      hide ListOk, LastTall;
      ghost var a := ([header] + nodes)[..c + 1];
      for i := level + 1 to drawn + 1
        invariant Preds(h, a, update[..], 0, i)
      {
        HeaderIsLast(h, header, nodes, level, c, i);
        ghost var upd := update[..];
        PredsAppend(h, a, upd, i, header);
        update[i] := header;
        assert update[..] == upd[i := header];
      }
    }

    /** The loop of the insertion: copy each predecessor's pointer, then point it to the node. */
    method LinkNew(update: array<Ref>, top: nat, node: Ref, e: Entry, ghost a: seq<Ref>, ghost b: seq<Ref>)
      requires NULL !in h && Links(h, a + b) && node !in h && top < update.Length && Preds(h, a, update[..], 0, top + 1)
      modifies this`h
      ensures Spliced(old(h), h, a, node, b) && h.Keys == old(h.Keys) + {node}
      ensures h[node].e == e && |h[node].forward| == top + 1
    {
      hide Links, LastTall, Spliced;
      ghost var h0, upd := h, update[..];
      h := h[node := Node(e, seq(top + 1, _ => NULL))];
      for i := 0 to top + 1
        invariant Redirected(h0, h, upd, node, e, top, i)
      {
        RedirectNext(h0, h, upd, node, e, top, i);
        hide Redirected;
        var u := update[i];
        h := h[node := h[node].(forward := h[node].forward[i := h[u].forward[i]])];
        h := h[u := h[u].(forward := h[u].forward[i := node])];
      }
      RedirectDone(h0, h, a, b, upd, node, e, top);
    }

    /** DEL: unlink the node at the cut from every level, then drop empty levels. */
    method Del(key: Key) returns (ret: int)
      requires Holds()
      modifies this
      ensures Holds() && ret == (if key in old(Items()) then 0 else 1)
      ensures Items() == old(Items()) - {key}
      ensures ret == 0 ==> var c := old(Cut(key));
                           && c < |old(nodes)| && nodes == old(nodes)[..c] + old(nodes)[c + 1..]
                           && Content() == old(Content())[..c] + old(Content())[c + 1..]
    {
      hide ListOk, CutIn, LastTall, Dict, Links, LevelOk;
      ghost var c, a := Cut(key), Prefix(key);
      var update := FindPredecessors(key);
      AtCut(h, header, nodes, level, key);
      CutFinds(h, header, nodes, level, key);
      var target := h[update[0]].forward[0];
      if target == NULL || h[target].e.key != key {
        return 1;
      }
      ghost var b := nodes[c + 1..];
      SplitAt(h, header, nodes, level, c);
      NodeHeight(h, header, nodes, level, c);
      Unlink(update, target, a, b);
      DeleteKeeps(old(h), h, header, nodes, level, key);
      nodes := nodes[..c] + b;
      Trim();
      h := h - {target};
      size := size - 1;
      ret := 0;
    }

    /** The loop of the deletion: every predecessor that points to the node now points past it. */
    method Unlink(update: array<Ref>, target: Ref, ghost a: seq<Ref>, ghost b: seq<Ref>)
      requires NULL !in h && Links(h, a + [target] + b) && target in h && level < update.Length
      requires Preds(h, a, update[..], 0, level + 1) && |h[target].forward| <= level + 1
      modifies this`h
      ensures Unspliced(old(h), h, a, target, b) && h.Keys == old(h.Keys)
    {
      hide Links, LastTall, Unspliced;
      ghost var h0, upd := h, update[..];
      for i := 0 to level + 1
        invariant Bypassed(h0, h, upd, target, i)
      {
        PredAside(h0, a, target, b, upd[i], i);
        BypassNext(h0, h, upd, target, i);
        hide Bypassed;
        var u := update[i];
        if h[u].forward[i] == target {
          h := h[u := h[u].(forward := h[u].forward[i := h[target].forward[i]])];
        }
      }
      BypassDone(h0, h, a, target, b, upd, level + 1);
    }

    /** Drop the levels the header has no pointer at. */
    method Trim()
      requires Links(h, [header] + nodes) && header in h && |h[header].forward| == MAX_LEVEL + 1
               && Capped(h, nodes, level)
      modifies this`level
      ensures LevelOk(h, nodes, level)
    {
      while level > 0 && h[header].forward[level] == NULL
        invariant Capped(h, nodes, level)
      {
        EmptyLevel(h, header, nodes, level);
        level := level - 1;
      }
      if level > 0 {
        EmptyLevel(h, header, nodes, level);
      }
    }

    /** GET: an expired key is deleted on the way. */
    method Get(key: Key, now: int) returns (r: Option<bytes>)
      requires Holds()
      modifies this
      ensures Holds()
      ensures key !in old(Items()) ==> r == None && Items() == old(Items())
      ensures key in old(Items()) && (old(Items())[key].expire == -1 || now < old(Items())[key].expire) ==>
              r == Some(old(Items())[key].value) && Items() == old(Items())
      ensures key in old(Items()) && old(Items())[key].expire != -1 && old(Items())[key].expire <= now ==>
              r == None && Items() == old(Items()) - {key}
    {
      hide ListOk, CutIn, Dict;
      CutFinds(h, header, nodes, level, key);
      var node := Find(key);
      if node == NULL || h[node].e.key != key {
        return None;
      }
      EntryAt(h, header, nodes, level, Cut(key));
      var e := h[node].e;
      if e.expire != -1 && e.expire <= now {
        var ret := Del(key);
        return None;
      }
      return Some(e.value);
    }

    method Mod(key: Key, value: bytes) returns (ret: int)
      requires Holds()
      modifies this
      ensures Holds() && ret == (if key in old(Items()) then 0 else 1)
      ensures Items() == if ret == 0 then old(Items())[key := old(Items())[key].(value := value)] else old(Items())
    {
      hide ListOk, CutIn, Dict;
      CutFinds(h, header, nodes, level, key);
      var node := Find(key);
      if node == NULL || h[node].e.key != key {
        return 1;
      }
      EntryAt(h, header, nodes, level, Cut(key));
      Rewrite(Cut(key), node, h[node].e.(value := value));
      ret := 0;
    }

    /** EXPIRE: a deadline of 0 deletes the key at once. */
    method Expire(key: Key, expire: int) returns (ret: int)
      requires Holds()
      modifies this
      ensures Holds() && ret == (if key in old(Items()) then 0 else 1)
      ensures Items() == if ret == 1 then old(Items()) else if expire == 0 then old(Items()) - {key}
                         else old(Items())[key := old(Items())[key].(expire := expire)]
    {
      hide ListOk, CutIn, Dict;
      CutFinds(h, header, nodes, level, key);
      var node := Find(key);
      if node == NULL || h[node].e.key != key {
        return 1;
      }
      if expire == 0 {
        ret := Del(key);
        return;
      }
      EntryAt(h, header, nodes, level, Cut(key));
      Rewrite(Cut(key), node, h[node].e.(expire := expire));
      ret := 0;
    }

    /** The walk over level 0 that a snapshot takes. */
    method Collect() returns (es: seq<Entry>)
      requires Holds()
      ensures es == Content()
    {
      hide ListOk, Dict;
      ZeroLinks(h, header, nodes, level);
      ListNodes(h, header, nodes, level);
      es := [];
      var node := h[header].forward[0];
      while node != NULL
        invariant |es| <= |nodes| && node == RefAt(nodes, |es|) && es == Content()[..|es|]
        decreases |nodes| - |es|
      {
        es := es + [h[node].e];
        node := h[node].forward[0];
      }
    }

    /** The scanner at one node: the next pointer is read before an expired node is deleted. */
    method ScanNode(node: Ref, now: int, ghost p: nat) returns (next: Ref, ghost p': nat, ghost gone: set<Key>)
      requires Holds() && p < |nodes| && node == nodes[p] && FreshUpTo(Content(), p, now)
      modifies this
      ensures Holds() && p' <= |nodes| && next == RefAt(nodes, p') && FreshUpTo(Content(), p', now)
      ensures |nodes| - p' < old(|nodes| - p)
      ensures Items() == old(Items()) - gone && forall k :: k in gone ==>
              k in old(Items()) && Expired(old(Items())[k], now)
    {
      hide ListOk, CutIn, Dict, FreshUpTo;
      ZeroLinks(h, header, nodes, level);
      EntryAt(h, header, nodes, level, p);
      CutOfEntry(h, header, nodes, level, p);
      FreshStep(Content(), p, now);
      var e := h[node].e;
      next, p', gone := h[node].forward[0], p, {};
      if e.expire != -1 && e.expire <= now {
        gone := {e.key};
        var ret := Del(e.key);
      } else {
        p' := p + 1;
        assert Items() - {} == Items();
      }
    }

    /** The scanner walks level 0 and deletes exactly what has expired. */
    method ScanExpired(now: int)
      requires Holds()
      modifies this
      ensures Holds()
      ensures forall k :: k in Items() <==>
              k in old(Items()) && (old(Items())[k].expire == -1 || now < old(Items())[k].expire)
      ensures forall k :: k in Items() ==> Items()[k] == old(Items())[k]
    {
      hide ListOk, Dict;
      ghost var p: nat := 0;
      ZeroLinks(h, header, nodes, level);
      var node := h[header].forward[0];
      while node != NULL
        invariant Holds() && p <= |nodes| && node == RefAt(nodes, p) && FreshUpTo(Content(), p, now)
        invariant forall k :: k in Items() ==> k in old(Items()) && Items()[k] == old(Items())[k]
        invariant forall k :: k in old(Items()) && !Expired(old(Items())[k], now) ==> k in Items()
        decreases |nodes| - p
      {
        ghost var gone;
        node, p, gone := ScanNode(node, now, p);
      }
      ListNodes(h, header, nodes, level);
      FreshAll(Content(), now);
    }
  }
}
