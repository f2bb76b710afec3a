/** Sorted sequences of entries, and the dictionary with expiry times each stands for. */
module OrderedMap {
  import opened Common
  import opened Keys

  datatype Entry = Entry(key: Key, value: bytes, expire: int)

  // ---------- Order ----------

  ghost predicate Sorted(s: seq<Entry>) {
    forall i, j :: 0 <= i < j < |s| ==> Less(s[i].key, s[j].key)
  }

  ghost predicate AllBelow(s: seq<Entry>, key: Key) {
    forall i :: 0 <= i < |s| ==> Less(s[i].key, key)
  }

  ghost predicate AllAbove(s: seq<Entry>, key: Key) {
    forall i :: 0 <= i < |s| ==> Less(key, s[i].key)
  }

  lemma SortedSplit(a: seq<Entry>, e: Entry, b: seq<Entry>)
    requires Sorted(a + [e] + b)
    ensures AllBelow(a, e.key) && AllAbove(b, e.key) && Sorted(a) && Sorted(b)
  {
    var s := a + [e] + b;
    forall i | 0 <= i < |a|
      ensures Less(a[i].key, e.key)
    {
      assert s[i] == a[i] && s[|a|] == e;
    }
    forall i | 0 <= i < |b|
      ensures Less(e.key, b[i].key)
    {
      assert s[|a|] == e && s[|a| + 1 + i] == b[i];
    }
    forall i, j | 0 <= i < j < |a|
      ensures Less(a[i].key, a[j].key)
    {
      assert s[i] == a[i] && s[j] == a[j];
    }
    forall i, j | 0 <= i < j < |b|
      ensures Less(b[i].key, b[j].key)
    {
      assert s[|a| + 1 + i] == b[i] && s[|a| + 1 + j] == b[j];
    }
  }

  lemma SortedJoin(a: seq<Entry>, e: Entry, b: seq<Entry>)
    requires Sorted(a) && Sorted(b) && AllBelow(a, e.key) && AllAbove(b, e.key)
    ensures Sorted(a + [e] + b)
  {
    forall i, j | 0 <= i < |a| && 0 <= j < |b|
      ensures Less(a[i].key, b[j].key)
    {
      LessTransitive(a[i].key, e.key, b[j].key);
    }
  }

  lemma AboveWeaken(s: seq<Entry>, lo: Key, key: Key)
    requires AllAbove(s, key) && Less(lo, key)
    ensures AllAbove(s, lo)
  {
    forall i | 0 <= i < |s|
      ensures Less(lo, s[i].key)
    {
      LessTransitive(lo, key, s[i].key);
    }
  }

  lemma BelowWeaken(s: seq<Entry>, key: Key, hi: Key)
    requires AllBelow(s, key) && Less(key, hi)
    ensures AllBelow(s, hi)
  {
    forall i | 0 <= i < |s|
      ensures Less(s[i].key, hi)
    {
      LessTransitive(s[i].key, key, hi);
    }
  }

  // ---------- The dictionary a sequence of entries stands for ----------

  datatype Item = Item(value: bytes, expire: int)

  function Dict(s: seq<Entry>): map<Key, Item> {
    if s == [] then map[] else Dict(s[1..])[s[0].key := Item(s[0].value, s[0].expire)]
  }

  lemma {:induction false} DictJoin(a: seq<Entry>, b: seq<Entry>)
    ensures Dict(a + b) == Dict(b) + Dict(a)
  {
    if a == [] {
      assert a + b == b;
    } else {
      assert (a + b)[1..] == a[1..] + b;
      DictJoin(a[1..], b);
    }
  }

  lemma {:induction false} DictKeys(s: seq<Entry>, key: Key)
    ensures key in Dict(s) <==> exists i :: 0 <= i < |s| && s[i].key == key
  {
    if s != [] {
      DictKeys(s[1..], key);
      if key in Dict(s[1..]) {
        var i :| 0 <= i < |s[1..]| && s[1..][i].key == key;
        assert s[i + 1].key == key;
      }
      if i :| 0 <= i < |s| && s[i].key == key && i > 0 {
        assert s[1..][i - 1].key == key;
      }
    }
  }

  lemma NotInBounds(a: seq<Entry>, b: seq<Entry>, key: Key)
    requires AllBelow(a, key) && AllAbove(b, key)
    ensures key !in Dict(a) && key !in Dict(b)
  {
    LessTrichotomy(key, key);
    DictKeys(a, key);
    DictKeys(b, key);
  }

  lemma DictMiddle(a: seq<Entry>, e: Entry, b: seq<Entry>)
    ensures Dict(a + [e] + b) == Dict(b) + map[e.key := Item(e.value, e.expire)] + Dict(a)
  {
    DictJoin(a + [e], b);
    DictJoin(a, [e]);
    assert Dict([e]) == map[e.key := Item(e.value, e.expire)];
  }

  /** One entry between smaller and greater keys. */
  lemma DictAround(a: seq<Entry>, e: Entry, b: seq<Entry>)
    requires AllBelow(a, e.key) && AllAbove(b, e.key)
    ensures Dict(a + [e] + b) == Dict(a + b)[e.key := Item(e.value, e.expire)]
    ensures e.key !in Dict(a + b)
    ensures Dict(a + [e] + b) - {e.key} == Dict(a + b)
  {
    hide Dict, AllBelow, AllAbove;
    NotInBounds(a, b, e.key);
    DictJoin(a, b);
    DictMiddle(a, e, b);
  }

  lemma DictWithout(s: seq<Entry>, i: nat)
    requires Sorted(s) && i < |s|
    ensures s[i].key in Dict(s) && Dict(s)[s[i].key] == Item(s[i].value, s[i].expire)
    ensures Dict(s[..i] + s[i + 1..]) == Dict(s) - {s[i].key}
    ensures Sorted(s[..i] + s[i + 1..])
  {
    var a, e, b := s[..i], s[i], s[i + 1..];
    assert s == a + [e] + b;
    SortedSplit(a, e, b);
    hide Less, Sorted, AllAbove, AllBelow, Dict;
    DictAround(a, e, b);
  }

  lemma DictReplaced(s: seq<Entry>, i: nat, e: Entry)
    requires Sorted(s) && i < |s| && e.key == s[i].key
    ensures Dict(s[i := e]) == Dict(s)[e.key := Item(e.value, e.expire)] && Sorted(s[i := e])
  {
    var a, b := s[..i], s[i + 1..];
    assert s == a + [s[i]] + b && s[i := e] == a + [e] + b;
    SortedSplit(a, s[i], b);
    SortedJoin(a, e, b);
    hide Less, Sorted, AllAbove, AllBelow, Dict;
    DictAround(a, s[i], b);
    DictAround(a, e, b);
  }

  lemma {:induction false} DictSize(s: seq<Entry>)
    requires Sorted(s)
    ensures |Dict(s)| == |s|
  {
    if s != [] {
      assert s == [] + [s[0]] + s[1..];
      SortedSplit([], s[0], s[1..]);
      NotInBounds([], s[1..], s[0].key);
      DictSize(s[1..]);
    }
  }

  /** The deadline of a key that has one is reached. */
  predicate Expired(i: Item, now: int) {
    i.expire != -1 && i.expire <= now
  }
}
