/**
 Snapshot files: a byte of type, the expiry time and two length-prefixed strings for each key, in
 the little-endian layout of the server's machine; vector records carry their own four fields.
 */
module Rdb {
  import opened Common
  import opened Keys
  import opened OrderedMap
  import RbShape

  const TYPE_ARRAY := 1
  const TYPE_RBTREE := 2
  const TYPE_HASH := 3
  const TYPE_SKIPLIST := 4
  const TYPE_VECTOR := 5

  const TWO31 := 0x8000_0000
  const TWO32 := 0x1_0000_0000
  const TWO63 := 0x8000_0000_0000_0000
  const TWO64 := 0x1_0000_0000_0000_0000

  // ---------- Little-endian integers ----------

  function Pow256(k: nat): (r: nat)
    ensures r > 0
  {
    if k == 0 then 1 else 256 * Pow256(k - 1)
  }

  function Le(n: nat, k: nat): (b: bytes)
    ensures |b| == k
    decreases k
  {
    if k == 0 then [] else [n % 256] + Le(n / 256, k - 1)
  }

  function UnLe(b: bytes): nat {
    if b == [] then 0 else b[0] + 256 * UnLe(b[1..])
  }

  lemma {:induction false} LeInverse(n: nat, k: nat)
    requires n < Pow256(k)
    ensures UnLe(Le(n, k)) == n
    decreases k
  {
    if k > 0 {
      assert n / 256 < Pow256(k - 1);
      LeInverse(n / 256, k - 1);
      assert Le(n, k)[1..] == Le(n / 256, k - 1);
    }
  }

  lemma Widths()
    ensures Pow256(4) == TWO32 && Pow256(8) == TWO64
  {
    assert Pow256(1) == 256 && Pow256(2) == 65536 && Pow256(3) == 16777216 && Pow256(4) == TWO32;
    assert Pow256(5) == 256 * TWO32 && Pow256(6) == 65536 * TWO32 && Pow256(7) == 16777216 * TWO32;
  }

  /** A long long as written and read back. */
  function Int64(x: int): bytes
    requires -9223372036854775808 <= x <= 9223372036854775807
  {
    Le(if x < 0 then x + TWO64 else x, 8)
  }

  function UnInt64(b: bytes): int {
    var u := UnLe(b);
    if u < TWO63 then u else u - TWO64
  }

  function UnInt32(b: bytes): int {
    var u := UnLe(b);
    if u < TWO31 then u else u - TWO32
  }

  lemma IntInverse(x: int, n: nat)
    requires -9223372036854775808 <= x <= 9223372036854775807 && n < 2147483648
    ensures UnInt64(Int64(x)) == x && UnInt32(Le(n, 4)) == n
  {
    Widths();
    hide Pow256;
    LeInverse(if x < 0 then x + TWO64 else x, 8);
    LeInverse(n, 4);
  }

  // ---------- Records ----------

  datatype Rec =
    | Kv(kind: nat, e: Entry)
    | Vec(question: bytes, answer: bytes, dim: nat, text: bytes)

  /** A C string whose length fits an int. */
  predicate IsCString(s: bytes) {
    0 !in s && |s| < 2147483648
  }

  predicate RecOk(r: Rec) {
    match r
    case Kv(kind, e) =>
      && 1 <= kind <= 4 && -9223372036854775808 <= e.expire <= 9223372036854775807
      && IsCString(e.key) && IsCString(e.value)
    case Vec(q, a, dim, t) => 0 < dim < 2147483648 && IsCString(q) && IsCString(a) && IsCString(t)
  }

  /** A length-prefixed string, written in front of what follows. */
  function PutStr(s: bytes, tail: bytes): bytes {
    Le(|s|, 4) + (s + tail)
  }

  /** A record, written in front of what follows. */
  function PutRec(r: Rec, tail: bytes): bytes
    requires RecOk(r)
  {
    match r
    case Kv(kind, e) => [kind] + (Int64(e.expire) + PutStr(e.key, PutStr(e.value, tail)))
    case Vec(q, a, dim, t) => [TYPE_VECTOR] + PutStr(q, PutStr(a, Le(dim, 4) + PutStr(t, tail)))
  }

  /** A string at the front: the string and what follows it, or None if the data ends first. */
  function ReadStr(buf: bytes): (r: Option<(bytes, bytes)>)
    ensures r.Some? ==> |r.value.1| < |buf|
  {
    if |buf| < 4 then None
    else
      var n := UnInt32(buf[..4]);
      if n < 0 || 4 + n > |buf| then None else Some((buf[4..][..n], buf[4..][n..]))
  }

  function ReadKv(buf: bytes): (r: Option<(Entry, bytes)>)
    ensures r.Some? ==> |r.value.1| < |buf|
  {
    if |buf| < 8 then None
    else match ReadStr(buf[8..])
      case None => None
      case Some((key, more)) =>
        match ReadStr(more)
        case None => None
        case Some((value, rest)) => Some((Entry(key, value, UnInt64(buf[..8])), rest))
  }

  function ReadVec(buf: bytes): (r: Option<(Rec, bytes)>)
    ensures r.Some? ==> |r.value.1| < |buf|
  {
    match ReadStr(buf)
    case None => None
    case Some((question, more)) =>
      match ReadStr(more)
      case None => None
      case Some((answer, tail)) =>
        if |tail| < 4 then None
        else match ReadStr(tail[4..])
          case None => None
          case Some((text, rest)) => Some((Vec(question, answer, Max(0, UnInt32(tail[..4])), text), rest))
  }

  /** The record at the front of the data. */
  function ReadRec(buf: bytes): (r: Option<(Rec, bytes)>)
    requires buf != []
    ensures r.Some? ==> |r.value.1| < |buf|
  {
    if buf[0] == TYPE_VECTOR then ReadVec(buf[1..])
    else match ReadKv(buf[1..])
      case None => None
      case Some((e, rest)) => Some((Kv(buf[0], e), rest))
  }

  // ---------- What loading does ----------

  /** The engines by type and key, and the vectors set, in order. */
  datatype Db = Db(kv: map<(nat, Key), Item>, vectors: seq<Rec>)

  const EMPTY_DB := Db(map[], [])

  /** What strlen and strcpy see of a buffer. */
  function CString(s: bytes): bytes {
    if s == [] || s[0] == 0 then [] else [s[0]] + CString(s[1..])
  }

  /** Records of unknown type and vectors without a dimension are skipped. */
  function Apply(db: Db, r: Rec): Db {
    match r
    case Kv(kind, e) =>
      if TYPE_ARRAY <= kind <= TYPE_SKIPLIST
      then db.(kv := db.kv[(kind, CString(e.key)) := Item(CString(e.value), e.expire)]) else db
    case Vec(q, a, dim, t) =>
      if dim > 0 then db.(vectors := db.vectors + [Vec(CString(q), CString(a), dim, CString(t))]) else db
  }

  function LoadFrom(buf: bytes, db: Db): Db
    decreases |buf|
  {
    if buf == [] then db
    else match ReadRec(buf)
      case None => db
      case Some((r, rest)) => LoadFrom(rest, Apply(db, r))
  }

  /** rdb_load_from_memory: a pointer runs over the data until it ends or a record is incomplete. */
  method Load(data: bytes, start: Db) returns (db: Db)
    ensures db == LoadFrom(data, start)
  {
    hide ReadRec, Apply;
    db := start;
    var ptr := data;
    while ptr != []
      invariant LoadFrom(data, start) == LoadFrom(ptr, db)
      decreases |ptr|
    {
      match ReadRec(ptr)
      case None =>
        return;
      case Some((r, rest)) =>
        db, ptr := Apply(db, r), rest;
    }
  }

  // ---------- Reading back one record ----------

  lemma {:induction false} CStringIs(s: bytes)
    requires 0 !in s
    ensures CString(s) == s
  {
    if s != [] {
      assert s == [s[0]] + s[1..];
      CStringIs(s[1..]);
    }
  }

  lemma Front(a: bytes, b: bytes, n: nat)
    requires |a| == n
    ensures (a + b)[..n] == a && (a + b)[n..] == b
  {
  }

  lemma ReadStrOf(s: bytes, tail: bytes)
    requires |s| < 2147483648
    ensures ReadStr(PutStr(s, tail)) == Some((s, tail))
  {
    IntInverse(0, |s|);
    hide Le, UnInt32;
    Front(Le(|s|, 4), s + tail, 4);
    Front(s, tail, |s|);
  }

  lemma ReadKvOf(e: Entry, tail: bytes)
    requires -9223372036854775808 <= e.expire <= 9223372036854775807
    requires |e.key| < 2147483648 && |e.value| < 2147483648
    ensures ReadKv(Int64(e.expire) + PutStr(e.key, PutStr(e.value, tail))) == Some((e, tail))
  {
    IntInverse(e.expire, 0);
    assert |Int64(e.expire)| == 8;
    hide Int64, UnInt64, PutStr, ReadStr;
    Front(Int64(e.expire), PutStr(e.key, PutStr(e.value, tail)), 8);
    ReadStrOf(e.key, PutStr(e.value, tail));
    ReadStrOf(e.value, tail);
  }

  lemma ReadVecOf(r: Rec, tail: bytes)
    requires RecOk(r) && r.Vec?
    ensures ReadVec(PutStr(r.question, PutStr(r.answer, Le(r.dim, 4) + PutStr(r.text, tail)))) == Some((r, tail))
  {
    IntInverse(0, r.dim);
    hide Le, UnInt32, PutStr, ReadStr;
    var last := Le(r.dim, 4) + PutStr(r.text, tail);
    ReadStrOf(r.question, PutStr(r.answer, last));
    ReadStrOf(r.answer, last);
    Front(Le(r.dim, 4), PutStr(r.text, tail), 4);
    ReadStrOf(r.text, tail);
  }

  /** A record is read back, whatever follows it. */
  lemma ReadRecOf(r: Rec, tail: bytes)
    requires RecOk(r)
    ensures PutRec(r, tail) != [] && ReadRec(PutRec(r, tail)) == Some((r, tail))
  {
    var buf := PutRec(r, tail);
    if r.Kv? {
      ReadKvOf(r.e, tail);
      Front([r.kind], buf[1..], 1);
    } else {
      ReadVecOf(r, tail);
      Front([TYPE_VECTOR], buf[1..], 1);
    }
    hide ReadKv, ReadVec, PutStr, Int64, Le;
  }

  /** Every key, value and deadline that the engines can hold is read back, for each of the four of them. */
  lemma EveryEntryReadBack(kind: nat, e: Entry, tail: bytes)
    requires 1 <= kind <= 4 && -9223372036854775808 <= e.expire <= 9223372036854775807
    requires 0 !in e.key && |e.key| < 2147483648 && 0 !in e.value && |e.value| < 2147483648
    ensures RecOk(Kv(kind, e)) && ReadRec(PutRec(Kv(kind, e), tail)) == Some((Kv(kind, e), tail))
    ensures forall db :: Apply(db, Kv(kind, e)) == db.(kv := db.kv[(kind, e.key) := Item(e.value, e.expire)])
  {
    hide PutRec, ReadRec;
    ReadRecOf(Kv(kind, e), tail);
    CStringIs(e.key);
    CStringIs(e.value);
  }

  // ---------- The layout of a record ----------

  /** Byte i of a number is the one of weight 256^i. */
  lemma {:induction false} LeBytes(n: nat, k: nat, i: nat)
    requires i < k
    ensures Le(n, k)[i] == n / Pow256(i) % 256
    decreases k
  {
    if i > 0 {
      LeBytes(n / 256, k - 1, i - 1);
      DivideTwice(n, 256, Pow256(i - 1), Pow256(i));
    }
  }

  /** Where the fields of a record lie, and how long it is. */
  lemma RecordLayout(r: Rec)
    requires RecOk(r)
    ensures var buf := PutRec(r, []);
            match r
            case Kv(kind, e) =>
              var v := 13 + |e.key|;
              && |buf| == 17 + |e.key| + |e.value| && buf[0] == kind
              && buf[1..9] == Le(if e.expire < 0 then e.expire + 18446744073709551616 else e.expire, 8)
              && buf[9..13] == Le(|e.key|, 4) && buf[13..v] == e.key
              && buf[v..v + 4] == Le(|e.value|, 4) && buf[v + 4..] == e.value
            case Vec(q, a, dim, t) => |buf| == 17 + |q| + |a| + |t| && buf[0] == 5
  {
    hide Le;
    if r.Kv? {
      var e := r.e;
      var x, k, v := Int64(e.expire), Le(|e.key|, 4), Le(|e.value|, 4);
      assert PutRec(r, []) == [r.kind] + x + k + e.key + v + e.value;
    }
  }

  /** A string cannot be read exactly if its length is missing, negative as an int, or beyond the data. */
  lemma ReadStrFails(buf: bytes)
    ensures ReadStr(buf) == None <==> |buf| < 4 || UnLe(buf[..4]) >= 2147483648 || 4 + UnLe(buf[..4]) > |buf|
  {
    if |buf| >= 4 {
      UnLeBound(buf[..4]);
      Widths();
    }
  }

  lemma {:induction false} UnLeBound(b: bytes)
    ensures UnLe(b) < Pow256(|b|)
  {
    if b != [] {
      UnLeBound(b[1..]);
    }
  }

  /** A record of an unknown type is read over, and what follows it is loaded. */
  lemma UnknownSkipped(kind: byte, e: Entry, tail: bytes, db: Db)
    requires kind == 0 || kind > 5
    requires -9223372036854775808 <= e.expire <= 9223372036854775807
    requires |e.key| < 2147483648 && |e.value| < 2147483648
    ensures LoadFrom([kind] + (Int64(e.expire) + PutStr(e.key, PutStr(e.value, tail))), db) == LoadFrom(tail, db)
  {
    hide ReadKv, PutStr, Int64, LoadFrom, ReadRec, CString;
    var body := Int64(e.expire) + PutStr(e.key, PutStr(e.value, tail));
    ReadKvOf(e, tail);
    ReadTagged(kind, body);
    LoadNext([kind] + body, db, Kv(kind, e), tail);
  }

  /** A string is set up to its first zero byte. */
  lemma {:induction false} CutAtZero(a: bytes, b: bytes)
    requires 0 !in a
    ensures CString(a + [0] + b) == a
  {
    var s := a + [0] + b;
    if a != [] {
      assert a == [a[0]] + a[1..] && s[1..] == a[1..] + [0] + b;
      CutAtZero(a[1..], b);
    }
  }

  /** A vector record is set exactly if its dimension is positive as an int, and is read over otherwise. */
  lemma VectorSetIff(q: bytes, a: bytes, d: nat, t: bytes, tail: bytes, db: Db)
    requires |q| < 2147483648 && |a| < 2147483648 && |t| < 2147483648 && d < 4294967296
    ensures LoadFrom([5] + PutStr(q, PutStr(a, Le(d, 4) + PutStr(t, tail))), db) ==
            LoadFrom(tail, if 0 < d < 2147483648
                           then db.(vectors := db.vectors + [Vec(CString(q), CString(a), d, CString(t))]) else db)
  {
    hide PutStr, Le, ReadVec, CString, LoadFrom, ReadRec;
    var body := PutStr(q, PutStr(a, Le(d, 4) + PutStr(t, tail)));
    AnyVectorRead(q, a, d, t, tail);
    ReadTagged(5, body);
    LoadNext([5] + body, db, Vec(q, a, if d < 2147483648 then d else 0, t), tail);
  }

  lemma ReadTagged(kind: byte, body: bytes)
    ensures kind == 5 ==> ReadRec([kind] + body) == ReadVec(body)
    ensures kind != 5 && ReadKv(body).Some? ==>
            ReadRec([kind] + body) == Some((Kv(kind, ReadKv(body).value.0), ReadKv(body).value.1))
  {
    hide ReadVec, ReadKv;
    assert ([kind] + body)[1..] == body;
  }

  lemma LoadNext(buf: bytes, db: Db, r: Rec, rest: bytes)
    requires buf != [] && ReadRec(buf) == Some((r, rest))
    ensures LoadFrom(buf, db) == LoadFrom(rest, Apply(db, r))
  {
    hide ReadRec, Apply;
  }

  lemma AnyVectorRead(q: bytes, a: bytes, d: nat, t: bytes, tail: bytes)
    requires |q| < 2147483648 && |a| < 2147483648 && |t| < 2147483648 && d < 4294967296
    ensures ReadVec(PutStr(q, PutStr(a, Le(d, 4) + PutStr(t, tail)))) ==
            Some((Vec(q, a, if d < 2147483648 then d else 0, t), tail))
  {
    hide PutStr, ReadStr, Le, UnInt32;
    var last := Le(d, 4) + PutStr(t, tail);
    DimensionRead(d);
    ReadStrOf(q, PutStr(a, last));
    ReadStrOf(a, last);
    Front(Le(d, 4), PutStr(t, tail), 4);
    ReadStrOf(t, tail);
  }

  lemma DimensionRead(d: nat)
    requires d < 4294967296
    ensures Max(0, UnInt32(Le(d, 4))) == if d < 2147483648 then d else 0
  {
    Widths();
    LeInverse(d, 4);
  }

  // ---------- Whole files ----------

  predicate AllOk(recs: seq<Rec>) {
    forall i :: 0 <= i < |recs| ==> RecOk(recs[i])
  }

  function SaveOnto(recs: seq<Rec>, tail: bytes): bytes
    requires AllOk(recs)
  {
    if recs == [] then tail else PutRec(recs[0], SaveOnto(recs[1..], tail))
  }

  function Fold(db: Db, recs: seq<Rec>): Db
    decreases |recs|
  {
    if recs == [] then db else Fold(Apply(db, recs[0]), recs[1..])
  }

  /** Loading a saved file applies its records in order, and no others. */
  lemma {:induction false} LoadSaved(recs: seq<Rec>, db: Db)
    requires AllOk(recs)
    ensures LoadFrom(SaveOnto(recs, []), db) == Fold(db, recs)
    decreases |recs|
  {
    hide PutRec, ReadRec, Apply;
    if recs != [] {
      ReadRecOf(recs[0], SaveOnto(recs[1..], []));
      LoadSaved(recs[1..], Apply(db, recs[0]));
    }
  }

  lemma PutRecSplit(r: Rec, tail: bytes)
    requires RecOk(r)
    ensures PutRec(r, tail) == PutRec(r, []) + tail
  {
    if r.Kv? {
      StrSplit(r.e.value, tail);
      StrSplit(r.e.key, PutStr(r.e.value, tail));
      StrSplit(r.e.key, PutStr(r.e.value, []));
    } else {
      StrSplit(r.text, tail);
      var d := Le(r.dim, 4);
      StrSplit(r.answer, d + PutStr(r.text, tail));
      StrSplit(r.answer, d + PutStr(r.text, []));
      StrSplit(r.question, PutStr(r.answer, d + PutStr(r.text, tail)));
      StrSplit(r.question, PutStr(r.answer, d + PutStr(r.text, [])));
    }
    hide PutStr, Le, Int64;
  }

  lemma StrSplit(s: bytes, tail: bytes)
    ensures PutStr(s, tail) == PutStr(s, []) + tail
  {
  }

  // ---------- Truncated files ----------

  lemma ReadStrGrows(buf: bytes, x: bytes)
    requires ReadStr(buf).Some?
    ensures ReadStr(buf + x) == Some((ReadStr(buf).value.0, ReadStr(buf).value.1 + x))
  {
    hide UnInt32;
    assert (buf + x)[..4] == buf[..4] && (buf + x)[4..] == buf[4..] + x;
    var n := UnInt32(buf[..4]);
    assert (buf[4..] + x)[..n] == buf[4..][..n] && (buf[4..] + x)[n..] == buf[4..][n..] + x;
  }

  lemma ReadKvGrows(buf: bytes, x: bytes)
    requires ReadKv(buf).Some?
    ensures ReadKv(buf + x) == Some((ReadKv(buf).value.0, ReadKv(buf).value.1 + x))
  {
    hide ReadStr, UnInt64;
    assert (buf + x)[..8] == buf[..8] && (buf + x)[8..] == buf[8..] + x;
    ReadStrGrows(buf[8..], x);
    ReadStrGrows(ReadStr(buf[8..]).value.1, x);
  }

  lemma ReadVecGrows(buf: bytes, x: bytes)
    requires ReadVec(buf).Some?
    ensures ReadVec(buf + x) == Some((ReadVec(buf).value.0, ReadVec(buf).value.1 + x))
  {
    hide ReadStr, UnInt32;
    ReadStrGrows(buf, x);
    var more := ReadStr(buf).value.1;
    ReadStrGrows(more, x);
    var tail := ReadStr(more).value.1;
    assert (tail + x)[..4] == tail[..4] && (tail + x)[4..] == tail[4..] + x;
    ReadStrGrows(tail[4..], x);
  }

  lemma ReadRecGrows(buf: bytes, x: bytes)
    requires buf != [] && ReadRec(buf).Some?
    ensures ReadRec(buf + x) == Some((ReadRec(buf).value.0, ReadRec(buf).value.1 + x))
  {
    hide ReadKv, ReadVec;
    assert (buf + x)[1..] == buf[1..] + x;
    if buf[0] == TYPE_VECTOR {
      ReadVecGrows(buf[1..], x);
    } else {
      ReadKvGrows(buf[1..], x);
    }
  }

  /** A record cut short is not read at all. */
  lemma CutRecord(r: Rec, n: nat)
    requires RecOk(r) && 0 < n < |PutRec(r, [])|
    ensures ReadRec(PutRec(r, [])[..n]) == None
  {
    hide PutRec, ReadRec;
    var whole := PutRec(r, []);
    var buf, x := whole[..n], whole[n..];
    ReadRecOf(r, []);
    assert buf + x == whole;
    if ReadRec(buf).Some? {
      ReadRecGrows(buf, x);
    }
  }

  /** How many records fit into the first n bytes. */
  function Whole(recs: seq<Rec>, n: nat): (k: nat)
    requires AllOk(recs)
    ensures k <= |recs|
  {
    if recs == [] || |PutRec(recs[0], [])| > n then 0
    else 1 + Whole(recs[1..], n - |PutRec(recs[0], [])|)
  }

  lemma {:induction false} WholeIsMost(recs: seq<Rec>, n: nat)
    requires AllOk(recs)
    ensures var k := Whole(recs, n);
            && AllOk(recs[..k]) && |SaveOnto(recs[..k], [])| <= n
            && (k < |recs| ==> AllOk(recs[..k + 1]) && n < |SaveOnto(recs[..k + 1], [])|)
    decreases |recs|
  {
    hide PutRec;
    if recs != [] {
      var size, rest := |PutRec(recs[0], [])|, recs[1..];
      if size <= n {
        WholeIsMost(rest, n - size);
        var k := Whole(rest, n - size);
        assert recs[..k + 1][1..] == rest[..k];
        PutRecSplit(recs[0], SaveOnto(rest[..k], []));
        if k < |rest| {
          assert recs[..k + 2][1..] == rest[..k + 1];
          PutRecSplit(recs[0], SaveOnto(rest[..k + 1], []));
        }
      } else {
        assert recs[..1][1..] == [] && recs[..1][0] == recs[0];
      }
    }
  }

  /** Loading the first n bytes of a file applies exactly the records wholly contained in them. */
  lemma {:induction false} LoadTruncated(recs: seq<Rec>, n: nat, db: Db)
    requires AllOk(recs) && n <= |SaveOnto(recs, [])|
    ensures LoadFrom(SaveOnto(recs, [])[..n], db) == Fold(db, recs[..Whole(recs, n)])
    decreases |recs|
  {
    hide PutRec, ReadRec, Apply;
    if recs != [] {
      var r, rest := recs[0], recs[1..];
      var one, tail := PutRec(r, []), SaveOnto(rest, []);
      PutRecSplit(r, tail);
      if |one| <= n {
        var m := n - |one|;
        PutRecSplit(r, tail[..m]);
        assert (one + tail)[..n] == one + tail[..m];
        ReadRecOf(r, tail[..m]);
        LoadTruncated(rest, m, Apply(db, r));
        assert recs[..Whole(recs, n)][1..] == rest[..Whole(rest, m)];
      } else {
        assert (one + tail)[..n] == one[..n];
        if n > 0 {
          CutRecord(r, n);
        }
        assert recs[..0] == [];
      }
    }
  }

  // ---------- The engines ----------

  function Tag(kind: nat, es: seq<Entry>): (recs: seq<Rec>)
    ensures |recs| == |es| && forall i :: 0 <= i < |es| ==> recs[i] == Kv(kind, es[i])
  {
    seq(|es|, i requires 0 <= i < |es| => Kv(kind, es[i]))
  }

  /** The recursive walk over the tree. */
  function SaveTree(t: RbShape.Tree, tail: bytes): bytes
    requires AllOk(Tag(TYPE_RBTREE, RbShape.Walk(t)))
  {
    if t.Leaf? then tail
    else
      TreeParts(t);
      SaveTree(t.left, PutRec(Kv(TYPE_RBTREE, t.e), SaveTree(t.right, tail)))
  }

  lemma TreeParts(t: RbShape.Tree)
    requires t.Br? && AllOk(Tag(TYPE_RBTREE, RbShape.Walk(t)))
    ensures AllOk(Tag(TYPE_RBTREE, RbShape.Walk(t.left))) && AllOk(Tag(TYPE_RBTREE, RbShape.Walk(t.right)))
    ensures RecOk(Kv(TYPE_RBTREE, t.e))
    ensures Tag(TYPE_RBTREE, RbShape.Walk(t)) ==
            Tag(TYPE_RBTREE, RbShape.Walk(t.left)) + [Kv(TYPE_RBTREE, t.e)] + Tag(TYPE_RBTREE, RbShape.Walk(t.right))
  {
    TagParts(TYPE_RBTREE, RbShape.Walk(t.left), t.e, RbShape.Walk(t.right));
  }

  lemma TagParts(kind: nat, l: seq<Entry>, e: Entry, r: seq<Entry>)
    ensures Tag(kind, l + [e] + r) == Tag(kind, l) + [Kv(kind, e)] + Tag(kind, r)
    ensures AllOk(Tag(kind, l + [e] + r)) ==> AllOk(Tag(kind, l)) && RecOk(Kv(kind, e)) && AllOk(Tag(kind, r))
  {
    hide RecOk, AllOk;
    var a, b, c := Tag(kind, l), [Kv(kind, e)], Tag(kind, r);
    TagJoin(kind, l, [e]);
    TagJoin(kind, l + [e], r);
    assert Tag(kind, [e]) == b;
    if AllOk(a + b + c) {
      AllOkSplit(a + b, c);
      AllOkSplit(a, b);
      assert RecOk(Kv(kind, e)) by { AllOkAt(b, 0); }
    }
  }

  lemma TagJoin(kind: nat, a: seq<Entry>, b: seq<Entry>)
    ensures Tag(kind, a + b) == Tag(kind, a) + Tag(kind, b)
  {
  }

  lemma AllOkAt(recs: seq<Rec>, i: nat)
    requires AllOk(recs) && i < |recs|
    ensures RecOk(recs[i])
  {
  }

  lemma AllOkSplit(a: seq<Rec>, b: seq<Rec>)
    requires AllOk(a + b)
    ensures AllOk(a) && AllOk(b)
  {
    hide RecOk;
    forall i | 0 <= i < |a|
      ensures RecOk(a[i])
    {
      assert (a + b)[i] == a[i];
    }
    forall i | 0 <= i < |b|
      ensures RecOk(b[i])
    {
      assert (a + b)[|a| + i] == b[i];
    }
  }

  lemma {:induction false} SaveJoin(a: seq<Rec>, b: seq<Rec>, tail: bytes)
    requires AllOk(a) && AllOk(b)
    ensures AllOk(a + b) && SaveOnto(a + b, tail) == SaveOnto(a, SaveOnto(b, tail))
    decreases |a|
  {
    hide RecOk, PutRec;
    if a == [] {
      assert a + b == b;
    } else {
      assert (a + b)[1..] == a[1..] + b;
      SaveJoin(a[1..], b, tail);
    }
  }

  lemma SaveTreeUnfold(t: RbShape.Tree, tail: bytes)
    requires AllOk(Tag(TYPE_RBTREE, RbShape.Walk(t)))
    ensures t.Leaf? ==> SaveTree(t, tail) == tail == SaveOnto(Tag(TYPE_RBTREE, RbShape.Walk(t)), tail)
    ensures t.Br? ==> AllOk(Tag(TYPE_RBTREE, RbShape.Walk(t.left))) && AllOk(Tag(TYPE_RBTREE, RbShape.Walk(t.right)))
    ensures t.Br? ==> RecOk(Kv(TYPE_RBTREE, t.e)) &&
                      SaveTree(t, tail) == SaveTree(t.left, PutRec(Kv(TYPE_RBTREE, t.e), SaveTree(t.right, tail)))
  {
    if t.Br? {
      TreeParts(t);
    }
  }

  /** The tree is written in key order. */
  lemma {:induction false} SaveTreeInOrder(t: RbShape.Tree, tail: bytes)
    requires AllOk(Tag(TYPE_RBTREE, RbShape.Walk(t)))
    ensures SaveTree(t, tail) == SaveOnto(Tag(TYPE_RBTREE, RbShape.Walk(t)), tail)
  {
    hide PutRec, RecOk, RbShape.Walk, Tag, SaveOnto, AllOk, SaveTree;
    SaveTreeUnfold(t, tail);
    if t.Br? {
      TreeParts(t);
      var l, e, r := Tag(TYPE_RBTREE, RbShape.Walk(t.left)), Kv(TYPE_RBTREE, t.e),
          Tag(TYPE_RBTREE, RbShape.Walk(t.right));
      SaveTreeInOrder(t.right, tail);
      SaveTreeInOrder(t.left, PutRec(e, SaveTree(t.right, tail)));
      SaveOne(e, SaveOnto(r, tail));
      SaveJoin([e], r, tail);
      SaveJoin(l, [e] + r, tail);
      assert l + [e] + r == l + ([e] + r);
    }
  }

  lemma SaveOne(r: Rec, tail: bytes)
    requires RecOk(r)
    ensures AllOk([r]) && SaveOnto([r], tail) == PutRec(r, tail)
  {
    assert [r][1..] == [];
  }

  // ---------- Saving and loading the engines ----------

  predicate UniqueKeys(es: seq<Entry>) {
    forall i, j :: 0 <= i < j < |es| ==> es[i].key != es[j].key
  }

  function Lookup(db: Db, kind: nat, key: Key): Option<Item> {
    if (kind, key) in db.kv then Some(db.kv[(kind, key)]) else None
  }

  function Find(m: map<Key, Item>, key: Key): Option<Item> {
    if key in m then Some(m[key]) else None
  }

  lemma {:induction false} FoldJoin(db: Db, a: seq<Rec>, b: seq<Rec>)
    ensures Fold(db, a + b) == Fold(Fold(db, a), b)
    decreases |a|
  {
    hide Apply;
    if a == [] {
      assert a + b == b;
    } else {
      assert (a + b)[1..] == a[1..] + b;
      FoldJoin(Apply(db, a[0]), a[1..], b);
    }
  }

  /** Loading the records of one engine sets exactly its dictionary. */
  lemma {:induction false} FoldTag(db: Db, kind: nat, es: seq<Entry>, k: nat, key: Key)
    requires UniqueKeys(es) && AllOk(Tag(kind, es))
    ensures Fold(db, Tag(kind, es)).vectors == db.vectors
    ensures Lookup(Fold(db, Tag(kind, es)), k, key) ==
            if k == kind && key in Dict(es) then Some(Dict(es)[key]) else Lookup(db, k, key)
    decreases |es|
  {
    if es != [] {
      var recs := Tag(kind, es);
      assert recs[1..] == Tag(kind, es[1..]) && recs[0] == Kv(kind, es[0]);
      assert RecOk(recs[0]);
      CStringIs(es[0].key);
      CStringIs(es[0].value);
      FoldTag(Apply(db, recs[0]), kind, es[1..], k, key);
      DictKeys(es[1..], es[0].key);
    }
  }

  lemma {:induction false} FoldVectors(db: Db, vs: seq<Rec>)
    requires AllOk(vs) && forall i :: 0 <= i < |vs| ==> vs[i].Vec?
    ensures Fold(db, vs) == db.(vectors := db.vectors + vs)
    decreases |vs|
  {
    if vs == [] {
      assert db.vectors + vs == db.vectors;
    } else {
      var v := vs[0];
      assert RecOk(v);
      CStringIs(v.question);
      CStringIs(v.answer);
      CStringIs(v.text);
      FoldVectors(Apply(db, v), vs[1..]);
      assert db.vectors + [v] + vs[1..] == db.vectors + vs;
    }
  }

  /** Everything the server saves: array, tree, vectors, hash table and skip list, in this order. */
  datatype Engines = Engines(table: seq<Entry>, tree: RbShape.Tree, vectors: seq<Rec>, hash: seq<Entry>,
      skip: seq<Entry>)

  predicate Storable(g: Engines) {
    && UniqueKeys(g.table) && UniqueKeys(RbShape.Walk(g.tree)) && UniqueKeys(g.hash) && UniqueKeys(g.skip)
    && AllOk(Tag(TYPE_ARRAY, g.table)) && AllOk(Tag(TYPE_RBTREE, RbShape.Walk(g.tree)))
    && AllOk(Tag(TYPE_HASH, g.hash)) && AllOk(Tag(TYPE_SKIPLIST, g.skip))
    && AllOk(g.vectors) && forall i :: 0 <= i < |g.vectors| ==> g.vectors[i].Vec?
  }

  /** rdb_save_to_fp */
  function Save(g: Engines): bytes
    requires Storable(g)
  {
    SaveOnto(Tag(TYPE_ARRAY, g.table),
             SaveTree(g.tree,
                      SaveOnto(g.vectors, SaveOnto(Tag(TYPE_HASH, g.hash), SaveOnto(Tag(TYPE_SKIPLIST, g.skip), [])))))
  }

  function Records(g: Engines): seq<Rec> {
    Tag(TYPE_ARRAY, g.table) + (Tag(TYPE_RBTREE, RbShape.Walk(g.tree)) +
      (g.vectors + (Tag(TYPE_HASH, g.hash) + Tag(TYPE_SKIPLIST, g.skip))))
  }

  lemma SaveIsRecords(g: Engines)
    requires Storable(g)
    ensures AllOk(Records(g)) && Save(g) == SaveOnto(Records(g), [])
  {
    hide SaveOnto, Tag, SaveTree, AllOk, UniqueKeys, RbShape.Walk;
    var a, t, h, s := Tag(TYPE_ARRAY, g.table), Tag(TYPE_RBTREE, RbShape.Walk(g.tree)), Tag(TYPE_HASH, g.hash),
        Tag(TYPE_SKIPLIST, g.skip);
    SaveJoin(h, s, []);
    SaveJoin(g.vectors, h + s, []);
    SaveJoin(t, g.vectors + (h + s), []);
    SaveTreeInOrder(g.tree, SaveOnto(g.vectors + (h + s), []));
    SaveJoin(a, t + (g.vectors + (h + s)), []);
  }

  /** Saving the engines and loading the file into empty ones gives back every key, value and expiry time. */
  lemma SaveLoad(g: Engines, kind: nat, key: Key)
    requires Storable(g) && 1 <= kind <= 4
    ensures var db := LoadFrom(Save(g), EMPTY_DB);
            Lookup(db, kind, key) == Find(Dict(EntriesOf(g, kind)), key) && db.vectors == g.vectors
  {
    hide SaveOnto, Save, Tag, Fold, AllOk, UniqueKeys, RbShape.Walk, Dict, LoadFrom, Storable, Lookup;
    SaveIsRecords(g);
    LoadSaved(Records(g), EMPTY_DB);
    LookupAll(g, kind, key);
  }

  function EntriesOf(g: Engines, kind: nat): seq<Entry> {
    if kind == 1 then g.table else if kind == 2 then RbShape.Walk(g.tree) else if kind == 3 then g.hash else g.skip
  }

  lemma LookupAll(g: Engines, kind: nat, key: Key)
    requires Storable(g) && 1 <= kind <= 4
    ensures var db := Fold(EMPTY_DB, Records(g));
            Lookup(db, kind, key) == Find(Dict(EntriesOf(g, kind)), key) && db.vectors == g.vectors
  {
    RecordsFold(g);
    hide Tag, Fold, AllOk, UniqueKeys, RbShape.Walk, Dict;
    var d1 := Fold(EMPTY_DB, Tag(TYPE_ARRAY, g.table));
    var d2 := Fold(d1, Tag(TYPE_RBTREE, RbShape.Walk(g.tree)));
    var d3 := Fold(d2, g.vectors);
    FoldVectors(d2, g.vectors);
    FoldTag(EMPTY_DB, TYPE_ARRAY, g.table, kind, key);
    FoldTag(d1, TYPE_RBTREE, RbShape.Walk(g.tree), kind, key);
    FoldTag(d3, TYPE_HASH, g.hash, kind, key);
    FoldTag(Fold(d3, Tag(TYPE_HASH, g.hash)), TYPE_SKIPLIST, g.skip, kind, key);
    assert [] + g.vectors == g.vectors;
  }

  lemma RecordsFold(g: Engines)
    ensures Fold(EMPTY_DB, Records(g)) ==
            Fold(Fold(Fold(Fold(Fold(EMPTY_DB, Tag(TYPE_ARRAY, g.table)), Tag(TYPE_RBTREE, RbShape.Walk(g.tree))),
                g.vectors),
                      Tag(TYPE_HASH, g.hash)), Tag(TYPE_SKIPLIST, g.skip))
  {
    hide Fold, Tag, RbShape.Walk;
    var a, t, h, s := Tag(TYPE_ARRAY, g.table), Tag(TYPE_RBTREE, RbShape.Walk(g.tree)), Tag(TYPE_HASH, g.hash),
        Tag(TYPE_SKIPLIST, g.skip);
    var d1 := Fold(EMPTY_DB, a);
    FoldJoin(EMPTY_DB, a, t + (g.vectors + (h + s)));
    FoldJoin(d1, t, g.vectors + (h + s));
    FoldJoin(Fold(d1, t), g.vectors, h + s);
    FoldJoin(Fold(Fold(d1, t), g.vectors), h, s);
  }
}
