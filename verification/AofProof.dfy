/**
 For every interleaving, completion order and pattern of short writes: the requests in use own
 disjoint ranges of the file, and once the worker exits the file is its old contents followed by
 every published command in order.
 */
module AofProof {
  import opened Common
  import opened Aof

  // ---------- The ring ----------

  ghost predicate RingInv(s: Log, app: seq<bytes>) {
    && s.Sized() && |app| == s.writeIdx
    && s.readIdx <= s.localRead <= s.writeIdx
    && s.writeIdx + (if s.staged.Some? then 1 else 0) <= s.readIdx + |s.slots|
    && (forall i :: 0 <= i < |app| ==> app[i] != [])
    && (forall i :: s.localRead <= i < s.writeIdx ==> s.slots[i % |s.slots|] == Some(app[i]))
    && (s.staged.Some? ==> s.slots[s.writeIdx % |s.slots|] == s.staged && s.staged.value != [])
  }

  lemma StoreKeepsRing(s: Log, app: seq<bytes>, cmd: bytes)
    requires RingInv(s, app) && Enabled(s, Store(cmd))
    ensures RingInv(Next(s, Store(cmd)), app)
  {
    forall i | s.localRead <= i < s.writeIdx
      ensures i % |s.slots| != s.writeIdx % |s.slots|
    {
      DistinctResidues(i, s.writeIdx, |s.slots|);
    }
  }

  lemma PublishKeepsRing(s: Log, app: seq<bytes>)
    requires RingInv(s, app) && s.staged.Some?
    ensures RingInv(Next(s, Publish), app + [s.staged.value])
  {
  }

  /** What a batch takes: consecutive commands, at least one, in order; the rest of the ring stays. */
  lemma {:induction false} GatherTakes(slots: seq<Option<bytes>>, from: nat, to: nat, buf: bytes, cap: nat,
      app: seq<bytes>, hi: nat)
    requires |slots| > 0 && from <= to <= |app| && to <= hi <= from + |slots|
    requires forall i :: from <= i < to ==> slots[i % |slots|] == Some(app[i]) && app[i] != []
    ensures var b := Gather(slots, from, to, buf, cap);
            && b.next <= to && (from < to && buf == [] ==> from < b.next)
            && b.buf == buf + Flat(app[from..b.next])
            && (forall i :: b.next <= i < hi ==> b.slots[i % |slots|] == slots[i % |slots|])
    decreases |app| - from
  {
    var b := Gather(slots, from, to, buf, cap);
    if from < to {
      var i := from % |slots|;
      var data := app[from];
      assert slots[i] == Some(data);
      var grown := if |data| > cap && buf == [] then |data| else cap;
      if buf != [] && |buf| + |data| > grown {
        NothingTaken(buf, app, from);
      } else {
        OthersElsewhere(slots, from, hi);
        GatherTakes(slots[i := None], from + 1, to, buf + data, grown, app, hi);
        TakenNext(buf, app, from, b.next);
      }
    } else {
      NothingTaken(buf, app, from);
    }
    hide Flat;
  }

  /**
   A batch ends only where the ring is drained or the next command does not fit; the buffer grows
   only for a first command that alone exceeds it.
   */
  lemma {:induction false} GatherFills(slots: seq<Option<bytes>>, from: nat, to: nat, buf: bytes, cap: nat,
      app: seq<bytes>)
    requires |slots| > 0 && from <= to <= |app| && to <= from + |slots| && |buf| <= cap
    requires forall i :: from <= i < to ==> slots[i % |slots|] == Some(app[i]) && app[i] != []
    ensures var b := Gather(slots, from, to, buf, cap);
            && b.cap == (if buf == [] && from < to then Max(cap, |app[from]|) else cap) && |b.buf| <= b.cap
            && b.next <= to && (b.next < to ==> |b.buf| + |app[b.next]| > b.cap)
    decreases |app| - from
  {
    if from < to {
      var i, data := from % |slots|, app[from];
      assert slots[i] == Some(data);
      var grown := if |data| > cap && buf == [] then |data| else cap;
      if buf == [] || |buf| + |data| <= grown {
        OthersElsewhere(slots, from, to);
        GatherFills(slots[i := None], from + 1, to, buf + data, grown, app);
      }
    }
  }

  lemma NothingTaken(buf: bytes, app: seq<bytes>, from: nat)
    requires from <= |app|
    ensures buf + Flat(app[from..from]) == buf
  {
    assert app[from..from] == [];
  }

  lemma TakenNext(buf: bytes, app: seq<bytes>, from: nat, next: nat)
    requires from < next <= |app|
    ensures buf + app[from] + Flat(app[from + 1..next]) == buf + Flat(app[from..next])
  {
    var s := app[from..next];
    assert s[1..] == app[from + 1..next];
    assert buf + app[from] + Flat(s[1..]) == buf + (app[from] + Flat(s[1..]));
  }

  lemma OthersElsewhere(slots: seq<Option<bytes>>, from: nat, hi: nat)
    requires |slots| > 0 && hi <= from + |slots|
    ensures forall k :: from < k < hi ==> k % |slots| != from % |slots|
  {
    forall k | from < k < hi
      ensures k % |slots| != from % |slots|
    {
      DistinctResidues(from, k, |slots|);
    }
  }

  // ---------- Requests ----------

  function InUse(reqs: seq<Req>): set<nat> {
    set i | 0 <= i < |reqs| && reqs[i].inUse
  }

  function Below(n: nat): set<nat> {
    if n == 0 then {} else Below(n - 1) + {n - 1}
  }

  lemma {:induction false} BelowSize(n: nat)
    ensures |Below(n)| == n && forall i: nat :: i in Below(n) <==> i < n
  {
    if n > 0 {
      BelowSize(n - 1);
    }
  }

  lemma {:induction false} SubsetSize(a: set<nat>, b: set<nat>)
    requires a <= b
    ensures |a| <= |b|
    decreases a
  {
    if a != {} {
      var x :| x in a;
      SubsetSize(a - {x}, b - {x});
    }
  }

  lemma InUseBounded(reqs: seq<Req>)
    ensures |InUse(reqs)| <= |reqs|
  {
    BelowSize(|reqs|);
    SubsetSize(InUse(reqs), Below(|reqs|));
  }

  /** The bytes of request r still to be written start d past its file offset. */
  ghost predicate ReqOk(q: Req, d: nat, base: nat, log: bytes) {
    && q.inUse ==>
      && q.buf != [] && q.written <= d <= |q.buf| && q.written < |q.buf|
      && base <= q.fileOff && q.fileOff + |q.buf| <= base + |log|
      && q.buf == log[q.fileOff - base..q.fileOff - base + |q.buf|]
  }

  /** Requests in use own disjoint ranges of the file. */
  ghost predicate Disjoint(reqs: seq<Req>) {
    forall i, j :: 0 <= i < j < |reqs| && reqs[i].inUse && reqs[j].inUse ==>
      reqs[i].fileOff + |reqs[i].buf| <= reqs[j].fileOff || reqs[j].fileOff + |reqs[j].buf| <= reqs[i].fileOff
  }

  /** Each request in use waits for exactly one write or completion. */
  ghost predicate Tokens(s: Log, d: seq<nat>)
    requires s.Sized() && |d| == IO_DEPTH
  {
    && s.inflight == |InUse(s.reqs)| == |s.sq| + |s.cq|
    && (forall i :: 0 <= i < |s.sq| ==> s.sq[i].req < IO_DEPTH && OpOk(s.reqs[s.sq[i].req], d[s.sq[i].req], s.sq[i]))
    && (forall i :: 0 <= i < |s.cq| ==> s.cq[i].req < IO_DEPTH && CqeOk(s.reqs[s.cq[i].req], d[s.cq[i].req], s.cq[i]))
    && (forall i, j :: 0 <= i < j < |s.sq| ==> s.sq[i].req != s.sq[j].req)
    && (forall i, j :: 0 <= i < j < |s.cq| ==> s.cq[i].req != s.cq[j].req)
    && (forall i, j :: 0 <= i < |s.sq| && 0 <= j < |s.cq| ==> s.sq[i].req != s.cq[j].req)
  }

  ghost predicate OpOk(q: Req, d: nat, op: Op) {
    q.inUse && q.written == d <= |q.buf| && op.data == q.buf[d..] && op.off == q.fileOff + d
  }

  ghost predicate CqeOk(q: Req, d: nat, c: Cqe) {
    q.inUse && c.res >= 1 && d == q.written + c.res
  }

  ghost predicate ReqsOk(reqs: seq<Req>, d: seq<nat>, base: nat, log: bytes) {
    |d| == |reqs| && forall i :: 0 <= i < |reqs| ==> ReqOk(reqs[i], d[i], base, log)
  }

  // ---------- The file ----------

  /** Some request in use has yet to write position p. */
  ghost predicate Pending(reqs: seq<Req>, d: seq<nat>, p: nat)
    requires |d| == |reqs|
  {
    exists i :: 0 <= i < |reqs| && reqs[i].inUse && reqs[i].fileOff + d[i] <= p < reqs[i].fileOff + |reqs[i].buf|
  }

  ghost predicate FileOk(file: bytes, prior: bytes, log: bytes, reqs: seq<Req>, d: seq<nat>)
    requires |d| == |reqs|
  {
    && |prior| <= |file| <= |prior| + |log|
    && file[..|prior|] == prior
    && (forall p :: |prior| <= p < |prior| + |log| && !Pending(reqs, d, p) ==>
       p < |file| && file[p] == log[p - |prior|])
  }

  /** The bytes handed to the kernel so far. */
  function Logged(s: Log, app: seq<bytes>): bytes
    requires s.localRead <= |app|
  {
    Flat(app[..s.localRead])
  }

  ghost predicate Inv(s: Log, prior: bytes, app: seq<bytes>, d: seq<nat>) {
    && RingInv(s, app) && |d| == IO_DEPTH
    && s.offset == |prior| + |Logged(s, app)|
    && ReqsOk(s.reqs, d, |prior|, Logged(s, app))
    && Disjoint(s.reqs)
    && Tokens(s, d)
    && FileOk(s.file, prior, Logged(s, app), s.reqs, d)
  }

  // ---------- Work left ----------

  function Rest(q: Req, d: nat): int {
    if q.inUse then |q.buf| - d else 0
  }

  /** Bytes of the requests in use that are not in the file yet. */
  function Left(reqs: seq<Req>, d: seq<nat>): int
    requires |d| == |reqs|
  {
    if reqs == [] then 0
    else Left(reqs[..|reqs| - 1], d[..|reqs| - 1]) + Rest(reqs[|reqs| - 1], d[|reqs| - 1])
  }

  lemma {:induction false} LeftUpdate(reqs: seq<Req>, d: seq<nat>, i: nat, q: Req, x: nat)
    requires |d| == |reqs| && i < |reqs|
    ensures Left(reqs[i := q], d[i := x]) == Left(reqs, d) - Rest(reqs[i], d[i]) + Rest(q, x)
  {
    var n := |reqs| - 1;
    if i == n {
      assert reqs[i := q][..n] == reqs[..n] && d[i := x][..n] == d[..n];
    } else {
      LeftUpdate(reqs[..n], d[..n], i, q, x);
      assert reqs[i := q][..n] == reqs[..n][i := q] && d[i := x][..n] == d[..n][i := x];
    }
  }

  lemma {:induction false} LeftNonNegative(reqs: seq<Req>, d: seq<nat>, base: nat, log: bytes)
    requires ReqsOk(reqs, d, base, log)
    ensures Left(reqs, d) >= 0
  {
    if reqs != [] {
      var n := |reqs| - 1;
      assert ReqOk(reqs[n], d[n], base, log);
      LeftNonNegative(reqs[..n], d[..n], base, log);
    }
  }

  /**
   Falls with every Fill, Execute and Reap: a byte costs three units in the ring and two in a
   request, and a completion one.
   */
  ghost function Effort(s: Log, d: seq<nat>): int
    requires |d| == |s.reqs|
  {
    2 * Left(s.reqs, d) + |s.cq| - 3 * s.offset
  }

  // ---------- The producer's steps ----------

  lemma ProducerKeeps(s: Log, prior: bytes, app: seq<bytes>, d: seq<nat>, a: Step)
    requires Inv(s, prior, app, d) && Enabled(s, a) && (a.Store? || a.Publish? || a.PublishRead? || a.RequestStop?)
    ensures Inv(Next(s, a), prior, if a.Publish? then app + [s.staged.value] else app, d)
  {
    hide ReqsOk, Disjoint, FileOk, OpOk, CqeOk, InUse;
    match a
    case Store(cmd) => StoreKeepsRing(s, app, cmd);
    case Publish =>
      PublishKeepsRing(s, app);
      assert (app + [s.staged.value])[..s.localRead] == app[..s.localRead];
    case PublishRead =>
    case RequestStop =>
  }

  // ---------- Filling a request ----------

  lemma LogGrows(q: Req, d: nat, base: nat, log: bytes, more: bytes)
    requires ReqOk(q, d, base, log)
    ensures ReqOk(q, d, base, log + more)
  {
    if q.inUse {
      assert (log + more)[q.fileOff - base..q.fileOff - base + |q.buf|] ==
             log[q.fileOff - base..q.fileOff - base + |q.buf|];
    }
  }

  lemma NewReqOk(buf: bytes, cap: nat, base: nat, log: bytes)
    requires buf != []
    ensures ReqOk(Req(buf, cap, 0, base + |log|, true), 0, base, log + buf)
  {
    assert (log + buf)[|log|..|log| + |buf|] == buf;
  }

  /** A fresh range at the end of the log keeps ranges disjoint and every earlier byte as it was. */
  lemma FillKeepsReqs(reqs: seq<Req>, d: seq<nat>, base: nat, log: bytes, i: nat, buf: bytes, cap: nat)
    requires i < |reqs| && !reqs[i].inUse && buf != []
    requires ReqsOk(reqs, d, base, log) && Disjoint(reqs)
    ensures var r := reqs[i := Req(buf, cap, 0, base + |log|, true)];
            && ReqsOk(r, d[i := 0], base, log + buf) && Disjoint(r)
            && InUse(r) == InUse(reqs) + {i} && i !in InUse(reqs)
  {
    NewReqOk(buf, cap, base, log);
    forall j | 0 <= j < |reqs|
      ensures ReqOk(reqs[j], d[j], base, log + buf)
    {
      LogGrows(reqs[j], d[j], base, log, buf);
    }
    var r := reqs[i := Req(buf, cap, 0, base + |log|, true)];
    forall j | 0 <= j < |reqs| && reqs[j].inUse
      ensures reqs[j].fileOff + |reqs[j].buf| <= base + |log|
    {
      assert ReqOk(reqs[j], d[j], base, log);
    }
  }

  lemma FillKeepsFile(file: bytes, prior: bytes, log: bytes, reqs: seq<Req>, d: seq<nat>, i: nat, buf: bytes, cap: nat)
    requires |d| == |reqs| && i < |reqs| && !reqs[i].inUse && FileOk(file, prior, log, reqs, d)
    ensures FileOk(file, prior, log + buf, reqs[i := Req(buf, cap, 0, |prior| + |log|, true)], d[i := 0])
  {
    var r, e := reqs[i := Req(buf, cap, 0, |prior| + |log|, true)], d[i := 0];
    forall p | |prior| + |log| <= p < |prior| + |log + buf|
      ensures Pending(r, e, p)
    {
      assert r[i].fileOff + e[i] <= p < r[i].fileOff + |r[i].buf|;
    }
    forall p | |prior| <= p < |prior| + |log| && !Pending(r, e, p)
      ensures p < |file| && file[p] == (log + buf)[p - |prior|]
    {
      PendingPersists(reqs, d, r, e, i, p);
    }
  }

  lemma PendingPersists(reqs: seq<Req>, d: seq<nat>, r: seq<Req>, e: seq<nat>, i: nat, p: nat)
    requires |d| == |reqs| == |r| == |e| && i < |reqs| && !reqs[i].inUse
    requires forall j :: 0 <= j < |reqs| && j != i ==> r[j] == reqs[j] && e[j] == d[j]
    ensures Pending(reqs, d, p) ==> Pending(r, e, p)
  {
    if Pending(reqs, d, p) {
      var j :| 0 <= j < |reqs| && reqs[j].inUse && reqs[j].fileOff + d[j] <= p < reqs[j].fileOff + |reqs[j].buf|;
      assert r[j].inUse && r[j].fileOff + e[j] <= p < r[j].fileOff + |r[j].buf|;
    }
  }

  lemma FillTokens(s: Log, d: seq<nat>, i: nat, q: Req)
    requires s.Sized() && |d| == IO_DEPTH && Tokens(s, d) && i < IO_DEPTH && !s.reqs[i].inUse
    requires q.inUse && q.written == 0
    requires InUse(s.reqs[i := q]) == InUse(s.reqs) + {i} && i !in InUse(s.reqs)
    ensures Tokens(s.(reqs := s.reqs[i := q], sq := s.sq + [Op(i, q.buf, q.fileOff)], inflight := s.inflight + 1),
            d[i := 0])
  {
    assert q.buf[0..] == q.buf;
  }

  /** The batch extends the log by the commands it takes. */
  lemma BatchExtendsLog(s: Log, app: seq<bytes>, seen: nat, cap: nat)
    requires RingInv(s, app) && s.localRead < seen <= s.writeIdx
    ensures var b := Gather(s.slots, s.localRead, seen, [], cap);
            && s.localRead < b.next <= s.writeIdx && b.buf != []
            && Flat(app[..b.next]) == Flat(app[..s.localRead]) + b.buf
            && RingInv(s.(slots := b.slots, localRead := b.next), app)
  {
    GatherTakes(s.slots, s.localRead, seen, [], cap, app, s.readIdx + |s.slots|);
    var b := Gather(s.slots, s.localRead, seen, [], cap);
    assert app[..b.next] == app[..s.localRead] + app[s.localRead..b.next];
    FlatJoin(app[..s.localRead], app[s.localRead..b.next]);
    FlatNonEmpty(app, s.localRead, b.next);
    hide Gather, Flat;
  }

  lemma FillKeeps(s: Log, prior: bytes, app: seq<bytes>, d: seq<nat>, seen: nat) returns (d': seq<nat>)
    requires Inv(s, prior, app, d) && Enabled(s, Fill(seen))
    ensures Inv(Submit(s, seen), prior, app, d')
    ensures d' == d[FirstFree(s.reqs, 0) := 0]
  {
    hide Gather, Flat, ReqsOk, Disjoint, FileOk, InUse, OpOk, CqeOk, RingInv;
    RingSized(s, app);
    InUseBounded(s.reqs);
    var i := FirstFree(s.reqs, 0);
    var b := Gather(s.slots, s.localRead, seen, [], s.reqs[i].cap);
    BatchExtendsLog(s, app, seen, s.reqs[i].cap);
    var log := Logged(s, app);
    FillKeepsReqs(s.reqs, d, |prior|, log, i, b.buf, b.cap);
    FillKeepsFile(s.file, prior, log, s.reqs, d, i, b.buf, b.cap);
    FillTokens(s, d, i, Req(b.buf, b.cap, 0, s.offset, true));
    d' := d[i := 0];
    var t := Submit(s, seen);
    RingIgnores(s.(slots := b.slots, localRead := b.next), t, app);
  }

  lemma RingSized(s: Log, app: seq<bytes>)
    requires RingInv(s, app)
    ensures s.Sized() && s.localRead <= s.writeIdx == |app|
  {
  }

  /** The ring does not depend on requests, queues or the file. */
  lemma RingIgnores(s: Log, t: Log, app: seq<bytes>)
    requires RingInv(s, app) && t.Sized()
    requires t.slots == s.slots && t.writeIdx == s.writeIdx && t.readIdx == s.readIdx
    requires t.localRead == s.localRead && t.staged == s.staged
    ensures RingInv(t, app)
  {
  }

  lemma FlatNonEmpty(app: seq<bytes>, a: nat, b: nat)
    requires a < b <= |app| && app[a] != []
    ensures Flat(app[a..b]) != []
  {
    assert app[a..b][0] == app[a];
  }

  // ---------- The kernel executes a write ----------

  lemma ExecKeepsTokens(s: Log, d: seq<nat>, j: nat, n: nat)
    requires s.Sized() && |d| == IO_DEPTH && Tokens(s, d) && j < |s.sq| && 1 <= n <= |s.sq[j].data|
    ensures var r := s.sq[j].req;
            Tokens(s.(sq := s.sq[..j] + s.sq[j + 1..], cq := s.cq + [Cqe(r, n)]), d[r := d[r] + n])
  {
  }

  lemma ExecKeepsReqs(reqs: seq<Req>, d: seq<nat>, base: nat, log: bytes, r: nat, n: nat, op: Op)
    requires ReqsOk(reqs, d, base, log) && r < |reqs| && OpOk(reqs[r], d[r], op) && n <= |op.data|
    ensures ReqsOk(reqs, d[r := d[r] + n], base, log)
  {
    assert ReqOk(reqs[r], d[r], base, log);
  }

  /** Writing the next n bytes of request r makes exactly those positions final. */
  lemma ExecKeepsFile(file: bytes, prior: bytes, log: bytes, reqs: seq<Req>, d: seq<nat>, r: nat, n: nat, op: Op)
    requires ReqsOk(reqs, d, |prior|, log) && r < |reqs| && OpOk(reqs[r], d[r], op) && n <= |op.data|
    requires FileOk(file, prior, log, reqs, d)
    ensures FileOk(WriteAt(file, op.off, op.data[..n]), prior, log, reqs, d[r := d[r] + n])
  {
    var f, e, q := WriteAt(file, op.off, op.data[..n]), d[r := d[r] + n], reqs[r];
    assert ReqOk(q, d[r], |prior|, log);
    forall p | op.off <= p < op.off + n
      ensures f[p] == log[p - |prior|]
    {
      assert f[p] == op.data[p - op.off] == q.buf[d[r] + (p - op.off)];
    }
    forall p | |prior| <= p < |prior| + |log| && !Pending(reqs, e, p)
      ensures p < |f| && f[p] == log[p - |prior|]
    {
      if !(op.off <= p < op.off + n) {
        NotPendingBefore(reqs, d, r, n, p);
      }
    }
    assert f[..|prior|] == file[..|prior|];
  }

  lemma NotPendingBefore(reqs: seq<Req>, d: seq<nat>, r: nat, n: nat, p: nat)
    requires |d| == |reqs| && r < |reqs|
    requires !Pending(reqs, d[r := d[r] + n], p)
    requires !(reqs[r].fileOff + d[r] <= p < reqs[r].fileOff + d[r] + n)
    ensures !Pending(reqs, d, p)
  {
    var e := d[r := d[r] + n];
    forall i | 0 <= i < |reqs| && reqs[i].inUse
      ensures !(reqs[i].fileOff + d[i] <= p < reqs[i].fileOff + |reqs[i].buf|)
    {
      assert !(reqs[i].fileOff + e[i] <= p < reqs[i].fileOff + |reqs[i].buf|);
    }
  }

  lemma ExecuteKeeps(s: Log, prior: bytes, app: seq<bytes>, d: seq<nat>, j: nat, n: nat) returns (d': seq<nat>)
    requires Inv(s, prior, app, d) && Enabled(s, Execute(j, n))
    ensures Inv(Next(s, Execute(j, n)), prior, app, d')
    ensures s.sq[j].req < |d| && d' == d[s.sq[j].req := d[s.sq[j].req] + n]
  {
    hide Flat, ReqsOk, Disjoint, FileOk, InUse, RingInv, OpOk;
    RingSized(s, app);
    var op := s.sq[j];
    var r := op.req;
    assert OpOk(s.reqs[r], d[r], op);
    ExecKeepsTokens(s, d, j, n);
    ExecKeepsReqs(s.reqs, d, |prior|, Logged(s, app), r, n, op);
    ExecKeepsFile(s.file, prior, Logged(s, app), s.reqs, d, r, n, op);
    d' := d[r := d[r] + n];
    RingIgnores(s, Next(s, Execute(j, n)), app);
  }

  // ---------- The worker reaps a completion ----------

  lemma ResubmitTokens(s: Log, d: seq<nat>)
    requires s.Sized() && |d| == IO_DEPTH && Tokens(s, d) && s.cq != []
    requires d[s.cq[0].req] <= |s.reqs[s.cq[0].req].buf|
    ensures var r := s.cq[0].req;
            var q := s.reqs[r].(written := d[r]);
            && InUse(s.reqs[r := q]) == InUse(s.reqs)
            && Tokens(s.(cq := s.cq[1..], reqs := s.reqs[r := q],
               sq := s.sq + [Op(r, q.buf[d[r]..], q.fileOff + d[r])]), d)
  {
    var r := s.cq[0].req;
    assert InUse(s.reqs[r := s.reqs[r].(written := d[r])]) == InUse(s.reqs);
    hide InUse;
  }

  lemma RetireTokens(s: Log, d: seq<nat>, w: nat)
    requires s.Sized() && |d| == IO_DEPTH && Tokens(s, d) && s.cq != []
    ensures var r := s.cq[0].req;
            var q := s.reqs[r].(written := w, inUse := false);
            s.inflight > 0 && Tokens(s.(cq := s.cq[1..], reqs := s.reqs[r := q], inflight := s.inflight - 1), d)
  {
    var r := s.cq[0].req;
    assert CqeOk(s.reqs[r], d[r], s.cq[0]);
    assert r in InUse(s.reqs);
    assert InUse(s.reqs[r := s.reqs[r].(written := w, inUse := false)]) == InUse(s.reqs) - {r};
    hide InUse;
  }

  lemma ReapKeepsReqs(reqs: seq<Req>, d: seq<nat>, base: nat, log: bytes, r: nat, q: Req)
    requires ReqsOk(reqs, d, base, log) && Disjoint(reqs) && r < |reqs| && reqs[r].inUse
    requires q == reqs[r].(written := d[r], inUse := d[r] < |reqs[r].buf|)
    ensures ReqsOk(reqs[r := q], d, base, log) && Disjoint(reqs[r := q])
  {
    assert ReqOk(reqs[r], d[r], base, log);
  }

  lemma ReapKeepsFile(file: bytes, prior: bytes, log: bytes, reqs: seq<Req>, d: seq<nat>, r: nat, q: Req)
    requires |d| == |reqs| && r < |reqs| && FileOk(file, prior, log, reqs, d)
    requires q == reqs[r].(written := q.written, inUse := reqs[r].inUse && d[r] < |reqs[r].buf|)
    ensures FileOk(file, prior, log, reqs[r := q], d)
  {
    var next := reqs[r := q];
    forall p | |prior| <= p < |prior| + |log| && !Pending(next, d, p)
      ensures p < |file| && file[p] == log[p - |prior|]
    {
      assert !Pending(reqs, d, p);
    }
  }

  /** What handling the oldest completion does, in terms of the bytes the request has in the file. */
  lemma ReapIs(s: Log, d: seq<nat>, base: nat, log: bytes)
    requires s.Sized() && |d| == IO_DEPTH && Tokens(s, d) && ReqsOk(s.reqs, d, base, log) && s.cq != []
    ensures Enabled(s, Reap) && d[s.cq[0].req] <= |s.reqs[s.cq[0].req].buf|
    ensures var r := s.cq[0].req;
            var q0 := s.reqs[r];
            var q := q0.(written := d[r], inUse := d[r] < |q0.buf|);
            && q0.inUse
            && Next(s, Reap) ==
               if d[r] < |q0.buf|
               then s.(cq := s.cq[1..], reqs := s.reqs[r := q], sq := s.sq + [Op(r, q.buf[d[r]..], q.fileOff + d[r])])
               else s.(cq := s.cq[1..], reqs := s.reqs[r := q], inflight := s.inflight - 1)
  {
    InUseBounded(s.reqs);
    var c := s.cq[0];
    var r := c.req;
    var q0 := s.reqs[r];
    assert CqeOk(q0, d[r], c) && ReqOk(q0, d[r], base, log);
    assert s.inflight > 0;
    hide InUse, OpOk, ReqsOk;
    assert s.reqs[r := q0.(written := d[r])][r := q0.(written := d[r], inUse := false)] ==
           s.reqs[r := q0.(written := d[r], inUse := false)];
  }

  /** A step that leaves the ring and the file alone keeps the invariant if it keeps requests and tokens. */
  lemma ReqsSuffice(s: Log, t: Log, prior: bytes, app: seq<bytes>, d: seq<nat>)
    requires Inv(s, prior, app, d) && t.Sized()
    requires t.slots == s.slots && t.writeIdx == s.writeIdx && t.readIdx == s.readIdx && t.localRead == s.localRead
    requires t.staged == s.staged && t.offset == s.offset && t.file == s.file
    requires s.localRead <= |app| && ReqsOk(t.reqs, d, |prior|, Logged(s, app)) && Disjoint(t.reqs)
    requires |d| == IO_DEPTH && Tokens(t, d) && FileOk(s.file, prior, Logged(s, app), t.reqs, d)
    ensures Inv(t, prior, app, d)
  {
    hide Tokens, Flat, RingInv, ReqsOk, Disjoint, FileOk;
    RingIgnores(s, t, app);
  }

  lemma InvParts(s: Log, prior: bytes, app: seq<bytes>, d: seq<nat>)
    requires Inv(s, prior, app, d)
    ensures s.Sized() && s.localRead <= |app| && |d| == IO_DEPTH && Tokens(s, d) && Disjoint(s.reqs)
    ensures ReqsOk(s.reqs, d, |prior|, Logged(s, app)) && FileOk(s.file, prior, Logged(s, app), s.reqs, d)
  {
    hide Tokens, Flat, ReqsOk, Disjoint, FileOk;
  }

  lemma ReapKeeps(s: Log, prior: bytes, app: seq<bytes>, d: seq<nat>)
    requires Inv(s, prior, app, d) && s.cq != []
    ensures Enabled(s, Reap) && Inv(Next(s, Reap), prior, app, d)
  {
    hide Inv, Next, Tokens, InUse, Flat, RingInv, ReqsOk, Disjoint, FileOk;
    InvParts(s, prior, app, d);
    var r, log := s.cq[0].req, Logged(s, app);
    ReapIs(s, d, |prior|, log);
    var q := s.reqs[r].(written := d[r], inUse := d[r] < |s.reqs[r].buf|);
    ReapKeepsReqs(s.reqs, d, |prior|, log, r, q);
    ReapKeepsFile(s.file, prior, log, s.reqs, d, r, q);
    if d[r] < |s.reqs[r].buf| {
      ResubmitTokens(s, d);
    } else {
      RetireTokens(s, d, d[r]);
    }
    ReqsSuffice(s, Next(s, Reap), prior, app, d);
  }

  // ---------- Runs ----------

  lemma StartInv(capacity: nat, file: bytes) returns (d: seq<nat>)
    requires capacity > 0
    ensures Inv(Start(capacity, file), file, [], d)
  {
    d := seq(IO_DEPTH, _ => 0);
    var s := Start(capacity, file);
    assert InUse(s.reqs) == {};
    assert Logged(s, []) == [];
  }

  /** The worker's and the kernel's steps in a run. */
  function Count(steps: seq<Step>): nat {
    if steps == [] then 0 else Cost(steps[0]) + Count(steps[1..])
  }

  function Cost(a: Step): nat {
    if a.Fill? || a.Execute? || a.Reap? then 1 else 0
  }

  lemma FillEffort(s: Log, prior: bytes, app: seq<bytes>, d: seq<nat>, seen: nat)
    requires Inv(s, prior, app, d) && Enabled(s, Fill(seen))
    ensures Effort(Submit(s, seen), d[FirstFree(s.reqs, 0) := 0]) < Effort(s, d)
  {
    hide Gather, Flat, ReqsOk, Disjoint, FileOk, InUse, OpOk, CqeOk, RingInv, Left;
    RingSized(s, app);
    InUseBounded(s.reqs);
    var i := FirstFree(s.reqs, 0);
    BatchExtendsLog(s, app, seen, s.reqs[i].cap);
    LeftUpdate(s.reqs, d, i, Submit(s, seen).reqs[i], 0);
  }

  lemma ExecuteEffort(s: Log, prior: bytes, app: seq<bytes>, d: seq<nat>, j: nat, n: nat)
    requires Inv(s, prior, app, d) && Enabled(s, Execute(j, n))
    ensures var r := s.sq[j].req; r < |d| && Effort(Next(s, Execute(j, n)), d[r := d[r] + n]) < Effort(s, d)
  {
    hide Flat, ReqsOk, Disjoint, FileOk, InUse, RingInv, CqeOk, Left;
    RingSized(s, app);
    var r := s.sq[j].req;
    LeftUpdate(s.reqs, d, r, s.reqs[r], d[r] + n);
    assert s.reqs[r := s.reqs[r]] == s.reqs;
  }

  lemma ReapEffort(s: Log, prior: bytes, app: seq<bytes>, d: seq<nat>)
    requires Inv(s, prior, app, d) && s.cq != []
    ensures Enabled(s, Reap) && Effort(Next(s, Reap), d) < Effort(s, d)
  {
    hide Flat, Disjoint, FileOk, RingInv, OpOk, InUse, Left;
    RingSized(s, app);
    InUseBounded(s.reqs);
    var r := s.cq[0].req;
    assert CqeOk(s.reqs[r], d[r], s.cq[0]) && ReqOk(s.reqs[r], d[r], |prior|, Logged(s, app));
    var q := s.reqs[r].(written := d[r], inUse := d[r] < |s.reqs[r].buf|);
    LeftUpdate(s.reqs, d, r, q, d[r]);
    assert d[r := d[r]] == d;
    assert s.reqs[r := s.reqs[r].(written := d[r])][r := q] == s.reqs[r := q];
    hide ReqsOk;
  }

  lemma StepKeeps(s: Log, prior: bytes, app: seq<bytes>, d: seq<nat>, a: Step) returns (d': seq<nat>)
    requires s.Sized() && Inv(s, prior, app, d) && Enabled(s, a)
    ensures Inv(Next(s, a), prior, if a.Publish? then app + [s.staged.value] else app, d')
    ensures |d| == |d'| == IO_DEPTH && Effort(Next(s, a), d') + Cost(a) <= Effort(s, d)
  {
    assert |d| == IO_DEPTH;
    hide Inv, Left;
    d' := d;
    match a {
      case Fill(seen) =>
        d' := FillKeeps(s, prior, app, d, seen);
        FillEffort(s, prior, app, d, seen);
      case Execute(j, n) =>
        d' := ExecuteKeeps(s, prior, app, d, j, n);
        ExecuteEffort(s, prior, app, d, j, n);
      case Reap =>
        ReapKeeps(s, prior, app, d);
        ReapEffort(s, prior, app, d);
      case _ =>
        ProducerKeeps(s, prior, app, d, a);
    }
  }

  lemma {:induction false} RunKeeps(s: Log, prior: bytes, app: seq<bytes>, d: seq<nat>, steps: seq<Step>,
      published: seq<bytes>, t: Log) returns (d': seq<nat>)
    requires s.Sized() && |d| == IO_DEPTH && Inv(s, prior, app, d) && IsRun(s, steps, published, t)
    ensures t.Sized() && |d'| == IO_DEPTH && Inv(t, prior, app + published, d')
    ensures Effort(t, d') + Count(steps) <= Effort(s, d)
    decreases |steps|
  {
    hide Inv, Next, Effort, Cost, Flat, Tokens, FileOk, ReqsOk, Disjoint, RingInv;
    if steps == [] {
      d' := d;
      assert app + published == app;
    } else {
      var e := StepKeeps(s, prior, app, d, steps[0]);
      if steps[0].Publish? {
        d' := RunKeeps(Next(s, steps[0]), prior, app + [s.staged.value], e, steps[1..], published[1..], t);
        assert app + [s.staged.value] + published[1..] == app + published;
      } else {
        d' := RunKeeps(Next(s, steps[0]), prior, app, e, steps[1..], published, t);
      }
    }
  }

  // ---------- Main results ----------

  /** When the worker exits, the file is what it was before plus every published command, in order. */
  lemma FileHoldsEverything(capacity: nat, file: bytes, steps: seq<Step>, published: seq<bytes>, t: Log)
    requires capacity > 0 && IsRun(Start(capacity, file), steps, published, t) && Exited(t)
    ensures t.file == file + Flat(published)
  {
    var d := StartInv(capacity, file);
    var e := RunKeeps(Start(capacity, file), file, [], d, steps, published, t);
    assert [] + published == published;
    ExitedFile(t, file, published, e);
  }

  lemma ExitedFile(t: Log, file: bytes, app: seq<bytes>, d: seq<nat>)
    requires Inv(t, file, app, d) && Exited(t)
    ensures t.file == file + Flat(app)
  {
    var log := Flat(app);
    assert app[..t.localRead] == app;
    assert InUse(t.reqs) == {};
    assert forall i :: 0 <= i < |t.reqs| ==> !t.reqs[i].inUse by {
      forall i | 0 <= i < |t.reqs|
        ensures !t.reqs[i].inUse
      {
        assert i !in InUse(t.reqs);
      }
    }
    assert forall p: nat :: !Pending(t.reqs, d, p);
    if log != [] {
      assert !Pending(t.reqs, d, |file| + |log| - 1);
    }
    forall p | |file| <= p < |t.file|
      ensures t.file[p] == log[p - |file|]
    {
      assert !Pending(t.reqs, d, p);
    }
    assert t.file == t.file[..|file|] + log;
  }

  /**
   In every state of every run: requests in use own disjoint ranges inside the log, inflight is
   their number, and the submission queue is far from full, so no batch is ever dropped.
   */
  lemma RequestsTileTheLog(capacity: nat, file: bytes, steps: seq<Step>, published: seq<bytes>, t: Log)
    requires capacity > 0 && IsRun(Start(capacity, file), steps, published, t)
    ensures t.Sized() && Disjoint(t.reqs)
    ensures forall i :: 0 <= i < 64 && t.reqs[i].inUse ==>
            |file| <= t.reqs[i].fileOff && t.reqs[i].fileOff + |t.reqs[i].buf| <= t.offset
    ensures t.inflight == |InUse(t.reqs)| == |t.sq| + |t.cq| <= 64 < 8192
    ensures t.localRead <= |published| && t.offset == |file| + |Flat(published[..t.localRead])|
    ensures t.writeIdx == |published| && forall i :: t.localRead <= i < t.writeIdx ==>
            t.slots[i % |t.slots|] == Some(published[i])
  {
    var d := StartInv(capacity, file);
    var e := RunKeeps(Start(capacity, file), file, [], d, steps, published, t);
    assert [] + published == published;
    InUseBounded(t.reqs);
    hide InUse, Flat, FileOk, OpOk, CqeOk;
    forall i | 0 <= i < IO_DEPTH && t.reqs[i].inUse
      ensures |file| <= t.reqs[i].fileOff && t.reqs[i].fileOff + |t.reqs[i].buf| <= t.offset
    {
      assert ReqOk(t.reqs[i], e[i], |file|, Logged(t, published));
    }
  }

  /** Position p lies in the part of a request that is not reported written. */
  ghost predicate Unfinished(reqs: seq<Req>, p: nat) {
    exists i ::
      && 0 <= i < |reqs| && reqs[i].inUse
      && reqs[i].fileOff + reqs[i].written <= p < reqs[i].fileOff + |reqs[i].buf|
  }

  /**
   What a crash leaves behind: in every state of every run the old contents are intact, the file is
   no longer than what was submitted, and every submitted byte that no unfinished request still
   owns is already in its final place.
   */
  lemma CrashLeavesFinished(capacity: nat, file: bytes, steps: seq<Step>, published: seq<bytes>, t: Log)
    requires capacity > 0 && IsRun(Start(capacity, file), steps, published, t)
    ensures |file| <= |t.file| <= t.offset && t.file[..|file|] == file
    ensures t.localRead <= |published| && t.offset == |file| + |Flat(published[..t.localRead])|
    ensures forall p :: |file| <= p < t.offset && !Unfinished(t.reqs, p) ==>
              p < |t.file| && t.file[p] == Flat(published[..t.localRead])[p - |file|]
  {
    var d := StartInv(capacity, file);
    var e := RunKeeps(Start(capacity, file), file, [], d, steps, published, t);
    assert [] + published == published;
    hide Flat, Disjoint, Tokens, Start, IsRun;
    forall p | |file| <= p < t.offset && !Unfinished(t.reqs, p)
      ensures p < |t.file| && t.file[p] == Logged(t, published)[p - |file|]
    {
      FinishedIsThere(t.reqs, e, |file|, Logged(t, published), p);
    }
  }

  lemma FinishedIsThere(reqs: seq<Req>, d: seq<nat>, base: nat, log: bytes, p: nat)
    requires |d| == |reqs| && ReqsOk(reqs, d, base, log) && !Unfinished(reqs, p)
    ensures !Pending(reqs, d, p)
  {
    forall i | 0 <= i < |reqs| && reqs[i].inUse
      ensures !(reqs[i].fileOff + d[i] <= p < reqs[i].fileOff + |reqs[i].buf|)
    {
      assert ReqOk(reqs[i], d[i], base, log);
    }
  }

  /** Once stop is requested and the producer is done, the worker or the kernel can always go on until exit. */
  lemma NeverStuck(capacity: nat, file: bytes, steps: seq<Step>, published: seq<bytes>, t: Log)
    requires capacity > 0 && IsRun(Start(capacity, file), steps, published, t)
    requires t.stop && !Exited(t)
    ensures t.Sized() && ((t.inflight < IO_DEPTH && t.localRead < t.writeIdx && Enabled(t, Fill(t.writeIdx)))
                          || (t.sq != [] && Enabled(t, Execute(0, |t.sq[0].data|))) || Enabled(t, Reap))
  {
    var d := StartInv(capacity, file);
    var e := RunKeeps(Start(capacity, file), file, [], d, steps, published, t);
    if t.cq != [] {
      ReapKeeps(t, file, [] + published, e);
    } else if t.sq != [] {
      assert OpOk(t.reqs[t.sq[0].req], e[t.sq[0].req], t.sq[0])
             && ReqOk(t.reqs[t.sq[0].req], e[t.sq[0].req], |file|, Logged(t, [] + published));
    } else {
      SomeFree(t.reqs);
    }
  }

  /** The worker and the kernel do at most three steps for each published byte, whatever the interleaving. */
  lemma RunsAreBounded(capacity: nat, file: bytes, steps: seq<Step>, published: seq<bytes>, t: Log)
    requires capacity > 0 && IsRun(Start(capacity, file), steps, published, t)
    ensures Count(steps) <= 3 * |Flat(published)|
  {
    var s := Start(capacity, file);
    var d := StartInv(capacity, file);
    NothingLeft(s.reqs, d);
    assert Effort(s, d) == -3 * |file|;
    hide Left, IsRun, Count;
    var e := RunKeeps(s, file, [], d, steps, published, t);
    assert [] + published == published;
    EffortBounded(t, file, published, e);
  }

  lemma EffortBounded(t: Log, file: bytes, app: seq<bytes>, d: seq<nat>)
    requires Inv(t, file, app, d)
    ensures Effort(t, d) >= -3 * (|file| + |Flat(app)|)
  {
    LeftNonNegative(t.reqs, d, |file|, Logged(t, app));
    hide Left, FileOk, Disjoint, ReqsOk, Tokens;
    assert app == app[..t.localRead] + app[t.localRead..];
    FlatJoin(app[..t.localRead], app[t.localRead..]);
  }

  lemma {:induction false} NothingLeft(reqs: seq<Req>, d: seq<nat>)
    requires |d| == |reqs| && forall i :: 0 <= i < |reqs| ==> !reqs[i].inUse
    ensures Left(reqs, d) == 0
  {
    if reqs != [] {
      NothingLeft(reqs[..|reqs| - 1], d[..|reqs| - 1]);
    }
  }

  lemma SomeFree(reqs: seq<Req>)
    requires |InUse(reqs)| < |reqs|
    ensures FirstFree(reqs, 0) < |reqs|
  {
    BelowSize(|reqs|);
    if forall j :: 0 <= j < |reqs| ==> reqs[j].inUse {
      SubsetSize(Below(|reqs|), InUse(reqs));
    }
  }
}
