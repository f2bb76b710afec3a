/**
 Incremental replication: the forwarder logs every captured write, replays the log to the slave
 once a full sync is finished, and resends the head until it is acknowledged.

 Captured commands are executed by the master in the order of capture.  Bytes of a connection
 that was given up are applied, if at all, before those of the next connection.
 */
module Replication {
  import opened Common
  import opened Keys

  datatype Cmd = Set(key: Key, value: bytes) | Del(key: Key) | Mod(key: Key, value: bytes)

  type Store = map<Key, bytes>

  /** A modification of a missing key changes nothing. */
  function Apply(m: Store, c: Cmd): Store {
    match c
    case Set(k, v) => m[k := v]
    case Del(k) => m - {k}
    case Mod(k, v) => if k in m then m[k := v] else m
  }

  function Run(m: Store, cs: seq<Cmd>): Store {
    if cs == [] then m else Apply(Run(m, cs[..|cs| - 1]), cs[|cs| - 1])
  }

  // ---------- Replaying over a later state ----------

  function At(m: Store, k: Key): Option<bytes> {
    if k in m then Some(m[k]) else None
  }

  function ApplyAt(o: Option<bytes>, c: Cmd, k: Key): Option<bytes> {
    if c.key != k then o
    else match c
      case Set(_, v) => Some(v)
      case Del(_) => None
      case Mod(_, v) => if o.Some? then Some(v) else None
  }

  function RunAt(o: Option<bytes>, cs: seq<Cmd>, k: Key): Option<bytes> {
    if cs == [] then o else ApplyAt(RunAt(o, cs[..|cs| - 1], k), cs[|cs| - 1], k)
  }

  lemma {:induction false} KeyByKey(m: Store, cs: seq<Cmd>, k: Key)
    ensures At(Run(m, cs), k) == RunAt(At(m, k), cs, k)
  {
    if cs != [] {
      KeyByKey(m, cs[..|cs| - 1], k);
    }
  }

  lemma {:induction false} SamePresence(o: Option<bytes>, p: Option<bytes>, cs: seq<Cmd>, k: Key)
    requires o.Some? == p.Some?
    ensures RunAt(o, cs, k).Some? == RunAt(p, cs, k).Some?
  {
    if cs != [] {
      SamePresence(o, p, cs[..|cs| - 1], k);
    }
  }

  lemma {:induction false} ReplayAt(o: Option<bytes>, cs: seq<Cmd>, j: nat, k: Key)
    requires j <= |cs|
    ensures RunAt(RunAt(o, cs[..j], k), cs, k) == RunAt(o, cs, k)
    decreases |cs|, j
  {
    if cs != [] {
      var n := |cs| - 1;
      var ds, c := cs[..n], cs[n];
      if j <= n {
        ReplayAt(o, ds, j, k);
        assert ds[..j] == cs[..j];
      } else {
        var x := RunAt(o, ds, k);
        ReplayAt(o, ds, n, k);
        assert ds[..n] == ds && cs[..j] == cs;
        if c.key == k && c.Mod? {
          SamePresence(ApplyAt(x, c, k), x, ds, k);
        }
      }
    } else {
      assert cs[..j] == cs;
    }
  }

  /** Replaying all commands over a state that already contains the first j of them changes nothing. */
  lemma ReplayOverSnapshot(m: Store, cs: seq<Cmd>, j: nat)
    requires j <= |cs|
    ensures Run(Run(m, cs[..j]), cs) == Run(m, cs)
  {
    var l, r := Run(Run(m, cs[..j]), cs), Run(m, cs);
    forall k: Key
      ensures At(l, k) == At(r, k)
    {
      KeyByKey(Run(m, cs[..j]), cs, k);
      KeyByKey(m, cs[..j], k);
      KeyByKey(m, cs, k);
      ReplayAt(At(m, k), cs, j, k);
    }
    SameAt(l, r);
  }

  lemma SameAt(l: Store, r: Store)
    requires forall k: Key :: At(l, k) == At(r, k)
    ensures l == r
  {
    forall k: Key
      ensures k in l <==> k in r
    {
      assert At(l, k) == At(r, k);
    }
    forall k | k in l
      ensures l[k] == r[k]
    {
      assert At(l, k) == At(r, k);
    }
    assert l.Keys == r.Keys;
  }

  lemma {:induction false} RunJoin(m: Store, a: seq<Cmd>, b: seq<Cmd>)
    ensures Run(m, a + b) == Run(Run(m, a), b)
  {
    if b == [] {
      assert a + b == a;
    } else {
      var n := |b| - 1;
      RunJoin(m, a, b[..n]);
      assert (a + b)[..|a + b| - 1] == a + b[..n];
    }
  }

  // ---------- The system ----------

  datatype Entry = Entry(seqNo: nat, cmd: Cmd)

  /**
   total: captured writes, of which the master has executed the first exec.
   wal, nextSeq, lastAcked, syncing: the forwarder.  syncAt: how many were captured before SYNC.
   snap: how many the snapshot contains.  online: the slave has loaded it.
   resent: the slave has applied the head of the log, which is not acknowledged yet.
   */
  datatype Sys = Sys(
    total: seq<Cmd>, exec: nat,
    wal: seq<Entry>, nextSeq: nat, lastAcked: nat, syncing: bool,
    syncAt: nat, snap: Option<nat>, online: bool,
    slave: Store, resent: bool, halted: bool)

  datatype Step =
    | Capture(cmd: Cmd)  // a write passes the forwarder
    | Execute            // the master executes the next captured write
    | Sync               // SYNC passes the forwarder: the log starts anew
    | Snapshot           // the master, having executed SYNC, takes the snapshot
    | FinSync            // the slave has loaded the snapshot and FINSYNC passes the forwarder
    | Deliver            // the head of the log reaches the slave, the first time or again
    | Ack                // its acknowledgement reaches the forwarder

  predicate Enabled(s: Sys, a: Step) {
    match a
    case Capture(_) => true
    case Execute => s.exec < |s.total|
    case Sync => true
    case Snapshot => s.syncing && s.snap.None? && s.syncAt <= s.exec
    case FinSync => s.syncing && s.snap.Some? && s.snap.value <= |s.total|
    case Deliver => !s.syncing && s.online && !s.halted && s.wal != []
    case Ack => s.resent && !s.halted && s.wal != []
  }

  function Next(m0: Store, s: Sys, a: Step): Sys
    requires Enabled(s, a)
  {
    match a
    case Capture(c) => s.(total := s.total + [c], wal := s.wal + [Entry(s.nextSeq, c)], nextSeq := s.nextSeq + 1)
    case Execute => s.(exec := s.exec + 1)
    case Sync =>
      s.(wal := [], nextSeq := 1, lastAcked := 0, syncing := true,
         syncAt := |s.total|, snap := None, online := false, resent := false, halted := false)
    case Snapshot => s.(snap := Some(s.exec))
    case FinSync => s.(syncing := false, online := true, slave := Run(m0, s.total[..s.snap.value]))
    case Deliver =>
      var c := s.wal[0].cmd;
      if c.Mod? && c.key !in s.slave then s.(halted := true)
      else s.(slave := Apply(s.slave, c), resent := true)
    case Ack => s.(wal := s.wal[1..], lastAcked := s.wal[0].seqNo, resent := false)
  }

  const START := Sys([], 0, [], 1, 0, false, 0, None, false, map[], false, false)

  // ---------- Invariant ----------

  /** How many commands of total the log no longer holds. */
  function Popped(s: Sys): int {
    |s.total| - |s.wal|
  }

  /** The commands the slave has applied since the snapshot was loaded, without repetitions. */
  function Applied(s: Sys): int {
    Popped(s) + (if s.resent then 1 else 0)
  }

  ghost predicate LogOk(s: Sys) {
    && s.syncAt <= Popped(s) && s.nextSeq == s.lastAcked + 1 + |s.wal| && (s.resent ==> s.wal != [])
    && forall i :: 0 <= i < |s.wal| ==> s.wal[i] == Entry(s.lastAcked + 1 + i, s.total[Popped(s) + i])
  }

  /** A MOD that was applied found its key. */
  ghost predicate HeadOk(s: Sys) {
    s.resent && s.wal != [] && s.wal[0].cmd.Mod? ==> s.wal[0].cmd.key in s.slave
  }

  ghost predicate Inv(m0: Store, s: Sys) {
    && LogOk(s) && s.exec <= |s.total|
    && (s.snap.Some? ==> s.syncAt <= s.snap.value <= s.exec)
    && (s.syncing ==> !s.online && !s.resent && Popped(s) == s.syncAt)
    && (!s.online ==> !s.resent)
    && (s.online ==> s.snap.Some? && s.slave == Run(Run(m0, s.total[..s.snap.value]), s.total[s.syncAt..Applied(s)]))
    && HeadOk(s)
  }

  lemma CaptureKeeps(m0: Store, s: Sys, c: Cmd)
    requires Inv(m0, s)
    ensures Inv(m0, Next(m0, s, Capture(c)))
  {
    hide Run, Apply;
    var t := Next(m0, s, Capture(c));
    if s.online {
      assert t.total[..s.snap.value] == s.total[..s.snap.value];
      assert t.total[s.syncAt..Applied(s)] == s.total[s.syncAt..Applied(s)];
    }
  }

  lemma DeliverKeeps(m0: Store, s: Sys)
    requires Inv(m0, s) && Enabled(s, Deliver)
    ensures Inv(m0, Next(m0, s, Deliver))
  {
    hide Run, Apply;
    var p := Popped(s);
    assert s.wal[0] == Entry(s.lastAcked + 1, s.total[p]);
    var base := Run(m0, s.total[..s.snap.value]);
    RunNext(base, s.total, s.syncAt, p);
    Idempotent(Run(base, s.total[s.syncAt..p]), s.total[p]);
    ModStays(s.slave, s.total[p]);
  }

  lemma ModStays(m: Store, c: Cmd)
    ensures c.key in m && c.Mod? ==> c.key in Apply(m, c)
  {
  }

  lemma RunNext(m: Store, total: seq<Cmd>, a: nat, p: nat)
    requires a <= p < |total|
    ensures Run(m, total[a..p + 1]) == Apply(Run(m, total[a..p]), total[p])
  {
    var after := total[a..p + 1];
    assert after[..|after| - 1] == total[a..p];
  }

  lemma Idempotent(m: Store, c: Cmd)
    ensures Apply(Apply(m, c), c) == Apply(m, c)
  {
  }

  lemma StepKeeps(m0: Store, s: Sys, a: Step)
    requires Inv(m0, s) && Enabled(s, a)
    ensures Inv(m0, Next(m0, s, a))
  {
    match a
    case Capture(c) => CaptureKeeps(m0, s, c);
    case Deliver => DeliverKeeps(m0, s);
    case FinSync =>
      assert s.total[s.syncAt..Applied(s)] == [];
    case Ack =>
      hide Run;
      assert Popped(Next(m0, s, Ack)) == Popped(s) + 1;
    case Execute =>
      hide Run;
    case Sync =>
    case Snapshot =>
  }

  ghost predicate IsRun(m0: Store, s: Sys, steps: seq<Step>, t: Sys)
    requires Inv(m0, s)
    decreases |steps|
  {
    if steps == [] then s == t
    else Enabled(s, steps[0]) && (StepKeeps(m0, s, steps[0]); IsRun(m0, Next(m0, s, steps[0]), steps[1..], t))
  }

  lemma {:induction false} RunKeeps(m0: Store, s: Sys, steps: seq<Step>, t: Sys)
    requires Inv(m0, s) && IsRun(m0, s, steps, t)
    ensures Inv(m0, t)
    decreases |steps|
  {
    if steps != [] {
      StepKeeps(m0, s, steps[0]);
      RunKeeps(m0, Next(m0, s, steps[0]), steps[1..], t);
    }
  }

  // ---------- Main results ----------

  /** In every reachable state the log numbers consecutively exactly the writes not yet acknowledged. */
  lemma LogIsConsecutive(m0: Store, steps: seq<Step>, t: Sys)
    requires IsRun(m0, START, steps, t)
    ensures |t.wal| <= |t.total| && t.nextSeq == t.lastAcked + 1 + |t.wal|
    ensures forall i :: 0 <= i < |t.wal| ==> t.wal[i] == Entry(t.lastAcked + 1 + i, t.total[|t.total| - |t.wal| + i])
  {
    RunKeeps(m0, START, steps, t);
  }

  /** Once the slave has replayed past the snapshot, its store is a store the master has had or will have. */
  lemma PrefixConsistent(m0: Store, steps: seq<Step>, t: Sys)
    requires IsRun(m0, START, steps, t) && t.online && t.snap.Some? && t.snap.value <= Applied(t)
    ensures 0 <= Applied(t) <= |t.total| && t.slave == Run(m0, t.total[..Applied(t)])
  {
    RunKeeps(m0, START, steps, t);
    CaughtUp(m0, t);
  }

  lemma CaughtUp(m0: Store, t: Sys)
    requires Inv(m0, t) && t.online && t.snap.value <= Applied(t)
    ensures 0 <= Applied(t) <= |t.total| && t.slave == Run(m0, t.total[..Applied(t)])
  {
    hide Run, LogOk, HeadOk;
    assert 0 <= Applied(t) <= |t.total| by { LogBounds(t); }
    ReplayFrom(m0, t.total, t.syncAt, t.snap.value, Applied(t));
  }

  /** Replaying from SYNC on over the snapshot gives the store of the whole history. */
  lemma ReplayFrom(m0: Store, total: seq<Cmd>, from: nat, snap: nat, a: nat)
    requires from <= snap <= a <= |total|
    ensures Run(Run(m0, total[..snap]), total[from..a]) == Run(m0, total[..a])
  {
    hide Run;
    var base, cs := Run(m0, total[..from]), total[from..a];
    RunSplit(m0, total, from, snap);
    RunSplit(m0, total, from, a);
    assert cs[..snap - from] == total[from..snap];
    ReplayOverSnapshot(base, cs, snap - from);
  }

  lemma RunSplit(m: Store, total: seq<Cmd>, a: nat, b: nat)
    requires a <= b <= |total|
    ensures Run(m, total[..b]) == Run(Run(m, total[..a]), total[a..b])
  {
    hide Run;
    assert total[..b] == total[..a] + total[a..b];
    RunJoin(m, total[..a], total[a..b]);
  }

  lemma LogBounds(t: Sys)
    requires LogOk(t)
    ensures 0 <= Popped(t) <= Applied(t) <= |t.total|
  {
  }

  /** With everything executed and acknowledged, slave and master hold the same store. */
  lemma Converges(m0: Store, steps: seq<Step>, t: Sys)
    requires IsRun(m0, START, steps, t) && t.online && t.wal == [] && t.exec == |t.total|
    ensures t.slave == Run(m0, t.total[..t.exec])
  {
    RunKeeps(m0, START, steps, t);
    PrefixConsistent(m0, steps, t);
  }

  /** Without MOD an online slave can always be brought level with the master. */
  lemma {:induction false} CanConverge(m0: Store, s: Sys) returns (steps: seq<Step>, t: Sys)
    requires Inv(m0, s) && s.online && !s.syncing && !s.halted
    requires forall i :: 0 <= i < |s.wal| ==> !s.wal[i].cmd.Mod?
    ensures IsRun(m0, s, steps, t) && t.total == s.total && t.wal == [] && t.exec == |t.total|
    ensures t.online && t.slave == Run(m0, t.total)
    decreases |s.wal|, |s.total| - s.exec, !s.resent
  {
    hide Run, Apply;
    var a := if s.resent then Ack else if s.wal != [] then Deliver else Execute;
    if s.wal == [] && s.exec == |s.total| {
      steps, t := [], s;
      CaughtUp(m0, s);
      assert s.total[..|s.total|] == s.total;
    } else {
      StepKeeps(m0, s, a);
      var rest;
      rest, t := CanConverge(m0, Next(m0, s, a));
      steps := [a] + rest;
      assert steps[1..] == rest;
    }
  }

  // ---------- Modifications can stop the slave ----------

  /** Without MOD the slave never stops. */
  lemma {:induction false} NeverHalts(m0: Store, s: Sys, steps: seq<Step>, t: Sys)
    requires Inv(m0, s) && IsRun(m0, s, steps, t) && !s.halted
    requires forall i :: 0 <= i < |t.total| ==> !t.total[i].Mod?
    ensures !t.halted
    decreases |steps|
  {
    hide Inv, Next;
    if steps != [] {
      StepKeeps(m0, s, steps[0]);
      var n := Next(m0, s, steps[0]);
      Grows(m0, n, steps[1..], t);
      NoHaltNow(m0, s, steps[0], t.total);
      NeverHalts(m0, n, steps[1..], t);
    }
  }

  lemma NoHaltNow(m0: Store, s: Sys, a: Step, total: seq<Cmd>)
    requires Inv(m0, s) && Enabled(s, a) && !s.halted && Next(m0, s, a).total <= total
    requires forall i :: 0 <= i < |total| ==> !total[i].Mod?
    ensures !Next(m0, s, a).halted
  {
    hide Run, Apply;
    if a.Deliver? {
      assert s.wal[0].cmd == s.total[Popped(s)] == total[Popped(s)];
    }
  }

  lemma {:induction false} Grows(m0: Store, s: Sys, steps: seq<Step>, t: Sys)
    requires Inv(m0, s) && IsRun(m0, s, steps, t)
    ensures s.total <= t.total
    decreases |steps|
  {
    hide Run, Apply, Inv;
    if steps != [] {
      StepKeeps(m0, s, steps[0]);
      Grows(m0, Next(m0, s, steps[0]), steps[1..], t);
    }
  }

  /** Whether the last SET or DEL of a key is a SET; None without either. */
  function LastWrite(cs: seq<Cmd>, k: Key): Option<bool> {
    if cs == [] then None
    else
      var c := cs[|cs| - 1];
      if c.key == k && !c.Mod? then Some(c.Set?) else LastWrite(cs[..|cs| - 1], k)
  }

  function Else(o: Option<bool>, b: bool): bool {
    if o.Some? then o.value else b
  }

  /** The last SET or DEL decides whether a key is there. */
  lemma {:induction false} PresentIff(m: Store, cs: seq<Cmd>, k: Key)
    ensures k in Run(m, cs) <==> Else(LastWrite(cs, k), k in m)
  {
    if cs != [] {
      PresentIff(m, cs[..|cs| - 1], k);
    }
  }

  lemma {:induction false} LastWriteJoin(a: seq<Cmd>, b: seq<Cmd>, k: Key)
    ensures LastWrite(a + b, k) == if LastWrite(b, k).Some? then LastWrite(b, k) else LastWrite(a, k)
  {
    if b == [] {
      assert a + b == a;
    } else {
      LastWriteJoin(a, b[..|b| - 1], k);
      assert (a + b)[..|a + b| - 1] == a + b[..|b| - 1];
    }
  }

  /** The key's last SET or DEL in cs[from..to], or else in cs[..snap], or else the initial store, leaves it there. */
  predicate Present(m0: Store, cs: seq<Cmd>, snap: nat, from: nat, to: nat, k: Key)
    requires snap <= |cs| && from <= to <= |cs|
  {
    Else(LastWrite(cs[from..to], k), Else(LastWrite(cs[..snap], k), k in m0))
  }

  /**
   A delivery stops the slave exactly if it is the first of a MOD whose key is missing: by its last
   SET or DEL between SYNC and the MOD, or else in the snapshot's part of the history.
   */
  lemma HaltsIff(m0: Store, steps: seq<Step>, t: Sys)
    requires IsRun(m0, START, steps, t) && Enabled(t, Deliver)
    ensures t.snap.Some? && t.snap.value <= |t.total| && t.syncAt <= Popped(t) < |t.total|
    ensures var c := t.total[Popped(t)];
            Next(m0, t, Deliver).halted <==>
            !t.resent && c.Mod? && !Present(m0, t.total, t.snap.value, t.syncAt, Popped(t), c.key)
  {
    RunKeeps(m0, START, steps, t);
    hide Run, Apply, LastWrite;
    LogBounds(t);
    var p := Popped(t);
    var k := t.total[p].key;
    assert t.wal[0].cmd == t.total[p];
    if !t.resent {
      PresentIff(Run(m0, t.total[..t.snap.value]), t.total[t.syncAt..p], k);
      PresentIff(m0, t.total[..t.snap.value], k);
    }
  }

  /**
   A MOD that found its key on the master stops the slave exactly if the snapshot was taken after
   the MOD, the last SET or DEL of the key from the MOD to the snapshot is a DEL, and no SET or DEL
   of the key stands between SYNC and the MOD.
   */
  lemma SucceededButHaltsIff(m0: Store, steps: seq<Step>, t: Sys)
    requires IsRun(m0, START, steps, t) && Enabled(t, Deliver) && !t.resent
    ensures t.snap.Some? && t.snap.value <= |t.total| && t.syncAt <= Popped(t) < |t.total|
    ensures var c, p, snap := t.total[Popped(t)], Popped(t), t.snap.value;
            c.Mod? && c.key in Run(m0, t.total[..p]) ==>
            (Next(m0, t, Deliver).halted <==>
             && LastWrite(t.total[t.syncAt..p], c.key) == None
             && p < snap && LastWrite(t.total[p..snap], c.key) == Some(false))
  {
    HaltsIff(m0, steps, t);
    SnapBefore(m0, steps, t);
    hide Run, Apply, LastWrite, IsRun, Next, Present;
    var k := t.total[Popped(t)].key;
    PresentIff(m0, t.total[..Popped(t)], k);
    if t.total[Popped(t)].Mod? && k in Run(m0, t.total[..Popped(t)]) {
      MissingIff(m0, t.total, t.snap.value, t.syncAt, Popped(t), k);
    }
  }

  /** A key that was there at p is missing for the slave exactly if only the snapshot deleted it. */
  lemma MissingIff(m0: Store, cs: seq<Cmd>, snap: nat, from: nat, p: nat, k: Key)
    requires from <= p <= |cs| && from <= snap <= |cs| && Else(LastWrite(cs[..p], k), k in m0)
    ensures Present(m0, cs, snap, from, p, k) <==>
            !(LastWrite(cs[from..p], k) == None && p < snap && LastWrite(cs[p..snap], k) == Some(false))
  {
    hide LastWrite;
    LastWriteSplit(cs, 0, from, p, k);
    assert cs[0..p] == cs[..p] && cs[0..from] == cs[..from] && cs[0..snap] == cs[..snap];
    if snap > p {
      LastWriteSplit(cs, 0, p, snap, k);
    } else {
      LastWriteSplit(cs, 0, from, snap, k);
      LastWriteSplit(cs, from, snap, p, k);
    }
  }

  lemma LastWriteSplit(cs: seq<Cmd>, a: nat, b: nat, c: nat, k: Key)
    requires a <= b <= c <= |cs|
    ensures LastWrite(cs[a..c], k) == if LastWrite(cs[b..c], k).Some? then LastWrite(cs[b..c], k)
            else LastWrite(cs[a..b], k)
  {
    hide LastWrite;
    assert cs[a..c] == cs[a..b] + cs[b..c];
    LastWriteJoin(cs[a..b], cs[b..c], k);
  }

  lemma SnapBefore(m0: Store, steps: seq<Step>, t: Sys)
    requires IsRun(m0, START, steps, t) && t.snap.Some?
    ensures t.syncAt <= t.snap.value
  {
    RunKeeps(m0, START, steps, t);
  }

  /** A MOD that succeeded on the master stops a slave whose snapshot was taken after the key was deleted. */
  lemma ModHalts(k: Key, v: bytes)
    ensures exists steps, t ::
            IsRun(map[k := v], START, steps, t) && t.halted && t.total == [Mod(k, []), Del(k)] && t.exec == 2
  {
    var m0, c, d := map[k := v], Mod(k, []), Del(k);
    var s1 := START.(syncing := true);
    var s2 := s1.(total := [c], wal := [Entry(1, c)], nextSeq := 2);
    var s3 := s2.(total := [c, d], wal := [Entry(1, c), Entry(2, d)], nextSeq := 3);
    var s5 := s3.(exec := 2);
    var s6 := s5.(snap := Some(2));
    var s7 := s6.(syncing := false, online := true);
    var t := s7.(halted := true);
    assert Next(m0, START, Sync) == s1 && Next(m0, s1, Capture(c)) == s2 && Next(m0, s2, Capture(d)) == s3;
    assert Next(m0, s3, Execute) == s3.(exec := 1) && Next(m0, s3.(exec := 1), Execute) == s5;
    assert Next(m0, s5, Snapshot) == s6 && Next(m0, s7, Deliver) == t;
    assert Next(m0, s6, FinSync) == s7 by { EmptySnapshot(k, v, [c, d]); }
    hide Next;
    StepKeeps(m0, START, Sync);
    StepKeeps(m0, s1, Capture(c));
    StepKeeps(m0, s2, Capture(d));
    StepKeeps(m0, s3, Execute);
    StepKeeps(m0, s3.(exec := 1), Execute);
    StepKeeps(m0, s5, Snapshot);
    StepKeeps(m0, s6, FinSync);
    StepKeeps(m0, s7, Deliver);
    hide Inv;
    var r := First(m0, s7, Deliver, [], t);
    r := First(m0, s6, FinSync, r, t);
    r := First(m0, s5, Snapshot, r, t);
    r := First(m0, s3.(exec := 1), Execute, r, t);
    r := First(m0, s3, Execute, r, t);
    r := First(m0, s2, Capture(d), r, t);
    r := First(m0, s1, Capture(c), r, t);
    r := First(m0, START, Sync, r, t);
  }

  lemma EmptySnapshot(k: Key, v: bytes, cs: seq<Cmd>)
    requires cs == [Mod(k, []), Del(k)]
    ensures Run(map[k := v], cs[..2]) == map[]
  {
    assert cs[..2] == cs && cs[..1] == [Mod(k, [])] && [Mod(k, [])][..0] == [];
    assert Run(map[k := v], [Mod(k, [])]) == map[k := []];
  }

  lemma First(m0: Store, s: Sys, a: Step, rest: seq<Step>, t: Sys) returns (steps: seq<Step>)
    requires Inv(m0, s) && Enabled(s, a)
    requires Inv(m0, Next(m0, s, a)) && IsRun(m0, Next(m0, s, a), rest, t)
    ensures steps == [a] + rest && IsRun(m0, s, steps, t)
  {
    steps := [a] + rest;
    assert steps[1..] == rest;
  }
}
