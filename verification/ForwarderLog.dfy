/**
 The ring of waiting commands performs the log part of the replication model: pushing a command is
 its capture, dropping the head is its acknowledgement, and clearing the ring is SYNC.
 */
module ForwarderLog {
  import opened Common
  import opened ForwarderState
  import R = Replication

  /** The ring holds the log of the replication model, each command in its captured bytes. */
  ghost predicate Logs(w: Wal, s: R.Sys, parse: bytes -> R.Cmd)
    reads w
  {
    && |w.queue| == |s.wal| && w.nextSeq == s.nextSeq && w.lastAcked == s.lastAcked
    && forall i :: 0 <= i < |s.wal| ==> s.wal[i] == R.Entry(w.queue[i].seqNo, parse(w.queue[i].data))
  }

  /** The forwarder starts with an empty log, as the model does. */
  method Begin(ghost parse: bytes -> R.Cmd) returns (w: Wal)
    ensures fresh(w) && fresh(w.ring) && w.Valid() && Logs(w, R.START, parse)
  {
    w := new Wal();
  }

  /** A captured write is logged; -1 means that it exceeds a limit, and then nothing changes. */
  method CaptureWrite(w: Wal, data: bytes, ghost m0: R.Store, ghost s: R.Sys, ghost parse: bytes -> R.Cmd)
    returns (ret: int)
    requires w.Valid() && Logs(w, s, parse) && data != []
    modifies w, w.ring
    ensures w.Valid() && w.ring == old(w.ring)
    ensures ret == if |data| > 8388608 || Bytes(old(w.queue)) + |data| > 536870912
                      || |old(w.queue)| >= 65536 then -1 else 0
    ensures Logs(w, if ret == 0 then R.Next(m0, s, R.Capture(parse(data))) else s, parse)
  {
    hide Slot, Holds, Bytes, R.Run, R.Apply;
    ret := w.Push(data);
  }

  /** The head was acknowledged. */
  method AckHead(w: Wal, ghost m0: R.Store, ghost s: R.Sys, ghost parse: bytes -> R.Cmd)
    requires w.Valid() && Logs(w, s, parse) && R.Enabled(s, R.Ack)
    modifies w, w.ring
    ensures w.Valid() && w.ring == old(w.ring) && Logs(w, R.Next(m0, s, R.Ack), parse)
  {
    hide Slot, Holds, Bytes, R.Run, R.Apply;
    w.PopHead();
    assert w.nextSeq == old(w.nextSeq);
  }

  /** SYNC passes: the log starts anew. */
  method StartSync(w: Wal, ghost m0: R.Store, ghost s: R.Sys, ghost parse: bytes -> R.Cmd)
    requires w.Valid() && Logs(w, s, parse)
    modifies w, w.ring
    ensures w.Valid() && w.ring == old(w.ring) && Logs(w, R.Next(m0, s, R.Sync), parse)
  {
    hide Slot, Holds, Bytes, R.Run, R.Apply;
    w.Clear();
  }

  /** Deliver the head and have it acknowledged, n times. */
  ghost predicate Flushes(m0: R.Store, s: R.Sys, n: nat, t: R.Sys)
    decreases n
  {
    if n == 0 then s == t
    else
      && R.Enabled(s, R.Deliver)
      && var d := R.Next(m0, s, R.Deliver);
      R.Enabled(d, R.Ack) && Flushes(m0, R.Next(m0, d, R.Ack), n - 1, t)
  }

  lemma {:induction false} FlushDrops(m0: R.Store, s: R.Sys, n: nat, t: R.Sys)
    requires Flushes(m0, s, n, t)
    ensures n <= |s.wal| && t.wal == s.wal[n..] && t.nextSeq == s.nextSeq
    ensures t.lastAcked == if n == 0 then s.lastAcked else s.wal[n - 1].seqNo
    decreases n
  {
    hide R.Run, R.Apply;
    if n > 0 {
      var u := R.Next(m0, R.Next(m0, s, R.Deliver), R.Ack);
      assert u.wal == s.wal[1..];
      FlushDrops(m0, u, n - 1, t);
    }
  }

  /** Flushing the ring performs one delivery and one acknowledgement for each command it drops. */
  method FlushLog(w: Wal, acks: nat, ghost m0: R.Store, ghost s: R.Sys, ghost t: R.Sys, ghost parse: bytes -> R.Cmd)
    returns (ret: int)
    requires w.Valid() && Logs(w, s, parse) && Flushes(m0, s, Min(acks, |w.queue|), t)
    modifies w, w.ring
    ensures w.Valid() && w.ring == old(w.ring) && Logs(w, t, parse)
    ensures ret == 0 <==> t.wal == []
  {
    hide Slot, Holds, Bytes, R.Run, R.Apply, Flushes;
    ghost var n := Min(acks, |w.queue|);
    FlushDrops(m0, s, n, t);
    ret := w.Flush(acks);
  }
}
