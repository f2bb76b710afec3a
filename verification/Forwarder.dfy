/**
 The forwarder's mutable state: the buffer of a captured flow, compacted in place, and the ring
 of commands waiting for the slave.
 */
module ForwarderState {
  import opened Common
  import opened Resp
  import opened Streams
  import opened Tcp

  class FlowState {
    var buf: array<byte>
    var len: nat
    var haveSeq: bool
    var nextSeq: nat

    ghost predicate Valid()
      reads this
    {
      buf.Length == FLOW_BUF_MAX && len <= buf.Length
    }

    ghost function State(): Flow
      reads this, buf
      requires Valid()
    {
      Flow(haveSeq, nextSeq, buf[..len])
    }

    constructor ()
      ensures Valid() && fresh(buf) && State() == IDLE
    {
      buf := new byte[FLOW_BUF_MAX];
      len, haveSeq, nextSeq := 0, false, 0;
    }

    method Reset()
      requires Valid()
      modifies this`len, this`haveSeq, this`nextSeq
      ensures Valid() && State() == IDLE
    {
      len, haveSeq, nextSeq := 0, false, 0;
    }

    /** Drop the first n bytes. */
    method Shift(n: nat)
      requires Valid() && n <= len
      modifies this`len, buf
      ensures Valid() && buf[..len] == old(buf[..len])[n..]
    {
      var remain := len - n;
      forall i | 0 <= i < remain {
        buf[i] := buf[n + i];
      }
      len := remain;
    }

    method Append(payload: bytes)
      requires Valid() && len + |payload| <= FLOW_BUF_MAX
      modifies this`len, buf
      ensures Valid() && buf[..len] == old(buf[..len]) + payload
    {
      ghost var before := buf[..len];
      forall i | 0 <= i < |payload| {
        buf[len + i] := payload[i];
      }
      len := len + |payload|;
      assert buf[..len] == before + payload;
    }

    /** Cut complete commands off the front; an error resets the flow. */
    method ExtractCommands() returns (cmds: seq<bytes>)
      requires Valid()
      modifies this, buf
      ensures Valid() && buf == old(buf)
      ensures var d := Drain(Forwarder, old(buf[..len]));
              && cmds == d.cmds
              && State() == if GivesUp(d.rest) then IDLE else Flow(old(haveSeq), old(nextSeq), d.rest)
    {
      hide Drain, FlowFrame, Continue;
      cmds := [];
      ghost var all := buf[..len];
      ContinueFirst(Forwarder, all);
      while len > 0
        invariant Valid() && buf == old(buf) && haveSeq == old(haveSeq) && nextSeq == old(nextSeq)
        invariant Drain(Forwarder, all) == Continue(Forwarder, cmds, buf[..len])
        decreases len
      {
        var cur := buf[..len];
        var n := CommandLen(cur);
        if n <= 0 {
          ContinueLast(Forwarder, cmds, cur);
          if n < 0 {
            Reset();
          }
          return;
        }
        ContinueNext(Forwarder, cmds, cur);
        cmds := cmds + [cur[..n]];
        Shift(n);
      }
      assert buf[..len] == [];
      EmptyNeeds();
      ContinueLast(Forwarder, cmds, []);
    }

    /** normalize_payload_by_seq: 0 with the fresh bytes, 1 for a duplicate, -1 and a reset for a gap. */
    method NormalizePayload(s: Segment) returns (ret: int, payload: bytes)
      requires Valid() && |s.payload| == s.fullLen
      modifies this`len, this`haveSeq, this`nextSeq
      ensures Valid()
      ensures match Normalize(old(State()), s)
              case Accept(next, accepted) => ret == 0 && payload == accepted
                  && State() == Flow(true, next, old(buf[..len]))
              case Duplicate => ret == 1 && State() == old(State())
              case Gap => ret == -1 && State() == IDLE
    {
      payload := s.payload;
      if !haveSeq {
        haveSeq, nextSeq := true, (s.seqNo + s.fullLen) % WRAP;
        return 0, payload;
      }
      if s.seqNo == nextSeq {
        nextSeq := (nextSeq + s.fullLen) % WRAP;
        return 0, payload;
      }
      if SeqBefore(s.seqNo, nextSeq) {
        var overlap := (nextSeq - s.seqNo) % WRAP;
        if overlap >= s.fullLen {
          return 1, payload;
        }
        payload := payload[overlap..];
        nextSeq := (nextSeq + |payload|) % WRAP;
        return 0, payload;
      }
      Reset();
      return -1, payload;
    }

    /** One captured segment. */
    method HandleEvent(s: Segment) returns (cmds: seq<bytes>)
      requires Valid() && |s.payload| <= s.fullLen
      modifies this, buf
      ensures Valid() && buf == old(buf)
      ensures State() == Tcp.HandleEvent(old(State()), s).flow && cmds == Tcp.HandleEvent(old(State()), s).cmds
    {
      hide Drain, GivesUp, Normalize;
      cmds := [];
      if |s.payload| == 0 || |s.payload| > MAX_DATA {
        return;
      }
      if s.fullLen > |s.payload| {
        Reset();
        return;
      }
      var ret, payload := NormalizePayload(s);
      if ret != 0 {
        return;
      }
      if len + |payload| > FLOW_BUF_MAX {
        Reset();
        return;
      }
      Append(payload);
      cmds := ExtractCommands();
    }
  }

  lemma EmptyNeeds()
    ensures FlowFrame([]) == Need && !GivesUp([])
  {
  }

  // ---------- The ring of waiting commands ----------

  const WAL_RING_CAP := 65536
  const WAL_MAX_BYTES := 536870912
  const MAX_CMD_LEN := 8388608

  datatype WalEntry = WalEntry(seqNo: nat, data: bytes)

  const EMPTY := WalEntry(0, [])

  function Bytes(q: seq<WalEntry>): nat {
    if q == [] then 0 else Bytes(q[..|q| - 1]) + |q[|q| - 1].data|
  }

  lemma {:induction false} BytesTail(q: seq<WalEntry>)
    requires q != []
    ensures Bytes(q) == |q[0].data| + Bytes(q[1..])
  {
    if |q| > 1 {
      var n := |q| - 1;
      BytesTail(q[..n]);
      assert q[1..][..n - 1] == q[..n][1..];
    }
  }

  function Slot(head: nat, i: nat): (r: nat)
    ensures r < WAL_RING_CAP
  {
    (head + i) % WAL_RING_CAP
  }

  /** The ring holds the queue from head on. */
  predicate Holds(ring: seq<WalEntry>, head: nat, queue: seq<WalEntry>)
    requires |ring| == WAL_RING_CAP
  {
    forall i :: 0 <= i < |queue| ==> ring[Slot(head, i)] == queue[i]
  }

  predicate Numbered(queue: seq<WalEntry>, first: nat) {
    forall i :: 0 <= i < |queue| ==> queue[i].seqNo == first + i
  }

  lemma NumberedTail(queue: seq<WalEntry>, first: nat)
    requires queue != [] && Numbered(queue, first)
    ensures queue[0].seqNo == first && Numbered(queue[1..], first + 1)
  {
  }

  lemma SlotsDiffer(head: nat, i: nat, j: nat)
    requires i < j < i + WAL_RING_CAP
    ensures Slot(head, i) != Slot(head, j)
  {
    DistinctResidues(head + i, head + j, WAL_RING_CAP);
  }

  lemma SlotNext(head: nat, i: nat)
    ensures Slot(Slot(head, 1), i) == Slot(head, i + 1)
    ensures (Slot(head, i) + 1) % WAL_RING_CAP == Slot(head, i + 1)
  {
    ModShift(head + 1, i, WAL_RING_CAP);
    ModShift(head + i, 1, WAL_RING_CAP);
  }

  lemma SlotZero(head: nat)
    requires head < WAL_RING_CAP
    ensures Slot(head, 0) == head
  {
  }

  lemma PushHolds(ring: seq<WalEntry>, head: nat, queue: seq<WalEntry>, e: WalEntry)
    requires |ring| == WAL_RING_CAP && Holds(ring, head, queue) && |queue| < WAL_RING_CAP
    ensures Holds(ring[Slot(head, |queue|) := e], head, queue + [e])
    ensures Slot(head, |queue| + 1) == (Slot(head, |queue|) + 1) % WAL_RING_CAP
    ensures Bytes(queue + [e]) == Bytes(queue) + |e.data|
  {
    hide Slot;
    forall i | 0 <= i < |queue|
      ensures Slot(head, i) != Slot(head, |queue|)
    {
      SlotsDiffer(head, i, |queue|);
    }
    SlotNext(head, |queue|);
    assert (queue + [e])[..|queue|] == queue;
  }

  lemma PopHolds(ring: seq<WalEntry>, head: nat, queue: seq<WalEntry>, e: WalEntry)
    requires |ring| == WAL_RING_CAP && Holds(ring, head, queue) && 0 < |queue| <= WAL_RING_CAP && head < WAL_RING_CAP
    ensures ring[head] == queue[0]
    ensures Holds(ring[head := e], Slot(head, 1), queue[1..])
    ensures Slot(Slot(head, 1), |queue| - 1) == Slot(head, |queue|)
    ensures Bytes(queue) == |queue[0].data| + Bytes(queue[1..])
  {
    hide Slot;
    BytesTail(queue);
    SlotZero(head);
    SlotNext(head, |queue| - 1);
    forall i | 0 <= i < |queue| - 1
      ensures Slot(Slot(head, 1), i) == Slot(head, i + 1) != head
    {
      SlotNext(head, i);
      SlotsDiffer(head, 0, i + 1);
    }
  }

  class Wal {
    var ring: array<WalEntry>
    var head: nat
    var tail: nat
    var nextSeq: nat
    var lastAcked: nat
    var size: nat
    var count: nat
    ghost var queue: seq<WalEntry>

    /** The ring holds the queue, numbered consecutively behind the last acknowledged command. */
    ghost predicate Valid()
      reads this, ring
    {
      && ring.Length == WAL_RING_CAP && head < WAL_RING_CAP && count == |queue| <= WAL_RING_CAP
      && tail == Slot(head, count) && Holds(ring[..], head, queue)
      && size == Bytes(queue) <= WAL_MAX_BYTES
      && nextSeq == lastAcked + 1 + count && Numbered(queue, lastAcked + 1)
    }

    constructor ()
      ensures Valid() && fresh(ring) && queue == [] && lastAcked == 0
    {
      ring := new WalEntry[WAL_RING_CAP](_ => EMPTY);
      head, tail, nextSeq, lastAcked, size, count, queue := 0, 0, 1, 0, 0, 0, [];
    }

    method Clear()
      requires Valid()
      modifies this, ring
      ensures Valid() && ring == old(ring) && queue == [] && lastAcked == 0
    {
      forall i | 0 <= i < ring.Length {
        ring[i] := EMPTY;
      }
      head, tail, nextSeq, lastAcked, size, count, queue := 0, 0, 1, 0, 0, 0, [];
    }

    method Push(data: bytes) returns (ret: int)
      requires Valid()
      modifies this, ring
      ensures Valid() && ring == old(ring) && lastAcked == old(lastAcked)
      ensures ret == if data == [] then 0
                     else if |data| > 8388608 || Bytes(old(queue)) + |data| > 536870912
                         || |old(queue)| >= 65536 then -1
                     else 0
      ensures queue == if ret == 0 && data != [] then old(queue) + [WalEntry(old(nextSeq), data)] else old(queue)
    {
      hide Slot, Holds, Bytes;
      if |data| == 0 {
        return 0;
      }
      if |data| > MAX_CMD_LEN || size + |data| > WAL_MAX_BYTES || count >= WAL_RING_CAP {
        return -1;
      }
      var e := WalEntry(nextSeq, data);
      PushHolds(ring[..], head, queue, e);
      ring[tail] := e;
      assert ring[..] == old(ring[..])[tail := e];
      queue := queue + [e];
      nextSeq := nextSeq + 1;
      tail := (tail + 1) % WAL_RING_CAP;
      size := size + |data|;
      count := count + 1;
      return 0;
    }

    method PopHead()
      requires Valid()
      modifies this, ring
      ensures Valid() && ring == old(ring)
      ensures queue == if old(queue) == [] then [] else old(queue)[1..]
      ensures lastAcked == if old(queue) == [] then old(lastAcked) else old(queue)[0].seqNo
    {
      hide Slot, Holds, Bytes, Numbered;
      if count > 0 {
        DropHead();
      }
    }

    method DropHead()
      requires Valid() && count > 0
      modifies this, ring
      ensures Valid() && ring == old(ring) && queue == old(queue)[1..] && lastAcked == old(queue)[0].seqNo
    {
      hide Slot, Holds, Bytes, Numbered;
      SlotZero(head);
      SlotNext(head, 0);
      NumberedTail(queue, lastAcked + 1);
      PopHolds(ring[..], head, queue, EMPTY);
      ghost var before := ring[..];
      var e := ring[head];
      ring[head] := EMPTY;
      assert ring[..] == before[head := EMPTY];
      queue := queue[1..];
      head, count, size, lastAcked := (head + 1) % WAL_RING_CAP, count - 1, size - |e.data|, e.seqNo;
    }

    /** Send the head and wait for its acknowledgement, until the log is empty or the connection fails after `acks`. */
    method Flush(acks: nat) returns (ret: int)
      requires Valid()
      modifies this, ring
      ensures Valid() && ring == old(ring)
      ensures ret == if acks < |old(queue)| then -1 else 0
      ensures queue == old(queue)[Min(acks, |old(queue)|)..] && lastAcked == old(lastAcked) + Min(acks, |old(queue)|)
    {
      hide Slot, Holds, Bytes;
      var done := 0;
      while count > 0
        invariant Valid() && ring == old(ring) && done <= acks && done <= |old(queue)|
        invariant queue == old(queue)[done..] && lastAcked == old(lastAcked) + done
        decreases count
      {
        if done == acks {
          return -1;
        }
        PopHead();
        done := done + 1;
      }
      return 0;
    }
  }
}
