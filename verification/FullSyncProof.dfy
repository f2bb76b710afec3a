/**
 What every run of the full synchronisation keeps, when it completes, and why it cannot stall.

 The whole state is pinned down by a few counters: how many WRITEs were executed, how many of
 their completions were polled, and so on down to the highest acknowledgement polled.
 */
module FullSyncProof {
  import opened Common
  import opened FullSync

  // ---------- How the snapshot is cut into chunks ----------

  /** Offset of the chunk with sequence number q >= 1. */
  function Off(c: Config, q: nat): nat
    requires c.Valid()
  {
    if q <= 1 then 0 else Off(c, q - 1) + c.MaxPayload()
  }

  function ChunksFrom(c: Config, off: nat): (n: nat)
    requires c.Valid()
    ensures n >= 1
    decreases Max(0, |c.snapshot| - off)
  {
    if off + c.MaxPayload() >= |c.snapshot| then 1 else 1 + ChunksFrom(c, off + c.MaxPayload())
  }

  /** Number of chunks of the snapshot; an empty snapshot still has one. */
  function Chunks(c: Config): (n: nat)
    requires c.Valid()
    ensures n >= 1
  {
    ChunksFrom(c, 0)
  }

  lemma {:induction false} ChunksLeft(c: Config, q: nat)
    requires c.Valid() && 1 <= q <= Chunks(c)
    ensures ChunksFrom(c, Off(c, q)) == Chunks(c) - q + 1
  {
    if q > 1 {
      ChunksLeft(c, q - 1);
      assert ChunksFrom(c, Off(c, q - 1)) > 1;
    }
  }

  lemma ChunkBounds(c: Config, q: nat)
    requires c.Valid() && 1 <= q <= Chunks(c)
    ensures q < Chunks(c) <==> Off(c, q) + c.MaxPayload() < |c.snapshot|
    ensures |c.snapshot| > 0 ==> Off(c, q) < |c.snapshot|
    ensures |c.snapshot| == 0 ==> Chunks(c) == 1
  {
    ChunksLeft(c, q);
    if q > 1 {
      ChunksLeft(c, q - 1);
    }
  }

  /** Bytes of the snapshot carried by the first p chunks. */
  function Got(c: Config, p: nat): nat
    requires c.Valid()
  {
    Min(Off(c, p + 1), |c.snapshot|)
  }

  lemma GotAll(c: Config)
    requires c.Valid()
    ensures Got(c, Chunks(c)) == |c.snapshot|
  {
    ChunkBounds(c, Chunks(c));
  }

  function SlotOf(c: Config, q: nat): (i: nat)
    requires c.Valid() && q >= 1
    ensures i < c.slotCount
  {
    (q - 1) % c.slotCount
  }

  lemma SlotsDiffer(c: Config, a: nat, b: nat)
    requires c.Valid() && 1 <= a < b < a + c.slotCount
    ensures SlotOf(c, a) != SlotOf(c, b)
  {
    DistinctResidues(a - 1, b - 1, c.slotCount);
  }

  lemma SlotWraps(c: Config, q: nat)
    requires c.Valid() && q >= 1
    ensures SlotOf(c, q + c.slotCount) == SlotOf(c, q)
  {
    var n, a := c.slotCount, q - 1;
    assert a + n == n * (a / n + 1) + a % n;
    ModUnique(a + n, n, a / n + 1, a % n);
  }

  lemma SlotSmall(c: Config, q: nat)
    requires c.Valid() && 1 <= q <= Chunks(c) && WithinWindow(c)
    ensures SlotOf(c, q) < WINDOW
  {
    if c.slotCount > WINDOW {
      ModUnique(q - 1, c.slotCount, 0, q - 1);
    }
  }

  /** Either the ring fits the master's 64 slots, or the snapshot needs no more than 64. */
  predicate WithinWindow(c: Config)
    requires c.Valid()
  {
    c.slotCount <= WINDOW || Chunks(c) <= WINDOW
  }

  // ---------- The expected transcript ----------

  function ChunkFrame(c: Config, q: nat): Frame
    requires c.Valid() && 1 <= q <= Chunks(c)
  {
    ChunkBounds(c, q);
    var len := if |c.snapshot| == 0 then 0 else Min(|c.snapshot| - Off(c, q), c.MaxPayload());
    var payload := if len == 0 then [] else c.snapshot[Off(c, q)..Off(c, q) + len];
    Frame(MAGIC, VERSION, 0, q, Off(c, q), |c.snapshot|, Fnv(payload), len, q == Chunks(c), SlotOf(c, q), HEADER_LEN,
        payload)
  }

  /**
   The transcript of a synchronisation, tabulated by sequence number (entry 0 is unused):
   the frame of each chunk, the slot it travels in and the bytes received once it is processed.
   */
  datatype Plan = Plan(n: nat, frames: seq<Frame>, slots: seq<nat>, got: seq<nat>)
  {
    predicate Sized() {
      |frames| == |slots| == |got| >= 2 && n >= 1
    }

    function Last(): nat
      requires Sized()
    {
      |frames| - 1
    }

    function Top(acked: nat): nat
      requires Sized()
    {
      Min(Last(), acked + n)
    }
  }

  ghost predicate RowOk(c: Config, p: Plan, q: nat)
    requires c.Valid() && p.Sized() && p.Last() == Chunks(c) && 1 <= q <= p.Last()
  {
    p.frames[q] == ChunkFrame(c, q) && p.slots[q] == SlotOf(c, q) && p.got[q] == Got(c, q)
  }

  ghost predicate PlanFor(c: Config, p: Plan) {
    && c.Valid() && p.Sized() && p.n == c.slotCount && p.Last() == Chunks(c) && p.got[0] == 0
    && forall q {:trigger RowOk(c, p, q)} :: 1 <= q <= p.Last() ==> RowOk(c, p, q)
  }

  lemma MakePlan(c: Config) returns (p: Plan)
    requires c.Valid()
    ensures PlanFor(c, p)
  {
    var k := Chunks(c);
    p := Plan(c.slotCount,
              seq(k + 1, q requires 0 <= q <= k => if q == 0 then BLANK else ChunkFrame(c, q)),
              seq(k + 1, q requires 0 <= q <= k => if q == 0 then 0 else SlotOf(c, q)),
              seq(k + 1, q requires 0 <= q <= k => Got(c, q)));
  }

  lemma PlanSlotsDiffer(c: Config, p: Plan, a: nat, b: nat)
    requires PlanFor(c, p) && 1 <= a < b <= p.Last() && b < a + p.n
    ensures p.slots[a] != p.slots[b]
  {
    assert RowOk(c, p, a) && RowOk(c, p, b);
    SlotsDiffer(c, a, b);
  }

  lemma NextSlotFresh(c: Config, p: Plan, sent: nat, acked: nat)
    requires PlanFor(c, p) && sent < p.Top(acked)
    ensures forall q :: acked < q <= sent ==> p.slots[q] != p.slots[sent + 1]
  {
    forall q | acked < q <= sent
      ensures p.slots[q] != p.slots[sent + 1]
    {
      PlanSlotsDiffer(c, p, q, sent + 1);
    }
  }

  // ---------- Master invariant ----------

  function SlotRecord(p: Plan, q: nat, written: bool): Slot
    requires p.Sized() && q <= p.Last()
  {
    var f := p.frames[q];
    Slot(true, written, false, f.isLast, p.slots[q], q, f.offset, f.len)
  }

  /** Exactly the sequence numbers in (acked, sent] hold a slot. */
  ghost predicate SlotsInv(p: Plan, slots: seq<Slot>, sent: nat, written: nat, acked: nat)
    requires p.Sized() && sent <= p.Last()
  {
    && |slots| == WINDOW
    && (forall q :: acked < q <= sent ==> p.slots[q] < WINDOW)
    && (forall q :: acked < q <= sent ==> slots[p.slots[q]] == SlotRecord(p, q, q <= written))
    && (forall i :: 0 <= i < WINDOW && slots[i].inUse ==>
          acked < slots[i].seqNo <= sent && p.slots[slots[i].seqNo] == i)
  }

  function ChunkCtrl(p: Plan, q: nat): Ctrl
    requires p.Sized() && q <= p.Last()
  {
    Ctrl(MAGIC, CTRL_CHUNK, q, p.slots[q], 0)
  }

  /** Context and buffer of an in-flight number belong to its latest request. */
  ghost predicate BuffersInv(p: Plan, k: Conn, sent: nat, written: nat, acked: nat)
    requires p.Sized() && sent <= p.Last()
  {
    && k.Sized()
    && (forall q :: acked < q <= sent ==> p.slots[q] < WINDOW)
    && (forall q :: acked < q <= sent ==>
          k.ctx[p.slots[q]] == Ctx(if q <= written then CtxSend else CtxWrite, p.slots[q], q))
    && (forall q :: acked < q <= sent && q <= written ==> ReadCtrl(k.buf[p.slots[q]]) == ChunkCtrl(p, q))
    && (forall q :: acked < q <= sent && written < q ==> k.buf[p.slots[q]] == p.frames[q])
  }

  ghost predicate CursorAt(c: Config, p: Plan, m: Master, sent: nat)
    requires p.Sized() && sent <= p.Last()
  {
    && m.nextSeq == sent + 1 && m.replica.snapshot == c.snapshot && m.nextOffset == p.got[sent]
    && (|c.snapshot| == 0 ==> (m.emptySent <==> sent >= 1))
  }

  ghost predicate MasterInv(c: Config, p: Plan, m: Master, sent: nat, written: nat, acked: nat) {
    && c.Valid() && m.Sized() && p.Sized() && PlanFor(c, p)
    && acked <= written <= sent <= p.Last()
    && sent <= acked + p.n
    && CursorAt(c, p, m, sent)
    && !m.failed && !m.finishing && m.doneReplies == 0 && m.replica.state == WaitRdma
    && SlotsInv(p, m.slots, sent, written, acked)
    && BuffersInv(p, m.conn, sent, written, acked)
  }

  lemma CursorOffset(c: Config, p: Plan, m: Master, sent: nat)
    requires p.Sized() && PlanFor(c, p) && sent < p.Last() && CursorAt(c, p, m, sent)
    ensures m.nextOffset == Off(c, sent + 1)
    ensures Off(c, sent + 1) < |c.snapshot| || |c.snapshot| == 0 == sent
  {
    ChunkBounds(c, sent + 1);
    if sent >= 1 {
      assert RowOk(c, p, sent);
      ChunkBounds(c, sent);
    }
  }

  /** The master's next frame is the chunk of its next number. */
  lemma NextFrameIs(c: Config, m: Master, q: nat)
    requires c.Valid() && 1 <= q <= Chunks(c) && m.nextSeq == q && m.replica.snapshot == c.snapshot
    requires m.nextOffset == Off(c, q) && (|c.snapshot| == 0 ==> !m.emptySent)
    ensures Unsent(m) > 0 && NextFrame(c, m, SlotOf(c, q)) == ChunkFrame(c, q)
  {
    hide Fnv, Chunks, Off, SlotOf;
    ChunkBounds(c, q);
  }

  lemma UnsentMeansChunksLeft(c: Config, p: Plan, m: Master, sent: nat)
    requires p.Sized() && PlanFor(c, p) && sent <= p.Last() && CursorAt(c, p, m, sent)
    ensures Unsent(m) == 0 <==> sent == p.Last()
    ensures sent < p.Last() ==>
              && (m.nextSeq - 1) % c.slotCount == p.slots[sent + 1]
              && NextFrame(c, m, p.slots[sent + 1]) == p.frames[sent + 1]
              && m.nextOffset == p.frames[sent + 1].offset
              && m.nextOffset + p.frames[sent + 1].len == p.got[sent + 1]
  {
    hide Fnv, Chunks, Off;
    if sent < p.Last() {
      CursorOffset(c, p, m, sent);
      assert RowOk(c, p, sent + 1);
      hide NextFrame, PlanFor;
      NextFrameIs(c, m, sent + 1);
      FrameLength(c, sent + 1);
    } else {
      assert RowOk(c, p, sent);
      GotAll(c);
    }
  }

  lemma FrameLength(c: Config, q: nat)
    requires c.Valid() && 1 <= q <= Chunks(c)
    ensures ChunkFrame(c, q).offset == Off(c, q) && Off(c, q) + ChunkFrame(c, q).len == Got(c, q)
  {
    hide Fnv, Chunks, SlotOf;
    ChunkBounds(c, q);
    assert Off(c, q + 1) == Off(c, q) + c.MaxPayload();
  }

  lemma SlotBusyIffWindowFull(c: Config, p: Plan, slots: seq<Slot>, sent: nat, written: nat, acked: nat)
    requires PlanFor(c, p) && acked <= sent < p.Last() && sent <= acked + p.n
    requires SlotsInv(p, slots, sent, written, acked)
    requires p.slots[sent + 1] < WINDOW
    ensures slots[p.slots[sent + 1]].inUse <==> sent == acked + p.n
  {
    var i := p.slots[sent + 1];
    if sent == acked + p.n {
      SlotWraps(c, acked + 1);
      assert RowOk(c, p, acked + 1) && RowOk(c, p, sent + 1);
      assert p.slots[acked + 1] == i;
    } else {
      NextSlotFresh(c, p, sent, acked);
    }
  }

  lemma SendKeepsSlots(c: Config, p: Plan, slots: seq<Slot>, sent: nat, written: nat, acked: nat)
    requires PlanFor(c, p) && acked <= written <= sent < p.Top(acked)
    requires SlotsInv(p, slots, sent, written, acked)
    requires p.slots[sent + 1] < WINDOW
    ensures SlotsInv(p, slots[p.slots[sent + 1] := SlotRecord(p, sent + 1, false)], sent + 1, written, acked)
  {
    NextSlotFresh(c, p, sent, acked);
  }

  lemma SendKeepsBuffers(c: Config, p: Plan, k: Conn, sent: nat, written: nat, acked: nat)
    requires PlanFor(c, p) && acked <= written <= sent < p.Top(acked)
    requires BuffersInv(p, k, sent, written, acked)
    requires p.slots[sent + 1] < WINDOW && p.frames[sent + 1].seqNo == sent + 1
    ensures BuffersInv(p, PostWrite(k, p.slots[sent + 1], p.frames[sent + 1]), sent + 1, written, acked)
  {
    NextSlotFresh(c, p, sent, acked);
  }

  lemma SendOneSends(c: Config, p: Plan, m: Master, sent: nat, written: nat, acked: nat) returns (m': Master)
    requires MasterInv(c, p, m, sent, written, acked)
    requires sent < p.Top(acked) && p.slots[sent + 1] < WINDOW
    ensures SendOne(c, m) == Sent(m')
    ensures MasterInv(c, p, m', sent + 1, written, acked)
    ensures m'.conn.sq == m.conn.sq + [WriteWr(p.slots[sent + 1], sent + 1)]
  {
    hide PlanFor, SlotsInv, BuffersInv, NextFrame, Unsent;
    RowBasics(c, p, sent + 1);
    UnsentMeansChunksLeft(c, p, m, sent);
    SlotBusyIffWindowFull(c, p, m.slots, sent, written, acked);
    SendKeepsSlots(c, p, m.slots, sent, written, acked);
    SendKeepsBuffers(c, p, m.conn, sent, written, acked);
    m' := SendOne(c, m).m;
  }

  lemma SendOneStops(c: Config, p: Plan, m: Master, sent: nat, written: nat, acked: nat)
    requires MasterInv(c, p, m, sent, written, acked)
    ensures sent == p.Last() ==> SendOne(c, m) == Blocked
    ensures sent == acked + p.n < p.Last() && p.slots[sent + 1] < WINDOW ==> SendOne(c, m) == Blocked
    ensures sent < p.Last() && p.slots[sent + 1] >= WINDOW ==> SendOne(c, m) == SendFailed
  {
    UnsentMeansChunksLeft(c, p, m, sent);
    if sent < p.Last() && p.slots[sent + 1] < WINDOW {
      SlotBusyIffWindowFull(c, p, m.slots, sent, written, acked);
    }
  }

  // ---------- Request queues ----------

  /** The queue holds WRITEs wlo+1..whi and SENDs slo+1..shi, each in order, interleaved somehow. */
  ghost predicate Tracks(p: Plan, q: seq<Work>, wlo: nat, whi: nat, slo: nat, shi: nat)
    requires p.Sized() && whi <= p.Last() && shi <= p.Last()
    decreases |q|
  {
    if q == [] then wlo == whi && slo == shi
    else match q[0]
      case WriteWr(i, n) => n == wlo + 1 <= whi && i == p.slots[n] && Tracks(p, q[1..], wlo + 1, whi, slo, shi)
      case SendWr(i, n) => n == slo + 1 <= shi && i == p.slots[n] && Tracks(p, q[1..], wlo, whi, slo + 1, shi)
  }

  lemma {:induction false} TracksWrite(p: Plan, q: seq<Work>, wlo: nat, whi: nat, slo: nat, shi: nat)
    requires p.Sized() && whi < p.Last() && shi <= p.Last() && Tracks(p, q, wlo, whi, slo, shi)
    ensures Tracks(p, q + [WriteWr(p.slots[whi + 1], whi + 1)], wlo, whi + 1, slo, shi)
    decreases |q|
  {
    if q != [] {
      assert (q + [WriteWr(p.slots[whi + 1], whi + 1)])[1..] == q[1..] + [WriteWr(p.slots[whi + 1], whi + 1)];
      match q[0]
      case WriteWr(_, _) => TracksWrite(p, q[1..], wlo + 1, whi, slo, shi);
      case SendWr(_, _) => TracksWrite(p, q[1..], wlo, whi, slo + 1, shi);
    }
  }

  lemma {:induction false} TracksSend(p: Plan, q: seq<Work>, wlo: nat, whi: nat, slo: nat, shi: nat)
    requires p.Sized() && whi <= p.Last() && shi < p.Last() && Tracks(p, q, wlo, whi, slo, shi)
    ensures Tracks(p, q + [SendWr(p.slots[shi + 1], shi + 1)], wlo, whi, slo, shi + 1)
    decreases |q|
  {
    if q != [] {
      assert (q + [SendWr(p.slots[shi + 1], shi + 1)])[1..] == q[1..] + [SendWr(p.slots[shi + 1], shi + 1)];
      match q[0]
      case WriteWr(_, _) => TracksSend(p, q[1..], wlo + 1, whi, slo, shi);
      case SendWr(_, _) => TracksSend(p, q[1..], wlo, whi, slo + 1, shi);
    }
  }

  lemma {:induction false} TracksHolds(p: Plan, q: seq<Work>, wlo: nat, whi: nat, slo: nat, shi: nat, n: nat)
    returns (i: nat)
    requires p.Sized() && whi <= p.Last() && shi <= p.Last() && Tracks(p, q, wlo, whi, slo, shi) && slo < n <= shi
    ensures i < |q| && q[i] == SendWr(p.slots[n], n)
    decreases |q|
  {
    match q[0]
    case WriteWr(_, _) =>
      i := TracksHolds(p, q[1..], wlo + 1, whi, slo, shi, n);
      i := i + 1;
    case SendWr(_, k) =>
      if k == n {
        i := 0;
      } else {
        i := TracksHolds(p, q[1..], wlo, whi, slo + 1, shi, n);
        i := i + 1;
      }
  }

  lemma PlanSlotSmall(c: Config, p: Plan, q: nat)
    requires PlanFor(c, p) && WithinWindow(c) && 1 <= q <= p.Last()
    ensures p.slots[q] < WINDOW
  {
    assert RowOk(c, p, q);
    SlotSmall(c, q);
  }

  lemma PumpContinues(c: Config, m: Master, m': Master)
    requires c.Valid() && m.Sized() && m.nextSeq >= 1 && !m.doneReceived && SendOne(c, m) == Sent(m')
    ensures Pump(c, m) == Pump(c, m')
  {
  }

  /** The pump fills the window ... */
  lemma {:induction false} PumpFills(c: Config, p: Plan, m: Master, sent: nat, written: nat, acked: nat)
    requires MasterInv(c, p, m, sent, written, acked) && !m.doneReceived && WithinWindow(c)
    ensures MasterInv(c, p, Pump(c, m), p.Top(acked), written, acked)
    decreases p.Last() - sent
  {
    hide SendOne, SlotsInv, BuffersInv, PlanFor;
    if sent < p.Last() {
      PlanSlotSmall(c, p, sent + 1);
    }
    if sent < p.Top(acked) {
      var m' := SendOneSends(c, p, m, sent, written, acked);
      PumpContinues(c, m, m');
      PumpFills(c, p, m', sent + 1, written, acked);
    } else {
      SendOneStops(c, p, m, sent, written, acked);
    }
  }

  /** ... by posting the missing WRITEs in order. */
  lemma {:induction false} PumpPosts(c: Config, p: Plan, m: Master, sent: nat, written: nat, acked: nat, wlo: nat,
      slo: nat)
    requires MasterInv(c, p, m, sent, written, acked) && !m.doneReceived && WithinWindow(c)
    requires Tracks(p, m.conn.sq, wlo, sent, slo, written)
    ensures Tracks(p, Pump(c, m).conn.sq, wlo, p.Top(acked), slo, written)
    decreases p.Last() - sent
  {
    hide SendOne, SlotsInv, BuffersInv, PlanFor;
    if sent < p.Last() {
      PlanSlotSmall(c, p, sent + 1);
    }
    if sent < p.Top(acked) {
      var m' := SendOneSends(c, p, m, sent, written, acked);
      TracksWrite(p, m.conn.sq, wlo, sent, slo, written);
      PumpContinues(c, m, m');
      PumpPosts(c, p, m', sent + 1, written, acked, wlo, slo);
    } else {
      SendOneStops(c, p, m, sent, written, acked);
    }
  }

  // ---------- Master handlers ----------

  lemma OthersElsewhere(c: Config, p: Plan, sent: nat, acked: nat, n: nat)
    requires PlanFor(c, p) && acked < n <= sent <= p.Last() && sent <= acked + p.n
    ensures forall q :: acked < q <= sent && q != n ==> p.slots[q] != p.slots[n]
  {
    forall q | acked < q <= sent && q != n
      ensures p.slots[q] != p.slots[n]
    {
      PlanSlotsDiffer(c, p, if q < n then q else n, if q < n then n else q);
    }
  }

  lemma WrittenKeepsSlots(c: Config, p: Plan, slots: seq<Slot>, sent: nat, written: nat, acked: nat)
    requires p.Sized() && PlanFor(c, p) && acked <= written < sent <= p.Last() && sent <= acked + p.n
    requires SlotsInv(p, slots, sent, written, acked)
    ensures var i := p.slots[written + 1];
            && i < WINDOW && slots[i].inUse && slots[i].seqNo == written + 1
            && SlotsInv(p, slots[i := slots[i].(writeDone := true)], sent, written + 1, acked)
  {
    hide PlanFor;
    OthersElsewhere(c, p, sent, acked, written + 1);
  }

  /** A WRITE completion turns the slot's buffer and context over to its CHUNK notification. */
  lemma WrittenKeepsBuffers(c: Config, p: Plan, k: Conn, sent: nat, written: nat, acked: nat)
    requires p.Sized() && PlanFor(c, p) && acked <= written < sent <= p.Last() && sent <= acked + p.n
    requires BuffersInv(p, k, sent, written, acked)
    ensures var i := p.slots[written + 1];
            && i < WINDOW && k.ctx[i] == Ctx(CtxWrite, i, written + 1)
            && BuffersInv(p, PostCtrl(k, i, ChunkCtrl(p, written + 1)), sent, written + 1, acked)
  {
    hide PlanFor;
    OthersElsewhere(c, p, sent, acked, written + 1);
  }

  lemma ReleaseNothing(p: Plan, m: Master, sent: nat, written: nat, acked: nat)
    requires p.Sized() && sent <= p.Last() && m.Sized() && SlotsInv(p, m.slots, sent, written, acked)
    ensures Release(m) == m
  {
    forall i | 0 <= i < WINDOW
      ensures ReleaseSlot(m.slots[i]) == m.slots[i]
    {
      if m.slots[i].inUse {
        var q := m.slots[i].seqNo;
        assert m.slots[p.slots[q]] == SlotRecord(p, q, q <= written);
      }
    }
    assert Release(m).slots == m.slots;
  }

  /** A cumulative acknowledgement releases exactly the slots up to it, all of them written. */
  lemma AckReleases(p: Plan, m: Master, sent: nat, written: nat, acked: nat, a: nat)
    requires p.Sized() && sent <= p.Last() && m.Sized()
    requires SlotsInv(p, m.slots, sent, written, acked) && acked <= a <= written <= sent
    ensures SlotsInv(p, Release(AckUpTo(m, a)).slots, sent, written, a)
  {
    var r := Release(AckUpTo(m, a)).slots;
    forall i | 0 <= i < WINDOW
      ensures r[i] == if m.slots[i].inUse && m.slots[i].seqNo <= a then FREE else m.slots[i]
    {
      if m.slots[i].inUse {
        var q := m.slots[i].seqNo;
        assert m.slots[p.slots[q]] == SlotRecord(p, q, q <= written);
      }
    }
  }

  lemma BuffersShrink(p: Plan, k: Conn, sent: nat, written: nat, acked: nat, a: nat)
    requires p.Sized() && sent <= p.Last() && acked <= a
    requires BuffersInv(p, k, sent, written, acked)
    ensures BuffersInv(p, k, sent, written, a)
  {
  }

  // ---------- Slave invariant ----------

  /** The latest acknowledgement due once n chunks are processed and the last one is not. */
  function Acked(n: nat): nat {
    n - n % ACK_EVERY
  }

  lemma AckedNext(n: nat)
    ensures Acked(n) <= n < Acked(n) + 16 && (Acked(n) == 0 <==> n < 16)
    ensures Acked(n + 1) == if n + 1 >= Acked(n) + 16 then n + 1 else Acked(n)
  {
  }

  /** What the slave holds after processing the first n chunks. */
  ghost predicate SlaveInv(c: Config, p: Plan, s: Slave, n: nat)
    requires p.Sized() && n <= p.Last()
  {
    && s.conn.Sized() && !s.failed && s.status == 0 && !s.doneRead
    && p.got[n] <= |c.snapshot| && s.offset == p.got[n]
    && (n < p.Last() ==>
          && s.nextSeq == n + 1 && !s.donePosted && !s.done && s.loaded == None
          && s.lastAcked == Acked(n)
          && s.tmp == if p.got[n] == 0 then None else Some(c.snapshot[..p.got[n]]))
    && (n == p.Last() ==> Committed(c, p, s))
  }

  ghost predicate Committed(c: Config, p: Plan, s: Slave)
    requires p.Sized()
  {
    && s.donePosted && s.doneSeq == p.Last() && s.loaded == Some(c.snapshot) && s.offset == |c.snapshot|
    && s.file == if |c.snapshot| == 0 then None else Some(c.snapshot)
  }

  /** Chunks n+1..w lie untouched in memory; every other slot holds something already processed. */
  ghost predicate MemInv(p: Plan, mem: seq<Frame>, n: nat, w: nat)
    requires p.Sized() && w <= p.Last()
  {
    && |mem| == p.n
    && (forall q :: n < q <= w ==> p.slots[q] < |mem|)
    && (forall q :: n < q <= w ==> mem[p.slots[q]] == p.frames[q])
    && (forall i :: 0 <= i < |mem| ==> mem[i].seqNo <= w)
    && (forall i :: 0 <= i < |mem| && mem[i].seqNo >= 1 ==> p.slots[mem[i].seqNo] == i)
  }

  ghost predicate Notified(p: Plan, rq: seq<Ctrl>, n: nat, ce: nat)
    requires p.Sized() && n <= ce <= p.Last()
  {
    |rq| == ce - n && forall i :: 0 <= i < |rq| ==> rq[i] == ChunkCtrl(p, n + 1 + i)
  }

  // ---------- Acknowledgements in flight ----------

  function AckCtrl(p: Plan, a: nat): Ctrl
    requires p.Sized() && a <= p.Last()
  {
    Ctrl(MAGIC, if a == p.Last() then CTRL_DONE else CTRL_ACK, a, p.got[a], 0)
  }

  /** acks climbs strictly from above lo and ends at hi. */
  ghost predicate AckChain(acks: seq<nat>, lo: nat, hi: nat)
    decreases |acks|
  {
    if acks == [] then lo == hi else lo < acks[0] && AckChain(acks[1..], acks[0], hi)
  }

  lemma {:induction false} AckChainGrows(acks: seq<nat>, lo: nat, hi: nat, a: nat)
    requires AckChain(acks, lo, hi) && hi < a
    ensures AckChain(acks + [a], lo, a)
    decreases |acks|
  {
    if acks == [] {
      assert acks + [a] == [a];
    } else {
      assert (acks + [a])[1..] == acks[1..] + [a];
      AckChainGrows(acks[1..], acks[0], hi, a);
    }
  }

  lemma {:induction false} AckChainBounds(acks: seq<nat>, lo: nat, hi: nat)
    requires AckChain(acks, lo, hi)
    ensures lo + |acks| <= hi
    ensures forall i :: 0 <= i < |acks| ==> lo < acks[i] <= hi
    ensures forall i, j :: 0 <= i < j < |acks| ==> acks[i] < acks[j]
    decreases |acks|
  {
    if acks != [] {
      AckChainBounds(acks[1..], acks[0], hi);
      forall i, j | 0 <= i < j < |acks|
        ensures acks[i] < acks[j]
      {
        assert acks[j] == acks[1..][j - 1];
        if i > 0 {
          assert acks[i] == acks[1..][i - 1];
        }
      }
    }
  }

  /** The acknowledgements posted but not executed are exactly `acks`, and their buffers are intact. */
  ghost predicate PendingAcks(p: Plan, sq: seq<Work>, buf: seq<Frame>, acks: seq<nat>)
    requires p.Sized() && |buf| == SEND_SLOTS
  {
    && |sq| == |acks|
    && (forall i :: 0 <= i < |acks| ==> acks[i] <= p.Last() && sq[i] == SendWr(acks[i] % SEND_SLOTS, acks[i]))
    && (forall i :: 0 <= i < |acks| ==> ReadCtrl(buf[acks[i] % SEND_SLOTS]) == AckCtrl(p, acks[i]))
  }

  ghost predicate ArrivedAcks(p: Plan, rq: seq<Ctrl>, acks: seq<nat>)
    requires p.Sized()
  {
    |rq| == |acks| && forall i :: 0 <= i < |acks| ==> acks[i] <= p.Last() && rq[i] == AckCtrl(p, acks[i])
  }

  lemma PostAckKeepsPending(p: Plan, k: Conn, acks: seq<nat>, lo: nat, a: nat)
    requires p.Sized() && k.Sized() && PendingAcks(p, k.sq, k.buf, acks)
    requires forall i :: 0 <= i < |acks| ==> lo < acks[i] < a
    requires lo < a <= p.Last() && a <= lo + SEND_SLOTS
    ensures var r := PostCtrl(k, a % SEND_SLOTS, AckCtrl(p, a));
            && PendingAcks(p, r.sq, r.buf, acks + [a])
            && r.sq == k.sq + [SendWr(a % SEND_SLOTS, a)]
            && r.ctx[a % SEND_SLOTS].seqNo == a
            && r.rq == k.rq && r.cq == k.cq && r.credits == k.credits
  {
    forall i | 0 <= i < |acks|
      ensures acks[i] % SEND_SLOTS != a % SEND_SLOTS
    {
      DistinctResidues(acks[i], a, SEND_SLOTS);
    }
  }

  /** The DONE message is still on its way, or its completion has been seen. */
  ghost predicate DoneTracked(p: Plan, s: Slave)
    requires p.Sized() && s.conn.Sized()
  {
    var w := SendWr(p.Last() % SEND_SLOTS, p.Last());
    s.conn.ctx[w.slot].seqNo == p.Last() && (s.done || w in s.conn.sq || w in s.conn.cq)
  }

  // ---------- The system invariant ----------

  /**
   w: WRITEs executed.  wc: WRITE completions polled.  ce: CHUNKs executed.  cc: CHUNK completions
   polled.  n: chunks processed.  ar: highest acknowledgement polled by the master.
   arrived, pending: acknowledgements received and not polled, and posted and not executed.
   */
  datatype Count = Count(w: nat, wc: nat, ce: nat, cc: nat, n: nat, ar: nat, arrived: seq<nat>, pending: seq<nat>)

  /** The highest number the slave has acknowledged. */
  function LastAck(p: Plan, s: Slave, n: nat): nat
    requires p.Sized()
  {
    if n == p.Last() then p.Last() else s.lastAcked
  }

  ghost predicate Ordered(p: Plan, k: Count)
    requires p.Sized()
  {
    && k.ar <= k.cc <= k.ce <= k.wc <= k.w <= p.Top(k.ar)
    && k.ar <= k.n <= k.ce && k.ar < p.Last()
  }

  ghost predicate MasterSide(c: Config, p: Plan, m: Master, k: Count)
    requires p.Sized() && Ordered(p, k)
  {
    && MasterInv(c, p, m, p.Top(k.ar), k.wc, k.ar) && !m.doneReceived
    && Tracks(p, m.conn.sq, k.w, p.Top(k.ar), k.ce, k.wc)
    && Tracks(p, m.conn.cq, k.wc, k.w, k.cc, k.ce)
    && ArrivedAcks(p, m.conn.rq, k.arrived)
    && m.conn.credits + |m.conn.rq| == CTRL_RECV_DEPTH
    && m.replica.offset == p.got[k.ar] && m.replica.seqNo == k.ar + 1
  }

  ghost predicate SlaveSide(c: Config, p: Plan, s: Slave, k: Count)
    requires p.Sized() && Ordered(p, k)
  {
    && SlaveInv(c, p, s, k.n)
    && MemInv(p, s.mem, k.n, k.w)
    && Notified(p, s.conn.rq, k.n, k.ce)
    && PendingAcks(p, s.conn.sq, s.conn.buf, k.pending)
    && (k.n == p.Last() ==> DoneTracked(p, s))
    && (k.n < p.Last() ==> s.conn.credits + |s.conn.rq| == WINDOW)
  }

  ghost predicate Running(c: Config, p: Plan, y: Sys, k: Count) {
    && c.Valid() && p.Sized() && p.n == c.slotCount && PlanFor(c, p) && WithinWindow(c)
    && Ordered(p, k)
    && MasterSide(c, p, y.m, k)
    && SlaveSide(c, p, y.s, k)
    && LastAck(p, y.s, k.n) <= k.n
    && AckChain(k.arrived + k.pending, k.ar, LastAck(p, y.s, k.n))
    && y.finsyncs == 0
  }

  ghost predicate Finished(c: Config, p: Plan, y: Sys) {
    && c.Valid() && p.Sized() && PlanFor(c, p) && Sized(y)
    && !y.m.failed && y.m.doneReceived && y.m.finishing && y.m.doneReplies == 1
    && y.m.conn.sq == [] && y.m.conn.cq == [] && y.m.conn.rq == []
    && !y.s.failed && y.s.status == 0 && Committed(c, p, y.s)
    && y.s.conn.sq == [] && y.s.conn.rq == []
    && DoneTracked(p, y.s)
    && (y.s.doneRead ==> y.s.done)
    && y.finsyncs <= 1
    && y.m.replica.state == (if y.s.doneRead && y.finsyncs == 0 then Online else WaitFinsync)
    && (y.finsyncs == 1 ==> y.s.doneRead)
  }

  datatype Phase = Before(k: Count) | After

  ghost predicate InvAt(c: Config, p: Plan, y: Sys, h: Phase) {
    match h
    case Before(k) => Running(c, p, y, k)
    case After => Finished(c, p, y)
  }

  /** Steps still possible: each action lowers it. */
  ghost function Left(p: Plan, y: Sys, h: Phase): int
    requires p.Sized()
  {
    match h
    case Before(k) =>
      (p.Last() - k.w) + (p.Last() - k.wc) + (p.Last() - k.ce) + (p.Last() - k.cc) + 4 * (p.Last() - k.n)
      + 3 * |y.s.conn.sq| + |y.s.conn.cq| + |y.m.conn.rq| + 2
    case After => |y.s.conn.cq| + (if y.s.doneRead then 0 else 2) + y.finsyncs
  }

  // ---------- Each action keeps the invariant ----------

  lemma TracksHead(p: Plan, q: seq<Work>, wlo: nat, whi: nat, slo: nat, shi: nat)
    requires p.Sized() && whi <= p.Last() && shi <= p.Last() && Tracks(p, q, wlo, whi, slo, shi) && q != []
    ensures q[0].WriteWr? ==>
            wlo < whi && q[0] == WriteWr(p.slots[wlo + 1], wlo + 1) && Tracks(p, q[1..], wlo + 1, whi, slo, shi)
    ensures q[0].SendWr? ==>
            slo < shi && q[0] == SendWr(p.slots[slo + 1], slo + 1) && Tracks(p, q[1..], wlo, whi, slo + 1, shi)
  {
  }

  lemma RowBasics(c: Config, p: Plan, q: nat)
    requires PlanFor(c, p) && 1 <= q <= p.Last()
    ensures p.frames[q].seqNo == q && p.slots[q] < p.n
  {
    assert RowOk(c, p, q);
  }

  lemma WriteKeepsMem(c: Config, p: Plan, mem: seq<Frame>, n: nat, w: nat)
    requires p.Sized() && PlanFor(c, p) && w < p.Last() && n <= w && w < n + p.n
    requires MemInv(p, mem, n, w)
    ensures p.slots[w + 1] < |mem| && mem[p.slots[w + 1]].seqNo <= n
    ensures MemInv(p, mem[p.slots[w + 1] := p.frames[w + 1]], n, w + 1)
  {
    hide PlanFor, RowOk;
    RowBasics(c, p, w + 1);
    forall q | n < q <= w
      ensures p.slots[q] != p.slots[w + 1]
    {
      PlanSlotsDiffer(c, p, q, w + 1);
    }
  }

  /** The invariant of the master does not look at its queues. */
  lemma QueuesDontMatter(c: Config, p: Plan, m: Master, m': Master, sent: nat, written: nat, acked: nat)
    requires MasterInv(c, p, m, sent, written, acked)
    requires m' == m.(conn := m'.conn) && m'.conn.ctx == m.conn.ctx && m'.conn.buf == m.conn.buf
    ensures MasterInv(c, p, m', sent, written, acked)
  {
    hide PlanFor, SlotsInv;
  }

  lemma BufferOf(c: Config, p: Plan, m: Master, sent: nat, written: nat, acked: nat, q: nat)
    requires MasterInv(c, p, m, sent, written, acked) && acked < q <= sent
    ensures p.slots[q] < WINDOW
    ensures written < q ==>
            m.conn.buf[p.slots[q]] == p.frames[q] && m.conn.ctx[p.slots[q]] == Ctx(CtxWrite, p.slots[q], q)
    ensures q <= written ==>
            ReadCtrl(m.conn.buf[p.slots[q]]) == ChunkCtrl(p, q) && m.conn.ctx[p.slots[q]] == Ctx(CtxSend, p.slots[q], q)
  {
    hide PlanFor, SlotsInv, ReadCtrl;
  }

  lemma ExecWriteKeeps(c: Config, p: Plan, y: Sys, k: Count) returns (k': Count)
    requires Running(c, p, y, k) && Sized(y) && Enabled(y, MasterExec) && y.m.conn.sq[0].WriteWr?
    ensures Running(c, p, ExecMaster(y), k')
    ensures Left(p, ExecMaster(y), Before(k')) < Left(p, y, Before(k))
    ensures k'.ar == k.ar
  {
    hide PlanFor, MasterInv, MemInv, AckChain, ArrivedAcks, PendingAcks, ReadCtrl, Tracks;
    var sent := p.Top(k.ar);
    TracksHead(p, y.m.conn.sq, k.w, sent, k.ce, k.wc);
    k' := k.(w := k.w + 1);
    BufferOf(c, p, y.m, sent, k.wc, k.ar, k.w + 1);
    TracksWrite(p, y.m.conn.cq, k.wc, k.w, k.cc, k.ce);
    WriteKeepsMem(c, p, y.s.mem, k.n, k.w);
    QueuesDontMatter(c, p, y.m, ExecMaster(y).m, sent, k.wc, k.ar);
  }

  lemma ExecChunkKeeps(c: Config, p: Plan, y: Sys, k: Count) returns (k': Count)
    requires Running(c, p, y, k) && Sized(y) && Enabled(y, MasterExec) && y.m.conn.sq[0].SendWr?
    ensures Running(c, p, ExecMaster(y), k')
    ensures Left(p, ExecMaster(y), Before(k')) < Left(p, y, Before(k))
    ensures k'.ar == k.ar
  {
    hide PlanFor, MasterInv, MemInv, AckChain, ArrivedAcks, ReadCtrl, Tracks;
    var sent := p.Top(k.ar);
    TracksHead(p, y.m.conn.sq, k.w, sent, k.ce, k.wc);
    k' := k.(ce := k.ce + 1);
    BufferOf(c, p, y.m, sent, k.wc, k.ar, k.ce + 1);
    TracksSend(p, y.m.conn.cq, k.wc, k.w, k.cc, k.ce);
    QueuesDontMatter(c, p, y.m, ExecMaster(y).m, sent, k.wc, k.ar);
  }

  // ---------- Polling at the master ----------

  lemma FinishNotReady(m: Master)
    requires !m.doneReceived
    ensures FinishIfReady(m) == m
  {
  }

  /** Release, pump and finish, once the slots and buffers are known to be in order. */
  lemma SettleKeeps(c: Config, p: Plan, m: Master, sent: nat, written: nat, acked: nat, wlo: nat, slo: nat)
    requires c.Valid() && m.Sized() && m.nextSeq >= 1 && MasterInv(c, p, Release(m), sent, written, acked)
    requires !m.doneReceived && WithinWindow(c)
    requires slo <= written && Tracks(p, m.conn.sq, wlo, sent, slo, written)
    ensures MasterInv(c, p, Settle(c, m), p.Top(acked), written, acked)
    ensures Tracks(p, Settle(c, m).conn.sq, wlo, p.Top(acked), slo, written)
    ensures OnlySends(m, Settle(c, m))
  {
    hide MasterInv, Tracks, Pump;
    PumpFills(c, p, Release(m), sent, written, acked);
    PumpPosts(c, p, Release(m), sent, written, acked, wlo, slo);
    FinishNotReady(Pump(c, Release(m)));
  }

  /** The master's state between a WRITE completion and releasing slots. */
  function NotifyPosted(p: Plan, m: Master, q: nat): (r: Master)
    requires p.Sized() && m.Sized() && q <= p.Last() && p.slots[q] < WINDOW
    ensures r.Sized()
  {
    var i := p.slots[q];
    m.(slots := m.slots[i := m.slots[i].(writeDone := true)], conn := PostCtrl(m.conn, i, ChunkCtrl(p, q)))
  }

  lemma SendDoneSettles(c: Config, p: Plan, m: Master, q: nat)
    requires c.Valid() && p.Sized() && m.Sized() && m.nextSeq >= 1 && q <= p.Last() && p.slots[q] < WINDOW
    requires m.conn.ctx[p.slots[q]] == Ctx(CtxWrite, p.slots[q], q)
    requires m.slots[p.slots[q]].inUse && m.slots[p.slots[q]].seqNo == q
    ensures MasterSendDone(c, m, p.slots[q]) == Settle(c, NotifyPosted(p, m, q))
    ensures NotifyPosted(p, m, q).conn.sq == m.conn.sq + [SendWr(p.slots[q], q)]
  {
    hide Settle;
  }

  /** The master after the completion of WRITE number written+1. */
  lemma WriteDoneAtMaster(c: Config, p: Plan, m: Master, sent: nat, written: nat, acked: nat, wlo: nat, slo: nat)
    requires MasterInv(c, p, m, sent, written, acked) && written < sent == p.Top(acked)
    requires !m.doneReceived && WithinWindow(c)
    requires slo <= written && Tracks(p, m.conn.sq, wlo, sent, slo, written)
    ensures p.slots[written + 1] < WINDOW
    ensures var r := MasterSendDone(c, m, p.slots[written + 1]);
            && MasterInv(c, p, r, sent, written + 1, acked)
            && Tracks(p, r.conn.sq, wlo, sent, slo, written + 1)
            && OnlySends(m, r)
  {
    hide PlanFor, SlotsInv, BuffersInv, Tracks, Settle, MasterSendDone, Release;
    WrittenKeepsSlots(c, p, m.slots, sent, written, acked);
    WrittenKeepsBuffers(c, p, m.conn, sent, written, acked);
    SendDoneSettles(c, p, m, written + 1);
    TracksSend(p, m.conn.sq, wlo, sent, slo, written);
    var m1 := NotifyPosted(p, m, written + 1);
    ReleaseNothing(p, m1, sent, written + 1, acked);
    SettleKeeps(c, p, m1, sent, written + 1, acked, wlo, slo);
  }

  lemma PollWriteKeeps(c: Config, p: Plan, y: Sys, k: Count) returns (k': Count)
    requires Running(c, p, y, k) && Sized(y) && Enabled(y, MasterPollSend) && y.m.conn.cq[0].WriteWr?
    ensures Running(c, p, PollMasterSend(c, y), k')
    ensures Left(p, PollMasterSend(c, y), Before(k')) < Left(p, y, Before(k))
    ensures k'.ar == k.ar
  {
    hide PlanFor, MasterInv, MemInv, AckChain, PendingAcks, Tracks, MasterSendDone, SlaveInv, DoneTracked;
    var sent := p.Top(k.ar);
    TracksHead(p, y.m.conn.cq, k.wc, k.w, k.cc, k.ce);
    k' := k.(wc := k.wc + 1);
    var m1 := y.m.(conn := y.m.conn.(cq := y.m.conn.cq[1..]));
    QueuesDontMatter(c, p, y.m, m1, sent, k.wc, k.ar);
    WriteDoneAtMaster(c, p, m1, sent, k.wc, k.ar, k.w, k.ce);
  }

  /** The completion of a CHUNK notification changes nothing: its context still says SEND. */
  lemma PollChunkKeeps(c: Config, p: Plan, y: Sys, k: Count) returns (k': Count)
    requires Running(c, p, y, k) && Sized(y) && Enabled(y, MasterPollSend) && y.m.conn.cq[0].SendWr?
    ensures Running(c, p, PollMasterSend(c, y), k')
    ensures Left(p, PollMasterSend(c, y), Before(k')) < Left(p, y, Before(k))
    ensures k'.ar == k.ar
  {
    hide PlanFor, MasterInv, MemInv, AckChain, PendingAcks, Tracks, Settle, SlaveInv, DoneTracked;
    var sent := p.Top(k.ar);
    TracksHead(p, y.m.conn.cq, k.wc, k.w, k.cc, k.ce);
    k' := k.(cc := k.cc + 1);
    var m1 := y.m.(conn := y.m.conn.(cq := y.m.conn.cq[1..]));
    QueuesDontMatter(c, p, y.m, m1, sent, k.wc, k.ar);
    BufferOf(c, p, m1, sent, k.wc, k.ar, k.cc + 1);
    assert MasterSendDone(c, m1, p.slots[k.cc + 1]) == m1;
  }

  /** By the polling order, everything an acknowledgement covers has been notified and polled. */
  lemma AckIsCovered(p: Plan, y: Sys, k: Count)
    requires p.Sized() && Ordered(p, k) && k.arrived != []
    requires AckChain(k.arrived + k.pending, k.ar, LastAck(p, y.s, k.n)) && LastAck(p, y.s, k.n) <= k.n
    requires Tracks(p, y.m.conn.cq, k.wc, k.w, k.cc, k.ce)
    requires y.m.conn.rq != [] && y.m.conn.rq[0].seqNo == k.arrived[0] && Enabled(y, MasterPollRecv)
    ensures k.ar < k.arrived[0] <= k.n && k.arrived[0] <= k.cc
    ensures AckChain(k.arrived[1..] + k.pending, k.arrived[0], LastAck(p, y.s, k.n))
  {
    var all := k.arrived + k.pending;
    AckChainBounds(all, k.ar, LastAck(p, y.s, k.n));
    assert all[0] == k.arrived[0] && all[1..] == k.arrived[1..] + k.pending;
    if k.cc < k.arrived[0] {
      var i := TracksHolds(p, y.m.conn.cq, k.wc, k.w, k.cc, k.ce, k.arrived[0]);
    }
  }

  /** The master's state between noting an acknowledgement and releasing slots. */
  function Noted(p: Plan, m: Master, a: nat): (r: Master)
    requires p.Sized() && m.Sized() && a <= p.Last()
    ensures r.Sized()
  {
    var m0 := AckUpTo(m, a);
    m0.(replica := m0.replica.(offset := p.got[a], seqNo := a + 1), doneReceived := m.doneReceived || a == p.Last())
  }

  lemma RecvSettles(c: Config, p: Plan, m: Master, a: nat)
    requires c.Valid() && p.Sized() && m.Sized() && m.nextSeq >= 1 && a <= p.Last()
    ensures MasterRecv(c, m, AckCtrl(p, a)) == Settle(c, Noted(p, m, a))
    ensures Release(Noted(p, m, a)) == Noted(p, m, a).(slots := Release(AckUpTo(m, a)).slots)
  {
    hide Settle;
    assert Release(Noted(p, m, a)).slots == Release(AckUpTo(m, a)).slots;
  }

  lemma AckAtMaster(c: Config, p: Plan, m: Master, sent: nat, written: nat, acked: nat, a: nat, wlo: nat, slo: nat)
    requires MasterInv(c, p, m, sent, written, acked) && acked < a <= written && a < p.Last()
    requires !m.doneReceived && WithinWindow(c)
    requires slo <= written && Tracks(p, m.conn.sq, wlo, sent, slo, written)
    ensures var r := MasterRecv(c, m, AckCtrl(p, a));
            && MasterInv(c, p, r, p.Top(a), written, a) && !r.doneReceived
            && Tracks(p, r.conn.sq, wlo, p.Top(a), slo, written)
            && r.conn.cq == m.conn.cq && r.conn.rq == m.conn.rq && r.conn.credits == m.conn.credits
            && r.replica.offset == p.got[a] && r.replica.seqNo == a + 1
  {
    hide PlanFor, SlotsInv, BuffersInv, Tracks, Settle, MasterRecv, Release;
    AckReleases(p, m, sent, written, acked, a);
    BuffersShrink(p, m.conn, sent, written, acked, a);
    RecvSettles(c, p, m, a);
    SettleKeeps(c, p, Noted(p, m, a), sent, written, a, wlo, slo);
  }

  lemma DoneAtMaster(c: Config, p: Plan, m: Master, acked: nat)
    requires p.Sized() && MasterInv(c, p, m, p.Last(), p.Last(), acked) && acked < p.Last() && !m.doneReceived
    ensures var r := MasterRecv(c, m, AckCtrl(p, p.Last()));
            && r.Sized() && !r.failed && r.doneReceived && r.finishing && r.doneReplies == 1
            && r.replica.state == WaitFinsync && r.conn == m.conn
  {
    hide PlanFor, BuffersInv, MasterRecv, Release;
    var a := p.Last();
    AckReleases(p, m, a, a, acked, a);
    RecvSettles(c, p, m, a);
    assert !HasInflight(Release(Noted(p, m, a)));
  }

  lemma PollAckKeeps(c: Config, p: Plan, y: Sys, k: Count) returns (k': Count)
    requires Running(c, p, y, k) && Sized(y) && Enabled(y, MasterPollRecv) && k.arrived != [] && k.arrived[0] < p.Last()
    ensures Running(c, p, PollMasterRecv(c, y), k')
    ensures Left(p, PollMasterRecv(c, y), Before(k')) < Left(p, y, Before(k))
  {
    hide PlanFor, MasterInv, MemInv, AckChain, PendingAcks, Tracks, MasterRecv, DoneTracked;
    AckIsCovered(p, y, k);
    var sent, a := p.Top(k.ar), k.arrived[0];
    k' := k.(ar := a, arrived := k.arrived[1..]);
    var mc := y.m.conn;
    var m1 := y.m.(conn := mc.(rq := mc.rq[1..], credits := mc.credits + 1));
    QueuesDontMatter(c, p, y.m, m1, sent, k.wc, k.ar);
    AckAtMaster(c, p, m1, sent, k.wc, k.ar, a, k.w, k.ce);
    assert PollMasterRecv(c, y).m == MasterRecv(c, m1, AckCtrl(p, a));
  }

  lemma PollDoneFinishes(c: Config, p: Plan, y: Sys, k: Count)
    requires Running(c, p, y, k) && Sized(y) && Enabled(y, MasterPollRecv) && k.arrived != []
             && k.arrived[0] == p.Last()
    ensures Finished(c, p, PollMasterRecv(c, y))
    ensures Left(p, PollMasterRecv(c, y), After) < Left(p, y, Before(k))
  {
    hide PlanFor, MasterInv, MemInv, AckChain, Tracks, MasterRecv;
    AckIsCovered(p, y, k);
    assert k.arrived[1..] + k.pending == [] by {
      AckChainBounds(k.arrived[1..] + k.pending, p.Last(), LastAck(p, y.s, k.n));
    }
    EmptyQueues(p, y, k);
    var mc := y.m.conn;
    var m1 := y.m.(conn := mc.(rq := mc.rq[1..], credits := mc.credits + 1));
    QueuesDontMatter(c, p, y.m, m1, p.Last(), p.Last(), k.ar);
    DoneAtMaster(c, p, m1, k.ar);
    assert PollMasterRecv(c, y).m == MasterRecv(c, m1, AckCtrl(p, p.Last()));
  }

  lemma EmptyQueues(p: Plan, y: Sys, k: Count)
    requires p.Sized() && Ordered(p, k) && k.cc == p.Last()
    requires Tracks(p, y.m.conn.sq, k.w, p.Top(k.ar), k.ce, k.wc)
    requires Tracks(p, y.m.conn.cq, k.wc, k.w, k.cc, k.ce)
    ensures y.m.conn.sq == [] && y.m.conn.cq == []
  {
  }

  // ---------- The slave's actions ----------

  lemma ExecAckKeeps(c: Config, p: Plan, y: Sys, k: Count) returns (k': Count)
    requires Running(c, p, y, k) && Sized(y) && Enabled(y, SlaveExec)
    ensures Running(c, p, ExecSlave(y), k')
    ensures Left(p, ExecSlave(y), Before(k')) < Left(p, y, Before(k))
    ensures k'.ar == k.ar
  {
    hide PlanFor, MasterInv, MemInv, AckChain, Tracks, ReadCtrl;
    k' := k.(arrived := k.arrived + [k.pending[0]], pending := k.pending[1..]);
    assert k'.arrived + k'.pending == k.arrived + k.pending;
    QueuesDontMatter(c, p, y.m, ExecSlave(y).m, p.Top(k.ar), k.wc, k.ar);
  }

  lemma PollSlaveSendKeeps(c: Config, p: Plan, y: Sys, k: Count)
    requires Running(c, p, y, k) && Sized(y) && Enabled(y, SlavePollSend)
    ensures Running(c, p, PollSlaveSend(y), k)
    ensures Left(p, PollSlaveSend(y), Before(k)) < Left(p, y, Before(k))
  {
    hide PlanFor, MasterInv, MemInv, AckChain, Tracks, ReadCtrl;
    var w := SendWr(p.Last() % SEND_SLOTS, p.Last());
    if w in y.s.conn.cq && w != y.s.conn.cq[0] {
      assert w in y.s.conn.cq[1..];
    }
  }

  /** The bytes chunk q carries. */
  lemma ChunkFacts(c: Config, q: nat)
    requires c.Valid() && 1 <= q <= Chunks(c)
    ensures var f := ChunkFrame(c, q);
            && f.offset == Got(c, q - 1) && |f.payload| == f.len <= c.MaxPayload()
            && Got(c, q - 1) + f.len == Got(c, q) <= |c.snapshot|
            && f.payload == c.snapshot[Got(c, q - 1)..Got(c, q)]
            && (f.isLast <==> q == Chunks(c)) && (q == Chunks(c) ==> Got(c, q) == |c.snapshot|)
  {
    hide Fnv, SlotOf, Chunks;
    ChunkBounds(c, q);
    GotAll(c);
    assert Off(c, q + 1) == Off(c, q) + c.MaxPayload();
  }

  /** Everything the slave checks on chunk q holds of the planned frame. */
  lemma FrameFacts(c: Config, p: Plan, q: nat)
    requires PlanFor(c, p) && 1 <= q <= p.Last()
    ensures var f := p.frames[q];
            && f.magic == MAGIC && f.version == VERSION && f.headerLen == HEADER_LEN
            && f.slotId == p.slots[q] < c.slotCount && f.seqNo == q
            && f.len + HEADER_LEN <= c.slotSize && f.offset == p.got[q - 1]
            && |f.payload| == f.len && Fnv(f.payload) == f.checksum
            && (f.isLast <==> q == p.Last()) && f.total == |c.snapshot|
            && p.got[q - 1] + f.len == p.got[q] <= |c.snapshot|
            && c.snapshot[..p.got[q]] == c.snapshot[..p.got[q - 1]] + f.payload
            && (q == p.Last() ==> p.got[q] == |c.snapshot|)
  {
    hide Fnv, Chunks, Got;
    assert RowOk(c, p, q);
    ChunkFacts(c, q);
    if q > 1 {
      assert RowOk(c, p, q - 1);
    } else {
      assert Got(c, 0) == 0 by { NothingGot(c); }
    }
    assert c.snapshot[..p.got[q]] == c.snapshot[..p.got[q - 1]] + c.snapshot[p.got[q - 1]..p.got[q]];
  }

  lemma NothingGot(c: Config)
    requires c.Valid()
    ensures Got(c, 0) == 0
  {
  }

  lemma ChunkAccepted(c: Config, p: Plan, s: Slave, n: nat)
    requires PlanFor(c, p) && n < p.Last() && SlaveInv(c, p, s, n)
    requires |s.mem| == c.slotCount && p.slots[n + 1] < |s.mem| && s.mem[p.slots[n + 1]] == p.frames[n + 1]
    ensures ChunkStatus(c, s, p.slots[n + 1]) == 0
    ensures ReadPayload(p.frames[n + 1], p.frames[n + 1].len) == p.frames[n + 1].payload
  {
    FrameFacts(c, p, n + 1);
    hide PlanFor, Fnv;
    assert p.frames[n + 1].payload[..p.frames[n + 1].len] == p.frames[n + 1].payload;
  }

  /** The acknowledgement, if any, posted for chunk n+1. */
  predicate AckDue(p: Plan, s: Slave, n: nat)
    requires p.Sized()
  {
    n + 1 == p.Last() || n + 1 >= s.lastAcked + ACK_EVERY
  }

  lemma ProcessKeeps(c: Config, p: Plan, s: Slave, n: nat)
    requires PlanFor(c, p) && n < p.Last() && SlaveInv(c, p, s, n)
    requires |s.mem| == c.slotCount && p.slots[n + 1] < |s.mem| && s.mem[p.slots[n + 1]] == p.frames[n + 1]
    ensures var r := ProcessChunk(c, s, p.slots[n + 1]);
            && SlaveInv(c, p, r, n + 1) && r.mem == s.mem
            && (AckDue(p, s, n) ==> r.conn == PostCtrl(s.conn, (n + 1) % SEND_SLOTS, AckCtrl(p, n + 1))
                                    && LastAck(p, r, n + 1) == n + 1)
            && (!AckDue(p, s, n) ==> r.conn == s.conn && LastAck(p, r, n + 1) == s.lastAcked)
  {
    ChunkAccepted(c, p, s, n);
    FrameFacts(c, p, n + 1);
    AckedNext(n);
    hide PlanFor, Fnv, ReadPayload, ChunkStatus, PostCtrl, Acked;
    var f := p.frames[n + 1];
    var t := WritePayload(s, f);
    assert t.offset == p.got[n + 1];
    assert t.tmp == if p.got[n + 1] == 0 then None else Some(c.snapshot[..p.got[n + 1]]);
    if n + 1 == p.Last() {
      assert c.snapshot[..p.got[n + 1]] == c.snapshot;
    }
  }

  /** A new acknowledgement fits behind those in flight without disturbing their buffers. */
  lemma NewAckFits(p: Plan, conn: Conn, last: nat, k: Count, a: nat)
    requires p.Sized() && conn.Sized() && k.ar < a <= p.Last() && a <= k.ar + SEND_SLOTS
    requires AckChain(k.arrived + k.pending, k.ar, last) && last < a
    requires PendingAcks(p, conn.sq, conn.buf, k.pending)
    ensures AckChain(k.arrived + (k.pending + [a]), k.ar, a)
    ensures forall i :: 0 <= i < |k.pending| ==> k.ar < k.pending[i] < a
  {
    var all := k.arrived + k.pending;
    AckChainBounds(all, k.ar, last);
    forall i | 0 <= i < |k.pending|
      ensures k.ar < k.pending[i] < a
    {
      assert k.pending[i] == all[|k.arrived| + i];
    }
    AckChainGrows(all, k.ar, last, a);
    assert k.arrived + (k.pending + [a]) == all + [a];
  }

  lemma InFlightBounded(c: Config, p: Plan, k: Count)
    requires PlanFor(c, p) && WithinWindow(c) && Ordered(p, k)
    ensures p.Top(k.ar) <= k.ar + WINDOW
  {
  }

  /** What the slave's handler leaves, given what processing the chunk leaves. */
  function AfterNotify(r: Slave): Slave {
    if r.failed || r.donePosted then r else r.(conn := r.conn.(credits := r.conn.credits + 1))
  }

  lemma NotifyProcesses(c: Config, p: Plan, s: Slave, k: Count)
    requires p.Sized() && p.n == c.slotCount && PlanFor(c, p) && Ordered(p, k)
    requires SlaveSide(c, p, s, k) && s.conn.rq != []
    ensures var s1 := s.(conn := s.conn.(rq := s.conn.rq[1..]));
            && k.n < p.Last() && SlaveInv(c, p, s1, k.n)
            && |s1.mem| == c.slotCount && p.slots[k.n + 1] < |s1.mem| && s1.mem[p.slots[k.n + 1]] == p.frames[k.n + 1]
            && SlaveRecv(c, s1, s.conn.rq[0]) == AfterNotify(ProcessChunk(c, s1, p.slots[k.n + 1]))
  {
    hide PlanFor, PendingAcks, ProcessChunk;
    assert s.conn.rq[0] == ChunkCtrl(p, k.n + 1);
  }

  lemma ProcessedShrinks(p: Plan, s: Slave, n: nat, w: nat, ce: nat)
    requires p.Sized() && n < ce <= w <= p.Last() && MemInv(p, s.mem, n, w) && Notified(p, s.conn.rq, n, ce)
    ensures MemInv(p, s.mem, n + 1, w) && Notified(p, s.conn.rq[1..], n + 1, ce)
  {
  }

  lemma ProcessedWithAck(c: Config, p: Plan, s: Slave, k: Count) returns (k': Count)
    requires p.Sized() && p.n == c.slotCount && PlanFor(c, p) && WithinWindow(c) && Ordered(p, k)
    requires SlaveSide(c, p, s, k) && s.conn.rq != [] && AckDue(p, s, k.n)
    requires AckChain(k.arrived + k.pending, k.ar, LastAck(p, s, k.n))
    ensures k' == k.(n := k.n + 1, pending := k.pending + [k.n + 1]) && Ordered(p, k')
    ensures var r := SlaveRecv(c, s.(conn := s.conn.(rq := s.conn.rq[1..])), s.conn.rq[0]);
            && |r.conn.sq| == |s.conn.sq| + 1 && r.conn.cq == s.conn.cq
            && SlaveSide(c, p, r, k') && LastAck(p, r, k'.n) == k'.n
    ensures AckChain(k'.arrived + k'.pending, k'.ar, k'.n)
  {
    hide PlanFor, AckChain, ProcessChunk, PostCtrl, SlaveRecv, MemInv, PendingAcks;
    var n := k.n;
    var s1 := s.(conn := s.conn.(rq := s.conn.rq[1..]));
    NotifyProcesses(c, p, s, k);
    ProcessedShrinks(p, s, n, k.w, k.ce);
    ProcessKeeps(c, p, s1, n);
    InFlightBounded(c, p, k);
    NewAckFits(p, s.conn, s.lastAcked, k, n + 1);
    PostAckKeepsPending(p, s1.conn, k.pending, k.ar, n + 1);
    hide Notified;
    k' := k.(n := n + 1, pending := k.pending + [n + 1]);
  }

  lemma ProcessedQuietly(c: Config, p: Plan, s: Slave, k: Count) returns (k': Count)
    requires p.Sized() && p.n == c.slotCount && PlanFor(c, p) && Ordered(p, k)
    requires SlaveSide(c, p, s, k) && s.conn.rq != [] && !AckDue(p, s, k.n)
    ensures k' == k.(n := k.n + 1) && Ordered(p, k')
    ensures var r := SlaveRecv(c, s.(conn := s.conn.(rq := s.conn.rq[1..])), s.conn.rq[0]);
            && r.conn.sq == s.conn.sq && r.conn.cq == s.conn.cq
            && SlaveSide(c, p, r, k') && LastAck(p, r, k'.n) == LastAck(p, s, k.n)
  {
    hide PlanFor, ProcessChunk, SlaveRecv, MemInv;
    NotifyProcesses(c, p, s, k);
    ProcessedShrinks(p, s, k.n, k.w, k.ce);
    ProcessKeeps(c, p, s.(conn := s.conn.(rq := s.conn.rq[1..])), k.n);
    k' := k.(n := k.n + 1);
  }

  lemma PollNotifyKeeps(c: Config, p: Plan, y: Sys, k: Count) returns (k': Count)
    requires Running(c, p, y, k) && Sized(y) && Enabled(y, SlavePollRecv)
    ensures Running(c, p, PollSlaveRecv(c, y), k')
    ensures Left(p, PollSlaveRecv(c, y), Before(k')) < Left(p, y, Before(k))
    ensures k'.ar == k.ar
  {
    hide PlanFor, MasterInv, AckChain, Tracks, ArrivedAcks, SlaveSide, SlaveRecv;
    if AckDue(p, y.s, k.n) {
      k' := ProcessedWithAck(c, p, y.s, k);
    } else {
      k' := ProcessedQuietly(c, p, y.s, k);
    }
  }

  // ---------- Runs ----------

  lemma FinishedStep(c: Config, p: Plan, y: Sys, a: Action)
    requires Finished(c, p, y) && Enabled(y, a)
    ensures Finished(c, p, Step(c, y, a))
    ensures Left(p, Step(c, y, a), After) < Left(p, y, After)
  {
    hide PlanFor;
    var w := SendWr(p.Last() % SEND_SLOTS, p.Last());
    if a == SlavePollSend && w in y.s.conn.cq && w != y.s.conn.cq[0] {
      assert w in y.s.conn.cq[1..];
    }
  }

  /** Every action keeps the invariant and uses up some of the work left. */
  lemma StepKeeps(c: Config, p: Plan, y: Sys, h: Phase, a: Action) returns (h': Phase)
    requires c.Valid() && p.Sized() && Sized(y) && InvAt(c, p, y, h) && Enabled(y, a)
    ensures InvAt(c, p, Step(c, y, a), h')
    ensures Left(p, Step(c, y, a), h') < Left(p, y, h)
    ensures h.Before? && (a.MasterPollRecv? ==> h.k.arrived == []) ==> h'.Before? && h'.k.ar == h.k.ar
  {
    hide Running, Finished, Left, Step;
    match h {
      case After =>
        FinishedStep(c, p, y, a);
        h' := After;
      case Before(k) =>
        h' := RunningStep(c, p, y, k, a);
    }
  }

  lemma RunningStep(c: Config, p: Plan, y: Sys, k: Count, a: Action) returns (h': Phase)
    requires c.Valid() && p.Sized() && Sized(y) && Running(c, p, y, k) && Enabled(y, a)
    ensures InvAt(c, p, Step(c, y, a), h')
    ensures Left(p, Step(c, y, a), h') < Left(p, y, Before(k))
    ensures (a.MasterPollRecv? ==> k.arrived == []) ==> h'.Before? && h'.k.ar == k.ar
  {
    RunningEnables(c, p, y, k);
    hide Running, Finished, Left;
    var k' := k;
    match a {
      case MasterExec =>
        if y.m.conn.sq[0].WriteWr? {
          k' := ExecWriteKeeps(c, p, y, k);
        } else {
          k' := ExecChunkKeeps(c, p, y, k);
        }
      case MasterPollSend =>
        if y.m.conn.cq[0].WriteWr? {
          k' := PollWriteKeeps(c, p, y, k);
        } else {
          k' := PollChunkKeeps(c, p, y, k);
        }
      case MasterPollRecv =>
        if k.arrived[0] == p.Last() {
          PollDoneFinishes(c, p, y, k);
          return After;
        }
        k' := PollAckKeeps(c, p, y, k);
      case SlaveExec =>
        k' := ExecAckKeeps(c, p, y, k);
      case SlavePollSend =>
        PollSlaveSendKeeps(c, p, y, k);
      case SlavePollRecv =>
        k' := PollNotifyKeeps(c, p, y, k);
      case _ =>
    }
    h' := Before(k');
  }

  /** While running, no FINSYNC travels, "+DONE" was not answered, and arrivals are acknowledgements. */
  lemma RunningEnables(c: Config, p: Plan, y: Sys, k: Count)
    requires Running(c, p, y, k)
    ensures !Enabled(y, SlaveFinish) && !Enabled(y, FinsyncArrives)
    ensures y.m.conn.rq != [] ==> k.arrived != [] && k.arrived[0] <= p.Last()
  {
    hide PlanFor, SlotsInv, BuffersInv, SlaveSide, Tracks;
  }

  lemma FreshMaster(c: Config, p: Plan)
    requires PlanFor(c, p)
    ensures MasterInv(c, p, NewMaster(c), 0, 0, 0)
  {
  }

  lemma InitKeeps(c: Config, p: Plan, file: Option<bytes>) returns (h: Phase)
    requires PlanFor(c, p) && WithinWindow(c)
    ensures InvAt(c, p, Init(c, file), h)
    ensures h.Before? && h.k.ar == 0
    ensures Left(p, Init(c, file), h) == 8 * p.Last() + 2
  {
    h := Before(Count(0, 0, 0, 0, 0, 0, [], []));
    assert c.Valid() && p.Sized() && p.n == c.slotCount && p.got[0] == 0;
    hide PlanFor, Pump, MasterInv;
    FreshMaster(c, p);
    InitMaster(c, p, NewMaster(c), h.k);
    InitSlave(c, p, file, h.k);
    hide MasterSide, SlaveSide, NewMaster, NewSlave, Ordered;
  }

  lemma InitSlave(c: Config, p: Plan, file: Option<bytes>, k: Count)
    requires PlanFor(c, p) && k == Count(0, 0, 0, 0, 0, 0, [], [])
    ensures p.Sized() && Ordered(p, k) && SlaveSide(c, p, NewSlave(c, file), k)
    ensures var s := NewSlave(c, file); s.conn.sq == [] && s.conn.cq == [] && LastAck(p, s, 0) == 0
  {
    assert p.Sized() && p.n == c.slotCount && p.got[0] == 0;
    hide PlanFor;
  }

  lemma InitMaster(c: Config, p: Plan, m: Master, k: Count)
    requires PlanFor(c, p) && WithinWindow(c) && k == Count(0, 0, 0, 0, 0, 0, [], [])
    requires m == NewMaster(c) && MasterInv(c, p, m, 0, 0, 0)
    ensures p.Sized() && Ordered(p, k) && MasterSide(c, p, Pump(c, m), k) && Pump(c, m).conn.rq == []
  {
    assert c.Valid() && p.Sized() && p.n == c.slotCount;
    hide PlanFor, Pump, MasterInv;
    PumpFills(c, p, m, 0, 0, 0);
    PumpPosts(c, p, m, 0, 0, 0, 0, 0);
  }

  lemma {:induction false} RunKeeps(c: Config, p: Plan, y: Sys, h: Phase, actions: seq<Action>, z: Sys)
    returns (h': Phase)
    requires c.Valid() && p.Sized() && Sized(y) && InvAt(c, p, y, h) && IsRun(c, y, actions, z)
    ensures Sized(z) && InvAt(c, p, z, h')
    ensures Left(p, z, h') + |actions| <= Left(p, y, h)
    decreases |actions|
  {
    hide InvAt, Left, Step, Enabled;
    if actions == [] {
      h' := h;
    } else {
      var h1 := StepKeeps(c, p, y, h, actions[0]);
      h' := RunKeeps(c, p, Step(c, y, actions[0]), h1, actions[1..], z);
    }
  }

  /** Some run of the synchronisation reaches z. */
  ghost predicate Reachable(c: Config, file: Option<bytes>, z: Sys)
    requires c.Valid()
  {
    exists actions :: IsRun(c, Init(c, file), actions, z)
  }

  lemma ReachableInv(c: Config, file: Option<bytes>, z: Sys) returns (p: Plan, h: Phase)
    requires c.Valid() && WithinWindow(c) && Reachable(c, file, z)
    ensures p.Sized() && PlanFor(c, p) && Sized(z) && InvAt(c, p, z, h)
  {
    hide InvAt, PlanFor, IsRun;
    p := MakePlan(c);
    var actions :| IsRun(c, Init(c, file), actions, z);
    var h0 := InitKeeps(c, p, file);
    h := RunKeeps(c, p, Init(c, file), h0, actions, z);
  }

  // ---------- Main results ----------

  /** The slave's temporary file never holds anything but a prefix of the snapshot, as long as rdb_offset. */
  lemma BytesReceivedArePrefix(c: Config, file: Option<bytes>, z: Sys)
    requires c.Valid() && WithinWindow(c) && Reachable(c, file, z)
    ensures z.s.offset <= |c.snapshot|
    ensures !z.s.donePosted ==> z.s.loaded == None
                                && z.s.tmp == if z.s.offset == 0 then None else Some(c.snapshot[..z.s.offset])
    ensures z.s.donePosted ==> z.s.loaded == Some(c.snapshot) && z.s.offset == |c.snapshot|
                               && z.s.file == if |c.snapshot| == 0 then None else Some(c.snapshot)
  {
    var p, h := ReachableInv(c, file, z);
    hide MasterSide, MemInv, PendingAcks, AckChain, Notified, DoneTracked;
    FrameFacts(c, p, p.Last());
    hide PlanFor;
  }

  /** No endpoint fails, no status 100 to 111 is ever raised, and "+DONE" is answered at most once. */
  lemma NothingFails(c: Config, file: Option<bytes>, z: Sys)
    requires c.Valid() && WithinWindow(c) && Reachable(c, file, z)
    ensures !z.m.failed && !z.s.failed && z.s.status == 0
    ensures z.m.doneReplies <= 1
    ensures z.m.doneReplies == 1 <==> z.m.finishing
  {
    var p, h := ReachableInv(c, file, z);
    hide PlanFor, MemInv, PendingAcks, AckChain, Notified, DoneTracked, SlotsInv, BuffersInv, Tracks;
  }

  /** A replica is ONLINE only once the slave has loaded exactly the snapshot. */
  lemma OnlineMeansLoaded(c: Config, file: Option<bytes>, z: Sys)
    requires c.Valid() && WithinWindow(c) && Reachable(c, file, z) && z.m.replica.state == Online
    ensures z.s.loaded == Some(c.snapshot) && z.m.doneReplies == 1 && z.s.doneRead
  {
    var p, h := ReachableInv(c, file, z);
    hide PlanFor, SlaveSide, AckChain, DoneTracked, SlotsInv, BuffersInv, Tracks;
  }

  /** A WRITE about to land overwrites only a frame the slave has processed. */
  lemma NoUnreadFrameOverwritten(c: Config, file: Option<bytes>, z: Sys)
    requires c.Valid() && WithinWindow(c) && Reachable(c, file, z)
    requires z.m.conn.sq != [] && z.m.conn.sq[0].WriteWr?
    ensures z.m.conn.sq[0].slot < |z.s.mem|
    ensures z.s.mem[z.m.conn.sq[0].slot].seqNo < z.s.nextSeq <= z.m.conn.sq[0].seqNo
  {
    hide PlanFor, AckChain, PendingAcks, Notified, DoneTracked, SlotsInv, BuffersInv, MemInv;
    var p, h := ReachableInv(c, file, z);
    var k := h.k;
    TracksHead(p, z.m.conn.sq, k.w, p.Top(k.ar), k.ce, k.wc);
    WriteKeepsMem(c, p, z.s.mem, k.n, k.w);
  }

  lemma {:induction false} TracksRange(p: Plan, q: seq<Work>, wlo: nat, whi: nat, slo: nat, shi: nat, i: nat)
    requires p.Sized() && whi <= p.Last() && shi <= p.Last() && Tracks(p, q, wlo, whi, slo, shi) && i < |q|
    ensures q[i].WriteWr? ==> wlo < q[i].seqNo <= whi
    ensures q[i].SendWr? ==> slo < q[i].seqNo <= shi
    ensures q[i].seqNo <= p.Last() && q[i].slot == p.slots[q[i].seqNo]
    decreases |q|
  {
    if i > 0 {
      match q[0]
      case WriteWr(_, _) => TracksRange(p, q[1..], wlo + 1, whi, slo, shi, i - 1);
      case SendWr(_, _) => TracksRange(p, q[1..], wlo, whi, slo + 1, shi, i - 1);
    }
  }

  /** The SENDs among posted requests. */
  function Sends(q: seq<Work>): nat {
    if q == [] then 0 else (if q[0].SendWr? then 1 else 0) + Sends(q[1..])
  }

  lemma {:induction false} TracksCount(p: Plan, q: seq<Work>, wlo: nat, whi: nat, slo: nat, shi: nat)
    requires p.Sized() && whi <= p.Last() && shi <= p.Last() && Tracks(p, q, wlo, whi, slo, shi)
    ensures Sends(q) == shi - slo
    decreases |q|
  {
    if q != [] {
      match q[0]
      case WriteWr(_, _) => TracksCount(p, q[1..], wlo + 1, whi, slo, shi);
      case SendWr(_, _) => TracksCount(p, q[1..], wlo, whi, slo + 1, shi);
    }
  }

  /**
   Notifications posted or received and not yet handled never exceed the window or the ring, nor do
   acknowledgements, and a SEND about to be executed always finds a posted receive: neither side
   ever waits for the other to post one.
   */
  lemma ReceivesSuffice(c: Config, file: Option<bytes>, z: Sys)
    requires c.Valid() && WithinWindow(c) && Reachable(c, file, z)
    ensures Sends(z.m.conn.sq) + |z.s.conn.rq| <= Min(c.slotCount, WINDOW)
    ensures |z.s.conn.sq| + |z.m.conn.rq| <= Min(c.slotCount, WINDOW)
    ensures z.m.conn.sq != [] && z.m.conn.sq[0].SendWr? ==> z.s.conn.credits > 0
    ensures z.s.conn.sq != [] ==> z.m.conn.credits > 0
  {
    hide PlanFor, AckChain, SlotsInv, BuffersInv, MemInv, Tracks;
    var p, h := ReachableInv(c, file, z);
    if h.Before? {
      var k := h.k;
      TracksCount(p, z.m.conn.sq, k.w, p.Top(k.ar), k.ce, k.wc);
      InFlightBounded(c, p, k);
      AckChainBounds(k.arrived + k.pending, k.ar, LastAck(p, z.s, k.n));
      if z.m.conn.sq != [] {
        TracksHead(p, z.m.conn.sq, k.w, p.Top(k.ar), k.ce, k.wc);
      }
    }
  }

  /** The slot of every posted or completed request is still owned by that request's number. */
  lemma RequestsOwnTheirSlots(c: Config, file: Option<bytes>, z: Sys, i: nat)
    requires c.Valid() && WithinWindow(c) && Reachable(c, file, z)
    requires i < |z.m.conn.sq + z.m.conn.cq|
    ensures z.m.Sized()
    ensures var w := (z.m.conn.sq + z.m.conn.cq)[i];
            && w.slot < WINDOW && z.m.slots[w.slot].inUse && z.m.slots[w.slot].seqNo == w.seqNo
            && z.m.conn.ctx[w.slot] == Ctx(if w.WriteWr? then CtxWrite else CtxSend, w.slot, w.seqNo)
  {
    hide PlanFor, AckChain, SlaveSide, Tracks;
    var p, h := ReachableInv(c, file, z);
    var k := h.k;
    if i < |z.m.conn.sq| {
      TracksRange(p, z.m.conn.sq, k.w, p.Top(k.ar), k.ce, k.wc, i);
    } else {
      TracksRange(p, z.m.conn.cq, k.wc, k.w, k.cc, k.ce, i - |z.m.conn.sq|);
    }
  }

  /** The largest number of actions a run can take. */
  lemma RunsAreBounded(c: Config, file: Option<bytes>, actions: seq<Action>, z: Sys)
    requires c.Valid() && WithinWindow(c) && IsRun(c, Init(c, file), actions, z)
    ensures |actions| <= 8 * Chunks(c) + 2
  {
    var p := MakePlan(c);
    var h0 := InitKeeps(c, p, file);
    var h := RunKeeps(c, p, Init(c, file), h0, actions, z);
    hide PlanFor, InvAt;
    LeftNonNegative(c, p, z, h);
  }

  lemma LeftNonNegative(c: Config, p: Plan, y: Sys, h: Phase)
    requires p.Sized() && InvAt(c, p, y, h)
    ensures Left(p, y, h) >= 0
  {
    hide PlanFor, MasterSide, SlaveSide, AckChain, Finished;
  }

  // ---------- When the synchronisation completes ----------

  /**
   The whole snapshot fits one window of at most 64 slots, or the ring has at least as many
   slots as the acknowledgement interval and no more than the master can track.
   */
  predicate Fits(c: Config)
    requires c.Valid()
  {
    Chunks(c) <= Min(c.slotCount, 64) || 16 <= c.slotCount <= 64
  }

  predicate Quiescent(y: Sys) {
    forall a: Action :: !Enabled(y, a)
  }

  /** Nothing posted, completed, received or acknowledged is left unhandled. */
  lemma QuiescentQueues(c: Config, p: Plan, y: Sys, k: Count)
    requires Running(c, p, y, k) && Quiescent(y)
    ensures k.n == k.ce == k.wc == k.w == p.Top(k.ar)
    ensures k.arrived == k.pending == []
  {
    hide PlanFor, AckChain, SlotsInv, BuffersInv, MemInv, DoneTracked;
    assert !Enabled(y, MasterPollSend) && !Enabled(y, SlavePollSend) && !Enabled(y, SlavePollRecv);
    assert y.m.conn.cq == [] && y.s.conn.rq == [];
    assert !Enabled(y, MasterPollRecv);
    assert y.m.conn.rq == [];
    assert !Enabled(y, SlaveExec);
    assert y.s.conn.sq == [];
    assert !Enabled(y, MasterExec);
  }

  /** A run that can go no further has brought the replica online, unless the ring is too small. */
  lemma NoStall(c: Config, file: Option<bytes>, z: Sys)
    requires c.Valid() && Fits(c) && Reachable(c, file, z) && Quiescent(z)
    ensures z.m.replica.state == Online && z.s.loaded == Some(c.snapshot)
  {
    var p, h := ReachableInv(c, file, z);
    QuiescentIsOnline(c, p, z, h);
  }

  lemma QuiescentIsOnline(c: Config, p: Plan, z: Sys, h: Phase)
    requires c.Valid() && p.Sized() && PlanFor(c, p) && Fits(c) && InvAt(c, p, z, h) && Quiescent(z)
    ensures z.m.replica.state == Online && z.s.loaded == Some(c.snapshot)
  {
    hide MasterSide, MemInv, PendingAcks, Notified;
    if h.Before? {
      QuiescentQueues(c, p, z, h.k);
      AckChainBounds(h.k.arrived + h.k.pending, h.k.ar, LastAck(p, z.s, h.k.n));
    } else {
      assert !Enabled(z, SlavePollSend) && !Enabled(z, SlaveFinish) && !Enabled(z, FinsyncArrives);
    }
  }

  /** From any state of a run, running on as long as possible reaches ONLINE. */
  lemma {:induction false} RunsOnToOnline(c: Config, p: Plan, y: Sys, h: Phase) returns (actions: seq<Action>, z: Sys)
    requires c.Valid() && p.Sized() && PlanFor(c, p) && Fits(c) && Sized(y) && InvAt(c, p, y, h)
    ensures IsRun(c, y, actions, z) && z.m.replica.state == Online
    decreases Left(p, y, h)
  {
    hide PlanFor, Left, Enabled, Step, InvAt, Fits;
    if Quiescent(y) {
      QuiescentIsOnline(c, p, y, h);
      actions, z := [], y;
    } else {
      var a: Action :| Enabled(y, a);
      LeftNonNegative(c, p, y, h);
      var h' := StepKeeps(c, p, y, h, a);
      actions, z := RunsOnToOnline(c, p, Step(c, y, a), h');
      assert ([a] + actions)[1..] == actions;
      actions := [a] + actions;
    }
  }

  /** In a ring smaller than the acknowledgement interval no acknowledgement is ever due before the window is full. */
  lemma {:induction false} SmallRingNeverAcks(c: Config, p: Plan, y: Sys, h: Phase, actions: seq<Action>, z: Sys)
    requires c.Valid() && p.Sized() && PlanFor(c, p) && Sized(y) && InvAt(c, p, y, h) && IsRun(c, y, actions, z)
    requires c.slotCount < 16 && c.slotCount < Chunks(c)
    requires h.Before? && h.k.ar == 0
    ensures z.m.replica.state == WaitRdma
    decreases |actions|
  {
    NoAckYet(c, p, y, h.k);
    if actions != [] {
      hide PlanFor, InvAt, Left, Step, Enabled;
      var h' := StepKeeps(c, p, y, h, actions[0]);
      SmallRingNeverAcks(c, p, Step(c, y, actions[0]), h', actions[1..], z);
    }
  }

  lemma NoAckYet(c: Config, p: Plan, y: Sys, k: Count)
    requires Running(c, p, y, k) && k.ar == 0 && c.slotCount < 16 && c.slotCount < Chunks(c)
    ensures k.arrived == [] && y.m.replica.state == WaitRdma
  {
    hide MemInv, PendingAcks, Notified, SlotsInv, BuffersInv, Tracks;
    AckChainBounds(k.arrived + k.pending, k.ar, LastAck(p, y.s, k.n));
  }

  /** With more than 64 slots advertised and more than 64 chunks to send, the first pump already fails. */
  lemma {:induction false} WideRingFails(c: Config, p: Plan, m: Master, sent: nat)
    requires MasterInv(c, p, m, sent, 0, 0) && !m.doneReceived && sent <= WINDOW
    requires c.slotCount > WINDOW && Chunks(c) > WINDOW
    ensures Pump(c, m).failed
    decreases WINDOW - sent
  {
    assert p.Last() == Chunks(c) && p.n == c.slotCount && RowOk(c, p, sent + 1);
    ModUnique(sent, c.slotCount, 0, sent);
    hide PlanFor, RowOk, SendOne, SlotsInv, BuffersInv;
    if sent < WINDOW {
      var m' := SendOneSends(c, p, m, sent, 0, 0);
      PumpContinues(c, m, m');
      WideRingFails(c, p, m', sent + 1);
    } else {
      SendOneStops(c, p, m, sent, 0, 0);
    }
  }

  /** Full synchronisation can bring the replica online exactly when the advertised ring fits. */
  lemma CompletesIff(c: Config, file: Option<bytes>)
    requires c.Valid()
    ensures (exists z :: Reachable(c, file, z) && z.m.replica.state == Online) <==>
            Chunks(c) <= Min(c.slotCount, 64) || 16 <= c.slotCount <= 64
  {
    var p := MakePlan(c);
    hide PlanFor;
    if Fits(c) {
      var h0 := InitKeeps(c, p, file);
      var actions, z := RunsOnToOnline(c, p, Init(c, file), h0);
      assert Reachable(c, file, z);
    } else {
      forall z | Reachable(c, file, z)
        ensures z.m.replica.state != Online
      {
        NeverOnline(c, p, file, z);
      }
    }
  }

  lemma NeverOnline(c: Config, p: Plan, file: Option<bytes>, z: Sys)
    requires c.Valid() && PlanFor(c, p) && !Fits(c) && Reachable(c, file, z)
    ensures z.m.replica.state != Online
  {
    var actions :| IsRun(c, Init(c, file), actions, z);
    if c.slotCount < 16 {
      var h0 := InitKeeps(c, p, file);
      SmallRingNeverAcks(c, p, Init(c, file), h0, actions, z);
    } else {
      FreshMaster(c, p);
      hide PlanFor, MasterInv;
      WideRingFails(c, p, NewMaster(c), 0);
    }
  }
}
