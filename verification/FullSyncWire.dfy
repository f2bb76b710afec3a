/**
 What travels between master and slave, in numbers: how a snapshot is cut, what a WRITE carries,
 when the slave acknowledges, what it refuses, and what the checksum detects.
 */
module FullSyncWire {
  import opened Common
  import opened FullSync
  import opened FullSyncProof

  // ---------- The ring the slave advertises ----------

  /** The payload of a full chunk: the advertised slot or the master's own, less the header. */
  function ChunkSize(c: Config): nat
    requires c.Valid()
  {
    Min(c.slotSize - 56, 1048520)
  }

  lemma {:induction false} OffIs(c: Config, q: nat)
    requires c.Valid()
    ensures Off(c, q + 1) == q * ChunkSize(c)
  {
    if q > 0 {
      OffIs(c, q - 1);
      assert q * ChunkSize(c) == (q - 1) * ChunkSize(c) + ChunkSize(c);
    }
  }

  /** An empty snapshot is one chunk, any other as many as it takes. */
  lemma ChunkCount(c: Config)
    requires c.Valid()
    ensures Chunks(c) == if |c.snapshot| == 0 then 1 else (|c.snapshot| + ChunkSize(c) - 1) / ChunkSize(c)
  {
    var n, size := Chunks(c), ChunkSize(c);
    ChunkBounds(c, n);
    OffIs(c, n - 1);
    hide Chunks, Off;
    if |c.snapshot| > 0 {
      var up := |c.snapshot| + size - 1;
      assert (n - 1) * size < |c.snapshot| <= (n - 1) * size + size;
      assert up == size * n + (up - size * n) && 0 <= up - size * n < size by {
        assert size * n == (n - 1) * size + size;
      }
      DivisionIs(up, size, n, up - size * n);
    }
  }

  /** With the ring of 64 slots of 1 MiB that the slave allocates, every snapshot is brought online. */
  lemma OwnRingCompletes(c: Config, file: Option<bytes>)
    requires c.slotCount == 64 && c.slotSize == 1048576
    ensures exists z :: Reachable(c, file, z) && z.m.replica.state == Online && z.s.loaded == Some(c.snapshot)
  {
    CompletesIff(c, file);
    hide Chunks, Reachable;
    var z :| Reachable(c, file, z) && z.m.replica.state == Online;
    OnlineMeansLoaded(c, file, z);
  }

  // ---------- What a WRITE carries ----------

  /** The frame of chunk q: its part of the snapshot under its header. */
  predicate CarriesChunk(c: Config, f: Frame, q: nat)
    requires c.Valid() && q >= 1
  {
    var from := (q - 1) * ChunkSize(c);
    && f.magic == 0x52444d41 && f.version == 3 && f.headerLen == 56 && f.seqNo == q
    && f.slotId == (q - 1) % c.slotCount && f.total == |c.snapshot|
    && f.offset == from && from + f.len == Min(from + ChunkSize(c), |c.snapshot|)
    && f.payload == c.snapshot[from..from + f.len] && f.checksum == Fnv(f.payload)
    && (f.isLast <==> from + f.len == |c.snapshot|)
  }

  /** The WRITE about to land carries exactly its part of the snapshot under the header of its number. */
  lemma WriteCarriesChunk(c: Config, file: Option<bytes>, z: Sys)
    requires c.Valid() && WithinWindow(c) && Reachable(c, file, z)
    requires z.m.conn.sq != [] && z.m.conn.sq[0].WriteWr?
    ensures Sized(z) && z.m.conn.sq[0].slot < SEND_SLOTS && z.m.conn.sq[0].seqNo >= 1
    ensures var w := z.m.conn.sq[0];
            CarriesChunk(c, z.m.conn.buf[w.slot], w.seqNo) && w.slot == z.m.conn.buf[w.slot].slotId
  {
    hide PlanFor, AckChain, SlaveSide, SlotsInv, BuffersInv, Tracks, CarriesChunk, Chunks;
    var p, h := ReachableInv(c, file, z);
    var k, q := h.k, z.m.conn.sq[0].seqNo;
    TracksHead(p, z.m.conn.sq, k.w, p.Top(k.ar), k.ce, k.wc);
    BufferOf(c, p, z.m, p.Top(k.ar), k.wc, k.ar, q);
    PlannedFrame(c, p, q);
  }

  lemma PlannedFrame(c: Config, p: Plan, q: nat)
    requires PlanFor(c, p) && 1 <= q <= p.Last()
    ensures CarriesChunk(c, p.frames[q], q) && p.slots[q] == p.frames[q].slotId
  {
    assert RowOk(c, p, q);
    hide PlanFor, Fnv, Chunks, Off;
    OffIs(c, q - 1);
    ChunkBounds(c, q);
    ChunkFacts(c, q);
  }

  // ---------- When the slave acknowledges ----------

  /** The numbers acknowledged by messages that are received or posted and not yet handled. */
  function Numbers(rq: seq<Ctrl>, sq: seq<Work>): (r: seq<nat>)
    ensures |r| == |rq| + |sq|
  {
    seq(|rq|, i requires 0 <= i < |rq| => rq[i].seqNo) + seq(|sq|, i requires 0 <= i < |sq| => sq[i].seqNo)
  }

  /**
   Having processed q chunks and not the last, the slave has acknowledged exactly the multiples of
   16 reached: its latest acknowledgement is under way, or the master has noted it.
   */
  lemma AcknowledgesEvery16(c: Config, file: Option<bytes>, z: Sys)
    requires c.Valid() && WithinWindow(c) && Reachable(c, file, z) && !z.s.donePosted
    ensures z.s.nextSeq >= 1 && z.m.replica.seqNo >= 1
    ensures var q, acks := z.s.nextSeq - 1, Numbers(z.m.conn.rq, z.s.conn.sq);
            && z.s.lastAcked == q - q % 16
            && (if acks == [] then z.m.replica.seqNo - 1 else acks[|acks| - 1]) == q - q % 16
    ensures z.m.replica.offset == Min((z.m.replica.seqNo - 1) * ChunkSize(c), |c.snapshot|)
  {
    hide InvAt, PlanFor;
    var p, h := ReachableInv(c, file, z);
    RunningAcks(c, p, z, h);
    LastOfChain(h.k.arrived + h.k.pending, h.k.ar, z.s.lastAcked);
    NotedOffset(c, p, h.k.ar);
  }

  lemma RunningAcks(c: Config, p: Plan, z: Sys, h: Phase)
    requires p.Sized() && PlanFor(c, p) && InvAt(c, p, z, h) && !z.s.donePosted
    ensures h.Before? && h.k.ar <= p.Last() && z.s.nextSeq == h.k.n + 1 && z.s.lastAcked == h.k.n - h.k.n % 16
    ensures AckChain(h.k.arrived + h.k.pending, h.k.ar, z.s.lastAcked)
    ensures Numbers(z.m.conn.rq, z.s.conn.sq) == h.k.arrived + h.k.pending
    ensures z.m.replica.seqNo == h.k.ar + 1 && z.m.replica.offset == p.got[h.k.ar]
  {
    hide PlanFor, AckChain, MasterInv, MemInv, Tracks, Notified, DoneTracked;
  }

  lemma {:induction false} LastOfChain(acks: seq<nat>, lo: nat, hi: nat)
    requires AckChain(acks, lo, hi)
    ensures hi == if acks == [] then lo else acks[|acks| - 1]
    decreases |acks|
  {
    if acks != [] {
      LastOfChain(acks[1..], acks[0], hi);
    }
  }

  lemma NotedOffset(c: Config, p: Plan, q: nat)
    requires PlanFor(c, p) && q <= p.Last()
    ensures p.got[q] == Min(q * ChunkSize(c), |c.snapshot|)
  {
    OffIs(c, q);
    if q > 0 {
      assert RowOk(c, p, q);
    }
    hide PlanFor;
  }

  /** What the control messages say: acknowledgements of kind 1, DONE of kind 2, notifications of kind 4. */
  lemma MessagesSay(c: Config, file: Option<bytes>, z: Sys, i: nat)
    requires c.Valid() && WithinWindow(c) && Reachable(c, file, z)
    ensures i < |z.m.conn.rq| ==>
              var m := z.m.conn.rq[i];
              && m.magic == 0x52444d41 && m.status == 0 && 1 <= m.seqNo <= Chunks(c)
              && m.kind == (if m.seqNo == Chunks(c) then 2 else 1)
              && m.offset == Min(m.seqNo * ChunkSize(c), |c.snapshot|)
    ensures i < |z.s.conn.rq| ==>
              var m := z.s.conn.rq[i];
              && m.magic == 0x52444d41 && m.status == 0 && m.kind == 4 && m.seqNo == z.s.nextSeq + i
              && m.offset == (m.seqNo - 1) % c.slotCount
  {
    hide InvAt, PlanFor, Chunks, Reachable;
    var p, h := ReachableInv(c, file, z);
    Last(c, p);
    if h.Before? {
      var k := h.k;
      RunningQueues(c, p, z, h);
      if i < |z.m.conn.rq| {
        AckChainBounds(k.arrived + k.pending, k.ar, LastAck(p, z.s, k.n));
        assert k.arrived[i] == (k.arrived + k.pending)[i];
        NotedOffset(c, p, k.arrived[i]);
      }
      if i < |z.s.conn.rq| {
        PlannedFrame(c, p, k.n + 1 + i);
      }
    } else {
      FinishedQueues(c, p, z);
    }
  }

  lemma Last(c: Config, p: Plan)
    requires PlanFor(c, p)
    ensures p.Last() == Chunks(c) && c.Valid()
  {
  }

  lemma FinishedQueues(c: Config, p: Plan, z: Sys)
    requires InvAt(c, p, z, After)
    ensures z.m.conn.rq == [] && z.s.conn.rq == []
  {
    hide PlanFor, Committed, DoneTracked;
  }

  lemma RunningQueues(c: Config, p: Plan, z: Sys, h: Phase)
    requires p.Sized() && InvAt(c, p, z, h) && h.Before?
    ensures var k := h.k;
            && |z.m.conn.rq| == |k.arrived| && k.n <= p.Last() && |z.s.conn.rq| <= p.Last() - k.n
            && (forall i :: 0 <= i < |k.arrived| ==>
                  k.arrived[i] <= p.Last() && z.m.conn.rq[i] == AckCtrl(p, k.arrived[i]))
            && (forall i :: 0 <= i < |z.s.conn.rq| ==> z.s.conn.rq[i] == ChunkCtrl(p, k.n + 1 + i))
            && (z.s.conn.rq != [] ==> z.s.nextSeq == k.n + 1)
            && AckChain(k.arrived + k.pending, k.ar, LastAck(p, z.s, k.n))
  {
    hide PlanFor, AckChain, MasterInv, MemInv, Tracks, DoneTracked, PendingAcks;
  }

  // ---------- What the slave refuses ----------

  /** What an accepted chunk satisfies, and with which status each deviation from it is refused. */
  lemma DeviationsRefused(c: Config, s: Slave, slot: nat, x: nat, i: nat, b: byte)
    requires ChunkStatus(c, s, slot) == 0
    ensures slot < c.slotCount && slot < |s.mem|
    ensures var f := s.mem[slot];
            && f.magic == 0x52444d41 && f.version == 3 && f.headerLen == 56 && f.slotId == slot
            && f.seqNo == s.nextSeq && f.offset == s.offset && f.len + 56 <= c.slotSize
            && (x != f.magic ==> Status(c, s, slot, f.(magic := x)) == 101)
            && (x != f.version ==> Status(c, s, slot, f.(version := x)) == 101)
            && (x != f.headerLen ==> Status(c, s, slot, f.(headerLen := x)) == 102)
            && (x != f.slotId ==> Status(c, s, slot, f.(slotId := x)) == 103)
            && (x != f.seqNo ==> Status(c, s, slot, f.(seqNo := x)) == 104)
            && (x + 56 > c.slotSize ==> Status(c, s, slot, f.(len := x)) == 105)
            && (x != f.offset ==> Status(c, s, slot, f.(offset := x)) == 106)
            && (x != f.checksum && f.len > 0 ==> Status(c, s, slot, f.(checksum := x)) == 107)
            && (i < f.len <= |f.payload| && b != f.payload[i] ==>
                Status(c, s, slot, f.(payload := f.payload[i := b])) == 107)
    ensures x >= c.slotCount ==> ChunkStatus(c, s, x) == 100
  {
    hide Fnv;
    var f := s.mem[slot];
    if i < f.len <= |f.payload| && b != f.payload[i] {
      assert f.payload[i := b][..f.len] == f.payload[..f.len][i := b];
      OneByteDetected(f.payload[..f.len], i, b);
    }
  }

  /** The status of a chunk with frame f in the slot. */
  function Status(c: Config, s: Slave, slot: nat, f: Frame): nat
    requires slot < |s.mem|
  {
    ChunkStatus(c, s.(mem := s.mem[slot := f]), slot)
  }

  /** A refused chunk is answered with ERROR and its status, and leaves files and offset alone. */
  lemma RefusalAnswered(c: Config, s: Slave, slot: nat)
    requires s.conn.Sized() && ChunkStatus(c, s, slot) != 0
    ensures var r, code := ProcessChunk(c, s, slot), ChunkStatus(c, s, slot);
            && 100 <= code <= 107 && r.failed && r.status == code && |r.conn.sq| == |s.conn.sq| + 1
            && r.tmp == s.tmp && r.file == s.file && r.loaded == s.loaded && r.offset == s.offset
            && var w := r.conn.sq[|s.conn.sq|];
               && w.SendWr? && w.slot < 64 && w.slot == w.seqNo % 64
               && ReadCtrl(r.conn.buf[w.slot]) == Ctrl(0x52444d41, 3, w.seqNo, s.offset, code)
  {
    hide Fnv, ReadPayload;
  }

  /** A message that is not of the protocol, or not for this side, fails the connection and does nothing else. */
  lemma ForeignMessagesFail(c: Config, m: Master, s: Slave, msg: Ctrl)
    requires c.Valid() && m.Sized() && m.nextSeq >= 1 && s.conn.Sized()
    ensures msg.magic != 0x52444d41 || (msg.kind != 1 && msg.kind != 2) ==>
              MasterRecv(c, m, msg) == m.(failed := true)
    ensures msg.magic != 0x52444d41 || msg.kind != 4 ==> SlaveRecv(c, s, msg) == s.(failed := true)
  {
    hide Settle, ProcessChunk;
  }

  /** A chunk is taken only once. */
  lemma RepeatRefused(c: Config, s: Slave, slot: nat)
    requires s.conn.Sized() && ChunkStatus(c, s, slot) == 0
    ensures var r := ProcessChunk(c, s, slot); !r.failed && !r.donePosted ==> ChunkStatus(c, r, slot) == 104
  {
    hide Fnv, PostCtrl, ReadPayload;
  }

  // ---------- What the checksum detects ----------

  const MODULUS := 18446744073709551616
  const PRIME := 1099511628211
  const INVERSE := 14886173955864302971

  /** One step of the checksum. */
  function Mixed(h: nat, b: byte): nat {
    ((h - h % 256 + XorByte(h % 256, b)) * PRIME) % MODULUS
  }

  function Pow2(k: nat): nat {
    if k == 0 then 1 else 2 * Pow2(k - 1)
  }

  lemma {:induction false} XorBits(a: nat, b: nat, x: nat, y: nat, k: nat)
    requires a < Pow2(k) && b < Pow2(k) && x < Pow2(k) && y < Pow2(k)
    ensures Xor(a, b, k) < Pow2(k)
    ensures Xor(a, b, k) == Xor(x, y, k) ==> (a == x ==> b == y) && (b == y ==> a == x)
    decreases k
  {
    if k > 0 {
      XorBits(a / 2, b / 2, x / 2, y / 2, k - 1);
      XorNext(a, b, k - 1);
      XorNext(x, y, k - 1);
      var u, v := Xor(a / 2, b / 2, k - 1), Xor(x / 2, y / 2, k - 1);
      assert Pow2(k) == 2 * Pow2(k - 1);
      hide Xor, Pow2;
      if Xor(a, b, k) == Xor(x, y, k) {
        SameBits(a, b, u, x, y, v);
      }
    }
  }

  lemma XorNext(a: nat, b: nat, k: nat)
    ensures Xor(a, b, k + 1) == (a + b) % 2 + 2 * Xor(a / 2, b / 2, k)
  {
  }

  /** Equal sums of a lowest bit and twice the rest have equal parts. */
  lemma SameBits(a: nat, b: nat, u: nat, x: nat, y: nat, v: nat)
    requires (a + b) % 2 + 2 * u == (x + y) % 2 + 2 * v
    ensures u == v && (a + b) % 2 == (x + y) % 2
    ensures a == x && b / 2 == y / 2 ==> b == y
    ensures b == y && a / 2 == x / 2 ==> a == x
  {
  }

  lemma XorInjective(a: byte, b: byte, x: byte, y: byte)
    requires XorByte(a, b) == XorByte(x, y)
    ensures a == x ==> b == y
    ensures b == y ==> a == x
  {
    Byte();
    hide Pow2, Xor;
    XorBits(a, b, x, y, 8);
    XorBits(x, y, a, b, 8);
  }

  lemma Byte()
    ensures Pow2(8) == 256
  {
    assert Pow2(4) == 16;
  }

  /** Multiplying by the prime loses nothing modulo 2^64. */
  lemma ProductInjective(x: nat, y: nat)
    requires x < MODULUS && y < MODULUS && (x * PRIME) % MODULUS == (y * PRIME) % MODULUS
    ensures x == y
  {
    var k := x * PRIME / MODULUS - y * PRIME / MODULUS;
    var d := x - y;
    assert d * PRIME == MODULUS * k;
    assert PRIME * INVERSE == 1 + MODULUS * 887285111055;
    assert d == MODULUS * (k * INVERSE - d * 887285111055);
  }

  lemma SameMix(h: nat, u: byte, g: nat, v: byte)
    requires h - h % 256 + u == g - g % 256 + v
    ensures u == v && h - h % 256 == g - g % 256
  {
    assert h - h % 256 == 256 * (h / 256) && g - g % 256 == 256 * (g / 256);
  }

  lemma MixedInjective(h: nat, b: byte, g: nat, c: byte)
    requires h < MODULUS && g < MODULUS && Mixed(h, b) == Mixed(g, c)
    ensures b == c ==> h == g
    ensures h == g ==> b == c
  {
    hide XorByte;
    var u, v := XorByte(h % 256, b), XorByte(g % 256, c);
    MixBound(h, u);
    MixBound(g, v);
    ProductInjective(h - h % 256 + u, g - g % 256 + v);
    SameMix(h, u, g, v);
    XorInjective(h % 256, b, g % 256, c);
  }

  lemma MixBound(h: nat, u: byte)
    requires h < MODULUS
    ensures 0 <= h - h % 256 + u < MODULUS
  {
    assert h - h % 256 == 256 * (h / 256);
  }

  lemma UpdateNext(h: nat, data: bytes)
    requires data != []
    ensures FnvUpdate(h, data) == FnvUpdate(Mixed(h, data[0]), data[1..]) && Mixed(h, data[0]) < MODULUS
  {
    hide XorByte;
  }

  lemma {:induction false} StatesStayApart(h: nat, g: nat, data: bytes)
    requires h < MODULUS && g < MODULUS && h != g
    ensures FnvUpdate(h, data) != FnvUpdate(g, data)
    decreases |data|
  {
    if data != [] {
      UpdateNext(h, data);
      UpdateNext(g, data);
      if Mixed(h, data[0]) == Mixed(g, data[0]) {
        MixedInjective(h, data[0], g, data[0]);
      }
      hide FnvUpdate, Mixed;
      StatesStayApart(Mixed(h, data[0]), Mixed(g, data[0]), data[1..]);
    }
  }

  lemma {:induction false} UpdateDetects(h: nat, data: bytes, i: nat, b: byte)
    requires h < MODULUS && i < |data| && data[i] != b
    ensures FnvUpdate(h, data[i := b]) != FnvUpdate(h, data)
    decreases |data|
  {
    hide FnvUpdate, Mixed;
    var other := data[i := b];
    UpdateNext(h, data);
    UpdateNext(h, other);
    if i > 0 {
      assert other[1..] == data[1..][i - 1 := b];
      UpdateDetects(Mixed(h, data[0]), data[1..], i - 1, b);
    } else {
      assert other[1..] == data[1..];
      if Mixed(h, data[0]) == Mixed(h, b) {
        MixedInjective(h, data[0], h, b);
      }
      StatesStayApart(Mixed(h, data[0]), Mixed(h, b), data[1..]);
    }
  }

  /** Changing any one byte of a payload changes its checksum. */
  lemma OneByteDetected(data: bytes, i: nat, b: byte)
    requires i < |data| && data[i] != b
    ensures Fnv(data[i := b]) != Fnv(data)
  {
    hide FnvUpdate;
    UpdateDetects(1469598103934665603, data, i, b);
  }
}
