/**
 The RDMA full synchronisation of one replica, as two state machines joined by
 in-order reliable queue pairs and a ring of slots in the slave's memory.

 A posted work request names a send-buffer slot; the bytes are read from that
 slot when the adapter executes the request, not when it is posted.  The data
 WRITE and the CHUNK notification of one sequence number share both the buffer
 slot and the completion context, so a premature reuse garbles what is sent.
 */
module FullSync {
  import opened Common

  const MAGIC := 0x52444d41
  const VERSION := 3
  const WINDOW := 64
  const SLOT_SIZE := 1048576
  const HEADER_LEN := 56
  const CTRL_RECV_DEPTH := 128
  const SEND_SLOTS := 64
  const ACK_EVERY := 16
  const CHUNK_SIZE := SLOT_SIZE - HEADER_LEN

  const CTRL_ACK := 1
  const CTRL_DONE := 2
  const CTRL_ERROR := 3
  const CTRL_CHUNK := 4

  // ---------- Checksum ----------

  /** Exclusive or of the low k bits. */
  function Xor(a: nat, b: nat, k: nat): (r: nat)
    decreases k
  {
    if k == 0 then 0 else (a + b) % 2 + 2 * Xor(a / 2, b / 2, k - 1)
  }

  function XorByte(a: byte, b: byte): byte {
    Xor(a, b, 8) % 256
  }

  function FnvUpdate(h: nat, data: bytes): nat
    decreases |data|
  {
    if data == [] then h
    else
      var mixed := h - h % 256 + XorByte(h % 256, data[0]);
      FnvUpdate((mixed * 1099511628211) % 0x1_0000_0000_0000_0000, data[1..])
  }

  function Fnv(data: bytes): nat {
    FnvUpdate(1469598103934665603, data)
  }

  // ---------- Buffers and messages ----------

  /** The bytes of one slot: a chunk header followed by its payload. */
  datatype Frame = Frame(
    magic: nat, version: nat, flags: nat, seqNo: nat, offset: nat, total: nat,
    checksum: nat, len: nat, isLast: bool, slotId: nat, headerLen: nat, payload: bytes)

  const BLANK := Frame(0, 0, 0, 0, 0, 0, 0, 0, false, 0, 0, [])

  datatype Ctrl = Ctrl(magic: nat, kind: nat, seqNo: nat, offset: nat, status: nat)

  /** A control message occupies the first 32 bytes of a slot: magic, type, seq, offset, status. */
  function OverlayCtrl(f: Frame, m: Ctrl): Frame {
    f.(magic := m.magic, version := m.kind % 65536, flags := m.kind / 65536,
       seqNo := m.seqNo, offset := m.offset, total := m.status)
  }

  function ReadCtrl(f: Frame): Ctrl {
    Ctrl(f.magic, f.version + 65536 * f.flags, f.seqNo, f.offset, f.total % 0x1_0000_0000)
  }

  function ReadPayload(f: Frame, n: nat): bytes {
    if n <= |f.payload| then f.payload[..n] else f.payload + seq(n - |f.payload|, _ => 0)
  }

  // ---------- One end of a connection ----------

  datatype CtxKind = CtxUnused | CtxSend | CtxWrite
  datatype Ctx = Ctx(kind: CtxKind, slot: nat, seqNo: nat)

  /** A posted request; its `wr_id` points at `ctx[slot]`, its bytes lie in `buf[slot]`. */
  datatype Work = WriteWr(slot: nat, seqNo: nat) | SendWr(slot: nat, seqNo: nat)

  /**
   sq: posted and not yet executed.  cq: executed, send completion not yet polled.
   rq: received control messages not yet polled.  credits: posted receives left.
   */
  datatype Conn = Conn(ctx: seq<Ctx>, buf: seq<Frame>, sq: seq<Work>, cq: seq<Work>, rq: seq<Ctrl>, credits: nat)
  {
    predicate Sized() {
      |ctx| == SEND_SLOTS && |buf| == SEND_SLOTS
    }
  }

  function NewConn(recvs: nat): (c: Conn)
    ensures c.Sized()
  {
    Conn(seq(SEND_SLOTS, _ => Ctx(CtxUnused, 0, 0)), seq(SEND_SLOTS, _ => BLANK), [], [], [], recvs)
  }

  function PostCtrl(c: Conn, slot: nat, m: Ctrl): (r: Conn)
    requires c.Sized()
    ensures r.Sized()
  {
    var i := slot % SEND_SLOTS;
    c.(buf := c.buf[i := OverlayCtrl(c.buf[i], m)],
       ctx := c.ctx[i := Ctx(CtxSend, i, m.seqNo)],
       sq := c.sq + [SendWr(i, m.seqNo)])
  }

  function PostWrite(c: Conn, slot: nat, f: Frame): (r: Conn)
    requires c.Sized()
    ensures r.Sized()
  {
    var i := slot % SEND_SLOTS;
    c.(buf := c.buf[i := f],
       ctx := c.ctx[i := Ctx(CtxWrite, slot, f.seqNo)],
       sq := c.sq + [WriteWr(i, f.seqNo)])
  }

  // ---------- Master ----------

  /** What the slave advertised when it connected, and the snapshot to be sent. */
  datatype Config = Config(slotCount: nat, slotSize: nat, snapshot: bytes)
  {
    /** The checks made on an advertised region before it is accepted. */
    predicate Valid() {
      0 < slotCount && HEADER_LEN < slotSize
    }

    function MaxPayload(): (p: nat)
      requires Valid()
      ensures 0 < p <= slotSize - HEADER_LEN
    {
      Min(slotSize - HEADER_LEN, CHUNK_SIZE)
    }
  }

  datatype Slot = Slot(inUse: bool, writeDone: bool, acked: bool, isLast: bool, slot: nat, seqNo: nat, offset: nat,
      len: nat)

  const FREE := Slot(false, false, false, false, 0, 0, 0, 0)

  datatype ReplicaState = WaitRdma | WaitFinsync | Online

  datatype Replica = Replica(state: ReplicaState, snapshot: bytes, offset: nat, seqNo: nat)

  /** doneReplies counts the "+DONE" lines written to the replica's TCP connection. */
  datatype Master = Master(
    nextSeq: nat, nextOffset: nat, emptySent: bool, doneReceived: bool, finishing: bool,
    slots: seq<Slot>, replica: Replica, conn: Conn, failed: bool, doneReplies: nat)
  {
    predicate Sized() {
      |slots| == WINDOW && conn.Sized()
    }
  }

  function NewMaster(c: Config): (m: Master)
    ensures m.Sized()
  {
    Master(1, 0, false, false, false, seq(WINDOW, _ => FREE),
           Replica(WaitRdma, c.snapshot, 0, 1), NewConn(CTRL_RECV_DEPTH), false, 0)
  }

  datatype SendResult = Sent(m: Master) | Blocked | SendFailed

  /** Bytes still to be sent, counting the single chunk of an empty snapshot as one. */
  function Unsent(m: Master): nat {
    if |m.replica.snapshot| == 0 then (if m.emptySent then 0 else 1)
    else if m.nextOffset >= |m.replica.snapshot| then 0
    else |m.replica.snapshot| - m.nextOffset
  }

  /** The header and payload of the next chunk. */
  function NextFrame(c: Config, m: Master, slot: nat): Frame
    requires c.Valid() && Unsent(m) > 0
  {
    var size := |m.replica.snapshot|;
    var toSend := if size == 0 then 0 else Min(size - m.nextOffset, c.MaxPayload());
    var isLast := size == 0 || m.nextOffset + toSend >= size;
    var payload := if size == 0 then [] else m.replica.snapshot[m.nextOffset..m.nextOffset + toSend];
    Frame(MAGIC, VERSION, 0, m.nextSeq, m.nextOffset, size, Fnv(payload), toSend, isLast, slot, HEADER_LEN, payload)
  }

  /** Sending changes the cursor, the slots and the posted requests, and nothing else. */
  predicate OnlySends(m: Master, r: Master) {
    && r.conn.cq == m.conn.cq && r.conn.rq == m.conn.rq && r.conn.credits == m.conn.credits
    && r.replica == m.replica && r.doneReplies == m.doneReplies
    && r.doneReceived == m.doneReceived && r.finishing == m.finishing
  }

  function SendOne(c: Config, m: Master): (r: SendResult)
    requires c.Valid() && m.Sized() && m.nextSeq >= 1
    ensures r.Sent? ==> OnlySends(m, r.m)
    ensures r.Sent? ==> r.m.Sized() && r.m.nextSeq >= 1 && Unsent(r.m) < Unsent(m)
  {
    if Unsent(m) == 0 then Blocked
    else
      var slot := (m.nextSeq - 1) % c.slotCount;
      if slot >= WINDOW then SendFailed
      else if m.slots[slot].inUse then Blocked
      else
        var f := NextFrame(c, m, slot);
        Sent(m.(slots := m.slots[slot := Slot(true, false, false, f.isLast, slot, m.nextSeq, m.nextOffset, f.len)],
                conn := PostWrite(m.conn, slot, f),
                emptySent := m.emptySent || |m.replica.snapshot| == 0,
                nextOffset := m.nextOffset + f.len,
                nextSeq := m.nextSeq + 1))
  }

  function Pump(c: Config, m: Master): (r: Master)
    requires c.Valid() && m.Sized() && m.nextSeq >= 1
    ensures r.Sized() && r.nextSeq >= 1
    ensures OnlySends(m, r)
    decreases Unsent(m)
  {
    if m.doneReceived then m
    else match SendOne(c, m)
      case Sent(m') => Pump(c, m')
      case Blocked => m
      case SendFailed => m.(failed := true)
  }

  function ReleaseSlot(s: Slot): Slot {
    if s.inUse && s.writeDone && s.acked then FREE else s
  }

  function Release(m: Master): (r: Master)
    requires m.Sized()
    ensures r.Sized()
  {
    m.(slots := seq(WINDOW, i requires 0 <= i < WINDOW => ReleaseSlot(m.slots[i])))
  }

  function AckSlot(s: Slot, upTo: nat): Slot {
    if s.inUse && s.seqNo <= upTo then s.(acked := true) else s
  }

  function AckUpTo(m: Master, upTo: nat): (r: Master)
    requires m.Sized()
    ensures r.Sized()
  {
    m.(slots := seq(WINDOW, i requires 0 <= i < WINDOW => AckSlot(m.slots[i], upTo)))
  }

  predicate HasInflight(m: Master) {
    exists i :: 0 <= i < |m.slots| && m.slots[i].inUse
  }

  /** Mark the synchronisation finished, drop the snapshot and answer "+DONE", at most once. */
  function FinishIfReady(m: Master): Master {
    if m.doneReceived && !m.finishing && !HasInflight(m) then
      m.(finishing := true, replica := Replica(WaitFinsync, [], 0, 0), doneReplies := m.doneReplies + 1)
    else m
  }

  function Settle(c: Config, m: Master): (r: Master)
    requires c.Valid() && m.Sized() && m.nextSeq >= 1
    ensures r.Sized() && r.nextSeq >= 1
  {
    FinishIfReady(Pump(c, Release(m)))
  }

  /** A send completion whose `wr_id` is `ctx[i]`: only the kind now stored there decides what it was. */
  function MasterSendDone(c: Config, m: Master, i: nat): (r: Master)
    requires c.Valid() && m.Sized() && m.nextSeq >= 1 && i < SEND_SLOTS
    ensures r.Sized() && r.nextSeq >= 1
  {
    var ctx := m.conn.ctx[i];
    if ctx.kind != CtxWrite then m
    else if ctx.slot < WINDOW && m.slots[ctx.slot].inUse && m.slots[ctx.slot].seqNo == ctx.seqNo then
      Settle(c, m.(slots := m.slots[ctx.slot := m.slots[ctx.slot].(writeDone := true)],
                   conn := PostCtrl(m.conn, ctx.slot, Ctrl(MAGIC, CTRL_CHUNK, ctx.seqNo, ctx.slot, 0))))
    else Settle(c, m)
  }

  function MasterRecv(c: Config, m: Master, msg: Ctrl): (r: Master)
    requires c.Valid() && m.Sized() && m.nextSeq >= 1
    ensures r.Sized() && r.nextSeq >= 1
  {
    if msg.magic != MAGIC || (msg.kind != CTRL_ACK && msg.kind != CTRL_DONE) then m.(failed := true)
    else
      var a := AckUpTo(m, msg.seqNo);
      Settle(c, a.(replica := a.replica.(offset := msg.offset, seqNo := msg.seqNo + 1),
                   doneReceived := a.doneReceived || msg.kind == CTRL_DONE))
  }

  function MasterFinsync(m: Master): Master {
    if m.replica.state == WaitFinsync then m.(replica := m.replica.(state := Online)) else m
  }

  // ---------- Slave ----------

  /**
   tmp: the temporary file, None until the first payload byte opens it.
   file: the snapshot file.  loaded: the bytes the engines were last loaded from.
   status: the code of the ERROR message posted, 0 if none.
   */
  datatype Slave = Slave(
    mem: seq<Frame>, tmp: Option<bytes>, file: Option<bytes>, loaded: Option<bytes>,
    offset: nat, nextSeq: nat, lastAcked: nat, donePosted: bool, doneSeq: nat,
    conn: Conn, done: bool, failed: bool, status: nat, doneRead: bool)

  function NewSlave(c: Config, file: Option<bytes>): (s: Slave)
    ensures s.conn.Sized()
  {
    Slave(seq(c.slotCount, _ => BLANK), None, file, None, 0, 1, 0, false, 0,
          NewConn(WINDOW), false, false, 0, false)
  }

  function PostError(s: Slave, seqNo: nat, status: nat): (r: Slave)
    requires s.conn.Sized()
    ensures r.conn.Sized()
  {
    s.(conn := PostCtrl(s.conn, seqNo % SEND_SLOTS, Ctrl(MAGIC, CTRL_ERROR, seqNo, s.offset, status)),
       failed := true, status := status)
  }

  /** The status with which a chunk found in `dataSlot` is refused, 0 if it is accepted. */
  function ChunkStatus(c: Config, s: Slave, dataSlot: nat): nat {
    if dataSlot >= c.slotCount || dataSlot >= |s.mem| then 100
    else
      var h := s.mem[dataSlot];
      if h.magic != MAGIC || h.version != VERSION then 101
      else if h.headerLen != HEADER_LEN then 102
      else if h.slotId != dataSlot then 103
      else if h.seqNo != s.nextSeq then 104
      else if h.len + HEADER_LEN > c.slotSize then 105
      else if h.offset != s.offset then 106
      else if h.len > 0 && Fnv(ReadPayload(h, h.len)) != h.checksum then 107
      else 0
  }

  /** Append the payload to the temporary file, which the first payload creates empty. */
  function WritePayload(s: Slave, h: Frame): Slave {
    if h.len == 0 then s
    else
      var sofar := if s.tmp.Some? then s.tmp.value else [];
      s.(tmp := Some(sofar + ReadPayload(h, h.len)), offset := s.offset + h.len)
  }

  /** Rename the temporary file over the snapshot file, or remove both for an empty snapshot; then load. */
  function CommitAndLoad(s: Slave, total: nat): Slave {
    if total == 0 then s.(tmp := None, file := None, loaded := Some([]))
    else s.(tmp := None, file := s.tmp, loaded := s.tmp)
  }

  function ProcessChunk(c: Config, s: Slave, dataSlot: nat): (r: Slave)
    requires s.conn.Sized()
    ensures r.conn.Sized()
  {
    var status := ChunkStatus(c, s, dataSlot);
    if status == 100 || status == 101 then PostError(s, s.nextSeq, status)
    else if status != 0 then PostError(s, s.mem[dataSlot].seqNo, status)
    else
      var h := s.mem[dataSlot];
      var t := WritePayload(s, h);
      if h.isLast then
        if h.total > 0 && t.tmp.None? then PostError(t, h.seqNo, 110)
        else
          var u := CommitAndLoad(t, h.total);
          u.(conn := PostCtrl(u.conn, h.seqNo % SEND_SLOTS, Ctrl(MAGIC, CTRL_DONE, h.seqNo, u.offset, 0)),
             donePosted := true, doneSeq := h.seqNo)
      else
        var u := t.(nextSeq := t.nextSeq + 1);
        if h.seqNo >= u.lastAcked + ACK_EVERY then
          u.(conn := PostCtrl(u.conn, h.seqNo % SEND_SLOTS, Ctrl(MAGIC, CTRL_ACK, h.seqNo, u.offset, 0)),
             lastAcked := h.seqNo)
        else u
  }

  function SlaveRecv(c: Config, s: Slave, msg: Ctrl): (r: Slave)
    requires s.conn.Sized()
    ensures r.conn.Sized()
  {
    if msg.magic != MAGIC || msg.kind != CTRL_CHUNK then s.(failed := true)
    else
      var r := ProcessChunk(c, s, msg.offset);
      if r.failed || r.donePosted then r
      else r.(conn := r.conn.(credits := r.conn.credits + 1))
  }

  function SlaveSendDone(s: Slave, i: nat): Slave
    requires s.conn.Sized() && i < SEND_SLOTS
  {
    if s.donePosted && s.conn.ctx[i].seqNo == s.doneSeq then s.(done := true) else s
  }

  // ---------- The whole system ----------

  /** finsyncs: FINSYNC requests travelling from slave to master. */
  datatype Sys = Sys(m: Master, s: Slave, finsyncs: nat)

  predicate Sized(y: Sys) {
    y.m.Sized() && y.m.nextSeq >= 1 && y.s.conn.Sized()
  }

  /** The first batch is pumped while the synchronisation starts. */
  function Init(c: Config, file: Option<bytes>): (y: Sys)
    requires c.Valid()
    ensures Sized(y)
  {
    Sys(Pump(c, NewMaster(c)), NewSlave(c, file), 0)
  }

  datatype Action =
    | MasterExec      // the adapter executes the master's oldest posted request
    | MasterPollSend  // the master polls its oldest send completion
    | MasterPollRecv  // the master polls the oldest received control message
    | SlaveExec
    | SlavePollSend
    | SlavePollRecv
    | SlaveFinish     // the slave's main thread reads "+DONE" and sends FINSYNC
    | FinsyncArrives

  /**
   MasterPollRecv carries the one assumption on polling order: the completion of the
   CHUNK notification that caused an acknowledgement is polled before that acknowledgement.
   */
  predicate Enabled(y: Sys, a: Action) {
    && !y.m.failed && !y.s.failed
    && match a
       case MasterExec => y.m.conn.sq != [] && (y.m.conn.sq[0].SendWr? ==> y.s.conn.credits > 0)
       case MasterPollSend => y.m.conn.cq != []
       case MasterPollRecv => y.m.conn.rq != [] &&
         forall i :: 0 <= i < |y.m.conn.cq| && y.m.conn.cq[i].SendWr? ==> y.m.conn.cq[i].seqNo != y.m.conn.rq[0].seqNo
       case SlaveExec => y.s.conn.sq != [] && y.m.conn.credits > 0
       case SlavePollSend => y.s.conn.cq != []
       case SlavePollRecv => y.s.conn.rq != []
       case SlaveFinish => y.s.done && !y.s.doneRead && y.m.doneReplies > 0
       case FinsyncArrives => y.finsyncs > 0
  }

  /** A WRITE lands in the slave's memory; a SEND consumes one posted receive. */
  function ExecMaster(y: Sys): (z: Sys)
    requires Sized(y) && Enabled(y, MasterExec)
    ensures Sized(z)
  {
    var mc, sc := y.m.conn, y.s.conn;
    var w := mc.sq[0];
    var f := mc.buf[w.slot % SEND_SLOTS];
    var m := y.m.(conn := mc.(sq := mc.sq[1..], cq := mc.cq + [w]));
    if w.SendWr? then
      y.(m := m, s := y.s.(conn := sc.(rq := sc.rq + [ReadCtrl(f)], credits := sc.credits - 1)))
    else if w.slot < |y.s.mem| then
      y.(m := m, s := y.s.(mem := y.s.mem[w.slot := f]))
    else
      y.(m := m)
  }

  function ExecSlave(y: Sys): (z: Sys)
    requires Sized(y) && Enabled(y, SlaveExec)
    ensures Sized(z)
  {
    var mc, sc := y.m.conn, y.s.conn;
    var w := sc.sq[0];
    y.(s := y.s.(conn := sc.(sq := sc.sq[1..], cq := sc.cq + [w])),
       m := y.m.(conn := mc.(rq := mc.rq + [ReadCtrl(sc.buf[w.slot % SEND_SLOTS])], credits := mc.credits - 1)))
  }

  function PollMasterSend(c: Config, y: Sys): (z: Sys)
    requires c.Valid() && Sized(y) && Enabled(y, MasterPollSend)
    ensures Sized(z)
  {
    var mc := y.m.conn;
    y.(m := MasterSendDone(c, y.m.(conn := mc.(cq := mc.cq[1..])), mc.cq[0].slot % SEND_SLOTS))
  }

  function PollMasterRecv(c: Config, y: Sys): (z: Sys)
    requires c.Valid() && Sized(y) && Enabled(y, MasterPollRecv)
    ensures Sized(z)
  {
    var mc := y.m.conn;
    y.(m := MasterRecv(c, y.m.(conn := mc.(rq := mc.rq[1..], credits := mc.credits + 1)), mc.rq[0]))
  }

  function PollSlaveSend(y: Sys): (z: Sys)
    requires Sized(y) && Enabled(y, SlavePollSend)
    ensures Sized(z)
  {
    var sc := y.s.conn;
    y.(s := SlaveSendDone(y.s.(conn := sc.(cq := sc.cq[1..])), sc.cq[0].slot % SEND_SLOTS))
  }

  function PollSlaveRecv(c: Config, y: Sys): (z: Sys)
    requires Sized(y) && Enabled(y, SlavePollRecv)
    ensures Sized(z)
  {
    var sc := y.s.conn;
    y.(s := SlaveRecv(c, y.s.(conn := sc.(rq := sc.rq[1..])), sc.rq[0]))
  }

  function Step(c: Config, y: Sys, a: Action): (z: Sys)
    requires c.Valid() && Sized(y) && Enabled(y, a)
    ensures Sized(z)
  {
    match a
    case MasterExec => ExecMaster(y)
    case MasterPollSend => PollMasterSend(c, y)
    case MasterPollRecv => PollMasterRecv(c, y)
    case SlaveExec => ExecSlave(y)
    case SlavePollSend => PollSlaveSend(y)
    case SlavePollRecv => PollSlaveRecv(c, y)
    case SlaveFinish => y.(s := y.s.(doneRead := true), finsyncs := y.finsyncs + 1)
    case FinsyncArrives => y.(m := MasterFinsync(y.m), finsyncs := y.finsyncs - 1)
  }

  /** A run is a list of actions, each enabled where it is taken. */
  ghost predicate IsRun(c: Config, y: Sys, actions: seq<Action>, z: Sys)
    requires c.Valid() && Sized(y)
    decreases |actions|
  {
    if actions == [] then y == z
    else Enabled(y, actions[0]) && IsRun(c, Step(c, y, actions[0]), actions[1..], z)
  }
}
