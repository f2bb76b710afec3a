/**
 The completion handlers of both endpoints as they run: loops over the slot table and updates in
 place, each proved to compute the step of the value model.  The polling methods at the end of each
 class carry the invariant of the whole protocol: y is the state of both ends, p the transcript and
 h the progress, all of them ghost.
 */
module FullSyncHandlers {
  import opened Common
  import opened FullSync
  import opened FullSyncProof

  class MasterSync {
    var nextSeq: nat
    var nextOffset: nat
    var emptySent: bool
    var doneReceived: bool
    var finishing: bool
    const slots: array<Slot>
    var replica: Replica
    var conn: Conn
    var failed: bool
    var doneReplies: nat

    ghost function State(): Master
      reads this, slots
    {
      Master(nextSeq, nextOffset, emptySent, doneReceived, finishing, slots[..], replica, conn, failed, doneReplies)
    }

    ghost predicate Valid()
      reads this, slots
    {
      State().Sized() && nextSeq >= 1
    }

    constructor (c: Config)
      ensures Valid() && fresh(slots) && State() == NewMaster(c)
    {
      nextSeq, nextOffset, emptySent, doneReceived, finishing := 1, 0, false, false, false;
      slots := new Slot[WINDOW](_ => FREE);
      replica := Replica(WaitRdma, c.snapshot, 0, 1);
      conn := NewConn(CTRL_RECV_DEPTH);
      failed, doneReplies := false, 0;
    }

    /** Returns 1 after posting a chunk, 0 when nothing can be sent now, -1 on failure. */
    method SendNext(c: Config) returns (ret: int)
      requires c.Valid() && Valid()
      modifies this, slots
      ensures Valid()
      ensures match SendOne(c, old(State()))
              case Sent(m) => ret == 1 && State() == m
              case Blocked => ret == 0 && State() == old(State())
              case SendFailed => ret == -1 && State() == old(State())
    {
      hide PostWrite, Fnv;
      var toSend: nat, isLast := 0, true;
      var size := |replica.snapshot|;
      if size == 0 {
        if emptySent {
          return 0;
        }
      } else {
        if nextOffset >= size {
          return 0;
        }
        toSend := Min(size - nextOffset, c.MaxPayload());
        isLast := nextOffset + toSend >= size;
      }
      var slot := (nextSeq - 1) % c.slotCount;
      if slot >= WINDOW {
        return -1;
      }
      if slots[slot].inUse {
        return 0;
      }
      var payload := if toSend == 0 then [] else replica.snapshot[nextOffset..nextOffset + toSend];
      var f := Frame(MAGIC, VERSION, 0, nextSeq, nextOffset, size, Fnv(payload), toSend, isLast, slot, HEADER_LEN,
          payload);
      assert f == NextFrame(c, old(State()), slot);
      slots[slot] := Slot(true, false, false, isLast, slot, nextSeq, nextOffset, toSend);
      conn := PostWrite(conn, slot, f);
      if size == 0 {
        emptySent := true;
      } else {
        nextOffset := nextOffset + toSend;
      }
      nextSeq := nextSeq + 1;
      return 1;
    }

    method FillWindow(c: Config) returns (ret: int)
      requires c.Valid() && Valid()
      modifies this, slots
      ensures Valid() && State() == Pump(c, old(State()))
      ensures ret == -1 ==> failed
    {
      ret := 0;
      while !doneReceived
        invariant Valid()
        invariant Pump(c, State()) == Pump(c, old(State()))
        decreases Unsent(State())
      {
        var n := SendNext(c);
        if n < 0 {
          failed := true;
          return -1;
        }
        if n == 0 {
          break;
        }
        ret := 1;
      }
    }

    method ReleaseCompleted()
      requires Valid()
      modifies slots
      ensures Valid() && State() == Release(old(State()))
      ensures forall i :: 0 <= i < 64 ==>
              slots[i] == if old(slots[i].inUse && slots[i].writeDone && slots[i].acked) then FREE else old(slots[i])
    {
      for i := 0 to WINDOW
        invariant slots.Length == WINDOW
        invariant forall j :: 0 <= j < i ==> slots[j] == ReleaseSlot(old(slots[j]))
        invariant forall j :: i <= j < WINDOW ==> slots[j] == old(slots[j])
      {
        if slots[i].inUse && slots[i].writeDone && slots[i].acked {
          slots[i] := FREE;
        }
      }
      assert slots[..] == Release(old(State())).slots;
    }

    method AnyInflight() returns (b: bool)
      requires Valid()
      ensures b == HasInflight(State())
    {
      for i := 0 to WINDOW
        invariant forall j :: 0 <= j < i ==> !slots[j].inUse
      {
        if slots[i].inUse {
          assert State().slots[i].inUse;
          return true;
        }
      }
      return false;
    }

    method SettleNow(c: Config)
      requires c.Valid() && Valid()
      modifies this, slots
      ensures Valid() && State() == Settle(c, old(State()))
    {
      ReleaseCompleted();
      var _ := FillWindow(c);
      var busy := AnyInflight();
      if doneReceived && !finishing && !busy {
        finishing := true;
        replica := Replica(WaitFinsync, [], 0, 0);
        doneReplies := doneReplies + 1;
      }
    }

    /** A send completion whose context is ctx[i]. */
    method OnSendComplete(c: Config, i: nat)
      requires c.Valid() && Valid() && i < SEND_SLOTS
      modifies this, slots
      ensures Valid() && State() == MasterSendDone(c, old(State()), i)
    {
      var ctx := conn.ctx[i];
      if ctx.kind != CtxWrite {
        return;
      }
      if ctx.slot < WINDOW && slots[ctx.slot].inUse && slots[ctx.slot].seqNo == ctx.seqNo {
        slots[ctx.slot] := slots[ctx.slot].(writeDone := true);
        conn := PostCtrl(conn, ctx.slot, Ctrl(MAGIC, CTRL_CHUNK, ctx.seqNo, ctx.slot, 0));
      }
      SettleNow(c);
    }

    method MarkAcked(upTo: nat)
      requires Valid()
      modifies slots
      ensures Valid() && State() == AckUpTo(old(State()), upTo)
      ensures forall i :: 0 <= i < 64 ==>
              slots[i] == old(slots[i]).(acked := old(slots[i].acked || (slots[i].inUse && slots[i].seqNo <= upTo)))
    {
      for i := 0 to WINDOW
        invariant slots.Length == WINDOW
        invariant forall j :: 0 <= j < i ==> slots[j] == AckSlot(old(slots[j]), upTo)
        invariant forall j :: i <= j < WINDOW ==> slots[j] == old(slots[j])
      {
        if slots[i].inUse && slots[i].seqNo <= upTo {
          slots[i] := slots[i].(acked := true);
        }
      }
      assert slots[..] == AckUpTo(old(State()), upTo).slots;
    }

    method OnRecvComplete(c: Config, msg: Ctrl)
      requires c.Valid() && Valid()
      modifies this, slots
      ensures Valid() && State() == MasterRecv(c, old(State()), msg)
    {
      if msg.magic != MAGIC || (msg.kind != CTRL_ACK && msg.kind != CTRL_DONE) {
        failed := true;
        return;
      }
      MarkAcked(msg.seqNo);
      replica := replica.(offset := msg.offset, seqNo := msg.seqNo + 1);
      if msg.kind == CTRL_DONE {
        doneReceived := true;
      }
      SettleNow(c);
    }

    method OnFinsync()
      requires Valid()
      modifies this
      ensures Valid() && State() == MasterFinsync(old(State()))
    {
      if replica.state == WaitFinsync {
        replica := replica.(state := Online);
      }
    }

    /** Poll the oldest send completion. */
    method PollSend(c: Config, ghost p: Plan, ghost y: Sys, ghost h: Phase) returns (ghost h': Phase)
      requires Valid() && Held(c, p, y, h) && y.m == State() && Enabled(y, MasterPollSend)
      modifies this, slots
      ensures y.(m := State()) == Step(c, y, MasterPollSend)
      ensures Valid() && Held(c, p, y.(m := State()), h') && Left(p, y.(m := State()), h') < Left(p, y, h)
    {
      hide InvAt, Left, MasterSendDone;
      h' := StepKeeps(c, p, y, h, MasterPollSend);
      var w := conn.cq[0];
      conn := conn.(cq := conn.cq[1..]);
      OnSendComplete(c, w.slot % SEND_SLOTS);
    }

    /** Poll the oldest received control message and post a receive in its place. */
    method PollRecv(c: Config, ghost p: Plan, ghost y: Sys, ghost h: Phase) returns (ghost h': Phase)
      requires Valid() && Held(c, p, y, h) && y.m == State() && Enabled(y, MasterPollRecv)
      modifies this, slots
      ensures y.(m := State()) == Step(c, y, MasterPollRecv)
      ensures Valid() && Held(c, p, y.(m := State()), h') && Left(p, y.(m := State()), h') < Left(p, y, h)
    {
      hide InvAt, Left, MasterRecv;
      h' := StepKeeps(c, p, y, h, MasterPollRecv);
      var msg := conn.rq[0];
      conn := conn.(rq := conn.rq[1..], credits := conn.credits + 1);
      OnRecvComplete(c, msg);
    }

    /** FINSYNC arrives on the replica's TCP connection; then the slave has loaded exactly the snapshot. */
    method Finsync(c: Config, ghost p: Plan, ghost y: Sys, ghost h: Phase) returns (ghost h': Phase)
      requires Valid() && Held(c, p, y, h) && y.m == State() && Enabled(y, FinsyncArrives)
      modifies this
      ensures Valid() && Held(c, p, y.(m := State(), finsyncs := y.finsyncs - 1), h')
      ensures replica.state == Online && y.s.loaded == Some(c.snapshot)
    {
      OnlineLoaded(c, p, y, h);
      hide InvAt, Left;
      h' := StepKeeps(c, p, y, h, FinsyncArrives);
      OnFinsync();
    }
  }

  /** Both ends as one state that keeps the protocol's invariant. */
  ghost predicate Held(c: Config, p: Plan, y: Sys, h: Phase) {
    c.Valid() && p.Sized() && Sized(y) && InvAt(c, p, y, h)
  }

  /** A FINSYNC on its way finds the replica waiting for it and the snapshot loaded. */
  lemma OnlineLoaded(c: Config, p: Plan, y: Sys, h: Phase)
    requires Held(c, p, y, h) && Enabled(y, FinsyncArrives)
    ensures y.m.replica.state == WaitFinsync && y.s.loaded == Some(c.snapshot)
  {
    hide PlanFor, SlaveSide, MasterSide, AckChain, DoneTracked;
  }

  class SlaveSync {
    var mem: seq<Frame>
    var tmp: Option<bytes>
    var file: Option<bytes>
    var loaded: Option<bytes>
    var offset: nat
    var nextSeq: nat
    var lastAcked: nat
    var donePosted: bool
    var doneSeq: nat
    var conn: Conn
    var done: bool
    var failed: bool
    var status: nat
    var doneRead: bool

    ghost function State(): Slave
      reads this
    {
      Slave(mem, tmp, file, loaded, offset, nextSeq, lastAcked, donePosted, doneSeq, conn, done, failed, status,
          doneRead)
    }

    constructor (c: Config, oldFile: Option<bytes>)
      ensures State() == NewSlave(c, oldFile)
    {
      mem := seq(c.slotCount, _ => BLANK);
      tmp, file, loaded := None, oldFile, None;
      offset, nextSeq, lastAcked, donePosted, doneSeq := 0, 1, 0, false, 0;
      conn := NewConn(WINDOW);
      done, failed, status, doneRead := false, false, 0, false;
    }

    method RaiseError(seqNo: nat, code: nat)
      requires conn.Sized()
      modifies this
      ensures State() == PostError(old(State()), seqNo, code)
    {
      conn := PostCtrl(conn, seqNo % SEND_SLOTS, Ctrl(MAGIC, CTRL_ERROR, seqNo, offset, code));
      failed, status := true, code;
    }

    /** The checks made on a notified slot, in order; 0 accepts the chunk. */
    method Refusal(c: Config, dataSlot: nat) returns (code: nat)
      ensures code == ChunkStatus(c, State(), dataSlot)
    {
      if dataSlot >= c.slotCount || dataSlot >= |mem| {
        return 100;
      }
      var h := mem[dataSlot];
      if h.magic != MAGIC || h.version != VERSION {
        return 101;
      }
      if h.headerLen != HEADER_LEN {
        return 102;
      }
      if h.slotId != dataSlot {
        return 103;
      }
      if h.seqNo != nextSeq {
        return 104;
      }
      if h.len + HEADER_LEN > c.slotSize {
        return 105;
      }
      if h.offset != offset {
        return 106;
      }
      if h.len > 0 {
        var sum := Fnv(ReadPayload(h, h.len));
        if sum != h.checksum {
          return 107;
        }
      }
      return 0;
    }

    method Process(c: Config, dataSlot: nat)
      requires conn.Sized()
      modifies this
      ensures State() == ProcessChunk(c, old(State()), dataSlot)
    {
      hide Fnv, ReadPayload, PostCtrl;
      var code := Refusal(c, dataSlot);
      if code != 0 {
        RaiseError(if code <= 101 then nextSeq else mem[dataSlot].seqNo, code);
        return;
      }
      var h := mem[dataSlot];
      Append(h);
      if h.isLast {
        CommitLast(h);
        return;
      }
      nextSeq := nextSeq + 1;
      if h.seqNo >= lastAcked + ACK_EVERY {
        conn := PostCtrl(conn, h.seqNo % SEND_SLOTS, Ctrl(MAGIC, CTRL_ACK, h.seqNo, offset, 0));
        lastAcked := h.seqNo;
      }
    }

    method Append(h: Frame)
      modifies this
      ensures State() == WritePayload(old(State()), h)
    {
      if h.len > 0 {
        if tmp.None? {
          tmp := Some([]);
        }
        tmp := Some(tmp.value + ReadPayload(h, h.len));
      }
      offset := offset + h.len;
    }

    /** The last chunk: install the file, load it, and answer DONE. */
    method CommitLast(h: Frame)
      requires conn.Sized()
      modifies this
      ensures var t := old(State());
              if h.total > 0 && t.tmp.None? then State() == PostError(t, h.seqNo, 110)
              else
                var u := CommitAndLoad(t, h.total);
                State() == u.(conn := PostCtrl(u.conn, h.seqNo % SEND_SLOTS,
                    Ctrl(MAGIC, CTRL_DONE, h.seqNo, u.offset, 0)),
                              donePosted := true, doneSeq := h.seqNo)
    {
      hide PostCtrl, PostError;
      if h.total == 0 {
        tmp, file, loaded := None, None, Some([]);
      } else if tmp.None? {
        RaiseError(h.seqNo, 110);
        return;
      } else {
        file, tmp := tmp, None;
        loaded := file;
      }
      conn := PostCtrl(conn, h.seqNo % SEND_SLOTS, Ctrl(MAGIC, CTRL_DONE, h.seqNo, offset, 0));
      donePosted, doneSeq := true, h.seqNo;
    }

    method OnRecvComplete(c: Config, msg: Ctrl)
      requires conn.Sized()
      modifies this
      ensures State() == SlaveRecv(c, old(State()), msg)
    {
      if msg.magic != MAGIC || msg.kind != CTRL_CHUNK {
        failed := true;
        return;
      }
      Process(c, msg.offset);
      if !failed && !donePosted {
        conn := conn.(credits := conn.credits + 1);
      }
    }

    method OnSendComplete(i: nat)
      requires conn.Sized() && i < SEND_SLOTS
      modifies this
      ensures State() == SlaveSendDone(old(State()), i)
    {
      if donePosted && conn.ctx[i].seqNo == doneSeq {
        done := true;
      }
    }

    /** Poll the oldest notification. */
    method PollRecv(c: Config, ghost p: Plan, ghost y: Sys, ghost h: Phase) returns (ghost h': Phase)
      requires Held(c, p, y, h) && y.s == State() && Enabled(y, SlavePollRecv)
      modifies this
      ensures y.(s := State()) == Step(c, y, SlavePollRecv)
      ensures Held(c, p, y.(s := State()), h') && Left(p, y.(s := State()), h') < Left(p, y, h)
      ensures !failed && status == 0
    {
      hide InvAt, Left, SlaveRecv;
      h' := StepKeeps(c, p, y, h, SlavePollRecv);
      var msg := conn.rq[0];
      conn := conn.(rq := conn.rq[1..]);
      OnRecvComplete(c, msg);
      NoStatus(c, p, y.(s := State()), h');
    }

    /** Poll the oldest send completion. */
    method PollSend(c: Config, ghost p: Plan, ghost y: Sys, ghost h: Phase) returns (ghost h': Phase)
      requires Held(c, p, y, h) && y.s == State() && Enabled(y, SlavePollSend)
      modifies this
      ensures y.(s := State()) == Step(c, y, SlavePollSend)
      ensures Held(c, p, y.(s := State()), h') && Left(p, y.(s := State()), h') < Left(p, y, h)
    {
      hide InvAt, Left, SlaveSendDone;
      h' := StepKeeps(c, p, y, h, SlavePollSend);
      var w := conn.cq[0];
      conn := conn.(cq := conn.cq[1..]);
      OnSendComplete(w.slot % SEND_SLOTS);
    }
  }

  lemma NoStatus(c: Config, p: Plan, y: Sys, h: Phase)
    requires Held(c, p, y, h)
    ensures !y.s.failed && y.s.status == 0
  {
    hide PlanFor, MasterSide, MemInv, PendingAcks, AckChain, Notified, DoneTracked;
  }
}
