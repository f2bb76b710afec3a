/**
 The append-only log: a single-producer single-consumer ring of commands, a worker that gathers
 them into write requests, and a kernel that completes those requests in any order and possibly
 only in part.
 */
module Aof {
  import opened Common

  const IO_DEPTH := 64
  const URING_ENTRIES := 8192
  const BATCH_BUF := 1048576

  /** One write request; buf holds the len bytes of its batch. */
  datatype Req = Req(buf: bytes, cap: nat, written: nat, fileOff: nat, inUse: bool)

  const IDLE := Req([], BATCH_BUF, 0, 0, false)

  /** A prepared write: data goes to file offset off on behalf of request req. */
  datatype Op = Op(req: nat, data: bytes, off: nat)

  datatype Cqe = Cqe(req: nat, res: nat)

  /**
   staged: the producer has stored a command in its slot and not yet published it.
   sq: prepared writes the kernel has not executed.  cq: completions not yet reaped.
   */
  datatype Log = Log(
    slots: seq<Option<bytes>>, writeIdx: nat, readIdx: nat, localRead: nat, staged: Option<bytes>,
    reqs: seq<Req>, inflight: nat, offset: nat,
    sq: seq<Op>, cq: seq<Cqe>, file: bytes, stop: bool)
  {
    predicate Sized() {
      |slots| > 0 && |reqs| == IO_DEPTH
    }
  }

  function Start(capacity: nat, file: bytes): Log
    requires capacity > 0
  {
    Log(seq(capacity, _ => None), 0, 0, 0, None, seq(IO_DEPTH, _ => IDLE), 0, |file|, [], [], file, false)
  }

  // ---------- Gathering a batch ----------

  datatype Batch = Batch(slots: seq<Option<bytes>>, next: nat, buf: bytes, cap: nat)

  /** Move commands from..to out of the ring into the buffer, as many as fit but at least one. */
  function Gather(slots: seq<Option<bytes>>, from: nat, to: nat, buf: bytes, cap: nat): (r: Batch)
    requires |slots| > 0
    ensures |r.slots| == |slots| && from <= r.next && (from <= to ==> r.next <= to)
    decreases Max(0, to - from)
  {
    if from >= to then Batch(slots, from, buf, cap)
    else
      var i := from % |slots|;
      match slots[i]
      case None => Gather(slots, from + 1, to, buf, cap)
      case Some(data) =>
        var grown := if |data| > cap && buf == [] then |data| else cap;
        if buf != [] && |buf| + |data| > grown then Batch(slots, from, buf, grown)
        else Gather(slots[i := None], from + 1, to, buf + data, grown)
  }

  function FirstFree(reqs: seq<Req>, i: nat): (r: nat)
    requires i <= |reqs|
    ensures i <= r <= |reqs|
    ensures forall j :: i <= j < r ==> reqs[j].inUse
    ensures r < |reqs| ==> !reqs[r].inUse
    decreases |reqs| - i
  {
    if i == |reqs| then i else if !reqs[i].inUse then i else FirstFree(reqs, i + 1)
  }

  /** Fill a free request from the commands below `seen` and prepare its write. */
  function Submit(s: Log, seen: nat): (r: Log)
    requires s.Sized() && FirstFree(s.reqs, 0) < IO_DEPTH
    ensures r.Sized()
  {
    var i := FirstFree(s.reqs, 0);
    var b := Gather(s.slots, s.localRead, seen, [], s.reqs[i].cap);
    var req := Req(b.buf, b.cap, 0, s.reqs[i].fileOff, false);
    var t := s.(slots := b.slots, localRead := b.next, reqs := s.reqs[i := req]);
    if b.buf == [] || |s.sq| >= URING_ENTRIES then t
    else t.(reqs := s.reqs[i := req.(fileOff := s.offset, inUse := true)],
            offset := s.offset + |b.buf|,
            sq := s.sq + [Op(i, b.buf, s.offset)],
            inflight := s.inflight + 1)
  }

  // ---------- Completions ----------

  /** Release the request; `inflight` counts down. */
  function Retire(s: Log, i: nat): (r: Log)
    requires s.Sized() && i < IO_DEPTH && s.inflight > 0
    ensures r.Sized()
  {
    s.(reqs := s.reqs[i := s.reqs[i].(inUse := false)], inflight := s.inflight - 1)
  }

  /** A completion of res bytes: finish the request, or prepare a write of what is left. */
  function Complete(s: Log, i: nat, res: nat): (r: Log)
    requires s.Sized() && i < IO_DEPTH && s.inflight > 0
    ensures r.Sized()
  {
    var q := s.reqs[i];
    if !q.inUse then s
    else if res == 0 && q.written < |q.buf| then Retire(s, i)
    else
      var w := q.written + res;
      var t := s.(reqs := s.reqs[i := q.(written := w)]);
      if w >= |q.buf| then Retire(t, i)
      else if |s.sq| >= URING_ENTRIES then Retire(t, i)
      else t.(sq := s.sq + [Op(i, q.buf[w..], q.fileOff + w)])
  }

  // ---------- The kernel's file ----------

  function WriteAt(file: bytes, off: nat, data: bytes): (r: bytes)
    ensures |r| == Max(|file|, off + |data|)
    ensures forall p :: 0 <= p < |r| ==>
              r[p] == if off <= p < off + |data| then data[p - off] else if p < |file| then file[p] else 0
  {
    seq(Max(|file|, off + |data|), (p: nat) =>
      if off <= p < off + |data| then data[p - off] else if p < |file| then file[p] else 0)
  }

  // ---------- Interleaved steps ----------

  datatype Step =
    | Store(cmd: bytes)      // the producer puts a command into the next slot
    | Publish                // ... and advances write_idx
    | Fill(seen: nat)        // the worker, having loaded write_idx == seen, submits one batch
    | PublishRead            // the worker advances read_idx to what it has consumed
    | Execute(j: nat, n: nat) // the kernel executes some prepared write, n bytes of it
    | Reap                   // the worker handles the oldest completion
    | RequestStop

  /** Without I/O errors every executed write stores between one byte and all of them. */
  predicate Enabled(s: Log, a: Step) {
    match a
    case Store(cmd) => s.staged.None? && cmd != [] && s.writeIdx - s.readIdx < |s.slots|
    case Publish => s.staged.Some?
    case Fill(seen) => s.localRead < seen <= s.writeIdx && s.inflight < IO_DEPTH && FirstFree(s.reqs, 0) < |s.reqs|
    case PublishRead => s.readIdx < s.localRead
    case Execute(j, n) => j < |s.sq| && 1 <= n <= |s.sq[j].data|
    case Reap => s.cq != [] && s.cq[0].req < |s.reqs| && s.inflight > 0
    case RequestStop => true
  }

  function Next(s: Log, a: Step): (r: Log)
    requires s.Sized() && Enabled(s, a)
    ensures r.Sized()
  {
    match a
    case Store(cmd) => s.(slots := s.slots[s.writeIdx % |s.slots| := Some(cmd)], staged := Some(cmd))
    case Publish => s.(writeIdx := s.writeIdx + 1, staged := None)
    case Fill(seen) => Submit(s, seen)
    case PublishRead => s.(readIdx := s.localRead)
    case Execute(j, n) =>
      s.(file := WriteAt(s.file, s.sq[j].off, s.sq[j].data[..n]),
         sq := s.sq[..j] + s.sq[j + 1..],
         cq := s.cq + [Cqe(s.sq[j].req, n)])
    case Reap => Complete(s.(cq := s.cq[1..]), s.cq[0].req, s.cq[0].res)
    case RequestStop => s.(stop := true)
  }

  /** The worker's loop ends: stop was requested, the ring is drained and nothing is in flight. */
  predicate Exited(s: Log) {
    s.stop && s.localRead == s.writeIdx && s.inflight == 0
  }

  /** A run, together with the commands published along it. */
  ghost predicate IsRun(s: Log, steps: seq<Step>, published: seq<bytes>, t: Log)
    requires s.Sized()
    decreases |steps|
  {
    if steps == [] then s == t && published == []
    else
      && Enabled(s, steps[0])
      && (if steps[0].Publish? then published != [] && published[0] == s.staged.value
                                    && IsRun(Next(s, steps[0]), steps[1..], published[1..], t)
          else IsRun(Next(s, steps[0]), steps[1..], published, t))
  }
}
