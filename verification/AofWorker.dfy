/**
 The log worker and its producer as they update the ring, the request table and the queues in
 place.  Each method is proved to make exactly the step of the Aof model it implements.
 */
module AofWorker {
  import opened Common
  import opened Aof
  import opened AofProof

  /** A completion that reports an error, stops short, or cannot be continued. */
  predicate Faulty(q: Req, res: int, queued: nat) {
    q.inUse && (res < 0 || (q.written + res < |q.buf| && (res == 0 || queued >= URING_ENTRIES)))
  }

  /** No completion of an error-free kernel is faulty. */
  lemma NoFault(s: Log, prior: bytes, app: seq<bytes>, d: seq<nat>)
    requires Inv(s, prior, app, d) && s.cq != []
    ensures s.Sized() && s.cq[0].req < |s.reqs| && !Faulty(s.reqs[s.cq[0].req], s.cq[0].res, |s.sq|)
  {
    hide Flat, FileOk, Disjoint, ReqsOk, OpOk;
    InUseBounded(s.reqs);
    assert CqeOk(s.reqs[s.cq[0].req], d[s.cq[0].req], s.cq[0]);
  }

  class AofLog {
    var slots: array<Option<bytes>>
    var writeIdx: nat
    var readIdx: nat
    var localRead: nat
    var staged: Option<bytes>
    var reqs: array<Req>
    var inflight: nat
    var offset: nat
    var sq: seq<Op>
    var cq: seq<Cqe>
    var file: bytes
    var stop: bool
    var ioError: bool

    /** Between its calls the one producer has published what it stored. */
    ghost predicate Valid()
      reads this
    {
      slots.Length > 0 && reqs.Length == IO_DEPTH && staged == None
    }

    ghost function State(): (s: Log)
      reads this, slots, reqs
      requires Valid()
      ensures s.Sized()
    {
      Log(slots[..], writeIdx, readIdx, localRead, staged, reqs[..], inflight, offset, sq, cq, file, stop)
    }

    constructor (capacity: nat, oldFile: bytes)
      requires capacity > 0
      ensures Valid() && fresh(slots) && fresh(reqs) && State() == Start(capacity, oldFile) && !ioError
    {
      slots := new Option<bytes>[capacity](_ => None);
      writeIdx, readIdx, localRead, staged := 0, 0, 0, None;
      reqs := new Req[IO_DEPTH](_ => IDLE);
      inflight, offset := 0, |oldFile|;
      sq, cq, file, stop, ioError := [], [], oldFile, false, false;
    }

    /**
     The producer: -1 refuses an empty command or a log that has failed, 1 finds the ring full and
     is to be tried again later, 0 has stored the command and published it.
     */
    method Append(cmd: bytes) returns (ret: int)
      requires Valid()
      modifies this, slots
      ensures slots == old(slots) && reqs == old(reqs) && Valid() && ioError == old(ioError)
      ensures ret == if cmd == [] || ioError then -1 else if old(writeIdx - readIdx) >= slots.Length then 1 else 0
      ensures ret != 0 ==> State() == old(State())
      ensures ret == 0 ==> Enabled(old(State()), Store(cmd)) && Enabled(Next(old(State()), Store(cmd)), Publish)
      ensures ret == 0 ==> State() == Next(Next(old(State()), Store(cmd)), Publish)
    {
      if |cmd| == 0 || ioError {
        return -1;
      }
      if writeIdx - readIdx >= slots.Length {
        return 1;
      }
      var idx := writeIdx % slots.Length;
      slots[idx] := Some(cmd);
      writeIdx := writeIdx + 1;
      return 0;
    }

    method FindFree() returns (i: nat)
      requires Valid()
      ensures i == FirstFree(reqs[..], 0)
    {
      i := 0;
      while i < IO_DEPTH && reqs[i].inUse
        invariant i <= IO_DEPTH
        invariant FirstFree(reqs[..], 0) == FirstFree(reqs[..], i)
      {
        i := i + 1;
      }
    }

    /** Copy commands below `seen` into request i until the ring is drained or the next one does not fit. */
    method FillBatch(i: nat, seen: nat) returns (filled: bool)
      requires Valid() && i < IO_DEPTH && localRead <= seen
      modifies this, slots, reqs
      ensures slots == old(slots) && reqs == old(reqs) && Valid() && ioError == old(ioError)
      ensures var b := Gather(old(slots[..]), old(localRead), seen, [], old(reqs[i].cap));
              && filled == (b.buf != [])
              && State() == old(State()).(slots := b.slots, localRead := b.next,
                                          reqs := old(reqs[..])[i := Req(b.buf, b.cap, 0, old(reqs[i].fileOff), false)])
    {
      var buf, cap := [], reqs[i].cap;
      ghost var goal := Gather(slots[..], localRead, seen, [], cap);
      var full := false;
      while !full && localRead < seen
        invariant localRead <= seen && slots == old(slots) && reqs == old(reqs) && Valid() && ioError == old(ioError)
        invariant State() == old(State()).(slots := slots[..], localRead := localRead)
        invariant goal == if full then Batch(slots[..], localRead, buf, cap)
                  else Gather(slots[..], localRead, seen, buf, cap)
        decreases !full, seen - localRead
      {
        var idx := localRead % slots.Length;
        match slots[idx]
        case None =>
          localRead := localRead + 1;
        case Some(data) =>
          if |data| > cap && buf == [] {
            cap := |data|;
          }
          if buf != [] && |buf| + |data| > cap {
            full := true;
          } else {
            ghost var before := slots[..];
            buf := buf + data;
            slots[idx] := None;
            assert slots[..] == before[idx := None];
            localRead := localRead + 1;
          }
      }
      reqs[i] := Req(buf, cap, 0, reqs[i].fileOff, false);
      filled := buf != [];
    }

    /** One turn of the worker's inner loop. */
    method SubmitBatch(seen: nat)
      requires Valid() && Enabled(State(), Fill(seen))
      modifies this, slots, reqs
      ensures slots == old(slots) && reqs == old(reqs) && Valid() && ioError == old(ioError)
      ensures State() == Submit(old(State()), seen)
    {
      var i := FindFree();
      var filled := FillBatch(i, seen);
      if filled && |sq| < URING_ENTRIES {
        reqs[i] := reqs[i].(fileOff := offset, inUse := true);
        sq := sq + [Op(i, reqs[i].buf, offset)];
        offset := offset + |reqs[i].buf|;
        inflight := inflight + 1;
      }
    }

    /** Handle one completion; a negative res is an error of the write. */
    method HandleCompletion(i: nat, res: int)
      requires Valid() && i < IO_DEPTH && inflight > 0
      modifies this, reqs
      ensures slots == old(slots) && reqs == old(reqs) && Valid()
      ensures State() == if res >= 0 then Complete(old(State()), i, res)
                         else if old(reqs[i].inUse) then Retire(old(State()), i) else old(State())
      ensures ioError <==> old(ioError) || Faulty(old(reqs[i]), res, |old(sq)|)
    {
      if !reqs[i].inUse {
        return;
      }
      if res < 0 || (res == 0 && reqs[i].written < |reqs[i].buf|) {
        ioError := true;
        reqs[i] := reqs[i].(inUse := false);
        inflight := inflight - 1;
        return;
      }
      reqs[i] := reqs[i].(written := reqs[i].written + res);
      if reqs[i].written < |reqs[i].buf| {
        if |sq| < URING_ENTRIES {
          sq := sq + [Op(i, reqs[i].buf[reqs[i].written..], reqs[i].fileOff + reqs[i].written)];
          return;
        }
        ioError := true;
      }
      reqs[i] := reqs[i].(inUse := false);
      inflight := inflight - 1;
    }

    /** Handle every completion there is: each request is retired or resubmitted, none is lost. */
    method ReapCompletions(ghost prior: bytes, ghost app: seq<bytes>, ghost d: seq<nat>)
      requires Valid() && Inv(State(), prior, app, d)
      modifies this, reqs
      ensures slots == old(slots) && reqs == old(reqs) && Valid()
      ensures Inv(State(), prior, app, d)
      ensures cq == [] && old(sq) <= sq && file == old(file) && localRead == old(localRead) && ioError == old(ioError)
    {
      hide Inv, Flat;
      while cq != []
        invariant slots == old(slots) && reqs == old(reqs) && Valid()
        invariant Inv(State(), prior, app, d)
        invariant old(sq) <= sq && file == old(file) && localRead == old(localRead) && ioError == old(ioError)
        decreases |cq|
      {
        ReapKeeps(State(), prior, app, d);
        NoFault(State(), prior, app, d);
        var c := cq[0];
        cq := cq[1..];
        HandleCompletion(c.req, c.res);
      }
    }
  }
}
