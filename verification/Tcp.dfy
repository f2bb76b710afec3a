/**
 One captured TCP flow: segments are put in order by sequence numbers modulo 2^32, as section 3.4
 of RFC 9293 numbers them, and commands are cut from the reassembled bytes.
 */
module Tcp {
  import opened Common
  import opened Resp
  import opened Streams

  const WRAP := 0x1_0000_0000
  const HALF := 0x8000_0000
  const MAX_DATA := 16384

  /** A captured segment; fullLen is its length on the wire. */
  datatype Segment = Segment(seqNo: nat, fullLen: nat, payload: bytes)

  datatype Flow = Flow(haveSeq: bool, nextSeq: nat, buf: bytes)

  const IDLE := Flow(false, 0, [])

  /** (int32_t)(a - b) < 0 */
  predicate SeqBefore(a: nat, b: nat) {
    (a - b) % WRAP >= HALF
  }

  datatype Order = Accept(nextSeq: nat, payload: bytes) | Duplicate | Gap

  function Normalize(f: Flow, s: Segment): (r: Order)
    requires |s.payload| == s.fullLen
  {
    if !f.haveSeq then Accept((s.seqNo + s.fullLen) % WRAP, s.payload)
    else if s.seqNo == f.nextSeq then Accept((f.nextSeq + s.fullLen) % WRAP, s.payload)
    else if SeqBefore(s.seqNo, f.nextSeq) then
      var overlap := (f.nextSeq - s.seqNo) % WRAP;
      if overlap >= s.fullLen then Duplicate
      else Accept((f.nextSeq + (s.fullLen - overlap)) % WRAP, s.payload[overlap..])
    else Gap
  }

  /** What one event does to the flow, and the commands it completes. */
  datatype Outcome = Outcome(flow: Flow, cmds: seq<bytes>, reset: bool)

  function HandleEvent(f: Flow, s: Segment): Outcome
    requires |s.payload| <= s.fullLen
  {
    if |s.payload| == 0 || |s.payload| > MAX_DATA then Outcome(f, [], false)
    else if s.fullLen > |s.payload| then Outcome(IDLE, [], true)
    else match Normalize(f, s)
      case Duplicate => Outcome(f, [], false)
      case Gap => Outcome(IDLE, [], true)
      case Accept(next, payload) =>
        if |f.buf| + |payload| > FLOW_BUF_MAX then Outcome(IDLE, [], true)
        else
          var d := Drain(Forwarder, f.buf + payload);
          if GivesUp(d.rest) then Outcome(IDLE, d.cmds, true)
          else Outcome(Flow(true, next, d.rest), d.cmds, false)
  }

  // ---------- The sender's stream ----------

  /** The sequence number of position p. */
  function SeqAt(isn: nat, p: nat): nat {
    (isn + p) % 4294967296
  }

  /** The segment carries stream[p..p + fullLen], at least its first bytes. */
  predicate Carries(s: Segment, isn: nat, stream: bytes, p: nat) {
    && p + s.fullLen <= |stream| && |s.payload| <= s.fullLen
    && s.seqNo == SeqAt(isn, p) && s.payload == stream[p..p + |s.payload|]
  }

  /** Since the last reset exactly stream[base..next] was accepted, and taken apart into done and the buffer. */
  ghost predicate InStep(f: Flow, isn: nat, stream: bytes, base: nat, next: nat, done: seq<bytes>) {
    if f.haveSeq then
      && base <= next <= |stream| && f.nextSeq == SeqAt(isn, next)
      && Drain(Forwarder, stream[base..next]) == Drained(done, f.buf)
    else f.buf == [] && done == []
  }

  lemma ModShift(a: int, b: int, n: nat)
    requires n > 0
    ensures (a % n + b) % n == (a + b) % n && (a % n - b % n) % n == (a - b) % n
  {
    var qa, qb := a / n, b / n;
    assert a == n * qa + a % n && b == n * qb + b % n;
    assert a % n + b == (a + b) + n * (-qa);
    ModMultiple(a + b, -qa, n);
    assert a % n - b % n == (a - b) + n * (qb - qa);
    ModMultiple(a - b, qb - qa, n);
  }

  lemma ModMultiple(x: int, k: int, n: nat)
    requires n > 0
    ensures (x + n * k) % n == x % n
  {
    var y := x + n * k;
    var d := y / n - x / n - k;
    assert (d >= 1 ==> n * d >= n) && (d <= -1 ==> n * d <= -1 * n);
    assert n * d == x % n - y % n by {
      assert x == n * (x / n) + x % n && y == n * (y / n) + y % n;
      assert n * d == n * (y / n) - n * (x / n) - n * k;
    }
  }

  /** Positions less than half the number space apart are ordered right, across the wrap too. */
  lemma OrderRight(isn: nat, p: nat, next: nat)
    requires -2147483648 <= p - next < 2147483648
    ensures var a, b := (isn + p) % 4294967296, (isn + next) % 4294967296;
            && (a == b <==> p == next)
            && (SeqBefore(a, b) <==> p < next)
            && (p < next ==> (b - a) % 4294967296 == next - p)
  {
    var a, b := (isn + p) % WRAP, (isn + next) % WRAP;
    ModShift(isn + p, isn + next, WRAP);
    ModShift(isn + next, isn + p, WRAP);
    Residue(p - next);
    Residue(next - p);
    Residue(a - b);
  }

  lemma Residue(x: int)
    requires -WRAP < x < WRAP
    ensures x % WRAP == if x < 0 then x + WRAP else x
  {
    if x < 0 {
      ModMultiple(x, 1, WRAP);
    }
  }

  /** The events of one flow: each segment with the position it was sent from. */
  datatype Event = Event(seg: Segment, pos: nat)

  /** The position expected after an event. */
  function Expected(f: Flow, e: Event, next: nat): nat {
    if !f.haveSeq then e.pos + |e.seg.payload|
    else if e.pos <= next && |e.seg.payload| <= 16384 then Max(next, e.pos + |e.seg.payload|)
    else next
  }

  /** The accepted bytes continue the range exactly where it ended. */
  lemma NormalizeContinues(f: Flow, s: Segment, isn: nat, stream: bytes, next: nat, p: nat)
    requires f.haveSeq && f.nextSeq == SeqAt(isn, next) && next <= |stream|
    requires Carries(s, isn, stream, p) && |s.payload| == s.fullLen && -2147483648 <= p - next < 2147483648
    ensures Normalize(f, s) ==
            if p > next then Gap
            else if p < next && p + s.fullLen <= next then Duplicate
            else Accept(SeqAt(isn, p + s.fullLen), stream[next..p + s.fullLen])
  {
    OrderRight(isn, p, next);
    ModShift(isn + next, s.fullLen, WRAP);
    ModShift(isn + next, p + s.fullLen - next, WRAP);
    if p < next {
      var overlap := next - p;
      assert (f.nextSeq - s.seqNo) % WRAP == overlap;
      if overlap < s.fullLen {
        assert s.payload[overlap..] == stream[next..p + s.fullLen];
      }
    } else if p == next {
      assert s.payload == stream[next..p + s.fullLen];
    }
  }

  /**
   What each kind of segment does to a flow in step: empty and oversized ones and duplicates
   nothing, truncated ones and gaps a reset, and the others extend what was accepted.
   */
  lemma EventExact(f: Flow, s: Segment, isn: nat, stream: bytes, next: nat, p: nat)
    requires f.haveSeq && f.nextSeq == SeqAt(isn, next) && next <= |stream| && Carries(s, isn, stream, p)
    requires -2147483648 <= p - next < 2147483648
    ensures var o := HandleEvent(f, s);
            if |s.payload| == 0 || |s.payload| > 16384 then o == Outcome(f, [], false)
            else if |s.payload| < s.fullLen || p > next then o == Outcome(IDLE, [], true)
            else if p + s.fullLen <= next then o == Outcome(f, [], false)
            else
              var d := Drain(Forwarder, f.buf + stream[next..p + s.fullLen]);
              if |f.buf| + (p + s.fullLen - next) > 8388608 then o == Outcome(IDLE, [], true)
              else if GivesUp(d.rest) then o == Outcome(IDLE, d.cmds, true)
              else o == Outcome(Flow(true, SeqAt(isn, p + s.fullLen), d.rest), d.cmds, false)
  {
    hide Drain, GivesUp, Normalize, SeqAt;
    if |s.payload| == s.fullLen {
      NormalizeContinues(f, s, isn, stream, next, p);
    }
  }

  /**
   One event in step: without a reset, what was extracted and buffered is again a contiguous range
   of the stream, extended to the end of the segment if that lies beyond.
   */
  lemma EventInStep(f: Flow, s: Segment, isn: nat, stream: bytes, base: nat, next: nat, done: seq<bytes>, p: nat)
    returns (base': nat, next': nat)
    requires InStep(f, isn, stream, base, next, done) && Carries(s, isn, stream, p)
    requires f.haveSeq ==> -2147483648 <= p - next < 2147483648
    ensures var o := HandleEvent(f, s);
            && InStep(o.flow, isn, stream, base', next', if o.reset then [] else done + o.cmds)
            && (o.reset ==> o.flow == IDLE)
            && (!o.reset && f.haveSeq ==> base' == base)
            && (o.flow.haveSeq ==> next' == Expected(f, Event(s, p), next))
  {
    hide Drain, GivesUp, Normalize, SeqAt;
    base', next' := base, next;
    assert done + [] == done;
    if 0 < |s.payload| <= MAX_DATA && s.fullLen == |s.payload| {
      if f.haveSeq {
        NormalizeContinues(f, s, isn, stream, next, p);
      } else {
        base', next' := p, p;
        FirstAccepted(f, s, isn, stream, p);
      }
      if Normalize(f, s).Accept? && !HandleEvent(f, s).reset {
        RangeGrows(stream, base', next', p + s.fullLen, done, f.buf);
        next' := p + s.fullLen;
      }
    }
  }

  lemma FirstAccepted(f: Flow, s: Segment, isn: nat, stream: bytes, p: nat)
    requires !f.haveSeq && Carries(s, isn, stream, p) && |s.payload| == s.fullLen
    ensures Normalize(f, s) == Accept(SeqAt(isn, p + s.fullLen), stream[p..p + s.fullLen])
    ensures Drain(Forwarder, stream[p..p]) == Drained([], [])
  {
    ModShift(isn + p, s.fullLen, WRAP);
    EmptyRange(stream, p);
  }

  lemma RangeGrows(stream: bytes, base: nat, next: nat, to: nat, done: seq<bytes>, buf: bytes)
    requires base <= next <= to <= |stream| && Drain(Forwarder, stream[base..next]) == Drained(done, buf)
    ensures var d := Drain(Forwarder, buf + stream[next..to]);
            Drain(Forwarder, stream[base..to]) == Drained(done + d.cmds, d.rest)
  {
    hide Drain;
    DrainSplit(Forwarder, stream[base..next], stream[next..to]);
    assert stream[base..next] + stream[next..to] == stream[base..to];
  }

  lemma EmptyRange(stream: bytes, p: nat)
    requires p <= |stream|
    ensures Drain(Forwarder, stream[p..p]) == Drained([], [])
  {
    assert stream[p..p] == [];
  }

  // ---------- Whole captures ----------

  /** Positions stay less than half the number space away from what is expected. */
  ghost predicate Capture(f: Flow, events: seq<Event>, isn: nat, stream: bytes, next: nat)
    decreases |events|
  {
    events != [] ==>
      var e := events[0];
      && Carries(e.seg, isn, stream, e.pos)
      && (f.haveSeq ==> -2147483648 <= e.pos - next < 2147483648)
      && Capture(HandleEvent(f, e.seg).flow, events[1..], isn, stream, Expected(f, e, next))
  }

  function FlowAfter(f: Flow, events: seq<Event>): Flow
    requires forall e :: e in events ==> |e.seg.payload| <= e.seg.fullLen
    decreases |events|
  {
    if events == [] then f else FlowAfter(HandleEvent(f, events[0].seg).flow, events[1..])
  }

  /** The commands extracted since the last reset. */
  function CommandsAfter(f: Flow, events: seq<Event>, done: seq<bytes>): seq<bytes>
    requires forall e :: e in events ==> |e.seg.payload| <= e.seg.fullLen
    decreases |events|
  {
    if events == [] then done
    else
      var o := HandleEvent(f, events[0].seg);
      CommandsAfter(o.flow, events[1..], if o.reset then [] else done + o.cmds)
  }

  /**
   For any order of duplicated, overlapping or missing segments, the commands extracted since the
   last reset and the buffer are those of one contiguous range of the stream.
   */
  lemma {:induction false} CaptureInStep(f: Flow, events: seq<Event>, isn: nat, stream: bytes, base: nat, next: nat,
      done: seq<bytes>)
    returns (base': nat, next': nat)
    requires InStep(f, isn, stream, base, next, done) && Capture(f, events, isn, stream, next)
    ensures forall e :: e in events ==> |e.seg.payload| <= e.seg.fullLen
    ensures InStep(FlowAfter(f, events), isn, stream, base', next', CommandsAfter(f, events, done))
    decreases |events|
  {
    hide InStep, HandleEvent, Drain;
    base', next' := base, next;
    if events != [] {
      var e := events[0];
      var o := HandleEvent(f, e.seg);
      base', next' := EventInStep(f, e.seg, isn, stream, base, next, done, e.pos);
      assert Capture(o.flow, events[1..], isn, stream, next')
      by { ResetForgets(o.flow, events[1..], isn, stream, Expected(f, e, next), next'); }
      var done' := if o.reset then [] else done + o.cmds;
      base', next' := CaptureInStep(o.flow, events[1..], isn, stream, base', next', done');
      assert events == [e] + events[1..];
    }
  }

  /** Without a sequence number nothing is expected yet. */
  lemma ResetForgets(f: Flow, events: seq<Event>, isn: nat, stream: bytes, next: nat, next': nat)
    requires Capture(f, events, isn, stream, next) && (f.haveSeq ==> next' == next)
    ensures Capture(f, events, isn, stream, next')
    decreases |events|
  {
    if events != [] && !f.haveSeq {
      var e := events[0];
      var g := HandleEvent(f, e.seg).flow;
      assert Expected(f, e, next) == Expected(f, e, next');
    }
  }
}
