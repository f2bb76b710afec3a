/**
 Where the forwarder loses a captured command: encoded commands cut into segments are extracted
 in full exactly if no segment ends right behind a marker, every command is within the parser's
 limits, and the bytes waiting for the rest of a command always fit the flow's buffer.
 */
module Splits {
  import opened Common
  import opened Resp
  import opened Streams
  import opened Tcp

  // ---------- The condition, computed from the commands and the segment lengths ----------

  /** The limits of resp_command_len. */
  predicate Allowed(args: seq<bytes>) {
    0 < |args| <= 1024 && forall i :: 0 <= i < |args| ==> |args[i]| <= 8388608
  }

  predicate AllAllowed(commands: seq<seq<bytes>>) {
    forall i :: 0 <= i < |commands| ==> Allowed(commands[i])
  }

  /** Position p of the encoded arguments lies right behind one of their '$'. */
  predicate BulkMark(args: seq<bytes>, p: int) {
    args != [] && (p == 1 || BulkMark(args[1..], p - |Bulk(args[0])|))
  }

  /** Position p of an encoded command lies right behind its '*' or one of its '$'. */
  predicate CommandMark(args: seq<bytes>, p: int) {
    p == 1 || BulkMark(args, p - HeadLen(args))
  }

  /** Position p of the stream lies right behind a marker. */
  predicate Mark(commands: seq<seq<bytes>>, p: int) {
    commands != [] && (CommandMark(commands[0], p) || Mark(commands[1..], p - |Encode(commands[0])|))
  }

  /** How far position p of the stream lies behind the start of its command. */
  function Waiting(commands: seq<seq<bytes>>, p: nat): nat {
    if commands == [] || p < |Encode(commands[0])| then p
    else Waiting(commands[1..], p - |Encode(commands[0])|)
  }

  /** No segment, from position p on, ends behind a marker or overfills the buffer. */
  predicate Fits(commands: seq<seq<bytes>>, p: nat, pieces: seq<bytes>)
    decreases |pieces|
  {
    pieces != [] ==>
      && Waiting(commands, p) + |pieces[0]| <= 8388608
      && !Mark(commands, p + |pieces[0]|)
      && Fits(commands, p + |pieces[0]|, pieces[1..])
  }

  // ---------- Marks lie inside ----------

  lemma {:induction false} BulkMarkInside(args: seq<bytes>, p: int)
    requires BulkMark(args, p)
    ensures 0 < p < |Bulks(args)|
    decreases |args|
  {
    if p != 1 {
      BulkMarkInside(args[1..], p - |Bulk(args[0])|);
    }
  }

  lemma CommandMarkInside(args: seq<bytes>, p: int)
    requires CommandMark(args, p)
    ensures 0 < p < |Encode(args)|
  {
    if p != 1 {
      BulkMarkInside(args, p - HeadLen(args));
    }
  }

  lemma {:induction false} MarkInside(commands: seq<seq<bytes>>, p: int)
    requires Mark(commands, p)
    ensures 0 < p < |Encoded(commands)|
    decreases |commands|
  {
    hide CommandMark, Encode;
    if CommandMark(commands[0], p) {
      CommandMarkInside(commands[0], p);
    } else {
      MarkInside(commands[1..], p - |Encode(commands[0])|);
    }
  }

  // ---------- The parser on the first bytes of a command ----------

  predicate AllDigits(d: bytes) {
    forall i :: 0 <= i < |d| ==> IsDigit(d[i])
  }

  lemma DigitsCut(a: bytes, d: bytes)
    requires AllDigits(d) && Value(d) <= FLOW_BUF_MAX
    ensures ReadNumber(a + d, |a|) == if d == [] then NumCut else NumNeed
  {
    var buf := a + d;
    assert buf[|a|..|buf|] == d;
    forall i | |a| <= i < |buf|
      ensures IsDigit(buf[i])
    {
      assert buf[i] == d[i - |a|];
    }
  }

  lemma LineEndCut(a: bytes, d: bytes)
    requires AllDigits(d) && d != [] && Value(d) <= FLOW_BUF_MAX
    ensures ReadNumber(a + (d + [CR]), |a|) == NumNeed
  {
    var buf, q := a + (d + [CR]), |a| + |d|;
    assert buf[|a|..q] == d && buf[q] == CR;
    forall i | |a| <= i < q
      ensures IsDigit(buf[i])
    {
      assert buf[i] == d[i - |a|];
    }
    DigitsEndIs(buf, |a|, q);
  }

  /** The first t bytes of a number and its line end: without a digit a cut, otherwise incomplete. */
  lemma NumberCut(a: bytes, n: nat, t: nat)
    requires n <= FLOW_BUF_MAX && t < |Decimal(n)| + 2
    ensures ReadNumber(a + (Decimal(n) + [CR, LF])[..t], |a|) == if t == 0 then NumCut else NumNeed
  {
    hide Decimal, ReadNumber;
    var d := Decimal(n);
    DecimalValue(n);
    if t <= |d| {
      assert (d + [CR, LF])[..t] == d[..t];
      PrefixValue(d, t);
      DigitsCut(a, d[..t]);
    } else {
      assert (d + [CR, LF])[..t] == d + [CR];
      LineEndCut(a, d);
    }
  }

  lemma BulkPrefix(arg: bytes, t: nat)
    requires 0 < t < |Bulk(arg)|
    ensures var d := Decimal(|arg|);
            Bulk(arg)[..t] == if t < |d| + 3 then [DOLLAR] + (d + [CR, LF])[..t - 1]
                              else [DOLLAR] + d + [CR, LF] + (arg + [CR, LF])[..t - |d| - 3]
  {
    hide Decimal;
  }

  lemma BulkHeadCut(a: bytes, n: nat, t: nat, k: nat)
    requires n <= FLOW_BUF_MAX && t < |Decimal(n)| + 2 && k > 0
    ensures FlowBulks(a + [DOLLAR] + (Decimal(n) + [CR, LF])[..t], |a|, k) == if t == 0 then Cut else Need
  {
    hide Decimal, ReadNumber, CrlfAt;
    NumberCut(a + [DOLLAR], n, t);
  }

  lemma BulkBodyCut(a: bytes, n: nat, b: bytes, k: nat)
    requires n <= FLOW_BUF_MAX && |b| < n + 2 && k > 0
    ensures FlowBulks(a + [DOLLAR] + Decimal(n) + [CR, LF] + b, |a|, k) == Need
  {
    hide Decimal, ReadNumber, CrlfAt;
    LineOf(a + [DOLLAR], n, b);
  }

  /** The first t bytes of a bulk string. */
  lemma BulkCut(a: bytes, arg: bytes, t: nat, k: nat)
    requires |arg| <= FLOW_BUF_MAX && 0 < t < |Bulk(arg)| && k > 0
    ensures FlowBulks(a + Bulk(arg)[..t], |a|, k) == if t == 1 then Cut else Need
  {
    hide Decimal, FlowBulks;
    var d := Decimal(|arg|);
    BulkPrefix(arg, t);
    assert |Bulk(arg)| == |d| + |arg| + 5;
    hide Bulk;
    var buf := a + Bulk(arg)[..t];
    if t < |d| + 3 {
      assert buf == a + [DOLLAR] + (d + [CR, LF])[..t - 1];
      BulkHeadCut(a, |arg|, t - 1, k);
    } else {
      var b := (arg + [CR, LF])[..t - |d| - 3];
      assert buf == a + [DOLLAR] + d + [CR, LF] + b;
      BulkBodyCut(a, |arg|, b, k);
    }
  }

  lemma {:induction false} BulksCut(a: bytes, args: seq<bytes>, t: nat)
    requires t < |Bulks(args)| && forall i :: 0 <= i < |args| ==> |args[i]| <= FLOW_BUF_MAX
    ensures FlowBulks(a + Bulks(args)[..t], |a|, |args|) == if BulkMark(args, t) then Cut else Need
    decreases |args|
  {
    hide ReadNumber, Bulk, CrlfAt;
    var b, rest := Bulk(args[0]), Bulks(args[1..]);
    assert Bulks(args) == b + rest;
    if t < |b| {
      assert !BulkMark(args[1..], t - |b|) by {
        if BulkMark(args[1..], t - |b|) {
          BulkMarkInside(args[1..], t - |b|);
        }
      }
      assert (b + rest)[..t] == b[..t];
      if t > 0 {
        BulkCut(a, args[0], t, |args|);
      }
    } else {
      assert (b + rest)[..t] == b + rest[..t - |b|];
      assert a + (b + rest[..t - |b|]) == a + b + rest[..t - |b|];
      var q := BulkHead(a, args[0], rest[..t - |b|]);
      BulksCut(a + b, args[1..], t - |b|);
      BulkLong(args[0]);
    }
  }

  lemma BulkLong(arg: bytes)
    ensures |Bulk(arg)| > 5
  {
  }

  /** The first t bytes of an encoded command, within its count and behind it. */
  lemma EncodePrefix(args: seq<bytes>, t: nat)
    requires t < |Encode(args)|
    ensures var d, h := Decimal(|args|), HeadLen(args);
            && (0 < t < h ==> Encode(args)[..t] == [STAR] + (d + [CR, LF])[..t - 1])
            && (h <= t ==> Encode(args)[..t] == [STAR] + d + [CR, LF] + Bulks(args)[..t - h])
    ensures |Encode(args)| == HeadLen(args) + |Bulks(args)|
  {
    hide Decimal, Bulks;
  }

  lemma HeadCut(args: seq<bytes>, t: nat)
    requires Allowed(args) && t < HeadLen(args)
    ensures FlowFrame(Encode(args)[..t]) == if t == 1 then Cut else Need
    ensures !BulkMark(args, t - HeadLen(args))
  {
    EncodePrefix(args, t);
    if BulkMark(args, t - HeadLen(args)) {
      BulkMarkInside(args, t - HeadLen(args));
    }
    hide Decimal, ReadNumber, Bulks, BulkMark, Encode, FlowBulks;
    if t > 0 {
      NumberCut([STAR], |args|, t - 1);
    }
  }

  lemma TailCut(args: seq<bytes>, t: nat)
    requires Allowed(args) && HeadLen(args) <= t < |Encode(args)|
    ensures FlowFrame(Encode(args)[..t]) == if BulkMark(args, t - HeadLen(args)) then Cut else Need
  {
    hide Decimal, ReadNumber, Bulks, BulkMark, Encode, FlowBulks;
    EncodePrefix(args, t);
    var d, bs := Decimal(|args|), Bulks(args)[..t - HeadLen(args)];
    LineOf([STAR], |args|, bs);
    BulksCut([STAR] + d + [CR, LF], args, t - HeadLen(args));
  }

  /** A proper prefix of a command is an error for the parser exactly if it ends behind a marker. */
  lemma CommandCut(args: seq<bytes>, t: nat)
    requires Allowed(args) && t < |Encode(args)|
    ensures FlowFrame(Encode(args)[..t]) == if CommandMark(args, t) then Cut else Need
  {
    hide Encode, FlowFrame, BulkMark;
    if t < HeadLen(args) {
      HeadCut(args, t);
    } else {
      TailCut(args, t);
    }
  }

  // ---------- Commands beyond the limits ----------

  lemma LongNumber(a: bytes, n: nat, b: bytes)
    requires n > FLOW_BUF_MAX
    ensures ReadNumber(a + Decimal(n) + [CR, LF] + b, |a|) == NumBad
  {
    hide Decimal;
    var d := Decimal(n);
    var buf, q := a + d + [CR, LF] + b, |a| + |d|;
    forall i | |a| <= i < q
      ensures IsDigit(buf[i])
    {
      assert buf[i] == d[i - |a|];
    }
    assert buf[q] == CR && buf[|a|..q] == d;
    DigitsEndIs(buf, |a|, q);
    DecimalValue(n);
  }

  lemma LongBulk(a: bytes, arg: bytes, b: bytes, k: nat)
    requires |arg| > FLOW_BUF_MAX && k > 0
    ensures FlowBulks(a + Bulk(arg) + b, |a|, k) == Bad
  {
    hide Decimal, ReadNumber, CrlfAt;
    var d := Decimal(|arg|);
    assert a + Bulk(arg) + b == (a + [DOLLAR]) + d + [CR, LF] + (arg + [CR, LF] + b);
    LongNumber(a + [DOLLAR], |arg|, arg + [CR, LF] + b);
  }

  lemma {:induction false} BulksRefused(a: bytes, args: seq<bytes>, b: bytes)
    requires exists i :: 0 <= i < |args| && |args[i]| > FLOW_BUF_MAX
    ensures FlowBulks(a + Bulks(args) + b, |a|, |args|) == Bad
    decreases |args|
  {
    hide ReadNumber, CrlfAt, Bulk;
    var rest := Bulks(args[1..]);
    var buf := a + Bulk(args[0]) + (rest + b);
    assert a + Bulks(args) + b == buf;
    if |args[0]| > FLOW_BUF_MAX {
      LongBulk(a, args[0], rest + b, |args|);
    } else {
      var q := BulkHead(a, args[0], rest + b);
      assert a + Bulk(args[0]) + rest + b == buf;
      BulksRefused(a + Bulk(args[0]), args[1..], b);
    }
  }

  /** A command beyond the limits is an error whatever follows it. */
  lemma Refused(args: seq<bytes>, x: bytes)
    requires !Allowed(args)
    ensures FlowFrame(Encode(args) + x) == Bad
  {
    hide ReadNumber, Bulks, Encode, FlowBulks;
    var a := EncodeHead(args, x);
    if |args| > FLOW_BUF_MAX {
      CountTooLong(args, x);
    } else if 0 < |args| <= MAX_ARGC {
      BulksRefused(a, args, x);
    }
  }

  lemma CountTooLong(args: seq<bytes>, x: bytes)
    requires |args| > FLOW_BUF_MAX
    ensures ReadNumber(Encode(args) + x, 1) == NumBad
  {
    hide ReadNumber, Decimal, Bulks;
    LongNumber([STAR], |args|, Bulks(args) + x);
    assert Encode(args) + x == [STAR] + Decimal(|args|) + [CR, LF] + (Bulks(args) + x);
  }

  // ---------- Streams of commands ----------

  /** What the first p bytes of a stream leave in the buffer, and when that is an error. */
  lemma {:induction false} StreamCut(commands: seq<seq<bytes>>, p: nat)
    requires AllAllowed(commands) && p <= |Encoded(commands)|
    ensures var d := Drain(Forwarder, Encoded(commands)[..p]);
            && |d.rest| == Waiting(commands, p) && (GivesUp(d.rest) <==> Mark(commands, p))
            && (p == |Encoded(commands)| ==> d == Drained(Each(commands), []))
    decreases |commands|
  {
    hide Encode, FlowFrame, CommandMark, Allowed;
    if commands == [] {
      EmptyFrame();
    } else {
      var e, rest := Encode(commands[0]), Encoded(commands[1..]);
      if p < |e| {
        assert (e + rest)[..p] == e[..p];
        CommandCut(commands[0], p);
        if Mark(commands[1..], p - |e|) {
          MarkInside(commands[1..], p - |e|);
        }
      } else {
        var tail := rest[..p - |e|];
        assert (e + rest)[..p] == e + tail;
        DrainCommand(commands[0], tail);
        if CommandMark(commands[0], p) {
          CommandMarkInside(commands[0], p);
        }
        StreamCut(commands[1..], p - |e|);
        assert p == |e + rest| ==> Encoded(commands)[..p] == Encoded(commands);
      }
    }
  }

  lemma EmptyFrame()
    ensures FlowFrame([]) == Need && Drain(Forwarder, []) == Drained([], []) && !GivesUp([])
  {
  }

  lemma DrainCommand(args: seq<bytes>, tail: bytes)
    requires Allowed(args)
    ensures var d := Drain(Forwarder, tail);
            Drain(Forwarder, Encode(args) + tail) == Drained([Encode(args)] + d.cmds, d.rest)
  {
    hide Encode, FlowFrame;
    FlowRoundTrip(args, tail);
    var e := Encode(args);
    assert (e + tail)[|e|..] == tail && (e + tail)[..|e|] == e;
  }

  lemma {:induction false} StreamRefused(commands: seq<seq<bytes>>)
    requires !AllAllowed(commands)
    ensures GivesUp(Drain(Forwarder, Encoded(commands)).rest)
    decreases |commands|
  {
    hide Encode, FlowFrame, Allowed;
    if Allowed(commands[0]) {
      DrainCommand(commands[0], Encoded(commands[1..]));
      StreamRefused(commands[1..]);
    } else {
      Refused(commands[0], Encoded(commands[1..]));
    }
  }

  // ---------- Captured segments ----------

  /** The pieces as segments sent one after the other from position p on. */
  function Segments(isn: nat, p: nat, pieces: seq<bytes>): (events: seq<Event>)
    ensures forall e :: e in events ==> |e.seg.payload| <= e.seg.fullLen
    decreases |pieces|
  {
    if pieces == [] then []
    else [Event(Segment(SeqAt(isn, p), |pieces[0]|, pieces[0]), p)] + Segments(isn, p + |pieces[0]|, pieces[1..])
  }

  predicate Untruncated(pieces: seq<bytes>) {
    forall i :: 0 <= i < |pieces| ==> 0 < |pieces[i]| <= 16384
  }

  predicate NoReset(f: Flow, events: seq<Event>)
    requires forall e :: e in events ==> |e.seg.payload| <= e.seg.fullLen
    decreases |events|
  {
    events != [] ==> var o := HandleEvent(f, events[0].seg); !o.reset && NoReset(o.flow, events[1..])
  }

  /** All commands extracted, resets or not. */
  function Extracted(f: Flow, events: seq<Event>): seq<bytes>
    requires forall e :: e in events ==> |e.seg.payload| <= e.seg.fullLen
    decreases |events|
  {
    if events == [] then []
    else var o := HandleEvent(f, events[0].seg); o.cmds + Extracted(o.flow, events[1..])
  }

  /** The flow has accepted exactly the first p bytes. */
  ghost predicate At(f: Flow, isn: nat, stream: bytes, p: nat) {
    && p <= |stream| && f.buf == Drain(Forwarder, stream[..p]).rest
    && (if f.haveSeq then f.nextSeq == SeqAt(isn, p) else p == 0)
  }

  lemma AcceptedEvent(f: Flow, s: Segment, next: nat, payload: bytes)
    requires 0 < |s.payload| <= MAX_DATA && |s.payload| == s.fullLen && Normalize(f, s) == Accept(next, payload)
    ensures var o, d := HandleEvent(f, s), Drain(Forwarder, f.buf + payload);
            && (o.reset <==> |f.buf| + |payload| > FLOW_BUF_MAX || GivesUp(d.rest))
            && (!o.reset ==> o.flow == Flow(true, next, d.rest) && o.cmds == d.cmds)
  {
    hide Drain, GivesUp, Normalize;
  }

  lemma InOrderAccepted(f: Flow, isn: nat, stream: bytes, p: nat, piece: bytes)
    requires At(f, isn, stream, p) && p + |piece| <= |stream| && piece == stream[p..p + |piece|]
    ensures Normalize(f, Segment(SeqAt(isn, p), |piece|, piece)) == Accept(SeqAt(isn, p + |piece|), piece)
  {
    hide Drain, Normalize;
    var s := Segment(SeqAt(isn, p), |piece|, piece);
    if f.haveSeq {
      NormalizeContinues(f, s, isn, stream, p, p);
    } else {
      FirstAccepted(f, s, isn, stream, p);
    }
  }

  /** The next segment in order: a reset, or the flow at the end of the segment. */
  lemma InOrder(f: Flow, isn: nat, stream: bytes, p: nat, piece: bytes)
    requires At(f, isn, stream, p) && 0 < |piece| <= MAX_DATA
    requires p + |piece| <= |stream| && piece == stream[p..p + |piece|]
    ensures var s, q := Segment(SeqAt(isn, p), |piece|, piece), p + |piece|;
            var o, d := HandleEvent(f, s), Drain(Forwarder, stream[..q]);
            && (o.reset <==> |f.buf| + |piece| > FLOW_BUF_MAX || GivesUp(d.rest))
            && (!o.reset ==> At(o.flow, isn, stream, q) && Drain(Forwarder, stream[..p]).cmds + o.cmds == d.cmds)
  {
    hide Drain, GivesUp, Normalize, HandleEvent, SeqAt;
    var s, q := Segment(SeqAt(isn, p), |piece|, piece), p + |piece|;
    InOrderAccepted(f, isn, stream, p, piece);
    AcceptedEvent(f, s, SeqAt(isn, q), piece);
    assert stream[0..p] == stream[..p] && stream[0..q] == stream[..q];
    RangeGrows(stream, 0, p, q, Drain(Forwarder, stream[..p]).cmds, f.buf);
  }

  lemma NextPiece(stream: bytes, p: nat, pieces: seq<bytes>)
    requires p <= |stream| && stream[p..] == Flat(pieces) && pieces != []
    ensures var q := p + |pieces[0]|; q <= |stream| && stream[p..q] == pieces[0] && stream[q..] == Flat(pieces[1..])
  {
    var piece, rest := pieces[0], Flat(pieces[1..]);
    assert stream[p..] == piece + rest;
    assert stream[p..p + |piece|] == (piece + rest)[..|piece|] == piece;
    assert stream[p + |piece|..] == (piece + rest)[|piece|..] == rest;
  }

  /** Segments from position p on: no reset exactly under the condition on every segment's end. */
  lemma {:induction false} NoResetIff(f: Flow, isn: nat, stream: bytes, p: nat, pieces: seq<bytes>)
    requires At(f, isn, stream, p) && Untruncated(pieces) && stream[p..] == Flat(pieces)
    ensures NoReset(f, Segments(isn, p, pieces)) <==> Quiet(stream, p, pieces)
    ensures NoReset(f, Segments(isn, p, pieces)) ==>
            Drain(Forwarder, stream[..p]).cmds + Extracted(f, Segments(isn, p, pieces)) == Drain(Forwarder, stream).cmds
    decreases |pieces|
  {
    hide Drain, GivesUp, HandleEvent, At, SeqAt;
    assert p <= |stream| && f.buf == Drain(Forwarder, stream[..p]).rest by { AtFacts(f, isn, stream, p); }
    if pieces == [] {
      assert stream[..p] == stream;
      assert Drain(Forwarder, stream).cmds + [] == Drain(Forwarder, stream).cmds;
    } else {
      var piece, rest := pieces[0], pieces[1..];
      var q := p + |piece|;
      NextPiece(stream, p, pieces);
      InOrder(f, isn, stream, p, piece);
      var events := Segments(isn, p, pieces);
      assert events[1..] == Segments(isn, q, rest);
      var o := HandleEvent(f, events[0].seg);
      if !o.reset {
        NoResetIff(o.flow, isn, stream, q, rest);
        var before, after := Drain(Forwarder, stream[..p]).cmds, Extracted(o.flow, events[1..]);
        assert before + (o.cmds + after) == before + o.cmds + after;
      }
    }
  }

  lemma AtFacts(f: Flow, isn: nat, stream: bytes, p: nat)
    requires At(f, isn, stream, p)
    ensures p <= |stream| && f.buf == Drain(Forwarder, stream[..p]).rest
  {
  }

  /** The condition on every segment, in the parser's own terms. */
  predicate Quiet(stream: bytes, p: nat, pieces: seq<bytes>)
    requires p <= |stream|
    decreases |pieces|
  {
    pieces != [] && p + |pieces[0]| <= |stream| ==>
      var q := p + |pieces[0]|;
      && |Drain(Forwarder, stream[..p]).rest| + |pieces[0]| <= FLOW_BUF_MAX
      && !GivesUp(Drain(Forwarder, stream[..q]).rest) && Quiet(stream, q, pieces[1..])
  }

  lemma {:induction false} QuietIff(commands: seq<seq<bytes>>, p: nat, pieces: seq<bytes>)
    requires AllAllowed(commands) && p <= |Encoded(commands)| && Encoded(commands)[p..] == Flat(pieces)
    ensures Quiet(Encoded(commands), p, pieces) <==> Fits(commands, p, pieces)
    decreases |pieces|
  {
    hide Drain, GivesUp, Encoded, AllAllowed, Mark, Waiting;
    if pieces != [] {
      var stream, q := Encoded(commands), p + |pieces[0]|;
      NextPiece(stream, p, pieces);
      StreamCut(commands, p);
      StreamCut(commands, q);
      QuietIff(commands, q, pieces[1..]);
    }
  }

  /** An error at the end of the stream is met by the last segment. */
  lemma {:induction false} LoudAtTheEnd(stream: bytes, p: nat, pieces: seq<bytes>)
    requires p <= |stream| && stream[p..] == Flat(pieces) && pieces != []
    requires GivesUp(Drain(Forwarder, stream).rest)
    ensures !Quiet(stream, p, pieces)
    decreases |pieces|
  {
    hide Drain, GivesUp;
    var q := p + |pieces[0]|;
    NextPiece(stream, p, pieces);
    if |pieces| > 1 {
      LoudAtTheEnd(stream, q, pieces[1..]);
    } else {
      assert stream[..q] == stream;
    }
  }

  // ---------- Main results ----------

  /** An event hands out and keeps no more bytes than it found; a reset loses some. */
  lemma EventConserves(f: Flow, s: Segment)
    requires |s.payload| <= s.fullLen
    ensures var o := HandleEvent(f, s);
            && |Flat(o.cmds)| + |o.flow.buf| + (if o.reset then 1 else 0) <= |f.buf| + |s.payload|
  {
    hide Drain, GivesUp, Normalize;
    NormalizeShortens(f, s);
    if 0 < |s.payload| <= MAX_DATA && s.fullLen == |s.payload| && Normalize(f, s).Accept? {
      var bytes := f.buf + Normalize(f, s).payload;
      DrainPartitions(Forwarder, bytes);
      EmptyFrame();
      var d := Drain(Forwarder, bytes);
      assert |Flat(d.cmds)| + |d.rest| == |bytes|;
      assert d.rest == [] ==> !GivesUp(d.rest);
    }
  }

  lemma NormalizeShortens(f: Flow, s: Segment)
    ensures |s.payload| == s.fullLen && Normalize(f, s).Accept? ==> |Normalize(f, s).payload| <= |s.payload|
  {
  }

  function PayloadLen(events: seq<Event>): nat {
    if events == [] then 0 else |events[0].seg.payload| + PayloadLen(events[1..])
  }

  lemma {:induction false} ExtractConserves(f: Flow, events: seq<Event>)
    requires forall e :: e in events ==> |e.seg.payload| <= e.seg.fullLen
    ensures |Flat(Extracted(f, events))| + (if NoReset(f, events) then 0 else 1) <= |f.buf| + PayloadLen(events)
    decreases |events|
  {
    hide HandleEvent;
    if events != [] {
      var o := HandleEvent(f, events[0].seg);
      EventConserves(f, events[0].seg);
      ExtractConserves(o.flow, events[1..]);
      FlatJoin(o.cmds, Extracted(o.flow, events[1..]));
    }
  }

  lemma {:induction false} SegmentsLen(isn: nat, p: nat, pieces: seq<bytes>)
    ensures PayloadLen(Segments(isn, p, pieces)) == |Flat(pieces)|
    decreases |pieces|
  {
    if pieces != [] {
      SegmentsLen(isn, p + |pieces[0]|, pieces[1..]);
      assert Segments(isn, p, pieces)[1..] == Segments(isn, p + |pieces[0]|, pieces[1..]);
    }
  }

  lemma {:induction false} EachIsWhole(commands: seq<seq<bytes>>)
    ensures Flat(Each(commands)) == Encoded(commands)
    decreases |commands|
  {
    hide Encode;
    if commands != [] {
      FlatCons(Encode(commands[0]), Each(commands[1..]));
      EachIsWhole(commands[1..]);
    }
  }

  /** Without a reset the commands since the last reset are all commands. */
  lemma {:induction false} SinceTheStart(f: Flow, events: seq<Event>, done: seq<bytes>)
    requires forall e :: e in events ==> |e.seg.payload| <= e.seg.fullLen
    requires NoReset(f, events)
    ensures CommandsAfter(f, events, done) == done + Extracted(f, events)
    decreases |events|
  {
    hide HandleEvent;
    if events == [] {
      assert done + [] == done;
    } else {
      var o := HandleEvent(f, events[0].seg);
      SinceTheStart(o.flow, events[1..], done + o.cmds);
      assert done + o.cmds + Extracted(o.flow, events[1..]) == done + (o.cmds + Extracted(o.flow, events[1..]));
    }
  }

  /** Without a reset, and only then, every command comes out. */
  lemma ResetLoses(isn: nat, commands: seq<seq<bytes>>, pieces: seq<bytes>)
    requires Untruncated(pieces) && Flat(pieces) == Encoded(commands)
    ensures !NoReset(IDLE, Segments(isn, 0, pieces)) ==> Extracted(IDLE, Segments(isn, 0, pieces)) != Each(commands)
  {
    hide Encode;
    ExtractConserves(IDLE, Segments(isn, 0, pieces));
    SegmentsLen(isn, 0, pieces);
    EachIsWhole(commands);
  }

  /** No segment of the capture resets the flow exactly under the condition. */
  lemma CaptureQuietIff(isn: nat, commands: seq<seq<bytes>>, pieces: seq<bytes>)
    requires Untruncated(pieces) && Flat(pieces) == Encoded(commands)
    ensures NoReset(IDLE, Segments(isn, 0, pieces)) <==> AllAllowed(commands) && Fits(commands, 0, pieces)
    ensures NoReset(IDLE, Segments(isn, 0, pieces)) ==> Extracted(IDLE, Segments(isn, 0, pieces)) == Each(commands)
  {
    hide Drain, GivesUp, AllAllowed, Quiet, Fits, NoReset, Extracted, Encoded, Each;
    var stream := Encoded(commands);
    assert stream[0..] == stream && stream[..0] == [];
    EmptyFrame();
    NoResetIff(IDLE, isn, stream, 0, pieces);
    if AllAllowed(commands) {
      QuietIff(commands, 0, pieces);
      StreamCut(commands, |stream|);
      assert stream[..|stream|] == stream;
      assert [] + Extracted(IDLE, Segments(isn, 0, pieces)) == Extracted(IDLE, Segments(isn, 0, pieces));
    } else {
      StreamRefused(commands);
      assert pieces != [];
      LoudAtTheEnd(stream, 0, pieces);
    }
  }

  /**
   Commands sent in untruncated segments, captured in order, are all extracted exactly if each is
   within the limits, no segment ends behind a marker, and what waits for the rest of a command
   fits the buffer together with the next segment; and exactly then nothing resets the flow.
   */
  lemma ExtractedIff(isn: nat, commands: seq<seq<bytes>>, pieces: seq<bytes>)
    requires Untruncated(pieces) && Flat(pieces) == Encoded(commands)
    ensures var events, ok := Segments(isn, 0, pieces), AllAllowed(commands) && Fits(commands, 0, pieces);
            && (NoReset(IDLE, events) <==> ok)
            && (Extracted(IDLE, events) == Each(commands) <==> ok)
            && (ok ==> CommandsAfter(IDLE, events, []) == Each(commands))
  {
    hide AllAllowed, Fits, NoReset, Extracted, Encoded, Each, CommandsAfter;
    var events := Segments(isn, 0, pieces);
    CaptureQuietIff(isn, commands, pieces);
    ResetLoses(isn, commands, pieces);
    if NoReset(IDLE, events) {
      SinceTheStart(IDLE, events, []);
      assert [] + Extracted(IDLE, events) == Extracted(IDLE, events);
    }
  }

  /** Every command cut behind its '*' is lost: both segments reset the flow and nothing comes out. */
  lemma CutLosesCommand(isn: nat, args: seq<bytes>)
    requires |Encode(args)| - 1 <= 16384
    ensures var rest := Encode(args)[1..];
            && [STAR] + rest == Encode(args)
            && HandleEvent(IDLE, Segment(isn % 4294967296, 1, [STAR])) == Outcome(IDLE, [], true)
            && HandleEvent(IDLE, Segment((isn + 1) % 4294967296, |rest|, rest)) == Outcome(IDLE, [], true)
  {
    var rest := Encode(args)[1..];
    var d := Decimal(|args|);
    assert FlowFrame([STAR]) == Cut by { NumberCut([STAR], 0, 0); }
    assert rest[0] == d[0] && IsDigit(rest[0]);
    hide Decimal, Bulks, ReadNumber;
    assert FlowFrame(rest) == Bad;
    assert [] + rest == rest && [] + [STAR] == [STAR];
  }

  /** A command longer than the buffer is lost however it is cut. */
  lemma LongCommandLost(isn: nat, args: seq<bytes>, pieces: seq<bytes>)
    requires Untruncated(pieces) && Flat(pieces) == Encode(args) && |Encode(args)| > 8388608
    ensures Extracted(IDLE, Segments(isn, 0, pieces)) != [Encode(args)]
  {
    hide Encode, Extracted;
    assert Encoded([args]) == Encode(args) && Each([args]) == [Encode(args)];
    ExtractedIff(isn, [args], pieces);
    if Fits([args], 0, pieces) {
      LongOverfills(args, 0, pieces);
    }
  }

  lemma {:induction false} LongOverfills(args: seq<bytes>, p: nat, pieces: seq<bytes>)
    requires |Encode(args)| > 8388608 && p < |Encode(args)| && |Flat(pieces)| == |Encode(args)| - p
    ensures !Fits([args], p, pieces)
    decreases |pieces|
  {
    hide Encode;
    var q := p + |pieces[0]|;
    if q < |Encode(args)| {
      LongOverfills(args, q, pieces[1..]);
    }
  }
}
