/**
 One connection of the reactor: the receive buffer is parsed in place and compacted, replies
 collect in a send buffer that drains by partial sends.  The ghost fields record the whole
 history, and every event keeps the buffers in agreement with it.
 */
module Reactor {
  import opened Common
  import opened Resp
  import opened Streams
  import opened ServerFrames

  const BUFFER_SIZE := 4194304

  /** What the command handler answers to the i-th command; None stands for a negative result. */
  type Handler = (nat, bytes) -> Option<bytes>

  /** What send reports: bytes taken, no room for now, or an error. */
  datatype SendResult = Took(n: nat) | WouldBlock | Broken

  class Connection {
    const handler: Handler
    var rbuffer: array<byte>
    var rlength: nat
    var rparseOffset: nat
    var wbuffer: array<byte>
    var wlength: nat
    var woffset: nat
    var closed: bool
    var commands: nat

    ghost var received: bytes
    ghost var executed: seq<bytes>
    ghost var sent: bytes

    ghost predicate Shape()
      reads this
    {
      && rparseOffset <= rlength < rbuffer.Length && 1 < rbuffer.Length
      && woffset <= wlength <= wbuffer.Length && 0 < wbuffer.Length && rbuffer != wbuffer
    }

    ghost function Unparsed(): bytes
      reads this, rbuffer
      requires Shape()
    {
      rbuffer[rparseOffset..rlength]
    }

    ghost function Pending(): bytes
      reads this, wbuffer
      requires Shape()
    {
      wbuffer[woffset..wlength]
    }

    /** Replies to what was executed are sent or pending, in order and without loss. */
    ghost predicate Answered()
      reads this, wbuffer
      requires Shape()
    {
      sent + Pending() == Replies(handler, executed) && (wlength == 0 || woffset < wlength)
    }

    ghost predicate Valid()
      reads this, rbuffer, wbuffer
    {
      && Shape() && !closed && Answered() && commands == |executed|
      && Drain(Server, received) == Drained(executed, Unparsed())
    }

    constructor (handler: Handler)
      ensures Valid() && fresh(rbuffer) && fresh(wbuffer)
      ensures received == [] && executed == [] && sent == [] && rbuffer.Length == wbuffer.Length == 4194304
    {
      this.handler := handler;
      rbuffer, wbuffer := new byte[BUFFER_SIZE], new byte[BUFFER_SIZE];
      rlength, rparseOffset, wlength, woffset, closed, commands := 0, 0, 0, 0, false, 0;
      received, executed, sent := [], [], [];
    }

    /** A send event: the socket takes some of the pending bytes, none, or the connection is closed. */
    method SendCb(r: SendResult) returns (n: int)
      requires Valid() && (r.Took? ==> r.n <= wlength - woffset)
      modifies this`wlength, this`woffset, this`sent, this`closed
      ensures closed <==> old(wlength) > 0 && r.Broken?
      ensures n == if closed then -1 else if old(wlength) > 0 && r.Took? then r.n else 0
      ensures closed ==> sent == old(sent)
      ensures !closed ==> Valid() && sent == old(sent) + old(Pending())[..n]
    {
      hide Drain, Replies, Pending, Unparsed;
      if wlength == 0 {
        assert sent + Pending()[..0] == sent;
        return 0;
      }
      if r.Broken? {
        closed := true;
        return -1;
      }
      if r.WouldBlock? {
        assert sent + Pending()[..0] == sent;
        return 0;
      }
      n := r.n;
      PendingSize();
      Advance(r.n);
    }

    lemma PendingSize()
      requires Shape()
      ensures |Pending()| == wlength - woffset
    {
    }

    /** The socket has taken n of the pending bytes. */
    method Advance(n: nat)
      requires Valid() && 0 < wlength && n <= wlength - woffset
      modifies this`wlength, this`woffset, this`sent
      ensures Valid() && sent == old(sent) + old(Pending())[..n]
    {
      hide Drain, Replies;
      ghost var pending := Pending();
      TakeSome(sent, pending, n);
      woffset := woffset + n;
      PendingLeft(pending, n);
      if woffset >= wlength {
        wlength, woffset := 0, 0;
      }
      sent := sent + pending[..n];
    }

    /** After the move of the offset the pending bytes are the ones not taken. */
    lemma PendingLeft(pending: bytes, take: nat)
      requires Shape() && take <= |pending| && woffset >= take && pending == wbuffer[woffset - take..wlength]
      ensures Pending() == pending[take..]
    {
    }

    /** Make room for more bytes behind the pending replies. */
    method GrowWrite(more: nat)
      requires Shape()
      modifies this`wbuffer
      ensures Shape() && wlength + more <= wbuffer.Length && Pending() == old(Pending())
      ensures wbuffer == old(wbuffer) || fresh(wbuffer)
    {
      if wlength + more > wbuffer.Length {
        var size := wbuffer.Length * 2;
        if size < wlength + more {
          size := wlength + more;
        }
        var larger := new byte[size];
        forall i | 0 <= i < wlength {
          larger[i] := wbuffer[i];
        }
        wbuffer := larger;
      }
    }

    /** Put one reply behind the pending ones. */
    method AppendReply(reply: bytes)
      requires Shape()
      modifies this`wbuffer, this`wlength, wbuffer
      ensures Shape() && Pending() == old(Pending()) + reply
      ensures wbuffer == old(wbuffer) || fresh(wbuffer)
    {
      GrowWrite(|reply|);
      ghost var pending := Pending();
      forall i | 0 <= i < |reply| {
        wbuffer[wlength + i] := reply[i];
      }
      wlength := wlength + |reply|;
      assert wbuffer[woffset..wlength] == pending + reply;
    }

    /** Double a full receive buffer. */
    method GrowRead()
      requires Shape()
      modifies this`rbuffer
      ensures Shape() && Unparsed() == old(Unparsed()) && Pending() == old(Pending())
      ensures rbuffer.Length == if rlength >= old(rbuffer).Length - 1 then 2 * old(rbuffer).Length
              else old(rbuffer).Length
      ensures rbuffer == old(rbuffer) || fresh(rbuffer)
    {
      if rlength >= rbuffer.Length - 1 {
        var larger := new byte[rbuffer.Length * 2];
        forall i | 0 <= i < rlength {
          larger[i] := rbuffer[i];
        }
        rbuffer := larger;
      }
    }

    /** Store the received bytes behind the unparsed ones. */
    method Fill(chunk: bytes)
      requires Shape() && rlength + |chunk| < rbuffer.Length
      modifies this`rlength, this`received, rbuffer
      ensures Shape() && Unparsed() == old(Unparsed()) + chunk && Pending() == old(Pending())
      ensures received == old(received) + chunk
    {
      received := received + chunk;
      ghost var unparsed := Unparsed();
      forall i | 0 <= i < |chunk| {
        rbuffer[rlength + i] := chunk[i];
      }
      rlength := rlength + |chunk|;
      rbuffer[rlength] := 0;
      assert rbuffer[rparseOffset..rlength] == unparsed + chunk;
    }

    /** Execute the command of the given length at the parse position; a failing handler closes the connection. */
    method Execute(cmdLen: nat)
      requires Shape() && !closed && Answered() && commands == |executed| && cmdLen <= |Unparsed()|
      modifies this`rparseOffset, this`wbuffer, this`wlength, this`closed, this`commands, this`executed, wbuffer
      ensures wbuffer == old(wbuffer) || fresh(wbuffer)
      ensures closed == handler(|old(executed)|, old(Unparsed())[..cmdLen]).None?
      ensures closed ==> executed == old(executed)
      ensures !closed ==>
                && Shape() && Answered() && commands == |executed| && rparseOffset == old(rparseOffset) + cmdLen
                && executed == old(executed) + [old(Unparsed())[..cmdLen]] && Unparsed() == old(Unparsed())[cmdLen..]
    {
      hide Replies, Drain;
      var cmd := rbuffer[rparseOffset..rparseOffset + cmdLen];
      assert cmd == Unparsed()[..cmdLen];
      var reply := handler(commands, cmd);
      if reply.None? {
        closed := true;
        return;
      }
      if |reply.value| > 0 {
        AppendReply(reply.value);
      }
      assert Pending() == old(Pending()) + reply.value by {
        assert old(Pending()) + [] == old(Pending());
      }
      AnswerMore(handler, sent, old(Pending()), executed, cmd, reply.value);
      Skip(cmd);
    }

    /** The executed command is behind the parse position. */
    method Skip(cmd: bytes)
      requires Shape() && |cmd| <= |Unparsed()|
      modifies this`rparseOffset, this`commands, this`executed
      ensures Shape() && Pending() == old(Pending()) && Unparsed() == old(Unparsed())[|cmd|..]
      ensures rparseOffset == old(rparseOffset) + |cmd| && commands == old(commands) + 1
      ensures executed == old(executed) + [cmd]
    {
      executed := executed + [cmd];
      commands := commands + 1;
      rparseOffset := rparseOffset + |cmd|;
    }

    /** Execute every complete command; ret is -1 if the parser does not like what comes next. */
    method ParseLoop() returns (ret: int)
      requires Shape() && !closed && Answered() && commands == |executed|
      requires Drain(Server, received) == Continue(Server, executed, Unparsed())
      modifies this`rparseOffset, this`wbuffer, this`wlength, this`closed, this`commands, this`executed, wbuffer
      ensures closed <==> Fails(handler, Drain(Server, received).cmds, |old(executed)|)
      ensures !closed ==> Valid() && (ret == -1 <==> Refused(Unparsed()))
      ensures wbuffer == old(wbuffer) || fresh(wbuffer)
    {
      hide Replies, Drain;
      ret := 1;
      while rparseOffset < rlength
        invariant Shape() && !closed && Answered() && commands == |executed|
        invariant Drain(Server, received) == Continue(Server, executed, Unparsed())
        invariant |old(executed)| <= |executed| && !Fails(handler, executed, |old(executed)|)
        invariant (wbuffer == old(wbuffer) || fresh(wbuffer)) && ret == 1
        decreases rlength - rparseOffset
      {
        var cmdLen;
        ret, cmdLen := ParseOneCommand(rbuffer[rparseOffset..rlength]);
        if ret != 1 {
          break;
        }
        ContinueNext(Server, executed, Unparsed());
        FailsNext(handler, executed, Unparsed()[..cmdLen], |old(executed)|);
        ghost var all := Drain(Server, received).cmds;
        Execute(cmdLen);
        if closed {
          assert handler(|executed|, all[|executed|]).None?;
          return;
        }
      }
      ContinueLast(Server, executed, Unparsed());
    }

    /** Move the unparsed bytes to the front of the buffer. */
    method Compact()
      requires Shape()
      modifies this`rlength, this`rparseOffset, rbuffer
      ensures Shape() && Unparsed() == old(Unparsed()) && Pending() == old(Pending())
    {
      if rparseOffset > 0 {
        var left := rlength - rparseOffset;
        forall i | 0 <= i < left {
          rbuffer[i] := rbuffer[rparseOffset + i];
        }
        rlength, rparseOffset := left, 0;
      }
    }

    /** Take in a chunk; nothing is executed yet. */
    method Receive(chunk: bytes)
      requires Valid() && Room(|chunk|)
      modifies this`rbuffer, this`rlength, this`received, rbuffer
      ensures Shape() && Answered() && received == old(received) + chunk
      ensures Drain(Server, received) == Continue(Server, executed, Unparsed())
      ensures rbuffer == old(rbuffer) || fresh(rbuffer)
    {
      hide Replies, Drain, Continue, Unparsed, Pending;
      GrowRead();
      Fill(chunk);
      ReceiveMore(old(received), executed, old(Unparsed()), chunk);
    }

    /** recv is asked for no more than the buffer, doubled if it is full, can hold. */
    predicate Room(n: nat)
      reads this
    {
      rlength + n < if rlength >= rbuffer.Length - 1 then 2 * rbuffer.Length else rbuffer.Length
    }

    /** Execute what is complete, move the rest to the front, and send what the socket takes at once. */
    method Respond(take: SendResult) returns (n: int)
      requires Shape() && !closed && Answered() && commands == |executed|
      requires Drain(Server, received) == Continue(Server, executed, Unparsed())
      modifies this`rlength, this`rparseOffset, this`wbuffer, this`wlength, this`woffset, this`closed
      modifies this`commands, this`executed, this`sent, rbuffer, wbuffer
      ensures wbuffer == old(wbuffer) || fresh(wbuffer)
      ensures var d := Drain(Server, received);
              var failed := Fails(handler, d.cmds, |old(executed)|);
              && n == (if failed || Refused(d.rest) then -1 else 0)
              && (closed <==> failed || (take.Broken? && !Refused(d.rest) && old(sent) != Replies(handler, d.cmds)))
              && (!closed ==> |sent| == SentAfter(old(sent), take, Refused(d.rest), Replies(handler, d.cmds)))
      ensures !closed ==> Valid() && old(sent) <= sent
    {
      hide Replies, Drain, Continue, Unparsed, Pending;
      n := ParseLoop();
      if closed {
        return -1;
      }
      PendingCount();
      if n == -1 {
        return;
      }
      assert old(sent) == Replies(handler, executed) <==> wlength == 0 by { PendingIff(); }
      Compact();
      n := 0;
      if wlength > 0 {
        var _ := SendCb(if take.Took? then Took(Min(take.n, wlength - woffset)) else take);
      }
    }

    lemma PendingIff()
      requires Valid()
      ensures sent == Replies(handler, executed) <==> wlength == 0
    {
      hide Replies, Drain;
      assert |sent + Pending()| == |sent| + |Pending()|;
    }

    lemma PendingCount()
      requires Valid()
      ensures |Pending()| == wlength - woffset && |Replies(handler, executed)| == |sent| + (wlength - woffset)
    {
      hide Replies, Drain;
      assert |sent + Pending()| == |sent| + |Pending()|;
    }

    /**
     A receive event: no bytes mean that the peer is gone; otherwise a chunk arrives, and the socket
     answers `take` to the attempt to send the replies.
     */
    method RecvCb(chunk: bytes, take: SendResult) returns (n: int)
      requires Valid() && Room(|chunk|)
      modifies this, rbuffer, wbuffer
      ensures rbuffer == old(rbuffer) || fresh(rbuffer)
      ensures wbuffer == old(wbuffer) || fresh(wbuffer)
      ensures received == old(received) + chunk
      ensures var d := Drain(Server, received);
              var failed := chunk == [] || Fails(handler, d.cmds, |old(executed)|);
              && n == (if failed || Refused(d.rest) then -1 else |chunk|)
              && (closed <==> failed || (take.Broken? && !Refused(d.rest) && old(sent) != Replies(handler, d.cmds)))
              && (!closed ==> |sent| == SentAfter(old(sent), take, Refused(d.rest), Replies(handler, d.cmds)))
      ensures !closed ==> Valid() && old(sent) <= sent
      ensures forall commands :: Arrived(received, commands) && chunk != [] && take.Took? ==>
                var done := Each(commands[..WholeCommands(commands, |received|)]);
                !Fails(handler, done, |old(executed)|) && !DollarNext(commands, |received|) ==>
                  n == |chunk| && !closed && |sent| == Min(|old(sent)| + take.n, |Replies(handler, done)|)
    {
      hide Replies, Drain, Continue, Unparsed, Pending, Fails, Refused, Arrived;
      if |chunk| == 0 {
        assert received + chunk == received;
        GrowRead();
        closed := true;
        return -1;
      }
      Receive(chunk);
      n := Respond(take);
      if n == 0 {
        n := |chunk|;
      }
      forall commands | Arrived(received, commands)
        ensures Drain(Server, received).cmds == Each(commands[..WholeCommands(commands, |received|)])
        ensures Refused(Drain(Server, received).rest) <==> DollarNext(commands, |received|)
      {
        ArrivedPart(received, commands);
      }
    }
  }

  /** The bytes received are the beginning of a stream of encoded commands. */
  predicate Arrived(received: bytes, commands: seq<seq<bytes>>) {
    received <= Encoded(commands)
  }

  lemma ArrivedPart(received: bytes, commands: seq<seq<bytes>>)
    requires Arrived(received, commands)
    ensures Drain(Server, received).cmds == Each(commands[..WholeCommands(commands, |received|)])
    ensures Refused(Drain(Server, received).rest) <==> DollarNext(commands, |received|)
  {
    hide Drain, Refused, DollarNext, WholeCommands, Each, Encoded;
    StreamPart(commands, |received|);
    assert Encoded(commands)[..|received|] == received;
  }

  /** How many reply bytes are sent once a receive event is over. */
  function SentAfter(before: bytes, take: SendResult, refused: bool, replies: bytes): int {
    if take.Took? && !refused then Min(|before| + take.n, |replies|) else |before|
  }

  lemma ReceiveMore(received: bytes, executed: seq<bytes>, unparsed: bytes, chunk: bytes)
    requires Drain(Server, received) == Drained(executed, unparsed)
    ensures Drain(Server, received + chunk) == Continue(Server, executed, unparsed + chunk)
  {
    DrainSplit(Server, received, chunk);
  }

  /** The handler fails on some command from the given one on. */
  predicate Fails(handler: Handler, cmds: seq<bytes>, start: nat) {
    exists i :: start <= i < |cmds| && handler(i, cmds[i]).None?
  }

  lemma FailsNext(handler: Handler, cmds: seq<bytes>, cmd: bytes, start: nat)
    requires start <= |cmds| && !Fails(handler, cmds, start)
    ensures Fails(handler, cmds + [cmd], start) <==> handler(|cmds|, cmd).None?
  {
    var next := cmds + [cmd];
    if handler(|cmds|, cmd).None? {
      assert handler(|cmds|, next[|cmds|]).None?;
    }
  }

  lemma TakeSome(sent: bytes, pending: bytes, take: nat)
    requires take <= |pending|
    ensures sent + pending == sent + pending[..take] + pending[take..]
  {
  }

  lemma AnswerMore(handler: Handler, sent: bytes, pending: bytes, cmds: seq<bytes>, cmd: bytes, reply: bytes)
    requires sent + pending == Replies(handler, cmds) && handler(|cmds|, cmd) == Some(reply)
    ensures sent + (pending + reply) == Replies(handler, cmds + [cmd])
  {
    hide Replies;
    RepliesMore(handler, cmds, cmd);
    assert sent + (pending + reply) == (sent + pending) + reply;
  }

  lemma RepliesMore(handler: Handler, cmds: seq<bytes>, cmd: bytes)
    ensures Replies(handler, cmds + [cmd]) == Replies(handler, cmds) + Answer(handler, |cmds|, cmd)
  {
    assert (cmds + [cmd])[..|cmds|] == cmds;
  }

  function Replies(handler: Handler, cmds: seq<bytes>): bytes {
    if cmds == [] then []
    else Replies(handler, cmds[..|cmds| - 1]) + Answer(handler, |cmds| - 1, cmds[|cmds| - 1])
  }

  function Answer(handler: Handler, i: nat, cmd: bytes): bytes {
    var r := handler(i, cmd);
    if r.Some? then r.value else []
  }
}
