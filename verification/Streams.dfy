/**
 Extracting commands from a byte stream that arrives in pieces: what is extracted does not depend
 on where the pieces end, as long as nothing already received is dropped.
 */
module Streams {
  import opened Common
  import opened Resp

  datatype Framer = Server | Forwarder

  function Frame(f: Framer, buf: bytes): (v: Verdict)
    ensures v.Done? ==> 0 < v.n <= |buf|
  {
    if f.Server? then ServerFrame(buf) else FlowFrame(buf)
  }

  lemma FrameStable(f: Framer, buf: bytes, x: bytes)
    requires Frame(f, buf).Done?
    ensures Frame(f, buf + x) == Frame(f, buf)
  {
    if f.Server? {
      ServerStable(buf, x);
    } else {
      FlowStable(buf, x);
    }
  }

  datatype Drained = Drained(cmds: seq<bytes>, rest: bytes)

  /** Take complete commands off the front until there is none. */
  function Drain(f: Framer, buf: bytes): (r: Drained)
    ensures !Frame(f, r.rest).Done?
    decreases |buf|
  {
    var v := Frame(f, buf);
    if v.Done? then
      var r := Drain(f, buf[v.n..]);
      Drained([buf[..v.n]] + r.cmds, r.rest)
    else Drained([], buf)
  }

  /** The commands taken so far together with those still in the bytes. */
  function Continue(f: Framer, done: seq<bytes>, buf: bytes): Drained {
    var d := Drain(f, buf);
    Drained(done + d.cmds, d.rest)
  }

  lemma ContinueFirst(f: Framer, buf: bytes)
    ensures Continue(f, [], buf) == Drain(f, buf)
  {
    hide Drain;
    assert [] + Drain(f, buf).cmds == Drain(f, buf).cmds;
  }

  lemma ContinueNext(f: Framer, done: seq<bytes>, buf: bytes)
    requires Frame(f, buf).Done?
    ensures var n := Frame(f, buf).n;
            && Continue(f, done + [buf[..n]], buf[n..]) == Continue(f, done, buf)
            && |done| < |Continue(f, done, buf).cmds| && Continue(f, done, buf).cmds[|done|] == buf[..n]
  {
    var n := Frame(f, buf).n;
    var rest := Drain(f, buf[n..]);
    assert Drain(f, buf) == Drained([buf[..n]] + rest.cmds, rest.rest);
    hide Frame, Drain;
    assert done + [buf[..n]] + rest.cmds == done + ([buf[..n]] + rest.cmds);
  }

  lemma ContinueLast(f: Framer, done: seq<bytes>, buf: bytes)
    requires !Frame(f, buf).Done?
    ensures Continue(f, done, buf) == Drained(done, buf)
  {
    assert Drain(f, buf) == Drained([], buf);
    hide Frame, Drain;
    assert done + [] == done;
  }

  /** Extraction only cuts the stream into commands and a rest. */
  lemma {:induction false} DrainPartitions(f: Framer, buf: bytes)
    ensures Flat(Drain(f, buf).cmds) + Drain(f, buf).rest == buf
    decreases |buf|
  {
    hide Frame;
    var v := Frame(f, buf);
    if v.Done? {
      var r := Drain(f, buf[v.n..]);
      DrainPartitions(f, buf[v.n..]);
      FlatCons(buf[..v.n], r.cmds);
      Regroup(buf, v.n, Flat(r.cmds), r.rest);
    }
  }

  lemma FlatCons(a: bytes, b: seq<bytes>)
    ensures Flat([a] + b) == a + Flat(b)
  {
    assert ([a] + b)[1..] == b;
  }

  lemma Regroup(buf: bytes, n: nat, x: bytes, y: bytes)
    requires n <= |buf| && x + y == buf[n..]
    ensures buf[..n] + x + y == buf
  {
    assert buf[..n] + x + y == buf[..n] + (x + y);
  }

  /** Bytes that arrive later only continue from what was left. */
  lemma {:induction false} DrainSplit(f: Framer, a: bytes, b: bytes)
    ensures var first := Drain(f, a);
            var second := Drain(f, first.rest + b);
            Drain(f, a + b) == Drained(first.cmds + second.cmds, second.rest)
    decreases |a|
  {
    hide Frame;
    var v := Frame(f, a);
    if v.Done? {
      FrameStable(f, a, b);
      DrainSplit(f, a[v.n..], b);
      assert (a + b)[v.n..] == a[v.n..] + b && (a + b)[..v.n] == a[..v.n];
      var first := Drain(f, a[v.n..]);
      var second := Drain(f, first.rest + b);
      assert [a[..v.n]] + (first.cmds + second.cmds) == ([a[..v.n]] + first.cmds) + second.cmds;
    } else {
      var second := Drain(f, a + b);
      assert [] + second.cmds == second.cmds;
    }
  }

  /** The commands executed when pieces arrive one by one after `rest`. */
  function Arrive(f: Framer, rest: bytes, pieces: seq<bytes>): Drained
    decreases |pieces|
  {
    if pieces == [] then Drained([], rest)
    else
      var now := Drain(f, rest + pieces[0]);
      var later := Arrive(f, now.rest, pieces[1..]);
      Drained(now.cmds + later.cmds, later.rest)
  }

  /** Every split of a stream gives the commands of the whole stream. */
  lemma {:induction false} SplitIndependent(f: Framer, rest: bytes, pieces: seq<bytes>)
    requires !Frame(f, rest).Done?
    ensures Arrive(f, rest, pieces) == Drain(f, rest + Flat(pieces))
    decreases |pieces|
  {
    hide Frame;
    if pieces == [] {
      assert rest + Flat(pieces) == rest;
    } else {
      var now := Drain(f, rest + pieces[0]);
      SplitIndependent(f, now.rest, pieces[1..]);
      DrainSplit(f, rest + pieces[0], Flat(pieces[1..]));
      assert rest + Flat(pieces) == rest + pieces[0] + Flat(pieces[1..]);
    }
  }

  /** A stream of encoded commands is taken apart into exactly these commands. */
  lemma {:induction false} WellFormedStream(commands: seq<seq<bytes>>)
    ensures Drain(Server, Encoded(commands)) == Drained(Each(commands), [])
    decreases |commands|
  {
    if commands != [] {
      var e, rest := Encode(commands[0]), Encoded(commands[1..]);
      RoundTrip(commands[0], rest);
      assert (e + rest)[|e|..] == rest && (e + rest)[..|e|] == e;
      WellFormedStream(commands[1..]);
    }
  }

  function Each(commands: seq<seq<bytes>>): seq<bytes> {
    if commands == [] then [] else [Encode(commands[0])] + Each(commands[1..])
  }

  function Encoded(commands: seq<seq<bytes>>): bytes {
    if commands == [] then [] else Encode(commands[0]) + Encoded(commands[1..])
  }

  /** The forwarder drops what it has buffered of a flow. */
  predicate GivesUp(rest: bytes) {
    FlowFrame(rest).Bad? || FlowFrame(rest).Cut?
  }
}
