/**
 Durability of the append-only log: only commands that changed data are written, and loading the
 log rebuilds the store of the full history.
 */
module Replay {
  import opened Common
  import opened Resp
  import opened Streams
  import opened Replication
  import Aof
  import AofProof

  const SET_NAME: bytes := [83, 69, 84]
  const DEL_NAME: bytes := [68, 69, 76]
  const MOD_NAME: bytes := [77, 79, 68]

  /** The argument vector of a command. */
  function ArgsOf(c: Cmd): seq<bytes> {
    match c
    case Set(k, v) => [SET_NAME, k, v]
    case Del(k) => [DEL_NAME, k]
    case Mod(k, v) => [MOD_NAME, k, v]
  }

  /** The command an argument vector names, with the argument counts of the command table. */
  function CmdOf(args: seq<bytes>): Option<Cmd> {
    if |args| == 3 && args[0] == SET_NAME then Some(Set(args[1], args[2]))
    else if |args| == 2 && args[0] == DEL_NAME then Some(Del(args[1]))
    else if |args| == 3 && args[0] == MOD_NAME then Some(Mod(args[1], args[2]))
    else None
  }

  /** What the engine returns: 0 on success, 1 for a missing key. */
  function Code(m: Store, c: Cmd): int {
    match c
    case Set(_, _) => 0
    case Del(k) => if k in m then 0 else 1
    case Mod(k, _) => if k in m then 0 else 1
  }

  /** command_result_changed_data */
  predicate ChangedData(c: Cmd, code: int) {
    code >= 0 && (c.Set? || code == 0)
  }

  /** The commands of a history that are handed to the log. */
  function Persisted(m: Store, cs: seq<Cmd>): seq<Cmd>
    decreases |cs|
  {
    if cs == [] then []
    else
      var rest := Persisted(Apply(m, cs[0]), cs[1..]);
      if ChangedData(cs[0], Code(m, cs[0])) then [cs[0]] + rest else rest
  }

  lemma {:induction false} RunFront(m: Store, cs: seq<Cmd>)
    requires cs != []
    ensures Run(m, cs) == Run(Apply(m, cs[0]), cs[1..])
  {
    assert cs == [cs[0]] + cs[1..];
    RunJoin(m, [cs[0]], cs[1..]);
    assert [cs[0]][..0] == [];
    assert Run(m, [cs[0]]) == Apply(m, cs[0]);
  }

  /** A command of a history is logged exactly if it is a SET or finds its key. */
  lemma {:induction false} LoggedIff(m: Store, cs: seq<Cmd>, c: Cmd)
    ensures Persisted(m, cs + [c]) == Persisted(m, cs) + if c.Set? || c.key in Run(m, cs) then [c] else []
    decreases |cs|
  {
    if cs == [] {
      assert cs + [c] == [c] && [c][1..] == [];
    } else {
      var next := Apply(m, cs[0]);
      assert (cs + [c])[1..] == cs[1..] + [c] && (cs + [c])[0] == cs[0];
      RunFront(m, cs);
      hide Run, Apply;
      LoggedIff(next, cs[1..], c);
    }
  }

  /** A command that is not logged leaves the store as it was. */
  lemma SkippedIsNoChange(m: Store, c: Cmd)
    requires !ChangedData(c, Code(m, c))
    ensures Apply(m, c) == m
  {
    if c.Del? {
      assert m - {c.key} == m;
    }
  }

  /** Replaying only what was logged gives the store of the full history. */
  lemma {:induction false} ReplayPersisted(m: Store, cs: seq<Cmd>)
    ensures Run(m, Persisted(m, cs)) == Run(m, cs)
    decreases |cs|
  {
    hide Run, Apply;
    if cs != [] {
      RunFront(m, cs);
      var next := Apply(m, cs[0]);
      ReplayPersisted(next, cs[1..]);
      if ChangedData(cs[0], Code(m, cs[0])) {
        var logged := Persisted(m, cs);
        RunFront(m, logged);
        assert logged[1..] == Persisted(next, cs[1..]);
      } else {
        SkippedIsNoChange(m, cs[0]);
      }
    }
  }

  // ---------- From the log file back to the store ----------

  /** Executing one framed command of the log. */
  function Exec(m: Store, raw: bytes): Store {
    var args := Arguments(raw);
    if args.None? then m
    else
      var c := CmdOf(args.value);
      if c.None? then m else Apply(m, c.value)
  }

  /** Executing framed commands one after the other, for any command handler. */
  function ExecEach<S>(exec: (S, bytes) -> S, m: S, raws: seq<bytes>): S {
    if raws == [] then m else exec(ExecEach(exec, m, raws[..|raws| - 1]), raws[|raws| - 1])
  }

  function ExecAll(m: Store, raws: seq<bytes>): Store {
    ExecEach(Exec, m, raws)
  }

  /**
   aof_load_file: hand commands off the front to the command handler until none is complete; the
   handler and its state are those of the whole server.
   */
  method LoadLog<S>(file: bytes, start: S, exec: (S, bytes) -> S) returns (m: S)
    ensures m == ExecEach(exec, start, Drain(Server, file).cmds)
  {
    hide ServerFrame, Drain, ExecEach;
    m := start;
    var ptr := file;
    ghost var done: seq<bytes> := [];
    ContinueFirst(Server, file);
    ExecNone(exec, start);
    while ptr != []
      invariant m == ExecEach(exec, start, done) && Drain(Server, file) == Continue(Server, done, ptr)
      decreases |ptr|
    {
      var ret, n := ParseOneCommand(ptr);
      if ret <= 0 {
        break;
      }
      ContinueNext(Server, done, ptr);
      ExecMore(exec, start, done, ptr[..n]);
      m := exec(m, ptr[..n]);
      done := done + [ptr[..n]];
      ptr := ptr[n..];
    }
    EmptyIsBad();
    ContinueLast(Server, done, ptr);
  }

  lemma EmptyIsBad()
    ensures ServerFrame([]) == Bad
  {
  }

  lemma ExecNone<S>(exec: (S, bytes) -> S, m: S)
    ensures ExecEach(exec, m, []) == m
  {
  }

  lemma ExecMore<S>(exec: (S, bytes) -> S, m: S, raws: seq<bytes>, raw: bytes)
    ensures ExecEach(exec, m, raws + [raw]) == exec(ExecEach(exec, m, raws), raw)
  {
    assert (raws + [raw])[..|raws|] == raws;
  }

  function AllArgs(cs: seq<Cmd>): seq<seq<bytes>> {
    if cs == [] then [] else [ArgsOf(cs[0])] + AllArgs(cs[1..])
  }

  /** The raw messages appended for the commands. */
  function Messages(cs: seq<Cmd>): seq<bytes> {
    Each(AllArgs(cs))
  }

  lemma ExecEncoded(m: Store, c: Cmd)
    ensures Exec(m, Encode(ArgsOf(c))) == Apply(m, c)
  {
    RoundTrip(ArgsOf(c), []);
    hide Encode, Arguments;
    assert Encode(ArgsOf(c)) + [] == Encode(ArgsOf(c));
  }

  /** What the three commands do, from their bytes to the store. */
  lemma ExecLiteral(m: Store, k: bytes, v: bytes)
    ensures Exec(m, Encode([[83, 69, 84], k, v])) == m[k := v]
    ensures Exec(m, Encode([[68, 69, 76], k])) == m - {k}
    ensures Exec(m, Encode([[77, 79, 68], k, v])) == if k in m then m[k := v] else m
  {
    hide Exec, Encode;
    ExecEncoded(m, Set(k, v));
    ExecEncoded(m, Del(k));
    ExecEncoded(m, Mod(k, v));
  }

  lemma {:induction false} ExecMessages(m: Store, cs: seq<Cmd>)
    ensures ExecAll(m, Messages(cs)) == Run(m, cs)
    decreases |cs|
  {
    if cs != [] {
      ExecEncoded(m, cs[0]);
      ExecFront(Exec, m, Messages(cs));
      RunFront(m, cs);
      ExecMessages(Apply(m, cs[0]), cs[1..]);
      assert Messages(cs)[1..] == Messages(cs[1..]);
    }
  }

  lemma {:induction false} ExecFront<S>(exec: (S, bytes) -> S, m: S, raws: seq<bytes>)
    requires raws != []
    ensures ExecEach(exec, m, raws) == ExecEach(exec, exec(m, raws[0]), raws[1..])
    decreases |raws|
  {
    var n := |raws| - 1;
    if n > 0 {
      ExecFront(exec, m, raws[..n]);
      assert raws[..n][1..] == raws[1..][..n - 1];
    } else {
      assert raws[..0] == [] && raws[1..] == [];
    }
  }

  lemma {:induction false} FlatOfEach(commands: seq<seq<bytes>>)
    ensures Flat(Each(commands)) == Encoded(commands)
    decreases |commands|
  {
    if commands != [] {
      FlatOfEach(commands[1..]);
      assert Each(commands)[1..] == Each(commands[1..]);
    }
  }

  /**
   End to end: whatever the interleaving of producer, worker and kernel, once the log worker has
   exited the file rebuilds, from empty, the store of the full history of commands.
   */
  lemma LogRebuildsStore(cs: seq<Cmd>, capacity: nat, steps: seq<Aof.Step>, t: Aof.Log)
    requires capacity > 0 && Aof.IsRun(Aof.Start(capacity, []), steps, Messages(Persisted(map[], cs)), t)
             && Aof.Exited(t)
    ensures ExecAll(map[], Drain(Server, t.file).cmds) == Run(map[], cs)
    ensures Drain(Server, t.file).rest == []
  {
    var logged := Persisted(map[], cs);
    AofProof.FileHoldsEverything(capacity, [], steps, Messages(logged), t);
    FlatOfEach(AllArgs(logged));
    assert t.file == Encoded(AllArgs(logged));
    WellFormedStream(AllArgs(logged));
    ExecMessages(map[], logged);
    ReplayPersisted(map[], cs);
  }
}
