/**
 What the server's parser accepts, waits for and refuses, stated on the bytes themselves, and what
 it makes of a command that has arrived only in part.
 */
module ServerFrames {
  import opened Common
  import opened Resp
  import opened Streams

  // ---------- The grammar of a command ----------

  /** A run of digits with value n and its line end stand at p, and q is the position behind. */
  ghost predicate LineAt(buf: bytes, p: nat, n: nat, q: nat) {
    && p + 2 <= q <= |buf| && buf[q - 2] == 13 && buf[q - 1] == 10
    && (forall i :: p <= i < q - 2 ==> 48 <= buf[i] <= 57) && Value(buf[p..q - 2]) == n
  }

  /** A bulk string of len bytes stands at p, its bytes from r on. */
  ghost predicate BulkAt(buf: bytes, p: nat, len: nat, r: nat) {
    && p < |buf| && buf[p] == 36 && LineAt(buf, p + 1, len, r)
    && r + len + 2 <= |buf| && buf[r + len] == 13 && buf[r + len + 1] == 10
  }

  predicate NoDollar(buf: bytes, q: nat) {
    q >= |buf| || buf[q] != 36
  }

  /** Bulk strings of these lengths stand one behind the other from p to q. */
  ghost predicate Span(buf: bytes, p: nat, lens: seq<nat>, q: nat)
    decreases |lens|
  {
    if lens == [] then p == q <= |buf|
    else exists r: nat :: BulkAt(buf, p, lens[0], r) && Span(buf, r + lens[0] + 2, lens[1..], q)
  }

  /** A whole command of n bytes stands at the front, with arguments of these lengths. */
  ghost predicate Whole(buf: bytes, lens: seq<nat>, n: nat) {
    buf != [] && buf[0] == 42 && exists p: nat :: LineAt(buf, 1, |lens|, p) && Span(buf, p, lens, n)
  }

  /** Where an argument should begin there is none: the data ends or goes on with another byte. */
  ghost predicate Broken(buf: bytes, lens: seq<nat>) {
    buf != [] && buf[0] == 42 && exists num: nat, p: nat, q: nat ::
      && |lens| < num && LineAt(buf, 1, num, p) && Span(buf, p, lens, q) && NoDollar(buf, q)
  }

  lemma LineIff(buf: bytes, p: nat, n: nat, q: nat)
    requires p <= |buf|
    ensures LineAt(buf, p, n, q) <==> Line(buf, p) == Some((n, q))
  {
    if LineAt(buf, p, n, q) {
      DigitsEndIs(buf, p, q - 2);
    }
  }

  /** The step of the parser over one bulk string. */
  lemma BulkStep(buf: bytes, p: nat, k: nat, len: nat, r: nat)
    requires BulkAt(buf, p, len, r) && k > 0
    ensures r + len + 2 <= |buf| && ServerBulks(buf, p, k) == ServerBulks(buf, r + len + 2, k - 1)
  {
    hide LineAt, Line;
    LineIff(buf, p + 1, len, r);
  }

  lemma SpanMore(buf: bytes, p: nat, len: nat, r: nat, rest: seq<nat>, q: nat)
    requires BulkAt(buf, p, len, r) && Span(buf, r + len + 2, rest, q)
    ensures Span(buf, p, [len] + rest, q)
  {
    hide BulkAt, LineAt;
    var lens := [len] + rest;
    assert lens[1..] == rest && lens[0] == len;
    assert BulkAt(buf, p, lens[0], r) && Span(buf, r + lens[0] + 2, lens[1..], q);
  }

  lemma {:induction false} BulksGive(buf: bytes, p: nat, k: nat) returns (lens: seq<nat>, q: nat)
    requires p <= |buf|
    ensures ServerBulks(buf, p, k).Done? ==> |lens| == k && Span(buf, p, lens, ServerBulks(buf, p, k).n)
    ensures ServerBulks(buf, p, k).Bad? ==> |lens| < k && Span(buf, p, lens, q) && NoDollar(buf, q)
    ensures !ServerBulks(buf, p, k).Cut?
    decreases k
  {
    hide LineAt, Line;
    lens, q := [], p;
    if k > 0 && p < |buf| && buf[p] == 36 && Line(buf, p + 1).Some? {
      var (len, r) := Line(buf, p + 1).value;
      LineIff(buf, p + 1, len, r);
      if CrlfAt(buf, r + len) {
        var rest;
        rest, q := BulksGive(buf, r + len + 2, k - 1);
        var v := ServerBulks(buf, p, k);
        assert BulkAt(buf, p, len, r) && v == ServerBulks(buf, r + len + 2, k - 1);
        hide ServerBulks, Span, BulkAt;
        if v.Done? {
          SpanMore(buf, p, len, r, rest, v.n);
        } else if v.Bad? {
          SpanMore(buf, p, len, r, rest, q);
        }
        lens := [len] + rest;
      }
    }
  }

  lemma {:induction false} SpanGives(buf: bytes, p: nat, lens: seq<nat>, q: nat, k: nat)
    requires p <= |buf| && Span(buf, p, lens, q) && |lens| <= k
    ensures |lens| == k ==> ServerBulks(buf, p, k) == Done(q)
    ensures |lens| < k && NoDollar(buf, q) ==> ServerBulks(buf, p, k) == Bad
    decreases |lens|
  {
    hide BulkAt, Line;
    if lens != [] {
      var r: nat :| BulkAt(buf, p, lens[0], r) && Span(buf, r + lens[0] + 2, lens[1..], q);
      BulkStep(buf, p, k, lens[0], r);
      SpanGives(buf, r + lens[0] + 2, lens[1..], q, k - 1);
    }
  }

  /** The parser takes n bytes exactly if they are a whole command. */
  lemma DoneIff(buf: bytes, n: nat)
    ensures ServerFrame(buf) == Done(n) <==> exists lens :: Whole(buf, lens, n)
  {
    hide LineAt, Line, Span;
    if ServerFrame(buf) == Done(n) {
      var (num, p) := Line(buf, 1).value;
      LineIff(buf, 1, num, p);
      var lens, q := BulksGive(buf, p, num);
      assert Whole(buf, lens, n);
    }
    if exists lens :: Whole(buf, lens, n) {
      var lens :| Whole(buf, lens, n);
      var p: nat :| LineAt(buf, 1, |lens|, p) && Span(buf, p, lens, n);
      LineIff(buf, 1, |lens|, p);
      SpanGives(buf, p, lens, n, |lens|);
    }
  }

  /** The parser refuses exactly what does not begin with a star, or lacks a dollar sign where one is due. */
  lemma BadIff(buf: bytes)
    ensures ServerFrame(buf) == Bad <==> buf == [] || buf[0] != 42 || exists lens :: Broken(buf, lens)
    ensures !ServerFrame(buf).Cut?
  {
    hide LineAt, Line, Span;
    if buf != [] && buf[0] == 42 {
      if Line(buf, 1).Some? {
        var (num, p) := Line(buf, 1).value;
        LineIff(buf, 1, num, p);
        var lens, q := BulksGive(buf, p, num);
        if ServerFrame(buf) == Bad {
          assert Broken(buf, lens);
        }
      }
      if exists lens :: Broken(buf, lens) {
        var lens :| Broken(buf, lens);
        var num: nat, p: nat, q: nat :|
          |lens| < num && LineAt(buf, 1, num, p) && Span(buf, p, lens, q) && NoDollar(buf, q);
        LineIff(buf, 1, num, p);
        SpanGives(buf, p, lens, q, num);
      }
    }
  }

  lemma {:induction false} ArgsIff(buf: bytes, p: nat, k: nat)
    requires p <= |buf|
    ensures ArgsFrom(buf, p, k).Some? <==> ServerBulks(buf, p, k).Done?
    ensures ArgsFrom(buf, p, k).Some? ==> |ArgsFrom(buf, p, k).value| == k
    decreases k
  {
    hide Line;
    if k > 0 && p < |buf| && buf[p] == DOLLAR && Line(buf, p + 1).Some? {
      var (len, q) := Line(buf, p + 1).value;
      if CrlfAt(buf, q + len) {
        ArgsIff(buf, q + len + 2, k - 1);
      }
    }
  }

  /** Both parsers accept the same commands, except that one without arguments has no argument vector. */
  lemma ArgumentsIff(buf: bytes)
    ensures Arguments(buf).Some? <==> ServerFrame(buf).Done? && !(exists p: nat :: LineAt(buf, 1, 0, p))
    ensures Arguments(buf).Some? ==> exists p: nat :: LineAt(buf, 1, |Arguments(buf).value|, p)
  {
    hide LineAt, Line, ServerBulks, ArgsFrom;
    if buf != [] && buf[0] == STAR {
      if Line(buf, 1).Some? {
        var (num, p) := Line(buf, 1).value;
        LineIff(buf, 1, num, p);
        ArgsIff(buf, p, num);
      }
      if exists p: nat :: LineAt(buf, 1, 0, p) {
        var p: nat :| LineAt(buf, 1, 0, p);
        LineIff(buf, 1, 0, p);
      }
    }
  }

  // ---------- The digits of a number ----------

  function Pow10(k: nat): (r: nat)
    ensures r > 0
  {
    if k == 0 then 1 else 10 * Pow10(k - 1)
  }

  lemma DecimalNext(n: nat)
    requires n >= 10
    ensures Decimal(n) == Decimal(n / 10) + [48 + n % 10]
  {
  }

  /** The digit i places from the end is the one of weight 10^i. */
  lemma {:induction false} DecimalDigits(n: nat, i: nat)
    requires i < |Decimal(n)|
    ensures Decimal(n)[|Decimal(n)| - 1 - i] == 48 + n / Pow10(i) % 10
    decreases n
  {
    if n >= 10 {
      hide Decimal;
      DecimalNext(n);
      if i > 0 {
        DecimalDigits(n / 10, i - 1);
        DivideTwice(n, 10, Pow10(i - 1), Pow10(i));
      }
    }
  }

  /** There are as many digits as it takes, and the first is not zero unless alone. */
  lemma {:induction false} DecimalLength(n: nat)
    ensures n < Pow10(|Decimal(n)|)
    ensures |Decimal(n)| > 1 ==> Decimal(n)[0] != 48
    decreases n
  {
    if n >= 10 {
      DecimalLength(n / 10);
      DecimalNext(n);
      if n < 100 {
        assert Decimal(n / 10) == [48 + n / 10];
      } else {
        DecimalNext(n / 10);
      }
    }
  }

  // ---------- Commands that have arrived in part ----------

  /** Position p of the encoded arguments is where one of them begins. */
  predicate BulkStart(args: seq<bytes>, p: int) {
    args != [] && (p == 0 || BulkStart(args[1..], p - |Bulk(args[0])|))
  }

  lemma {:induction false} BulkStartInside(args: seq<bytes>, p: int)
    requires BulkStart(args, p)
    ensures 0 <= p < |Bulks(args)|
    decreases |args|
  {
    if p != 0 {
      BulkStartInside(args[1..], p - |Bulk(args[0])|);
    }
  }

  /** Position p of an encoded command lies right before one of its dollar signs. */
  predicate BeforeDollar(args: seq<bytes>, p: int) {
    BulkStart(args, p - HeadLen(args))
  }

  predicate AllDigits(d: bytes) {
    forall i :: 0 <= i < |d| ==> IsDigit(d[i])
  }

  /** The first t bytes of a number and its line end are not yet a line. */
  lemma LineCut(a: bytes, n: nat, t: nat)
    requires t < |Decimal(n)| + 2
    ensures Line(a + (Decimal(n) + [CR, LF])[..t], |a|) == None
  {
    var d := Decimal(n);
    hide Decimal;
    var buf, k := a + (d + [CR, LF])[..t], Min(t, |d|);
    forall i | |a| <= i < |a| + k
      ensures IsDigit(buf[i])
    {
      assert buf[i] == d[i - |a|];
    }
    if t > |d| {
      assert buf[|a| + |d|] == CR;
      DigitsEndIs(buf, |a|, |a| + |d|);
    }
  }

  /** The first t bytes of a bulk string: incomplete, unless there is none of it. */
  lemma BulkPart(a: bytes, arg: bytes, t: nat, k: nat)
    requires t < |Bulk(arg)| && k > 0
    ensures ServerBulks(a + Bulk(arg)[..t], |a|, k) == if t == 0 then Bad else Need
  {
    hide Decimal, Line;
    var d := Decimal(|arg|);
    assert |Bulk(arg)| == |d| + |arg| + 5;
    if t > 0 {
      BulkParts(arg, t);
      hide Bulk;
      var part := Bulk(arg)[..t];
      if t < |d| + 3 {
        assert a + part == (a + [DOLLAR]) + (d + [CR, LF])[..t - 1];
        LineCut(a + [DOLLAR], |arg|, t - 1);
      } else {
        var b := (arg + [CR, LF])[..t - |d| - 3];
        assert a + part == (a + [DOLLAR]) + d + [CR, LF] + b;
        LineOf(a + [DOLLAR], |arg|, b);
      }
    }
  }

  lemma BulkParts(arg: bytes, t: nat)
    requires 0 < t < |Bulk(arg)|
    ensures var d := Decimal(|arg|);
            Bulk(arg)[..t] == if t < |d| + 3 then [DOLLAR] + (d + [CR, LF])[..t - 1]
                              else [DOLLAR] + d + [CR, LF] + (arg + [CR, LF])[..t - |d| - 3]
  {
    hide Decimal;
  }

  lemma {:induction false} BulksPart(a: bytes, args: seq<bytes>, t: nat)
    requires t < |Bulks(args)|
    ensures ServerBulks(a + Bulks(args)[..t], |a|, |args|) == if BulkStart(args, t) then Bad else Need
    decreases |args|
  {
    hide Line, ReadNumber, Bulk, CrlfAt;
    var b, rest := Bulk(args[0]), Bulks(args[1..]);
    assert Bulks(args) == b + rest;
    if t < |b| {
      if BulkStart(args[1..], t - |b|) {
        BulkStartInside(args[1..], t - |b|);
      }
      assert (b + rest)[..t] == b[..t];
      BulkPart(a, args[0], t, |args|);
    } else {
      assert (b + rest)[..t] == b + rest[..t - |b|];
      assert a + (b + rest[..t - |b|]) == a + b + rest[..t - |b|];
      var q := BulkHead(a, args[0], rest[..t - |b|]);
      BulksPart(a + b, args[1..], t - |b|);
      assert |b| > 0;
    }
  }

  lemma EncodeParts(args: seq<bytes>, t: nat)
    requires t < |Encode(args)|
    ensures var d, h := Decimal(|args|), HeadLen(args);
            && (0 < t < h ==> Encode(args)[..t] == [STAR] + (d + [CR, LF])[..t - 1])
            && (h <= t ==> Encode(args)[..t] == [STAR] + d + [CR, LF] + Bulks(args)[..t - h])
    ensures |Encode(args)| == HeadLen(args) + |Bulks(args)|
  {
    hide Decimal, Bulks;
  }

  /**
   A command that has arrived in part is refused exactly if what has arrived ends right before one
   of its dollar signs; otherwise the parser waits for more.
   */
  lemma PartRefusedIff(args: seq<bytes>, t: nat)
    requires 0 < t < |Encode(args)|
    ensures ServerFrame(Encode(args)[..t]) == if BeforeDollar(args, t) then Bad else Need
  {
    hide Decimal, Line, Bulks, BulkStart, Encode, ServerBulks;
    EncodeParts(args, t);
    var d, h := Decimal(|args|), HeadLen(args);
    if t < h {
      if BulkStart(args, t - h) {
        BulkStartInside(args, t - h);
      }
      LineCut([STAR], |args|, t - 1);
    } else {
      LineOf([STAR], |args|, Bulks(args)[..t - h]);
      BulksPart([STAR] + d + [CR, LF], args, t - h);
    }
  }

  // ---------- Streams that have arrived in part ----------

  /** How many commands the first p bytes of a stream hold in full. */
  function WholeCommands(commands: seq<seq<bytes>>, p: nat): (k: nat)
    ensures k <= |commands|
  {
    if commands == [] || p < |Encode(commands[0])| then 0
    else 1 + WholeCommands(commands[1..], p - |Encode(commands[0])|)
  }

  /** Position p of a stream of commands lies right before a dollar sign. */
  predicate DollarNext(commands: seq<seq<bytes>>, p: nat) {
    commands != [] &&
    if p < |Encode(commands[0])| then BeforeDollar(commands[0], p)
    else DollarNext(commands[1..], p - |Encode(commands[0])|)
  }

  /** The parser does not like the bytes that come next. */
  predicate Refused(rest: bytes) {
    rest != [] && ServerFrame(rest).Bad?
  }

  /** The first p bytes of a stream give its whole commands, and the rest is refused only before a dollar sign. */
  lemma {:induction false} StreamPart(commands: seq<seq<bytes>>, p: nat)
    requires p <= |Encoded(commands)|
    ensures var d := Drain(Server, Encoded(commands)[..p]);
            && d.cmds == Each(commands[..WholeCommands(commands, p)])
            && (Refused(d.rest) <==> DollarNext(commands, p))
    decreases |commands|
  {
    hide Encode, ServerFrame, BeforeDollar;
    if commands == [] {
      assert commands[..0] == [];
      NothingLeft();
    } else {
      var e, rest := Encode(commands[0]), Encoded(commands[1..]);
      if p < |e| {
        assert (e + rest)[..p] == e[..p] && commands[..0] == [];
        if p > 0 {
          PartRefusedIff(commands[0], p);
        } else {
          NothingLeft();
          NotAtStart(commands[0]);
        }
      } else {
        var tail := rest[..p - |e|];
        assert (e + rest)[..p] == e + tail;
        DrainWhole(commands[0], tail);
        StreamPart(commands[1..], p - |e|);
        var k := WholeCommands(commands[1..], p - |e|);
        assert commands[..k + 1][1..] == commands[1..][..k];
      }
    }
  }

  lemma NothingLeft()
    ensures Drain(Server, []) == Drained([], []) && !Refused([])
  {
  }

  lemma NotAtStart(args: seq<bytes>)
    ensures !BeforeDollar(args, 0)
  {
    if BeforeDollar(args, 0) {
      BulkStartInside(args, 0 - HeadLen(args));
    }
  }

  lemma DrainWhole(args: seq<bytes>, tail: bytes)
    ensures var d := Drain(Server, tail);
            Drain(Server, Encode(args) + tail) == Drained([Encode(args)] + d.cmds, d.rest)
  {
    hide Encode, ServerFrame;
    RoundTrip(args, tail);
    var e := Encode(args);
    assert (e + tail)[|e|..] == tail && (e + tail)[..|e|] == e;
  }
}
