/**
 Framing of RESP commands: the client's encoding, the server's two parsers and the forwarder's
 parser.  The arrays and bulk strings sections of the Redis serialization protocol define the format.
 */
module Resp {
  import opened Common

  const STAR: byte := 42
  const DOLLAR: byte := 36
  const CR: byte := 13
  const LF: byte := 10
  const ZERO: byte := 48

  const FLOW_BUF_MAX := 8388608
  const MAX_ARGC := 1024

  /** Cut: the buffer ends right after a '*' or '$'; the forwarder reports it like Bad. */
  datatype Verdict = Need | Bad | Cut | Done(n: nat)

  // ---------- Numbers ----------

  predicate IsDigit(b: byte) {
    ZERO <= b <= ZERO + 9
  }

  /** Where the run of digits from p ends. */
  function DigitsEnd(buf: bytes, p: nat): (q: nat)
    requires p <= |buf|
    ensures p <= q <= |buf| && (forall i :: p <= i < q ==> IsDigit(buf[i])) && (q < |buf| ==> !IsDigit(buf[q]))
    decreases |buf| - p
  {
    if p < |buf| && IsDigit(buf[p]) then DigitsEnd(buf, p + 1) else p
  }

  /** The decimal value of digits. */
  function Value(digits: bytes): nat
    requires forall i :: 0 <= i < |digits| ==> IsDigit(digits[i])
  {
    if digits == [] then 0
    else
      assert IsDigit(digits[|digits| - 1]);
      10 * Value(digits[..|digits| - 1]) + (digits[|digits| - 1] - ZERO)
  }

  predicate CrlfAt(buf: bytes, q: nat) {
    q + 1 < |buf| && buf[q] == CR && buf[q + 1] == LF
  }

  // ---------- The client's encoding ----------

  function Decimal(n: nat): (d: bytes)
    ensures d != [] && forall i :: 0 <= i < |d| ==> IsDigit(d[i])
  {
    if n < 10 then [ZERO + n] else Decimal(n / 10) + [ZERO + n % 10]
  }

  function Bulk(arg: bytes): bytes {
    [DOLLAR] + Decimal(|arg|) + [CR, LF] + arg + [CR, LF]
  }

  function Bulks(args: seq<bytes>): bytes {
    if args == [] then [] else Bulk(args[0]) + Bulks(args[1..])
  }

  function Encode(args: seq<bytes>): bytes {
    [STAR] + Decimal(|args|) + [CR, LF] + Bulks(args)
  }

  /** The length of the count in front of the arguments. */
  function HeadLen(args: seq<bytes>): nat {
    1 + |Decimal(|args|)| + 2
  }

  // ---------- The server's framing ----------

  /** A number and its line end, from p on: the value and the position behind. */
  function Line(buf: bytes, p: nat): (r: Option<(nat, nat)>)
    requires p <= |buf|
    ensures r.Some? ==> p < r.value.1 <= |buf|
  {
    var q := DigitsEnd(buf, p);
    if CrlfAt(buf, q) then Some((Value(buf[p..q]), q + 2)) else None
  }

  function ServerBulks(buf: bytes, p: nat, k: nat): (v: Verdict)
    requires p <= |buf|
    ensures v.Done? ==> p <= v.n <= |buf|
    decreases k
  {
    if k == 0 then Done(p)
    else if p >= |buf| || buf[p] != DOLLAR then Bad
    else match Line(buf, p + 1)
         case None => Need
         case Some((len, q)) => if CrlfAt(buf, q + len) then ServerBulks(buf, q + len + 2, k - 1) else Need
  }

  /** resp_parse_one_command: Done is 1 with the length, Need is 0, Bad is -1. */
  function ServerFrame(buf: bytes): (v: Verdict)
    ensures v.Done? ==> 0 < v.n <= |buf|
  {
    if buf == [] || buf[0] != STAR then Bad
    else match Line(buf, 1)
         case None => Need
         case Some((num, p)) => ServerBulks(buf, p, num)
  }

  /** The arguments resp_parse_arguments copies out, from the k bulks at p on. */
  function ArgsFrom(buf: bytes, p: nat, k: nat): Option<seq<bytes>>
    requires p <= |buf|
    decreases k
  {
    if k == 0 then Some([])
    else if p >= |buf| || buf[p] != DOLLAR then None
    else match Line(buf, p + 1)
         case None => None
         case Some((len, q)) =>
           if !CrlfAt(buf, q + len) then None
           else match ArgsFrom(buf, q + len + 2, k - 1)
                case None => None
                case Some(rest) => Some([buf[q..q + len]] + rest)
  }

  function Arguments(buf: bytes): Option<seq<bytes>> {
    if buf == [] || buf[0] != STAR then None
    else match Line(buf, 1)
         case None => None
         case Some((num, p)) => if num == 0 then None else ArgsFrom(buf, p, num)
  }

  // ---------- The forwarder's framing ----------

  datatype Num = NumNeed | NumBad | NumCut | Num(value: nat, next: nat)

  /** read_number_crlf. */
  function ReadNumber(buf: bytes, p: nat): (r: Num)
    requires p <= |buf|
    ensures r.Num? ==> p < r.next <= |buf|
  {
    var q := DigitsEnd(buf, p);
    if Value(buf[p..q]) > FLOW_BUF_MAX then NumBad
    else if q == p then if p == |buf| then NumCut else NumBad
    else if q + 1 >= |buf| then NumNeed
    else if CrlfAt(buf, q) then Num(Value(buf[p..q]), q + 2)
    else NumBad
  }

  function AsVerdict(r: Num): Verdict
    requires !r.Num?
  {
    match r case NumNeed => Need case NumBad => Bad case NumCut => Cut
  }

  function FlowBulks(buf: bytes, p: nat, k: nat): (v: Verdict)
    requires p <= |buf|
    ensures v.Done? ==> p <= v.n <= |buf|
    decreases k
  {
    if k == 0 then Done(p)
    else if p >= |buf| then Need
    else if buf[p] != DOLLAR then Bad
    else
      var r := ReadNumber(buf, p + 1);
      if !r.Num? then AsVerdict(r)
      else if r.next + r.value + 2 > |buf| then Need
      else if CrlfAt(buf, r.next + r.value) then FlowBulks(buf, r.next + r.value + 2, k - 1)
      else Bad
  }

  /** resp_command_len: Done is a positive length, Need is 0, Bad and Cut are -1. */
  function FlowFrame(buf: bytes): (v: Verdict)
    ensures v.Done? ==> 0 < v.n <= |buf|
  {
    if buf == [] then Need
    else if buf[0] != STAR then Bad
    else
      var r := ReadNumber(buf, 1);
      if !r.Num? then AsVerdict(r)
      else if r.value == 0 || r.value > MAX_ARGC then Bad
      else FlowBulks(buf, r.next, r.value)
  }

  // ---------- Appending bytes ----------

  lemma {:induction false} DigitsEndGrows(buf: bytes, x: bytes, p: nat)
    requires p <= |buf|
    ensures DigitsEnd(buf, p) < |buf| ==> DigitsEnd(buf + x, p) == DigitsEnd(buf, p)
    ensures DigitsEnd(buf + x, p) >= DigitsEnd(buf, p)
    decreases |buf| - p
  {
    if p < |buf| && IsDigit(buf[p]) {
      assert (buf + x)[p] == buf[p];
      DigitsEndGrows(buf, x, p + 1);
    }
  }

  lemma LineGrows(buf: bytes, x: bytes, p: nat)
    requires p <= |buf| && Line(buf, p).Some?
    ensures Line(buf + x, p) == Line(buf, p)
  {
    DigitsEndGrows(buf, x, p);
    var q := DigitsEnd(buf, p);
    assert (buf + x)[p..q] == buf[p..q];
  }

  lemma {:induction false} ServerBulksGrow(buf: bytes, x: bytes, p: nat, k: nat)
    requires p <= |buf| && ServerBulks(buf, p, k).Done?
    ensures ServerBulks(buf + x, p, k) == ServerBulks(buf, p, k)
    decreases k
  {
    hide Line;
    if k > 0 {
      LineGrows(buf, x, p + 1);
      var (len, q) := Line(buf, p + 1).value;
      ServerBulksGrow(buf, x, q + len + 2, k - 1);
    }
  }

  /** A complete command stays complete, with the same length, whatever follows it. */
  lemma ServerStable(buf: bytes, x: bytes)
    requires ServerFrame(buf).Done?
    ensures ServerFrame(buf + x) == ServerFrame(buf)
  {
    LineGrows(buf, x, 1);
    var (num, p) := Line(buf, 1).value;
    ServerBulksGrow(buf, x, p, num);
  }

  lemma ReadNumberGrows(buf: bytes, x: bytes, p: nat)
    requires p <= |buf|
    ensures ReadNumber(buf, p).Num? || ReadNumber(buf, p).NumBad? ==> ReadNumber(buf + x, p) == ReadNumber(buf, p)
  {
    DigitsEndGrows(buf, x, p);
    var q, q' := DigitsEnd(buf, p), DigitsEnd(buf + x, p);
    assert (buf + x)[p..q] == buf[p..q];
    if q == |buf| {
      PrefixValue((buf + x)[p..q'], q - p);
      assert (buf + x)[p..q'][..q - p] == buf[p..q];
    }
  }

  lemma {:induction false} PrefixValue(digits: bytes, k: nat)
    requires k <= |digits| && forall i :: 0 <= i < |digits| ==> IsDigit(digits[i])
    ensures Value(digits[..k]) <= Value(digits)
  {
    if k < |digits| {
      var n := |digits| - 1;
      PrefixValue(digits[..n], k);
      assert digits[..n][..k] == digits[..k] && IsDigit(digits[n]);
    } else {
      assert digits[..k] == digits;
    }
  }

  lemma {:induction false} FlowBulksGrow(buf: bytes, x: bytes, p: nat, k: nat)
    requires p <= |buf|
    ensures var v := FlowBulks(buf, p, k); v.Done? || v.Bad? ==> FlowBulks(buf + x, p, k) == v
    decreases k
  {
    hide ReadNumber;
    if k > 0 && p < |buf| && buf[p] == DOLLAR {
      ReadNumberGrows(buf, x, p + 1);
      var r := ReadNumber(buf, p + 1);
      if r.Num? && r.next + r.value + 2 <= |buf| {
        FlowBulksGrow(buf, x, r.next + r.value + 2, k - 1);
      }
    }
  }

  /** For the forwarder both a complete command and an error that is not a cut are final. */
  lemma FlowStable(buf: bytes, x: bytes)
    requires FlowFrame(buf).Done? || FlowFrame(buf).Bad?
    ensures FlowFrame(buf + x) == FlowFrame(buf)
  {
    hide ReadNumber;
    if buf[0] == STAR {
      ReadNumberGrows(buf, x, 1);
      var r := ReadNumber(buf, 1);
      if r.Num? {
        FlowBulksGrow(buf, x, r.next, r.value);
      }
    }
  }

  // ---------- Round trip ----------

  lemma {:induction false} DecimalValue(n: nat)
    ensures Value(Decimal(n)) == n
  {
    if n >= 10 {
      DecimalValue(n / 10);
      assert Decimal(n)[..|Decimal(n)| - 1] == Decimal(n / 10);
    } else {
      assert Decimal(n)[..0] == [];
    }
  }

  lemma {:induction false} DigitsEndIs(buf: bytes, p: nat, q: nat)
    requires p <= q < |buf| && (forall i :: p <= i < q ==> IsDigit(buf[i])) && !IsDigit(buf[q])
    ensures DigitsEnd(buf, p) == q
    decreases q - p
  {
    if p < q {
      DigitsEndIs(buf, p + 1, q);
    }
  }

  /** A number written by the client is read back, wherever it stands. */
  lemma LineOf(a: bytes, n: nat, b: bytes)
    ensures Line(a + Decimal(n) + [CR, LF] + b, |a|) == Some((n, |a| + |Decimal(n)| + 2))
    ensures n <= FLOW_BUF_MAX ==> ReadNumber(a + Decimal(n) + [CR, LF] + b, |a|) == Num(n, |a| + |Decimal(n)| + 2)
  {
    var d := Decimal(n);
    var buf, q := a + d + [CR, LF] + b, |a| + |d|;
    assert buf[|a|..q] == d;
    forall i | |a| <= i < q
      ensures IsDigit(buf[i])
    {
      assert buf[i] == d[i - |a|];
    }
    assert buf[q] == CR && buf[q + 1] == LF;
    DigitsEndIs(buf, |a|, q);
    DecimalValue(n);
  }

  /** One bulk string, wherever it stands. */
  lemma BulkHead(a: bytes, arg: bytes, t: bytes) returns (q: nat)
    ensures var buf := a + Bulk(arg) + t;
            && |a| < |buf| && buf[|a|] == DOLLAR && Line(buf, |a| + 1) == Some((|arg|, q))
            && q + |arg| + 2 == |a + Bulk(arg)| && CrlfAt(buf, q + |arg|) && buf[q..q + |arg|] == arg
            && (|arg| <= FLOW_BUF_MAX ==> ReadNumber(buf, |a| + 1) == Num(|arg|, q))
  {
    var d := Decimal(|arg|);
    var buf := a + Bulk(arg) + t;
    assert buf == (a + [DOLLAR]) + d + [CR, LF] + (arg + [CR, LF] + t);
    LineOf(a + [DOLLAR], |arg|, arg + [CR, LF] + t);
    q := |a| + 1 + |d| + 2;
    hide Line, ReadNumber, Decimal;
    assert buf[q..q + |arg|] == arg;
    assert buf[q + |arg|] == CR && buf[q + |arg| + 1] == LF;
  }

  lemma {:induction false} BulksFramed(a: bytes, args: seq<bytes>, b: bytes)
    ensures ServerBulks(a + Bulks(args) + b, |a|, |args|) == Done(|a| + |Bulks(args)|)
    decreases |args|
  {
    hide Line, ReadNumber, Bulk, CrlfAt;
    if args != [] {
      var rest := Bulks(args[1..]);
      var buf := a + Bulk(args[0]) + (rest + b);
      assert a + Bulks(args) + b == buf;
      var q := BulkHead(a, args[0], rest + b);
      BulksFramed(a + Bulk(args[0]), args[1..], b);
      assert a + Bulk(args[0]) + rest + b == buf;
    }
  }

  /** The first of k arguments, if its header is read and the others are. */
  lemma ArgsNext(buf: bytes, p: nat, k: nat, len: nat, q: nat, rest: seq<bytes>)
    requires k > 0 && p < |buf| && buf[p] == DOLLAR && Line(buf, p + 1) == Some((len, q)) && CrlfAt(buf, q + len)
    requires ArgsFrom(buf, q + len + 2, k - 1) == Some(rest)
    ensures ArgsFrom(buf, p, k) == Some([buf[q..q + len]] + rest)
  {
    hide Line, CrlfAt;
  }

  lemma {:induction false} BulksParsed(a: bytes, args: seq<bytes>, b: bytes)
    ensures ArgsFrom(a + Bulks(args) + b, |a|, |args|) == Some(args)
    decreases |args|
  {
    hide Line, ReadNumber, Bulk, CrlfAt;
    if args != [] {
      var rest := Bulks(args[1..]);
      var buf := a + Bulk(args[0]) + (rest + b);
      assert a + Bulks(args) + b == buf;
      BulksParsed(a + Bulk(args[0]), args[1..], b);
      ParsedNext(a, args, rest, b, buf);
    }
  }

  lemma ParsedNext(a: bytes, args: seq<bytes>, rest: bytes, b: bytes, buf: bytes)
    requires args != [] && buf == a + Bulk(args[0]) + (rest + b)
    requires ArgsFrom(a + Bulk(args[0]) + rest + b, |a + Bulk(args[0])|, |args| - 1) == Some(args[1..])
    ensures ArgsFrom(buf, |a|, |args|) == Some(args)
  {
    hide Line, ReadNumber, Bulk, CrlfAt, ArgsFrom;
    var q := BulkHead(a, args[0], rest + b);
    assert a + Bulk(args[0]) + rest + b == buf;
    ArgsNext(buf, |a|, |args|, |args[0]|, q, args[1..]);
    assert args == [args[0]] + args[1..];
  }

  lemma {:induction false} BulksFlow(a: bytes, args: seq<bytes>, b: bytes)
    requires forall i :: 0 <= i < |args| ==> |args[i]| <= FLOW_BUF_MAX
    ensures FlowBulks(a + Bulks(args) + b, |a|, |args|) == Done(|a| + |Bulks(args)|)
    decreases |args|
  {
    hide Line, ReadNumber, Bulk, CrlfAt;
    if args != [] {
      var rest := Bulks(args[1..]);
      var buf := a + Bulk(args[0]) + (rest + b);
      assert a + Bulks(args) + b == buf;
      var q := BulkHead(a, args[0], rest + b);
      BulksFlow(a + Bulk(args[0]), args[1..], b);
      assert a + Bulk(args[0]) + rest + b == buf;
    }
  }

  /** The head of an encoded command: the count is read and the bulks follow. */
  lemma EncodeHead(args: seq<bytes>, x: bytes) returns (a: bytes)
    ensures Encode(args) + x == a + Bulks(args) + x && |Encode(args)| == |a| + |Bulks(args)|
    ensures a != [] && (a + Bulks(args) + x)[0] == STAR
    ensures Line(a + Bulks(args) + x, 1) == Some((|args|, |a|))
    ensures |args| <= FLOW_BUF_MAX ==> ReadNumber(a + Bulks(args) + x, 1) == Num(|args|, |a|)
  {
    a := [STAR] + Decimal(|args|) + [CR, LF];
    LineOf([STAR], |args|, Bulks(args) + x);
    hide Line, ReadNumber, Decimal, Bulks;
    assert a + Bulks(args) + x == [STAR] + Decimal(|args|) + [CR, LF] + (Bulks(args) + x);
  }

  /** Parsing an encoded command followed by anything yields its arguments and its exact length. */
  lemma RoundTrip(args: seq<bytes>, x: bytes)
    ensures ServerFrame(Encode(args) + x) == Done(|Encode(args)|)
    ensures args != [] ==> Arguments(Encode(args) + x) == Some(args)
  {
    hide Line, ReadNumber, Bulks, Encode, ServerBulks, ArgsFrom;
    var a := EncodeHead(args, x);
    BulksFramed(a, args, x);
    BulksParsed(a, args, x);
  }

  /** The forwarder accepts every encoded command within its limits. */
  lemma FlowRoundTrip(args: seq<bytes>, x: bytes)
    requires 0 < |args| <= 1024 && forall i :: 0 <= i < |args| ==> |args[i]| <= 8388608
    ensures FlowFrame(Encode(args) + x) == Done(|Encode(args)|)
  {
    hide Line, ReadNumber, Bulks, Encode, FlowBulks;
    var a := EncodeHead(args, x);
    BulksFlow(a, args, x);
  }

  // ---------- Forwarder and server ----------

  lemma ReadNumberIsLine(buf: bytes, p: nat)
    requires p <= |buf| && ReadNumber(buf, p).Num?
    ensures var r := ReadNumber(buf, p); Line(buf, p) == Some((r.value, r.next))
  {
  }

  lemma {:induction false} FlowBulksServer(buf: bytes, p: nat, k: nat)
    requires p <= |buf| && FlowBulks(buf, p, k).Done?
    ensures ServerBulks(buf, p, k) == FlowBulks(buf, p, k)
    decreases k
  {
    hide ReadNumber, Line;
    if k > 0 {
      ReadNumberIsLine(buf, p + 1);
      var r := ReadNumber(buf, p + 1);
      FlowBulksServer(buf, r.next + r.value + 2, k - 1);
    }
  }

  /** Whatever the forwarder passes on, the server accepts with the same length. */
  lemma FlowAcceptedByServer(buf: bytes)
    requires FlowFrame(buf).Done?
    ensures ServerFrame(buf) == FlowFrame(buf)
  {
    hide ReadNumber, Line;
    ReadNumberIsLine(buf, 1);
    var r := ReadNumber(buf, 1);
    FlowBulksServer(buf, r.next, r.value);
  }

  // ---------- The parsers as loops ----------

  lemma ValueNext(buf: bytes, start: nat, p: nat)
    requires start <= p < |buf| && forall i :: start <= i <= p ==> IsDigit(buf[i])
    ensures Value(buf[start..p + 1]) == Value(buf[start..p]) * 10 + (buf[p] - ZERO)
  {
    assert buf[start..p + 1][..p - start] == buf[start..p];
  }

  method ScanDigits(buf: bytes, start: nat) returns (p: nat, v: nat)
    requires start <= |buf|
    ensures p == DigitsEnd(buf, start) && v == Value(buf[start..p])
  {
    assert buf[start..start] == [];
    p, v := start, 0;
    while p < |buf| && IsDigit(buf[p])
      invariant start <= p <= |buf| && DigitsEnd(buf, p) == DigitsEnd(buf, start)
      invariant (forall i :: start <= i < p ==> IsDigit(buf[i])) && v == Value(buf[start..p])
    {
      ValueNext(buf, start, p);
      v := v * 10 + (buf[p] - ZERO);
      p := p + 1;
    }
  }

  method ReadLine(buf: bytes, p: nat) returns (r: Option<(nat, nat)>)
    requires p <= |buf|
    ensures r == Line(buf, p)
  {
    var q, v := ScanDigits(buf, p);
    if !CrlfAt(buf, q) {
      return None;
    }
    return Some((v, q + 2));
  }

  /** resp_parse_one_command. */
  method ParseOneCommand(buf: bytes) returns (ret: int, cmdLen: nat)
    ensures ServerFrame(buf).Done? ==> ret == 1 && cmdLen == ServerFrame(buf).n
    ensures ServerFrame(buf).Need? ==> ret == 0
    ensures ServerFrame(buf).Bad? ==> ret == -1
    ensures !ServerFrame(buf).Cut?
  {
    hide Line;
    if |buf| < 1 || buf[0] != STAR {
      return -1, 0;
    }
    var head := ReadLine(buf, 1);
    if head.None? {
      return 0, 0;
    }
    var num, p: nat := head.value.0, head.value.1;
    for i := 0 to num
      invariant p <= |buf| && ServerFrame(buf) == ServerBulks(buf, p, num - i)
    {
      if p >= |buf| || buf[p] != DOLLAR {
        return -1, 0;
      }
      var line := ReadLine(buf, p + 1);
      if line.None? || !CrlfAt(buf, line.value.1 + line.value.0) {
        return 0, 0;
      }
      p := line.value.1 + line.value.0 + 2;
    }
    return 1, p;
  }

  /** resp_parse_arguments. */
  method ParseArguments(buf: bytes) returns (argv: Option<seq<bytes>>)
    ensures argv == Arguments(buf)
  {
    hide Line;
    if |buf| < 1 || buf[0] != STAR {
      return None;
    }
    var head := ReadLine(buf, 1);
    if head.None? || head.value.0 == 0 {
      return None;
    }
    var num, p: nat := head.value.0, head.value.1;
    var args: seq<bytes> := [];
    ghost var all := ArgsFrom(buf, p, num);
    assert Prepend([], all) == all by { assert all.Some? ==> [] + all.value == all.value; }
    for i := 0 to num
      invariant p <= |buf| && |args| == i
      invariant Prepend(args, ArgsFrom(buf, p, num - i)) == all
    {
      if p >= |buf| || buf[p] != DOLLAR {
        return None;
      }
      var line := ReadLine(buf, p + 1);
      if line.None? || !CrlfAt(buf, line.value.1 + line.value.0) {
        return None;
      }
      var q, len := line.value.1, line.value.0;
      PrependMore(args, buf[q..q + len], ArgsFrom(buf, q + len + 2, num - i - 1));
      args := args + [buf[q..q + len]];
      p := q + len + 2;
    }
    assert args + [] == args;
    return Some(args);
  }

  function Prepend(args: seq<bytes>, rest: Option<seq<bytes>>): Option<seq<bytes>> {
    if rest.None? then None else Some(args + rest.value)
  }

  lemma PrependMore(args: seq<bytes>, arg: bytes, rest: Option<seq<bytes>>)
    ensures Prepend(args + [arg], rest) == Prepend(args, Prepend([arg], rest))
  {
    if rest.Some? {
      assert args + [arg] + rest.value == args + ([arg] + rest.value);
    }
  }

  lemma OverMax(buf: bytes, pos: nat, p: nat)
    requires pos <= p <= |buf| && DigitsEnd(buf, p) == DigitsEnd(buf, pos)
    requires (forall i :: pos <= i < p ==> IsDigit(buf[i])) && Value(buf[pos..p]) > FLOW_BUF_MAX
    ensures ReadNumber(buf, pos) == NumBad
  {
    var q := DigitsEnd(buf, pos);
    assert buf[pos..q][..p - pos] == buf[pos..p];
    PrefixValue(buf[pos..q], p - pos);
  }

  /** read_number_crlf: 1 with the value and position, 0 for more input, -1 for an error. */
  method ReadNumberCrlf(buf: bytes, pos: nat) returns (ret: int, out: nat, next: nat)
    requires pos <= |buf|
    ensures ret == match ReadNumber(buf, pos) case Num(_, _) => 1 case NumNeed => 0 case _ => -1
    ensures ReadNumber(buf, pos).Num? ==> out == ReadNumber(buf, pos).value && next == ReadNumber(buf, pos).next
  {
    out, next := 0, pos;
    var p, v := pos, 0;
    assert buf[pos..pos] == [];
    while p < |buf| && IsDigit(buf[p])
      invariant pos <= p <= |buf| && DigitsEnd(buf, p) == DigitsEnd(buf, pos)
      invariant (forall i :: pos <= i < p ==> IsDigit(buf[i])) && v == Value(buf[pos..p]) <= FLOW_BUF_MAX
    {
      ValueNext(buf, pos, p);
      v := v * 10 + (buf[p] - ZERO);
      p := p + 1;
      if v > FLOW_BUF_MAX {
        OverMax(buf, pos, p);
        return -1, 0, pos;
      }
    }
    if p == pos {
      return -1, 0, pos;
    }
    if p + 1 >= |buf| {
      return 0, 0, pos;
    }
    if !CrlfAt(buf, p) {
      return -1, 0, pos;
    }
    return 1, v, p + 2;
  }

  /** resp_command_len. */
  method CommandLen(buf: bytes) returns (ret: int)
    ensures ret == match FlowFrame(buf) case Done(n) => n case Need => 0 case _ => -1
  {
    hide ReadNumber;
    if |buf| == 0 {
      return 0;
    }
    if buf[0] != STAR {
      return -1;
    }
    var r, argc, pos: nat := ReadNumberCrlf(buf, 1);
    if r <= 0 {
      return r;
    }
    if argc == 0 || argc > MAX_ARGC {
      return -1;
    }
    for i := 0 to argc
      invariant pos <= |buf| && FlowFrame(buf) == FlowBulks(buf, pos, argc - i)
    {
      if pos >= |buf| {
        return 0;
      }
      if buf[pos] != DOLLAR {
        return -1;
      }
      var s, len, q := ReadNumberCrlf(buf, pos + 1);
      if s <= 0 {
        return s;
      }
      if q + len + 2 > |buf| {
        return 0;
      }
      if !CrlfAt(buf, q + len) {
        return -1;
      }
      pos := q + len + 2;
    }
    return pos;
  }
}
