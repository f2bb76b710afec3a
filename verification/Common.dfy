/** Small definitions shared by every component of the model. */
module Common {

  type byte = x: int | 0 <= x < 256
  type bytes = seq<byte>

  datatype Option<+T> = None | Some(value: T)

  function Min(a: int, b: int): int {
    if a < b then a else b
  }

  function Max(a: int, b: int): int {
    if a < b then b else a
  }

  /** Two positions less than `n` apart never share a residue modulo `n`. */
  lemma DistinctResidues(a: nat, b: nat, n: nat)
    requires 0 < n
    requires a < b < a + n
    ensures a % n != b % n
  {
    var d := b / n - a / n;
    assert b - a == n * d + (b % n - a % n) by {
      assert a == n * (a / n) + a % n && b == n * (b / n) + b % n;
    }
    if d <= 0 {
      assert n * d <= 0;
    } else {
      assert n * d >= n;
    }
  }

  lemma ModUnique(x: nat, n: nat, d: int, r: nat)
    requires 0 < n && r < n && x == n * d + r
    ensures x % n == r
  {
    var e := x / n - d;
    assert (e >= 1 ==> n * e >= n) && (e <= -1 ==> n * e <= -1 * n);
    assert n * e == r - x % n by {
      assert x == n * (x / n) + x % n;
    }
  }

  lemma DivisionIs(x: nat, n: nat, d: nat, r: nat)
    requires r < n && x == n * d + r
    ensures x / n == d
  {
    ModUnique(x, n, d, r);
    var e := x / n - d;
    assert n * e == 0 by {
      assert x == n * (x / n) + x % n;
    }
    assert (e >= 1 ==> n * e >= n) && (e <= -1 ==> n * e <= -1 * n);
  }

  lemma Nest(b: nat, p: nat, c: nat, d: nat)
    ensures b * (p * c + d) == (b * p) * c + b * d
  {
    var pc := p * c;
    assert b * (pc + d) == b * pc + b * d;
    assert b * pc == (b * p) * c;
  }

  lemma SmallRest(b: nat, p: nat, d: nat, r: nat)
    requires d < p && r < b
    ensures 0 <= b * d + r < b * p
  {
    var x := p - d - 1;
    assert b * p == b * (d + 1 + x) == b * d + b + b * x;
  }

  lemma DivideParts(n: nat, m: nat, b: nat, p: nat, q: nat, r: nat, c: nat, d: nat)
    requires m == b * p && n == b * q + r && r < b && q == p * c + d && d < p
    ensures m > 0 && n / m == c
  {
    SmallRest(b, p, d, r);
    Nest(b, p, c, d);
    DivisionIs(n, m, c, b * d + r);
  }

  lemma Divide(n: nat, b: nat)
    requires b > 0
    ensures n == b * (n / b) + n % b && n % b < b
  {
  }

  /** Dividing by b and then by p is dividing by both; m is their product. */
  lemma DivideTwice(n: nat, b: nat, p: nat, m: nat)
    requires b > 0 && p > 0 && m == b * p
    ensures m > 0 && n / b / p == n / m
  {
    var q, r := n / b, n % b;
    Divide(n, b);
    var c, d := q / p, q % p;
    Divide(q, p);
    DivideParts(n, m, b, p, q, r, c, d);
  }

  /** The pieces one after the other. */
  function Flat(pieces: seq<bytes>): bytes {
    if pieces == [] then [] else pieces[0] + Flat(pieces[1..])
  }

  lemma {:induction false} FlatJoin(a: seq<bytes>, b: seq<bytes>)
    ensures Flat(a + b) == Flat(a) + Flat(b)
  {
    if a == [] {
      assert a + b == b;
    } else {
      assert (a + b)[1..] == a[1..] + b;
      FlatJoin(a[1..], b);
      assert a[0] + (Flat(a[1..]) + Flat(b)) == (a[0] + Flat(a[1..])) + Flat(b);
    }
  }
}
