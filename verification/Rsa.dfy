/** The RSA program rsa.c: powers by repeated multiplication, and the private
    exponent by trying one number after the other. */
module Rsa {
  import opened NumberTheory

  const MaxInt: int := 0x7fff_ffff

  /** The source's int. */
  newtype Int32 = x: int | -0x8000_0000 <= x <= 0x7fff_ffff

  ghost predicate IsInverse(d: int, e: int, phi: int)
    requires 0 < phi
  {
    (d * e) % phi == 1
  }

  ghost predicate LeastInverse(d: int, e: int, phi: int)
    requires 0 < phi
  {
    1 <= d && IsInverse(d, e, phi) && NoneBelow(d, e, phi)
  }

  ghost predicate NoneBelow(d: int, e: int, phi: int)
    requires 0 < phi
  {
    forall k :: 1 <= k < d ==> !IsInverse(k, e, phi)
  }

  /** A number coprime to phi has an inverse below phi, and one below any
      inverse that is not. */
  lemma InverseExists(e: int, phi: int)
    requires 2 <= phi && 0 <= e && Coprime(e, phi)
    ensures exists d :: 1 <= d < phi && IsInverse(d, e, phi)
  {
    CoprimeGcd(e, phi);
    var x, y := Bezout(e, phi);
    var d := x % phi;
    SameRemainder(x, phi);
    SameProduct(d, x, e, e, phi);
    SameBy(x * e, 1, -y, phi);
    ModOf(1, 0, 1, phi);
    assert IsInverse(d, e, phi);
    if d == 0 {
      ModOf(0, 0, 0, phi);
    }
  }

  lemma InverseMeansCoprime(d: int, e: int, phi: int)
    requires 2 <= phi && IsInverse(d, e, phi)
    ensures Coprime(e, phi)
  {
    var t := (d * e) / phi;
    assert d * e == t * phi + 1;
    forall k | 2 <= k && Divides(k, e) && Divides(k, phi)
      ensures false
    {
      Quotient(k, e);
      Quotient(k, phi);
      NoUnit(k, d, e / k, t, phi / k);
    }
  }

  /** One is not a multiple of k. */
  lemma NoUnit(k: int, d: int, x: int, t: int, y: int)
    requires 2 <= k
    ensures d * (x * k) != t * (y * k) + 1
  {
    var z := d * x - t * y;
    assert z * k == d * (x * k) - t * (y * k);
    if z >= 1 {
      Multiple(z, k);
    }
  }

  /** The search for d ends exactly if e and phi have no common factor. */
  lemma SearchEndsIff(e: int, phi: int)
    requires 2 <= phi && 0 <= e
    ensures (exists d :: 1 <= d && IsInverse(d, e, phi)) <==> Coprime(e, phi)
  {
    if Coprime(e, phi) {
      InverseExists(e, phi);
    }
    if d :| 1 <= d && IsInverse(d, e, phi) {
      InverseMeansCoprime(d, e, phi);
    }
  }

  /** What the source's check rejects: the factor three in both numbers. */
  ghost predicate Rejected(e: int, phi: int) {
    Divides(3, e) && Divides(3, phi)
  }

  /** The check lets through numbers for which the search never ends: those
      that have a common prime factor other than three, unless both are
      divisible by three as well. */
  lemma CheckMisses(e: int, phi: int)
    requires 2 <= phi && 0 <= e
    ensures !Rejected(e, phi) && (forall d :: 1 <= d ==> !IsInverse(d, e, phi))
       <==> !Rejected(e, phi) && exists r :: r != 3 && Prime(r) && Divides(r, e) && Divides(r, phi)
  {
    SearchEndsIff(e, phi);
    if !Rejected(e, phi) && !Coprime(e, phi) {
      var k :| 2 <= k && Divides(k, e) && Divides(k, phi);
      var r := PrimeFactor(k);
      DividesOn(r, k, e);
      DividesOn(r, k, phi);
    }
  }

  /** For instance p = 5, q = 7, e = 2. */
  lemma CheckMissesTwo()
    ensures Prime(5) && Prime(7) && !Rejected(2, 4 * 6)
    ensures forall d :: 1 <= d ==> !IsInverse(d, 2, 4 * 6)
  {
    assert Divides(2, 2) && Divides(2, 24);
    assert !Coprime(2, 24);
    SearchEndsIff(2, 24);
  }

  /** M to the power e times d, modulo one of the primes. */
  lemma BackModulo(m: nat, p: nat, ed: nat, k: nat)
    requires Prime(p) && ed == 1 + (p - 1) * k
    ensures Same(Pow(m, ed), m, p)
  {
    if Divides(p, m) {
      SameIff(m, 0, p);
      assert Pow(m, ed) == Pow(m, ed - 1) * m;
      SameProduct(Pow(m, ed - 1), Pow(m, ed - 1), m, 0, p);
    } else {
      FermatUnit(m, p);
      PowProduct(m, p - 1, k);
      PowSame(Pow(m, p - 1), 1, k, p);
      PowOne(k);
      SameProduct(Pow(m, ed - 1), 1, m, m, p);
    }
  }

  /** What is congruent modulo two primes is congruent modulo their product. */
  lemma BothPrimes(a: int, b: int, p: nat, q: nat)
    requires Prime(p) && Prime(q) && p != q && Same(a, b, p) && Same(a, b, q)
    ensures 0 < p * q && Same(a, b, p * q)
  {
    SameIff(a, b, p);
    SameIff(a, b, q);
    Quotient(p, a - b);
    var t := (a - b) / p;
    assert a - b == p * t;
    PrimeDividesFactor(q, p, t);
    if Divides(q, p) {
      if q < p {
        assert false;
      }
      ModOf(p, 0, p, q);
      assert false;
    }
    Quotient(q, t);
    assert a - b == (t / q) * (p * q) by {
      assert p * (t / q * q) == (t / q) * (p * q);
    }
    SameBy(a, b, t / q, p * q);
  }

  /** Decrypting what was encrypted gives the message back. */
  lemma RoundTrip(m: nat, p: nat, q: nat, e: nat, d: nat)
    requires Prime(p) && Prime(q) && p != q && 0 < p * q && m < p * q
    requires 0 < (p - 1) * (q - 1) && IsInverse(d, e, (p - 1) * (q - 1))
    ensures Pow(Pow(m, e) % (p * q), d) % (p * q) == m
  {
    var n, phi := p * q, (p - 1) * (q - 1);
    var k := (d * e) / phi;
    assert d * e == 1 + phi * k;
    Regroup(p - 1, q - 1, k);
    NotNegative(d, e, phi, k);
    hide Pow, Same, Prime, IsInverse;
    BackModulo(m, p, d * e, (q - 1) * k);
    BackModulo(m, q, d * e, (p - 1) * k);
    BothPrimes(Pow(m, d * e), m, p, q);
    PowProduct(m, e, d);
    assert e * d == d * e;
    SameRemainder(Pow(m, e), n);
    PowSame(Pow(m, e) % n, Pow(m, e), d, n);
    SameRemainder(Pow(Pow(m, e) % n, d), n);
    SameSmall(Pow(Pow(m, e) % n, d) % n, m, n);
  }

  lemma Regroup(a: int, b: int, k: int)
    ensures (a * b) * k == a * (b * k) == b * (a * k)
  {
  }

  lemma NotNegative(d: nat, e: nat, phi: int, k: int)
    requires 0 < phi && k == (d * e) / phi
    ensures 0 <= d * e && 0 <= k
  {
  }

  /** The loop of encrypt and of decrypt, in the source's arithmetic: no
      product exceeds the square of n - 1. */
  method Power(base: Int32, exponent: Int32, n: Int32) returns (c: Int32)
    requires 2 <= n && 0 <= base < n && 0 <= exponent
    requires (n as int - 1) * (n as int - 1) <= MaxInt
    ensures c as int == Pow(base as int, exponent as int) % (n as int)
  {
    c := 1;
    var i: Int32 := 0;
    while i < exponent
      invariant 0 <= i <= exponent && 0 <= c < n
      invariant Same(c as int, Pow(base as int, i as int), n as int)
    {
      ProductBound(c as int, base as int, n as int);
      SameRemainder(c as int * base as int, n as int);
      SameProduct(c as int, Pow(base as int, i as int), base as int, base as int, n as int);
      c := c * base % n;
      i := i + 1;
    }
    ModOf(c as int, 0, c as int, n as int);
    c := c % n;
  }

  lemma Larger(a: int, b: int, k: int)
    requires a <= b && 0 <= k
    ensures a * k <= b * k
  {
    assert b * k - a * k == (b - a) * k;
  }

  lemma ProductBound(c: int, m: int, n: int)
    requires 0 <= c < n && 0 <= m < n
    ensures 0 <= c * m <= (n - 1) * (n - 1)
  {
    Larger(c, n - 1, m);
    Larger(m, n - 1, n - 1);
    Larger(0, c, m);
  }

  /** The source's check, whose loop body returns in its first round. */
  method Check(e: Int32, phi: Int32) returns (flag: bool)
    ensures flag <==> Rejected(e as int, phi as int)
  {
    var i: Int32 := 3;
    if e % i == 0 && phi % i == 0 {
      return true;
    }
    flag := false;
  }

  /** The least inverse is found before a product of the search overflows. */
  ghost predicate FoundInTime(e: int, phi: int)
    requires 0 < phi
  {
    exists d :: LeastInverse(d, e, phi) && d * e <= MaxInt
  }

  /** So it is if e and phi are coprime and the largest product that can be
      needed fits. */
  lemma RoomEnough(e: int, phi: int)
    requires 2 <= phi && 1 <= e && Coprime(e, phi) && (phi - 1) * e <= MaxInt
    ensures FoundInTime(e, phi)
  {
    InverseExists(e, phi);
    var d :| 1 <= d < phi && IsInverse(d, e, phi);
    var least := LeastBelow(d, e, phi);
    SearchBound(least, phi, e);
  }

  lemma {:induction false} LeastBelow(d: int, e: int, phi: int) returns (least: int)
    requires 0 < phi && 1 <= d && IsInverse(d, e, phi)
    ensures LeastInverse(least, e, phi) && least <= d
    decreases d
  {
    if NoneBelow(d, e, phi) {
      least := d;
    } else {
      var k :| 1 <= k < d && IsInverse(k, e, phi);
      least := LeastBelow(k, e, phi);
    }
  }

  /** The do-while search for the private exponent. */
  method Search(e: Int32, phi: Int32) returns (d: Int32)
    requires 2 <= phi && 1 <= e && FoundInTime(e as int, phi as int)
    ensures d < phi && LeastInverse(d as int, e as int, phi as int)
  {
    ghost var end: int :| LeastInverse(end, e as int, phi as int) && end * e as int <= MaxInt;
    LeastIsBelow(end, e as int, phi as int);
    d := 1;
    var s: Int32;
    while true
      invariant 1 <= d as int <= end
      invariant NoneBelow(d as int, e as int, phi as int)
      decreases end - d as int
    {
      SearchBound(d as int, end + 1, e as int);
      s := d * e % phi;
      d := d + 1;
      if !(s != 1) {
        break;
      }
    }
    d := d - 1;
  }

  lemma LeastIsBelow(d: int, e: int, phi: int)
    requires 2 <= phi && 0 <= e && LeastInverse(d, e, phi)
    ensures d < phi
  {
    InverseMeansCoprime(d, e, phi);
    InverseExists(e, phi);
  }

  lemma SearchBound(d: int, bound: int, e: int)
    requires 1 <= d < bound && 1 <= e
    ensures 0 <= d * e <= (bound - 1) * e
  {
  }

  /** The whole program for keys that pass the check and messages below n. */
  method Session(p: Int32, q: Int32, e: Int32, message: Int32) returns (d: Int32, cipher: Int32, plain: Int32)
    requires Prime(p as int) && Prime(q as int) && p != q && 1 <= e
    requires p as int * q as int <= MaxInt && 0 <= message as int < p as int * q as int
    requires (p as int * q as int - 1) * (p as int * q as int - 1) <= MaxInt
    requires 0 < (p as int - 1) * (q as int - 1) && FoundInTime(e as int, (p as int - 1) * (q as int - 1))
    ensures 0 < (p as int - 1) * (q as int - 1) && LeastInverse(d as int, e as int, (p as int - 1) * (q as int - 1))
    ensures 0 < p as int * q as int && cipher as int == Pow(message as int, e as int) % (p as int * q as int)
    ensures plain == message
  {
    Sizes(p as int, q as int);
    var n, phi := p * q, (p - 1) * (q - 1);
    d := Search(e, phi);
    cipher := Power(message, e, n);
    plain := Power(cipher, d, n);
    RoundTrip(message as int, p as int, q as int, e as int, d as int);
  }

  lemma Sizes(p: int, q: int)
    requires 2 <= p && 2 <= q && p != q
    ensures 2 <= (p - 1) * (q - 1) < p * q
  {
  }
}
