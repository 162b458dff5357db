/** Division with remainder, primes and powers, as far as RSA needs them. */
module NumberTheory {

  /** Quotient and remainder are unique. */
  lemma ModOf(x: int, q: int, r: int, n: int)
    requires 0 < n && x == q * n + r && 0 <= r < n
    ensures x % n == r
  {
    var q', r' := x / n, x % n;
    assert x == q' * n + r';
    assert (q - q') * n == r' - r && (q' - q) * n == r - r';
    if q > q' {
      Multiple(q - q', n);
    } else if q < q' {
      Multiple(q' - q, n);
    }
  }

  lemma Multiple(a: int, n: int)
    requires 1 <= a && 0 < n
    ensures n <= a * n
  {
  }

  ghost predicate Divides(m: int, x: int)
    requires 0 < m
  {
    x % m == 0
  }

  lemma DividesMultiple(m: int, k: int)
    requires 0 < m
    ensures Divides(m, k * m)
  {
    ModOf(k * m, k, 0, m);
  }

  lemma Quotient(m: int, x: int)
    requires 0 < m && Divides(m, x)
    ensures x == (x / m) * m
  {
  }

  /** Congruence modulo m. */
  ghost predicate Same(a: int, b: int, m: int)
    requires 0 < m
  {
    a % m == b % m
  }

  lemma SameBy(a: int, b: int, k: int, m: int)
    requires 0 < m && a == b + k * m
    ensures Same(a, b, m)
  {
    ModOf(a, b / m + k, b % m, m);
  }

  lemma SameIff(a: int, b: int, m: int)
    requires 0 < m
    ensures Same(a, b, m) <==> Divides(m, a - b)
  {
    if Same(a, b, m) {
      DividesMultiple(m, a / m - b / m);
      assert a - b == (a / m - b / m) * m;
    }
    if Divides(m, a - b) {
      Quotient(m, a - b);
      SameBy(a, b, (a - b) / m, m);
    }
  }

  lemma SameSum(a: int, b: int, c: int, d: int, m: int)
    requires 0 < m && Same(a, b, m) && Same(c, d, m)
    ensures Same(a + c, b + d, m)
  {
    var k, l := a / m - b / m, c / m - d / m;
    assert a == b + k * m && c == d + l * m;
    assert a + c == (b + d) + (k + l) * m;
    SameBy(a + c, b + d, k + l, m);
  }

  lemma Expand(b: int, k: int, d: int, l: int, m: int)
    ensures (b + k * m) * (d + l * m) == b * d + (b * l + k * d + k * m * l) * m
  {
    var x, y := k * m, l * m;
    assert (b + x) * (d + y) == b * d + b * y + x * d + x * y;
    assert b * y == (b * l) * m && x * d == (k * d) * m && x * y == (x * l) * m;
  }

  lemma SameProduct(a: int, b: int, c: int, d: int, m: int)
    requires 0 < m && Same(a, b, m) && Same(c, d, m)
    ensures Same(a * c, b * d, m)
  {
    var k, l := a / m - b / m, c / m - d / m;
    assert a == b + k * m && c == d + l * m;
    Expand(b, k, d, l, m);
    SameBy(a * c, b * d, b * l + k * d + k * m * l, m);
  }

  lemma SameRemainder(a: int, m: int)
    requires 0 < m
    ensures Same(a % m, a, m) && 0 <= a % m < m
  {
    SameBy(a, a % m, a / m, m);
  }

  lemma SameSmall(a: int, b: int, m: int)
    requires 0 <= a < m && 0 <= b < m && Same(a, b, m)
    ensures a == b
  {
    ModOf(a, 0, a, m);
    ModOf(b, 0, b, m);
  }

  function Pow(b: int, e: nat): int {
    if e == 0 then 1 else Pow(b, e - 1) * b
  }

  lemma {:induction false} PowSum(b: int, e: nat, f: nat)
    ensures Pow(b, e + f) == Pow(b, e) * Pow(b, f)
  {
    if f > 0 {
      PowSum(b, e, f - 1);
    }
  }

  lemma {:induction false} PowProduct(b: int, e: nat, f: nat)
    ensures 0 <= e * f && Pow(b, e * f) == Pow(Pow(b, e), f)
  {
    if f > 0 {
      PowProduct(b, e, f - 1);
      assert e * f == e * (f - 1) + e;
      PowSum(b, e * (f - 1), e);
    }
  }

  lemma {:induction false} PowSame(a: int, b: int, e: nat, m: int)
    requires 0 < m && Same(a, b, m)
    ensures Same(Pow(a, e), Pow(b, e), m)
  {
    if e > 0 {
      PowSame(a, b, e - 1, m);
      SameProduct(Pow(a, e - 1), Pow(b, e - 1), a, b, m);
    }
  }

  lemma {:induction false} PowOne(e: nat)
    ensures Pow(1, e) == 1
  {
    if e > 0 {
      PowOne(e - 1);
    }
  }

  /** Nothing but one divides both. */
  ghost predicate Coprime(a: int, b: int) {
    forall k :: 2 <= k ==> !(Divides(k, a) && Divides(k, b))
  }

  function Gcd(a: nat, b: nat): (g: nat)
    ensures 0 < a || 0 < b ==> 0 < g
    decreases b
  {
    if b == 0 then a else Gcd(b, a % b)
  }

  lemma {:induction false} GcdDivides(a: nat, b: nat)
    requires 0 < a || 0 < b
    ensures Divides(Gcd(a, b), a) && Divides(Gcd(a, b), b)
    decreases b
  {
    if b > 0 {
      var g := Gcd(b, a % b);
      GcdDivides(b, a % b);
      Quotient(g, b);
      Quotient(g, a % b);
      var q, s, t := a / b, b / g, (a % b) / g;
      assert a == q * b + a % b;
      assert a == (q * s + t) * g by {
        assert q * (s * g) == (q * s) * g;
      }
      DividesMultiple(g, q * s + t);
    }
  }

  /** Bezout's identity. */
  lemma {:induction false} Bezout(a: nat, b: nat) returns (x: int, y: int)
    ensures x * a + y * b == Gcd(a, b)
    decreases b
  {
    if b == 0 {
      x, y := 1, 0;
    } else {
      var u, v := Bezout(b, a % b);
      x, y := v, u - v * (a / b);
      var q, r := a / b, a % b;
      assert a == q * b + r;
      assert v * a == v * (q * b) + v * r;
      assert (v * q) * b == v * (q * b);
      assert (u - v * q) * b == u * b - (v * q) * b;
    }
  }

  lemma CoprimeGcd(a: nat, b: nat)
    requires 0 < b && Coprime(a, b)
    ensures Gcd(a, b) == 1
  {
    GcdDivides(a, b);
  }

  ghost predicate Prime(p: int) {
    2 <= p && forall k :: 1 < k < p ==> !Divides(k, p)
  }

  /** Divisibility is transitive. */
  lemma DividesOn(r: int, k: int, x: int)
    requires 0 < r && 0 < k && Divides(r, k) && Divides(k, x)
    ensures Divides(r, x)
  {
    Quotient(r, k);
    Quotient(k, x);
    var a, b := k / r, x / k;
    assert b * (a * r) == (b * a) * r;
    DividesMultiple(r, b * a);
  }

  lemma {:induction false} PrimeFactor(k: int) returns (r: int)
    requires 2 <= k
    ensures Prime(r) && Divides(r, k)
    decreases k
  {
    if Prime(k) {
      r := k;
      assert Divides(k, k) by { ModOf(k, 1, 0, k); }
    } else {
      var j :| 1 < j < k && Divides(j, k);
      r := PrimeFactor(j);
      DividesOn(r, j, k);
    }
  }

  /** Euclid's lemma. */
  lemma PrimeDividesFactor(p: int, a: nat, b: int)
    requires Prime(p) && Divides(p, a * b)
    ensures Divides(p, a) || Divides(p, b)
  {
    if !Divides(p, a) {
      forall k | 2 <= k && Divides(k, a)
        ensures !Divides(k, p)
      {
        if k > p {
          ModOf(p, 0, p, k);
        }
      }
      CoprimeGcd(a, p);
      var x, y := Bezout(a, p);
      Quotient(p, a * b);
      var k := (a * b) / p;
      calc {
        b;
        (x * a + y * p) * b;
        x * (a * b) + (y * b) * p;
        x * (k * p) + (y * b) * p;
        (x * k + y * b) * p;
      }
      DividesMultiple(p, x * k + y * b);
    }
  }

  // Fermat's little theorem, by the binomial theorem.

  function Choose(n: nat, k: nat): nat {
    if k == 0 then 1 else if n == 0 then 0 else Choose(n - 1, k - 1) + Choose(n - 1, k)
  }

  lemma {:induction false} ChooseTooMany(n: nat, k: nat)
    requires n < k
    ensures Choose(n, k) == 0
  {
    if n > 0 {
      ChooseTooMany(n - 1, k - 1);
      ChooseTooMany(n - 1, k);
    }
  }

  lemma {:induction false} ChooseAll(n: nat)
    ensures Choose(n, n) == 1
  {
    if n > 0 {
      ChooseAll(n - 1);
      ChooseTooMany(n - 1, n);
    }
  }

  lemma {:induction false} Absorb(n: nat, k: nat)
    requires 0 < k && 0 < n
    ensures k * Choose(n, k) == n * Choose(n - 1, k - 1)
  {
    if n > 1 {
      Absorb(n - 1, k);
      if k > 1 {
        Absorb(n - 1, k - 1);
        AbsorbSum(n, k, Choose(n - 2, k - 2), Choose(n - 2, k - 1), Choose(n - 1, k));
      }
    } else {
      ChooseTooMany(0, k);
    }
  }

  lemma AbsorbSum(n: int, k: int, a: int, b: int, c: int)
    requires k * c == (n - 1) * b && (k - 1) * (a + b) == (n - 1) * a
    ensures k * (a + b + c) == n * (a + b)
  {
    calc {
      k * (a + b + c);
      (k - 1) * (a + b) + (a + b) + k * c;
      (n - 1) * a + (a + b) + (n - 1) * b;
      n * (a + b);
    }
  }

  /** A prime divides the inner entries of its row of Pascal's triangle. */
  lemma PrimeDividesChoose(p: nat, k: nat)
    requires Prime(p) && 0 < k < p
    ensures Divides(p, Choose(p, k))
  {
    hide Choose, Prime;
    Absorb(p, k);
    DividesMultiple(p, Choose(p - 1, k - 1));
    assert k * Choose(p, k) == Choose(p - 1, k - 1) * p;
    PrimeDividesFactor(p, k, Choose(p, k));
    ModOf(k, 0, k, p);
  }

  /** The sum of Choose(n, i) * a^i for i below k. */
  function Terms(a: int, n: nat, k: nat): int {
    if k == 0 then 0 else Terms(a, n, k - 1) + Choose(n, k - 1) * Pow(a, k - 1)
  }

  lemma {:induction false} TermsStep(a: int, n: nat, k: nat)
    requires 0 < k
    ensures Terms(a, n + 1, k) == Terms(a, n, k) + a * Terms(a, n, k - 1)
  {
    if k > 1 {
      TermsStep(a, n, k - 1);
      TermsSum(a, Terms(a, n, k - 2), Choose(n, k - 2), Choose(n, k - 1), Pow(a, k - 2));
    }
  }

  lemma TermsSum(a: int, s: int, x: int, y: int, t: int)
    ensures a * s + (x + y) * (t * a) == y * (t * a) + a * (s + x * t)
  {
    assert a * (s + x * t) == a * s + a * (x * t);
    assert a * (x * t) == x * (t * a);
  }

  lemma Gather(s: int, a: int, c: int, t: int)
    ensures c == 0 ==> s + c * t + a * s == s * (a + 1)
  {
  }

  lemma {:induction false} Binomial(a: int, n: nat)
    ensures Pow(a + 1, n) == Terms(a, n, n + 1)
  {
    if n == 0 {
      assert Terms(a, 0, 1) == Terms(a, 0, 0) + Choose(0, 0) * Pow(a, 0);
    } else {
      Binomial(a, n - 1);
      TermsStep(a, n - 1, n + 1);
      ChooseTooMany(n - 1, n);
      Gather(Terms(a, n - 1, n), a, Choose(n - 1, n), Pow(a, n));
    }
  }

  /** All terms but the first and the last vanish modulo a prime. */
  lemma {:induction false} InnerTerms(a: int, p: nat, k: nat)
    requires Prime(p) && 1 <= k <= p
    ensures Same(Terms(a, p, k), 1, p)
  {
    if k == 1 {
      assert Terms(a, p, 1) == Terms(a, p, 0) + Choose(p, 0) * Pow(a, 0);
    } else {
      InnerTerms(a, p, k - 1);
      PrimeDividesChoose(p, k - 1);
      SameIff(Choose(p, k - 1), 0, p);
      SameProduct(Choose(p, k - 1), 0, Pow(a, k - 1), Pow(a, k - 1), p);
      SameSum(Terms(a, p, k - 1), 1, Choose(p, k - 1) * Pow(a, k - 1), 0, p);
    }
  }

  lemma {:induction false} Fermat(a: nat, p: nat)
    requires Prime(p)
    ensures Same(Pow(a, p), a, p)
  {
    if a == 0 {
      assert Pow(0, p) == Pow(0, p - 1) * 0;
    } else {
      Fermat(a - 1, p);
      Binomial(a - 1, p);
      InnerTerms(a - 1, p, p);
      ChooseAll(p);
      assert Terms(a - 1, p, p + 1) == Terms(a - 1, p, p) + 1 * Pow(a - 1, p);
      SameSum(Terms(a - 1, p, p), 1, Pow(a - 1, p), a - 1, p);
    }
  }

  /** Fermat's theorem for a number that the prime does not divide. */
  lemma FermatUnit(a: nat, p: nat)
    requires Prime(p) && !Divides(p, a)
    ensures Same(Pow(a, p - 1), 1, p)
  {
    Fermat(a, p);
    SameIff(Pow(a, p), a, p);
    assert Pow(a, p) - a == a * (Pow(a, p - 1) - 1);
    PrimeDividesFactor(p, a, Pow(a, p - 1) - 1);
    SameIff(Pow(a, p - 1), 1, p);
  }
}
