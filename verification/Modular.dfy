/**
 Arithmetic modulo m: congruence, powers, primality, Euclid's lemma and
 Fermat's little theorem. Everything the curve arithmetic needs from number
 theory is derived here from the bare definition of a prime.
 */
module Modular {

  /** Mathematical power. */
  function Pow(b: int, e: nat): int {
    if e == 0 then 1 else b * Pow(b, e - 1)
  }

  /** p has no divisor strictly between 1 and itself. */
  ghost predicate Prime(p: int) {
    p > 1 && forall d :: 1 < d < p ==> p % d != 0
  }

  ghost predicate Cong(a: int, b: int, m: int)
    requires m > 0
  {
    a % m == b % m
  }

  // ---------- congruence ----------

  lemma ProductNonNegative(a: int, b: int)
    requires a >= 0 && b >= 0
    ensures a * b >= 0
  {}

  lemma MultipleIsLarge(d: int, m: int)
    requires m > 0
    ensures d == 0 || m * d >= m || m * d <= -m
  {
    if d > 0 {
      ProductNonNegative(m, d - 1);
    } else if d < 0 {
      ProductNonNegative(m, -d - 1);
    }
  }

  lemma RemainderUnique(x: int, q: int, r: int, m: int)
    requires m > 0 && x == m * q + r && 0 <= r < m
    ensures x % m == r && x / m == q
  {
    var d := q - x / m;
    assert m * d == x % m - r by {
      assert m * d == m * q - m * (x / m);
    }
    MultipleIsLarge(d, m);
  }

  lemma AddMultiple(x: int, k: int, m: int)
    requires m > 0
    ensures (x + m * k) % m == x % m
  {
    assert x + m * k == m * (x / m + k) + x % m;
    RemainderUnique(x + m * k, x / m + k, x % m, m);
  }

  /** Congruence is divisibility of the difference. */
  lemma CongIff(a: int, b: int, m: int)
    requires m > 0
    ensures Cong(a, b, m) <==> (a - b) % m == 0
  {
    if Cong(a, b, m) {
      assert a - b == m * (a / m - b / m) + 0;
      RemainderUnique(a - b, a / m - b / m, 0, m);
    }
    if (a - b) % m == 0 {
      assert a == b + m * ((a - b) / m);
      AddMultiple(b, (a - b) / m, m);
    }
  }

  lemma CongAdd(a: int, b: int, c: int, d: int, m: int)
    requires m > 0 && Cong(a, c, m) && Cong(b, d, m)
    ensures Cong(a + b, c + d, m)
    ensures Cong(a - b, c - d, m)
  {
    var i, j := a / m - c / m, b / m - d / m;
    assert a == c + m * i && b == d + m * j;
    assert a + b == (c + d) + m * (i + j);
    AddMultiple(c + d, i + j, m);
    assert a - b == (c - d) + m * (i - j);
    AddMultiple(c - d, i - j, m);
  }

  lemma CongMul(a: int, b: int, c: int, d: int, m: int)
    requires m > 0 && Cong(a, c, m) && Cong(b, d, m)
    ensures Cong(a * b, c * d, m)
  {
    var i, j := a / m - c / m, b / m - d / m;
    assert a == c + m * i && b == d + m * j;
    ProductExpansion(c, d, i, j, m);
    AddMultiple(c * d, c * j + i * d + m * i * j, m);
  }

  lemma ProductExpansion(c: int, d: int, i: int, j: int, m: int)
    ensures (c + m * i) * (d + m * j) == c * d + m * (c * j + i * d + m * i * j)
  {
    var u, v := m * i, m * j;
    assert (c + u) * (d + v) == c * d + c * v + u * d + u * v;
    assert c * v == m * (c * j) && u * d == m * (i * d);
    assert u * v == m * (m * i * j) by {
      assert u * v == m * (i * v);
    }
  }

  // ---------- powers ----------

  lemma {:induction false} PowAdd(b: int, i: nat, j: nat)
    ensures Pow(b, i + j) == Pow(b, i) * Pow(b, j)
  {
    if i == 0 {
    } else {
      PowAdd(b, i - 1, j);
      assert i - 1 + j == i + j - 1;
    }
  }

  lemma {:induction false} PowPositive(b: int, e: nat)
    requires b > 0
    ensures Pow(b, e) > 0
  {
    if e == 0 {
    } else {
      PowPositive(b, e - 1);
      ProductNonNegative(b - 1, Pow(b, e - 1));
    }
  }

  lemma {:induction false} PowMul(b: int, c: int, e: nat)
    ensures Pow(b * c, e) == Pow(b, e) * Pow(c, e)
  {
    if e == 0 {
    } else {
      PowMul(b, c, e - 1);
      Interchange(b, c, Pow(b, e - 1), Pow(c, e - 1));
    }
  }

  lemma Interchange(b: int, c: int, x: int, y: int)
    ensures (b * c) * (x * y) == (b * x) * (c * y)
  {
    var z := x * y;
    calc {
      (b * c) * z;
      b * (c * z);
      b * (x * (c * y));
      (b * x) * (c * y);
    }
  }

  lemma {:induction false} PowSquare(b: int, e: nat)
    ensures Pow(b * b, e) == Pow(b, 2 * e)
  {
    PowMul(b, b, e);
    PowAdd(b, e, e);
  }

  lemma {:induction false} PowCong(b: int, c: int, e: nat, m: int)
    requires m > 0 && Cong(b, c, m)
    ensures Cong(Pow(b, e), Pow(c, e), m)
  {
    if e == 0 {
    } else {
      PowCong(b, c, e - 1, m);
      CongMul(b, Pow(b, e - 1), c, Pow(c, e - 1), m);
    }
  }

  // ---------- primes ----------

  /**
   Euclid's lemma: a prime dividing a product divides a factor. The descent
   replaces a by p mod a, which is smaller and still not divisible by p.
   */
  lemma {:induction false} Euclid(p: int, a: int, b: int)
    requires Prime(p) && 0 < a < p && (a * b) % p == 0
    ensures b % p == 0
    decreases a
  {
    if a == 1 {
    } else {
      var q, r := p / a, p % a;
      assert p == a * q + r;
      assert r * b == p * b - q * (a * b) by {
        assert (p - a * q) * b == p * b - a * q * b;
        assert a * q * b == q * (a * b);
      }
      var k := (a * b) / p;
      assert a * b == p * k;
      assert r * b == 0 + p * (b - q * k) by {
        assert q * (p * k) == p * (q * k);
        assert p * (b - q * k) == p * b - p * (q * k);
      }
      AddMultiple(0, b - q * k, p);
      Euclid(p, r, b);
    }
  }

  /** A product of residues that are nonzero modulo a prime is nonzero. */
  lemma UnitProduct(p: int, a: int, b: int)
    requires Prime(p) && a % p != 0 && b % p != 0
    ensures (a * b) % p != 0
  {
    if (a * b) % p == 0 {
      CongMul(a, b, a % p, b, p);
      Euclid(p, a % p, b);
    }
  }

  // ---------- binomials and Fermat ----------

  function Choose(n: nat, k: nat): nat {
    if k == 0 then 1
    else if n == 0 then 0
    else Choose(n - 1, k - 1) + Choose(n - 1, k)
  }

  lemma {:induction false} ChooseAbove(n: nat, k: nat)
    requires k > n
    ensures Choose(n, k) == 0
  {
    if n == 0 {
    } else {
      ChooseAbove(n - 1, k - 1);
      ChooseAbove(n - 1, k);
    }
  }

  lemma {:induction false} ChooseSelf(n: nat)
    ensures Choose(n, n) == 1
  {
    if n == 0 {
    } else {
      ChooseSelf(n - 1);
      ChooseAbove(n - 1, n);
    }
  }

  /** k * C(n, k) == n * C(n-1, k-1). */
  lemma {:induction false} ChooseAbsorb(n: nat, k: nat)
    requires n > 0 && k > 0
    ensures k * Choose(n, k) == n * Choose(n - 1, k - 1)
    decreases n
  {
    if n == 1 {
      if k > 1 {
        ChooseAbove(1, k);
        ChooseAbove(0, k - 1);
      }
    } else if k == 1 {
      ChooseAbsorb(n - 1, 1);
    } else {
      ChooseAbsorb(n - 1, k - 1);
      ChooseAbsorb(n - 1, k);
      AbsorbArithmetic(n, k, Choose(n - 2, k - 2), Choose(n - 2, k - 1), Choose(n - 1, k));
    }
  }

  lemma AbsorbArithmetic(n: int, k: int, x: int, y: int, z: int)
    requires (k - 1) * (x + y) == (n - 1) * x && k * z == (n - 1) * y
    ensures k * ((x + y) + z) == n * (x + y)
  {
    calc {
      k * ((x + y) + z);
      (k - 1) * (x + y) + (x + y) + k * z;
      (n - 1) * x + (x + y) + (n - 1) * y;
      n * (x + y);
    }
  }

  /** The first m+1 terms of the binomial expansion of (a+1)^n. */
  function Expansion(a: int, n: nat, m: nat): int {
    Choose(n, m) * Pow(a, m) + if m == 0 then 0 else Expansion(a, n, m - 1)
  }

  lemma {:induction false} ExpansionStep(a: int, n: nat, m: nat)
    requires n > 0 && m > 0
    ensures Expansion(a, n, m) == Expansion(a, n - 1, m) + a * Expansion(a, n - 1, m - 1)
    decreases m
  {
    var c, d, w := Choose(n - 1, m - 1), Choose(n - 1, m), Pow(a, m - 1);
    PascalTerm(a, c, d, w);
    if m == 1 {
      assert Expansion(a, n, 0) == 1 == Expansion(a, n - 1, 0);
    } else {
      ExpansionStep(a, n, m - 1);
      assert a * (c * w + Expansion(a, n - 1, m - 2)) == a * (c * w) + a * Expansion(a, n - 1, m - 2);
    }
  }

  lemma PascalTerm(a: int, c: int, d: int, w: int)
    ensures (c + d) * (a * w) == d * (a * w) + a * (c * w)
  {
    assert c * (a * w) == a * (c * w);
  }

  lemma {:induction false} Binomial(a: int, n: nat)
    ensures Pow(a + 1, n) == Expansion(a, n, n)
  {
    if n == 0 {
    } else {
      Binomial(a, n - 1);
      ExpansionStep(a, n, n);
      ChooseAbove(n - 1, n);
      assert Expansion(a, n - 1, n) == Expansion(a, n - 1, n - 1);
      var e := Expansion(a, n - 1, n - 1);
      assert (a + 1) * e == e + a * e;
    }
  }

  /** Modulo a prime only the outer terms of the expansion survive. */
  lemma {:induction false} ExpansionPrime(p: int, a: int, m: nat)
    requires Prime(p) && m < p
    ensures Cong(Expansion(a, p, m), 1, p)
  {
    if m == 0 {
    } else {
      ExpansionPrime(p, a, m - 1);
      ChooseAbsorb(p, m);
      AddMultiple(0, Choose(p - 1, m - 1), p);
      Euclid(p, m, Choose(p, m));
      CongMul(Choose(p, m), Pow(a, m), 0, Pow(a, m), p);
      CongAdd(Choose(p, m) * Pow(a, m), Expansion(a, p, m - 1), 0, 1, p);
    }
  }

  lemma {:induction false} FermatNat(p: int, a: nat)
    requires Prime(p)
    ensures Cong(Pow(a, p), a, p)
  {
    if a == 0 {
      assert Pow(0, p) == 0;
    } else {
      FermatNat(p, a - 1);
      Binomial(a - 1, p);
      ChooseSelf(p);
      ExpansionPrime(p, a - 1, p - 1);
      CongAdd(Pow(a - 1, p), Expansion(a - 1, p, p - 1), a - 1, 1, p);
    }
  }

  lemma CancelUnit(p: int, r: int, w: int)
    requires Prime(p) && 0 < r < p && Cong(r * w, r, p)
    ensures Cong(w, 1, p)
  {
    CongIff(r * w, r, p);
    assert r * w - r == r * (w - 1);
    Euclid(p, r, w - 1);
    CongIff(w, 1, p);
  }

  /** Fermat's little theorem. */
  lemma Fermat(p: int, a: int)
    requires Prime(p) && a % p != 0
    ensures Cong(Pow(a, p - 1), 1, p)
  {
    var r := a % p;
    RemainderUnique(r, 0, r, p);
    FermatNat(p, r);
    FermatReduced(p, r, p - 1);
    PowCong(a, r, p - 1, p);
  }

  lemma FermatReduced(p: int, r: int, e: nat)
    requires Prime(p) && 0 < r < p && e + 1 == p && Cong(Pow(r, p), r, p)
    ensures Cong(Pow(r, e), 1, p)
  {
    assert Pow(r, p) == r * Pow(r, e);
    CancelUnit(p, r, Pow(r, e));
  }
}
