/**
 * Arithmetic modulo a prime, as far as the field needs it: inverses, Fermat's theorem, and a way to prove
 * large numbers prime.
 */
module Primes {
  import opened Bits

  ghost predicate IsPrime(n: nat) {
    n >= 2 && forall d :: 2 <= d < n ==> n % d != 0
  }

  // ----- congruence modulo n -----

  type Modulus = n: nat | n > 0 witness 1

  ghost predicate Same(a: int, b: int, n: Modulus)
  {
    (a - b) % n == 0
  }

  lemma SameBy(a: int, b: int, k: int, n: Modulus)
    requires a == b + n * k
    ensures Same(a, b, n)
  {
    DivModUnique(a - b, n, k, 0);
  }

  lemma Gap(a: int, b: int, n: Modulus) returns (k: int)
    requires Same(a, b, n)
    ensures a == b + n * k
  {
    k := (a - b) / n;
  }

  lemma Reflexive(a: int, n: Modulus)
    ensures Same(a, a, n)
  {
    SameBy(a, a, 0, n);
  }

  lemma Symmetric(a: int, b: int, n: Modulus)
    requires Same(a, b, n)
    ensures Same(b, a, n)
  {
    var k := Gap(a, b, n);
    assert n * -k == -(n * k);
    SameBy(b, a, -k, n);
  }

  lemma Transitive(a: int, b: int, c: int, n: Modulus)
    requires Same(a, b, n) && Same(b, c, n)
    ensures Same(a, c, n)
  {
    var k := Gap(a, b, n);
    var l := Gap(b, c, n);
    assert n * (k + l) == n * k + n * l;
    SameBy(a, c, k + l, n);
  }

  lemma Products(a: int, x: int, b: int, y: int, n: Modulus)
    requires Same(a, x, n) && Same(b, y, n)
    ensures Same(a * b, x * y, n)
  {
    var k := Gap(a, x, n);
    var l := Gap(b, y, n);
    assert n * k * b == n * (k * b) && x * (n * l) == n * (x * l);
    assert a * b == x * y + n * (x * l) + n * (k * b) by {
      assert a * b == x * b + n * k * b;
      assert x * b == x * y + x * (n * l);
    }
    assert n * (x * l + k * b) == n * (x * l) + n * (k * b);
    SameBy(a * b, x * y, x * l + k * b, n);
  }

  lemma Remainder(a: int, n: Modulus)
    ensures Same(a % n, a, n) && (Same(a, 0, n) <==> a % n == 0)
  {
    var k := a / n;
    assert n * -k == -(n * k);
    SameBy(a % n, a, -k, n);
  }

  lemma SameRemainder(a: int, b: int, n: Modulus)
    ensures Same(a, b, n) <==> a % n == b % n
  {
    hide Same;
    Remainder(a, n);
    Remainder(b, n);
    if Same(a, b, n) {
      var k := Gap(a, b, n);
      var q := b / n;
      assert n * (q + k) == n * q + n * k;
      DivModUnique(a, n, q + k, b % n);
    } else if a % n == b % n {
      Symmetric(a % n, a, n);
      Transitive(a, a % n, b, n);
    }
  }

  lemma {:induction false} PowSame(a: nat, b: nat, e: nat, n: Modulus)
    requires Same(a, b, n)
    ensures Same(Pow(a, e), Pow(b, e), n)
  {
    if e == 0 {
      Reflexive(1, n);
    } else {
      hide Same;
      PowSame(a, b, e - 1, n);
      Products(a, b, Pow(a, e - 1), Pow(b, e - 1), n);
    }
  }

  lemma {:induction false} PowTimes(a: nat, d: nat, e: nat)
    ensures Pow(a, d * e) == Pow(Pow(a, d), e)
  {
    if e > 0 {
      PowTimes(a, d, e - 1);
      assert d * e == d + d * (e - 1);
      PowAdd(a, d, d * (e - 1));
    }
  }

  lemma {:induction false} PowOne(e: nat)
    ensures Pow(1, e) == 1
  {
    if e > 0 {
      PowOne(e - 1);
    }
  }

  // ----- divisors -----

  /** A common divisor of a and b, as a sum of their multiples. */
  lemma {:induction false} Bezout(a: nat, b: nat) returns (g: nat, x: int, y: int)
    requires a > 0
    ensures g > 0 && a % g == 0 && b % g == 0 && a * x + b * y == g
    decreases b
  {
    if b == 0 {
      g, x, y := a, 1, 0;
    } else {
      var q, r := a / b, a % b;
      var u, v;
      g, u, v := Bezout(b, r);
      x, y := v, u - q * v;
      BezoutStep(a, b, q, r, g, u, v);
    }
  }

  lemma BezoutStep(a: nat, b: nat, q: nat, r: nat, g: nat, u: int, v: int)
    requires a == b * q + r && g > 0 && b % g == 0 && r % g == 0 && b * u + r * v == g
    ensures a % g == 0 && a * v + b * (u - q * v) == g
  {
    SumDivides(b, r, q, g);
    Regrouped(b, q, r, u, v);
  }

  lemma SumDivides(b: nat, r: nat, q: nat, g: nat)
    requires g > 0 && b % g == 0 && r % g == 0
    ensures (b * q + r) % g == 0
  {
    var k, m := b / g, r / g;
    assert b == g * k && r == g * m;
    assert g * k * q == g * (k * q);
    DivModUnique(b * q + r, g, k * q + m, 0);
  }

  lemma Regrouped(b: int, q: int, r: int, u: int, v: int)
    ensures (b * q + r) * v + b * (u - q * v) == b * u + r * v
  {
  }

  lemma DivisorFits(n: nat, d: nat)
    requires n > 0 && d > 0 && n % d == 0
    ensures d <= n
  {
  }

  /** A number that is not a multiple of the prime n has an inverse. */
  lemma Inverse(a: int, n: Modulus) returns (b: nat)
    requires IsPrime(n) && !Same(a, 0, n)
    ensures Same(a * b, 1, n)
  {
    hide Same;
    var r := a % n;
    Remainder(a, n);
    var g, x, y := Bezout(n, r);
    DivisorFits(r, g);
    assert g == 1;
    hide IsPrime;
    b := y % n;
    Remainder(y, n);
    SameBy(r * y, 1, -x, n);
    Products(r, a, b, y, n) by {
      Reflexive(a, n);
    }
    InverseOf(a, r, y, b, n);
  }

  lemma InverseOf(a: int, r: int, y: int, b: int, n: Modulus)
    requires Same(r, a, n) && Same(b, y, n) && Same(r * y, 1, n)
    ensures Same(a * b, 1, n)
  {
    hide Same;
    Symmetric(r, a, n);
    Products(a, r, b, y, n);
    Transitive(a * b, r * y, 1, n);
  }

  /** A factor that is not zero can be divided out. */
  lemma Cancel(a: int, b: int, c: int, n: Modulus)
    requires IsPrime(n) && !Same(a, 0, n) && Same(a * b, a * c, n)
    ensures Same(b, c, n)
  {
    hide IsPrime, Same;
    var i := Inverse(a, n);
    Reflexive(i, n);
    Products(i, i, a * b, a * c, n);
    Undo(a, i, b, n);
    Undo(a, i, c, n);
    Symmetric(i * (a * b), b, n);
    Transitive(b, i * (a * b), i * (a * c), n);
    Transitive(b, i * (a * c), c, n);
  }

  lemma Undo(a: int, i: int, b: int, n: Modulus)
    requires Same(a * i, 1, n)
    ensures Same(i * (a * b), b, n)
  {
    hide Same;
    Reflexive(b, n);
    Products(a * i, 1, b, b, n);
    assert a * i * b == i * (a * b);
  }

  lemma NoZeroDivisors(a: int, b: int, n: Modulus)
    requires IsPrime(n) && Same(a * b, 0, n)
    ensures Same(a, 0, n) || Same(b, 0, n)
  {
    hide IsPrime, Same;
    if !Same(a, 0, n) {
      assert a * 0 == 0;
      Cancel(a, b, 0, n);
    }
  }

  // ----- Fermat's theorem -----

  /** The nonzero residues below m. */
  function Units(m: nat): (r: set<nat>)
    ensures forall i: nat :: i in r <==> 1 <= i < m
    ensures m > 0 ==> |r| == m - 1
  {
    if m <= 1 then {} else Units(m - 1) + {m - 1}
  }

  ghost function Product(s: set<nat>): nat {
    if s == {} then 1 else var x :| x in s; x * Product(s - {x})
  }

  lemma {:induction false} ProductOf(s: set<nat>, y: nat)
    requires y in s
    ensures Product(s) == y * Product(s - {y})
    decreases s
  {
    var x :| x in s && Product(s) == x * Product(s - {x});
    if x != y {
      ProductOf(s - {x}, y);
      ProductOf(s - {y}, x);
      assert s - {x} - {y} == s - {y} - {x};
      Swap(x, y, Product(s - {x} - {y}));
    }
  }

  lemma Swap(x: nat, y: nat, n: nat)
    ensures x * (y * n) == y * (x * n)
  {
  }

  /** Every residue of a set times a. */
  function Times(a: nat, s: set<nat>, n: Modulus): set<nat> {
    set i | i in s :: Scale(a, i, n)
  }

  function Scale(a: nat, i: nat, n: Modulus): nat {
    a * i % n
  }

  /** Multiplication by a keeps residues apart and scales their product. */
  lemma {:induction false} Scaled(a: nat, s: set<nat>, n: Modulus)
    requires IsPrime(n) && !Same(a, 0, n) && s <= Units(n)
    ensures Times(a, s, n) <= Units(n) && |Times(a, s, n)| == |s|
    ensures Same(Product(Times(a, s, n)), Pow(a, |s|) * Product(s), n)
    decreases s
  {
    hide IsPrime, Same, Units, Product, Times, Scale;
    TimesNone(a, n);
    if s == {} {
      Reflexive(1, n);
    } else {
      var x :| x in s;
      var rest, y := s - {x}, Scale(a, x, n);
      Scaled(a, rest, n);
      TimesMore(a, s, x, n);
      KeptApart(a, x, rest, n);
      UnitTimes(a, x, n);
      ProductOf(s, x);
      ProductOf(Times(a, s, n), y);
      assert Times(a, s, n) - {y} == Times(a, rest, n);
      ScaledMore(a, x, Product(Times(a, rest, n)), Pow(a, |rest|), Product(rest), n);
    }
  }

  lemma TimesNone(a: nat, n: Modulus)
    ensures Times(a, {}, n) == {} && Product({}) == 1
  {
  }

  lemma TimesMore(a: nat, s: set<nat>, x: nat, n: Modulus)
    requires x in s
    ensures Times(a, s, n) == Times(a, s - {x}, n) + {Scale(a, x, n)}
  {
    hide Scale;
  }

  lemma ScaledMore(a: nat, x: nat, t: int, p: int, m: int, n: Modulus)
    requires Same(t, p * m, n)
    ensures Same(Scale(a, x, n) * t, a * p * (x * m), n)
  {
    hide Same;
    Remainder(a * x, n);
    Products(a * x % n, a * x, t, p * m, n);
    assert a * x * (p * m) == a * p * (x * m);
  }

  lemma UnitNonZero(x: nat, n: Modulus)
    ensures x in Units(n) <==> x < n && !Same(x, 0, n)
  {
    hide Same;
    Remainder(x, n);
    if x < n {
      DivModUnique(x, n, 0, x);
    }
  }

  lemma UnitTimes(a: nat, x: nat, n: Modulus)
    requires IsPrime(n) && !Same(a, 0, n) && x in Units(n)
    ensures Scale(a, x, n) in Units(n)
  {
    hide IsPrime, Same, Units;
    UnitNonZero(x, n);
    Remainder(a * x, n);
    if Same(a * x, 0, n) {
      NoZeroDivisors(a, x, n);
    }
    SameRemainder(a * x % n, a * x, n);
    SameRemainder(a * x, 0, n);
    SameRemainder(a * x % n, 0, n);
    UnitNonZero(a * x % n, n);
  }

  lemma KeptApart(a: nat, x: nat, s: set<nat>, n: Modulus)
    requires IsPrime(n) && !Same(a, 0, n) && s <= Units(n) && x in Units(n) && x !in s
    ensures Scale(a, x, n) !in Times(a, s, n)
  {
    hide IsPrime, Same, Scale;
    if i :| i in s && Scale(a, i, n) == Scale(a, x, n) {
      EqualScaled(a, i, x, n);
    }
  }

  lemma EqualScaled(a: nat, i: nat, x: nat, n: Modulus)
    requires IsPrime(n) && !Same(a, 0, n) && i < n && x < n && Scale(a, i, n) == Scale(a, x, n)
    ensures i == x
  {
    hide IsPrime, Same;
    SameRemainder(a * i, a * x, n);
    Cancel(a, i, x, n);
    SameRemainder(i, x, n);
    DivModUnique(i, n, 0, i);
    DivModUnique(x, n, 0, x);
  }

  lemma {:induction false} ProductNonZero(s: set<nat>, n: Modulus)
    requires IsPrime(n) && s <= Units(n)
    ensures !Same(Product(s), 0, n)
    decreases s
  {
    hide Same, Units, Product;
    if s == {} {
      TimesNone(0, n);
      Remainder(1, n);
    } else {
      hide IsPrime;
      var x :| x in s;
      ProductOf(s, x);
      ProductNonZero(s - {x}, n);
      UnitNonZero(x, n);
      if Same(Product(s), 0, n) {
        NoZeroDivisors(x, Product(s - {x}), n);
      }
    }
  }

  /** Fermat's theorem. */
  lemma Fermat(a: nat, n: Modulus)
    requires IsPrime(n) && !Same(a, 0, n)
    ensures Same(Pow(a, n - 1), 1, n)
  {
    hide IsPrime, Same, Units, Pow, Product, Times;
    var all := Units(n);
    Scaled(a, all, n);
    SameSize(Times(a, all, n), all);
    ProductNonZero(all, n);
    FactorOut(Product(all), Pow(a, n - 1), n);
  }

  lemma FactorOut(p: int, m: int, n: Modulus)
    requires IsPrime(n) && !Same(p, 0, n) && Same(p, m * p, n)
    ensures Same(m, 1, n)
  {
    hide IsPrime, Same;
    Symmetric(p, m * p, n);
    assert m * p == p * m && p * 1 == p;
    Cancel(p, m, 1, n);
  }

  lemma SameSize(a: set<nat>, b: set<nat>)
    requires a <= b && |a| == |b|
    ensures a == b
  {
    assert b == a + (b - a);
  }

  // ----- proving large numbers prime -----

  /** A congruence modulo n holds modulo every divisor of n. */
  lemma Down(a: int, b: int, n: Modulus, d: Modulus)
    requires Same(a, b, n) && n % d == 0
    ensures Same(a, b, d)
  {
    var k := Gap(a, b, n);
    var m := n / d;
    assert n == d * m;
    assert d * m * k == d * (m * k);
    SameBy(a, b, m * k, d);
  }

  /** A number that is not prime has a prime divisor. */
  lemma {:induction false} PrimeDivisor(n: nat, d: nat) returns (s: nat)
    requires n >= 2 && 2 <= d <= n && forall e :: 2 <= e < d ==> n % e != 0
    ensures IsPrime(s) && n % s == 0 && d <= s <= n
    ensures !IsPrime(n) ==> s < n
    decreases n - d
  {
    if n % d == 0 {
      s := d;
      forall e | 2 <= e < d ensures d % e != 0 {
        if d % e == 0 {
          DivisorOfDivisor(n, d, e);
        }
      }
    } else {
      s := PrimeDivisor(n, d + 1);
    }
  }

  lemma DivisorOfDivisor(n: nat, d: nat, e: nat)
    requires d > 0 && e > 0 && n % d == 0 && d % e == 0
    ensures n % e == 0
  {
    var k, m := d / e, n / d;
    assert d == e * k && n == d * m;
    assert e * k * m == e * (k * m);
    DivModUnique(n, e, k * m, 0);
  }

  /** b has order q modulo n, also modulo its prime divisors: b - 1 has an inverse. */
  ghost predicate HasOrder(n: Modulus, q: nat, b: nat, u: nat) {
    Same(Pow(b, q), 1, n) && Same((b - 1) * u, 1, n)
  }

  lemma ZeroNotOne(n: Modulus)
    requires n >= 2
    ensures !Same(0, 1, n) && !Same(1, 0, n)
  {
    DivModUnique(1, n, 0, 1);
    DivModUnique(-1, n, -1, n - 1);
  }

  /** Then every prime divisor of n is 1 modulo the prime q. */
  lemma DivisorIsOne(n: Modulus, q: nat, b: nat, u: nat, s: nat)
    requires IsPrime(q) && IsPrime(s) && n % s == 0 && HasOrder(n, q, b, u)
    ensures (s - 1) % q == 0
  {
    assert s >= 2 && q >= 2;
    hide IsPrime, Same, Pow;
    Down(Pow(b, q), 1, n, s);
    Down((b - 1) * u, 1, n, s);
    Remainder(s - 1, q);
    if !Same(s - 1, 0, q) {
      NotOne(b, u, s);
      NotZero(b, q, s);
      Fermat(b, s);
      var y := Inverse(s - 1, q);
      IsOne(b, q, y, s);
    }
  }

  /** An element whose powers q and s - 1 are 1, with these two coprime, is 1. */
  lemma IsOne(b: nat, q: nat, y: nat, s: nat)
    requires q >= 2 && s >= 2 && Same((s - 1) * y, 1, q)
    requires Same(Pow(b, q), 1, s) && Same(Pow(b, s - 1), 1, s)
    ensures Same(b, 1, s)
  {
    hide Same, Pow;
    RaisedTo(b, s - 1, y, s);
    MulLe(s - 1, 0, y);
    var x := Quotient((s - 1) * y, q);
    OneMore(b, q, x, s);
    Symmetric(Pow(b, (s - 1) * y), b, s);
    Transitive(b, Pow(b, (s - 1) * y), 1, s);
  }

  lemma NotZero(b: nat, q: nat, s: nat)
    requires s >= 2 && q > 0 && Same(Pow(b, q), 1, s)
    ensures !Same(b, 0, s)
  {
    ZeroNotOne(s);
    hide Same;
    if Same(b, 0, s) {
      Reflexive(Pow(b, q - 1), s);
      Products(b, 0, Pow(b, q - 1), Pow(b, q - 1), s);
      Symmetric(Pow(b, q), 0, s);
      Transitive(0, Pow(b, q), 1, s);
    }
  }

  lemma NotOne(b: nat, u: nat, s: nat)
    requires s >= 2 && Same((b - 1) * u, 1, s)
    ensures !Same(b, 1, s)
  {
    ZeroNotOne(s);
    hide Same;
    if Same(b, 1, s) {
      var k := Gap(b, 1, s);
      SameBy(b - 1, 0, k, s);
      Reflexive(u, s);
      Products(b - 1, 0, u, u, s);
      Symmetric((b - 1) * u, 0, s);
      Transitive(0, (b - 1) * u, 1, s);
    }
  }

  lemma RaisedTo(b: nat, d: nat, e: nat, n: Modulus)
    requires Same(Pow(b, d), 1, n)
    ensures Same(Pow(b, d * e), 1, n)
  {
    hide Same, Pow;
    PowTimes(b, d, e);
    PowSame(Pow(b, d), 1, e, n);
    PowOne(e);
  }

  lemma Quotient(m: nat, q: nat) returns (x: nat)
    requires q >= 2 && Same(m, 1, q)
    ensures m == 1 + q * x
  {
    ZeroNotOne(q);
    assert m > 0;
    x := (m - 1) / q;
  }

  lemma OneMore(b: nat, q: nat, x: nat, n: Modulus)
    requires Same(Pow(b, q), 1, n)
    ensures Same(Pow(b, 1 + q * x), b, n)
  {
    hide Same;
    RaisedTo(b, q, x, n);
    Reflexive(b, n);
    Products(b, b, Pow(b, q * x), 1, n);
    assert Pow(b, 1 + q * x) == b * Pow(b, q * x);
  }

  /**
   * n is prime when n - 1 = q c for a prime q, an element of order q, and a c that is not of the form
   * k m q + k + m with positive k and m.
   */
  lemma ProvedPrime(n: Modulus, q: nat, c: nat, b: nat, u: nat)
    requires IsPrime(q) && n - 1 == q * c && c > 0 && HasOrder(n, q, b, u)
    requires c / q + 1 < q && c % q > c / q + 1
    ensures IsPrime(n)
  {
    hide HasOrder;
    if !IsPrime(n) {
      assert q * c >= 1;
      var s := PrimeDivisor(n, 2);
      hide IsPrime;
      DivisorIsOne(n, q, b, u, s);
      NoFactors(n, q, c, s, n / s);
    }
  }

  lemma NoFactors(n: nat, q: nat, c: nat, s: nat, t: nat)
    requires q > 0 && n - 1 == q * c && n == s * t && 1 < s < n && (s - 1) % q == 0
    requires c / q + 1 < q
    ensures c % q <= c / q + 1
  {
    var k := (s - 1) / q;
    assert s == q * k + 1;
    Cofactor(q, c, k, t);
    var m := c - k * t;
    Positive(q, k, m, s, t);
    Expanded(q, c, k, m, t);
    SumBelowProduct(k, m);
    SmallRest(c, q, k * m, k + m);
  }

  lemma Cofactor(q: int, c: int, k: int, t: int)
    requires (q * k + 1) * t - 1 == q * c
    ensures t - 1 == q * (c - k * t)
  {
    assert (q * k + 1) * t == q * (k * t) + t;
  }

  lemma Positive(q: nat, k: int, m: int, s: nat, t: nat)
    requires q > 0 && s == q * k + 1 && t - 1 == q * m && 1 < s < s * t
    ensures k >= 1 && m >= 1
  {
    assert k <= 0 ==> q * k <= 0;
    assert m <= 0 ==> q * m <= 0;
    assert t <= 1 ==> s * t <= s;
  }

  lemma Expanded(q: int, c: int, k: int, m: int, t: int)
    requires m == c - k * t && t - 1 == q * m
    ensures c == q * (k * m) + (k + m)
  {
    assert k * t == k * (q * m) + k;
    assert k * (q * m) == q * (k * m);
  }

  lemma SumBelowProduct(k: int, m: int)
    requires k >= 1 && m >= 1
    ensures k + m <= k * m + 1
  {
    assert (k - 1) * (m - 1) >= 0;
  }

  lemma SmallRest(c: nat, q: nat, p: int, r: int)
    requires q > 0 && c == q * p + r && 0 <= r <= p + 1 && c / q + 1 < q
    ensures c % q <= c / q + 1
  {
    var h, l := c / q, c % q;
    assert c == q * h + l;
    assert p <= h by {
      assert p >= h + 1 ==> q * p >= q * (h + 1);
    }
    DivModUnique(c, q, p, r);
  }
}
