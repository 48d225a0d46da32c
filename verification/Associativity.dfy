/**
 * The addition law of the curve is associative: the two ways to add three affine points have the same
 * ratios e : g and h : f, as a consequence of the three curve equations.
 */
module Associativity {
  import opened Field

  datatype Affine = Affine(x: int, y: int)

  function T(p: Affine): int { p.x * p.y }

  /** y^2 - x^2 on the curve. */
  function M(p: Affine): int { 1 + D * (T(p) * T(p)) }

  function N(p: Affine): int { p.y * p.y + p.x * p.x }

  ghost predicate OnCurve(p: Affine) {
    Congruent(p.y * p.y - p.x * p.x, M(p))
  }

  /** The factors of a sum of two points. */
  function E(p: Affine, q: Affine): int { p.x * q.y + q.x * p.y }
  function F(p: Affine, q: Affine): int { 1 - D * (T(p) * T(q)) }
  function G(p: Affine, q: Affine): int { 1 + D * (T(p) * T(q)) }
  function H(p: Affine, q: Affine): int { p.y * q.y + p.x * q.x }

  /** The factors of (p + q) + r, each without the common factor of p + q. */
  function E3(p: Affine, q: Affine, r: Affine): int { E(p, q) * F(p, q) * r.y + r.x * (G(p, q) * H(p, q)) }
  function F3(p: Affine, q: Affine, r: Affine): int { F(p, q) * G(p, q) - D * (E(p, q) * H(p, q) * T(r)) }
  function G3(p: Affine, q: Affine, r: Affine): int { F(p, q) * G(p, q) + D * (E(p, q) * H(p, q) * T(r)) }
  function H3(p: Affine, q: Affine, r: Affine): int { G(p, q) * H(p, q) * r.y + E(p, q) * F(p, q) * r.x }

  // ----- sums of products of three coordinates -----

  function S(p: Affine, q: Affine, r: Affine): int { H(p, q) * r.x + E(p, q) * r.y }
  function U(p: Affine, q: Affine, r: Affine): int { H(p, q) * r.x - E(p, q) * r.y }
  function C(p: Affine, q: Affine, r: Affine): int { H(p, q) * r.y + E(p, q) * r.x }
  function V(p: Affine, q: Affine, r: Affine): int { H(p, q) * r.y - E(p, q) * r.x }

  /** S and C do not depend on the order. */
  lemma Symmetry(p: Affine, q: Affine, r: Affine)
    ensures S(p, q, r) == S(r, q, p) && C(p, q, r) == C(r, q, p)
    ensures E(p, q) == E(q, p) && H(p, q) == H(q, p)
  {
  }

  // ----- multiplying them by y^2 + x^2 -----

  /** For s = a x + b y: s (y^2 + x^2) = 2 x y (a y + b x) + (y^2 - x^2) (b y - a x). */
  lemma TimesN(a: int, b: int, p: Affine, s: int, c: int, w: int)
    requires OnCurve(p) && s == a * p.x + b * p.y && c == a * p.y + b * p.x && w == b * p.y - a * p.x
    ensures Congruent(s * N(p), 2 * T(p) * c + M(p) * w)
  {
    hide M, D;
    var k := Witness(p.y * p.y - p.x * p.x, M(p));
    PairExact(a, b, p.x, p.y);
    Shifted(w, p.y * p.y - p.x * p.x, M(p), k);
    By(s * N(p), 2 * T(p) * c + M(p) * w, w * k);
  }

  lemma PairExact(a: int, b: int, x: int, y: int)
    ensures (a * x + b * y) * (y * y + x * x) == 2 * (x * y) * (a * y + b * x) + (y * y - x * x) * (b * y - a * x)
  {
  }

  lemma Shifted(u: int, c: int, m: int, k: int)
    requires c == m + 0x7fff_ffff_ffff_ffff_ffff_ffff_ffff_ffff_ffff_ffff_ffff_ffff_ffff_ffff_ffff_ffed * k
    ensures c * u == m * u + 0x7fff_ffff_ffff_ffff_ffff_ffff_ffff_ffff_ffff_ffff_ffff_ffff_ffff_ffff_ffff_ffed * (u * k)
  {
  }

  lemma Last(p: Affine, q: Affine, r: Affine)
    requires OnCurve(r)
    ensures Congruent(S(p, q, r) * N(r), 2 * T(r) * C(p, q, r) + M(r) * -U(p, q, r))
    ensures Congruent(U(p, q, r) * N(r), 2 * T(r) * V(p, q, r) + M(r) * -S(p, q, r))
    ensures Congruent(C(p, q, r) * N(r), 2 * T(r) * S(p, q, r) + M(r) * V(p, q, r))
    ensures Congruent(V(p, q, r) * N(r), 2 * T(r) * U(p, q, r) + M(r) * C(p, q, r))
  {
    hide Congruent, N, M, T, OnCurve, E, H;
    var e, h := E(p, q), H(p, q);
    Negations(e, r.x, r.y);
    TimesN(h, e, r, S(p, q, r), C(p, q, r), -U(p, q, r));
    TimesN(h, -e, r, U(p, q, r), V(p, q, r), -S(p, q, r));
    TimesN(e, h, r, C(p, q, r), S(p, q, r), V(p, q, r));
    TimesN(-e, h, r, V(p, q, r), U(p, q, r), C(p, q, r));
  }

  lemma Negations(e: int, x: int, y: int)
    ensures -e * x == -(e * x) && -e * y == -(e * y)
  {
  }

  /** U times y^2 + x^2 of the middle point. */
  lemma MiddleU(p: Affine, q: Affine, r: Affine)
    requires OnCurve(q)
    ensures Congruent(U(p, q, r) * N(q), 2 * T(q) * -V(p, q, r) + M(q) * -U(r, q, p))
  {
    hide Congruent, N, M, T, OnCurve, U, V;
    UByMiddle(p, q, r);
    VByMiddle(p, q, r);
    UByMiddle(r, q, p);
    SwappedProducts(p, r);
    MiddleUOf(p.x * r.x - p.y * r.y, p.y * r.x - p.x * r.y, q, U(p, q, r), V(p, q, r), U(r, q, p), p.x * r.y - p.y * r.x, p.y * r.y - p.x * r.x);
  }

  lemma MiddleUOf(a: int, b: int, q: Affine, u: int, v: int, w: int, c: int, d: int)
    requires OnCurve(q) && c == -b && d == -a
    requires u == a * q.x + b * q.y && v == c * q.x + d * q.y && w == a * q.x + c * q.y
    ensures Congruent(u * N(q), 2 * T(q) * -v + M(q) * -w)
  {
    hide Congruent, N, M, T, OnCurve;
    Opposite(b, c, q.x);
    Opposite(b, c, q.y);
    Opposite(a, d, q.y);
    TimesN(a, b, q, u, -v, -w);
  }

  lemma MiddleV(p: Affine, q: Affine, r: Affine)
    requires OnCurve(q)
    ensures Congruent(V(p, q, r) * N(q), 2 * T(q) * -U(p, q, r) + M(q) * V(r, q, p))
  {
    hide Congruent, N, M, T, OnCurve, U, V;
    VByMiddle(p, q, r);
    UByMiddle(p, q, r);
    VByMiddle(r, q, p);
    SwappedProducts(p, r);
    MiddleVOf(p.x * r.y - p.y * r.x, p.y * r.y - p.x * r.x, q, V(p, q, r), U(p, q, r), V(r, q, p), p.y * r.x - p.x * r.y, p.x * r.x - p.y * r.y);
  }

  lemma MiddleVOf(a: int, b: int, q: Affine, v: int, u: int, w: int, c: int, d: int)
    requires OnCurve(q) && c == -a && d == -b
    requires v == a * q.x + b * q.y && u == d * q.x + c * q.y && w == c * q.x + b * q.y
    ensures Congruent(v * N(q), 2 * T(q) * -u + M(q) * w)
  {
    hide Congruent, N, M, T, OnCurve;
    Opposite(a, c, q.x);
    Opposite(a, c, q.y);
    Opposite(b, d, q.x);
    TimesN(a, b, q, v, -u, w);
  }

  lemma UByMiddle(p: Affine, q: Affine, r: Affine)
    ensures U(p, q, r) == (p.x * r.x - p.y * r.y) * q.x + (p.y * r.x - p.x * r.y) * q.y
  {
    var a, b, c, d := p.x, p.y, r.x, r.y;
    Distributed(b, a, c, q.y, q.x);
    Distributed(a, -b, d, q.y, q.x);
    assert (a * q.y + q.x * b) * d == a * q.y * d + q.x * b * d;
    assert (a * c - b * d) * q.x == a * c * q.x - b * d * q.x && (b * c - a * d) * q.y == b * c * q.y - a * d * q.y;
  }

  lemma VByMiddle(p: Affine, q: Affine, r: Affine)
    ensures V(p, q, r) == (p.x * r.y - p.y * r.x) * q.x + (p.y * r.y - p.x * r.x) * q.y
  {
    var a, b, c, d := p.x, p.y, r.x, r.y;
    Distributed(b, a, d, q.y, q.x);
    assert (a * q.y + q.x * b) * c == a * q.y * c + q.x * b * c;
    assert (a * d - b * c) * q.x == a * d * q.x - b * c * q.x && (b * d - a * c) * q.y == b * d * q.y - a * c * q.y;
  }

  lemma Distributed(b: int, a: int, c: int, y: int, x: int)
    ensures (b * y + a * x) * c == b * c * y + a * c * x
  {
  }

  lemma SwappedProducts(p: Affine, r: Affine)
    ensures r.x * p.x == p.x * r.x && r.y * p.y == p.y * r.y && r.x * p.y == p.y * r.x && r.y * p.x == p.x * r.y
  {
  }

  lemma Opposite(b: int, c: int, y: int)
    requires c == -b
    ensures c * y == -(b * y)
  {
  }

  // ----- the factors in terms of these sums -----

  lemma Factors(p: Affine, q: Affine, r: Affine)
    ensures E3(p, q, r) == S(p, q, r) + D * (T(p) * T(q)) * U(p, q, r)
    ensures H3(p, q, r) == C(p, q, r) + D * (T(p) * T(q)) * V(p, q, r)
  {
    hide T, E, H, D;
    var k, e, h := D * (T(p) * T(q)), E(p, q), H(p, q);
    assert e * (1 - k) * r.y == e * r.y - k * (e * r.y) && r.x * ((1 + k) * h) == h * r.x + k * (h * r.x);
    assert (1 + k) * h * r.y == h * r.y + k * (h * r.y) && e * (1 - k) * r.x == e * r.x - k * (e * r.x);
  }

  /** F G of the first two, and E H. */
  lemma Denominators(p: Affine, q: Affine, r: Affine)
    ensures var k, n := D * (T(p) * T(q)), T(p) * N(q) + T(q) * N(p);
      G3(p, q, r) == 1 - k * k + D * T(r) * n && F3(p, q, r) == 1 - k * k - D * T(r) * n
  {
    EHTerms(p, q);
    hide T, E, H, N, D;
    var k, n, t := D * (T(p) * T(q)), T(p) * N(q) + T(q) * N(p), T(r);
    assert (1 - k) * (1 + k) == 1 - k * k;
    assert D * (n * t) == D * t * n;
  }

  lemma EHTerms(p: Affine, q: Affine)
    ensures E(p, q) * H(p, q) == T(p) * N(q) + T(q) * N(p)
  {
    FourProducts(p.x, p.y, q.x, q.y);
  }

  lemma FourProducts(a: int, b: int, c: int, d: int)
    ensures (a * d + c * b) * (b * d + a * c) == a * b * (d * d + c * c) + c * d * (b * b + a * a)
  {
    assert a * d * (b * d) == a * b * (d * d) && a * d * (a * c) == c * d * (a * a);
    assert c * b * (b * d) == c * d * (b * b) && c * b * (a * c) == a * b * (c * c);
    TwoByTwo(a * d, c * b, b * d, a * c);
  }

  lemma TwoByTwo(a: int, b: int, c: int, d: int)
    ensures (a + b) * (c + d) == a * c + a * d + b * c + b * d
  {
  }

  // ----- the two orders agree -----

  lemma Scaled(c: int, a: int, b: int)
    requires Congruent(a, b)
    ensures Congruent(c * a, c * b)
  {
    hide Congruent;
    Reflexive(c);
    Products(c, c, a, b);
  }

  /** One of the two products, with sign e: 1 for the ratio e : g and -1 for h : f. */
  function Product(e: int, d: int, s: int, u: int, ta: int, tb: int, tc: int, nb: int, nc: int): int {
    (s + d * (ta * tb) * u) * (1 - d * (tb * tc) * (d * (tb * tc)) + e * (d * ta * (tb * nc + tc * nb)))
  }

  lemma ProductTerms(e: int, d: int, s: int, u: int, ta: int, tb: int, tc: int, nb: int, nc: int)
    ensures var k := 1 - d * (tb * tc) * (d * (tb * tc));
      Product(e, d, s, u, ta, tb, tc, nb, nc) == s * k + d * (ta * tb) * u * k
        + e * (d * ta * tb) * (s * nc) + e * (d * ta * tc) * (s * nb)
        + e * (d * d * (ta * ta) * (tb * tb)) * (u * nc) + e * (d * d * (ta * ta) * (tb * tc)) * (u * nb)
  {
    var k, m := 1 - d * (tb * tc) * (d * (tb * tc)), tb * nc + tc * nb;
    TwoByTwo(s, d * (ta * tb) * u, k, e * (d * ta * m));
    Spread(e * (d * ta), s, tb, nc, tc, nb);
    Spread(e * (d * ta) * (d * (ta * tb)), u, tb, nc, tc, nb);
    Coefficients(e, d, ta, tb, tc, s, u, m);
    ThreeFactors(e, d, ta, tb, s * nc);
    ThreeFactors(e, d, ta, tc, s * nb);
    FiveFactors(e, d, ta, tb, tb, u * nc);
    FiveFactors(e, d, ta, tb, tc, u * nb);
  }

  lemma Spread(c: int, s: int, tb: int, nc: int, tc: int, nb: int)
    ensures c * (s * (tb * nc + tc * nb)) == c * tb * (s * nc) + c * tc * (s * nb)
  {
    assert s * (tb * nc + tc * nb) == tb * (s * nc) + tc * (s * nb);
  }

  lemma Coefficients(e: int, d: int, ta: int, tb: int, tc: int, s: int, u: int, m: int)
    ensures s * (e * (d * ta * m)) == e * (d * ta) * (s * m)
    ensures d * (ta * tb) * u * (e * (d * ta * m)) == e * (d * ta) * (d * (ta * tb)) * (u * m)
  {
    assert e * (d * ta * m) == e * (d * ta) * m;
  }

  lemma ThreeFactors(e: int, d: int, ta: int, tb: int, n: int)
    ensures e * (d * ta) * tb * n == e * (d * ta * tb) * n
  {
  }

  lemma FiveFactors(e: int, d: int, ta: int, tb: int, tc: int, n: int)
    ensures e * (d * ta) * (d * (ta * tb)) * tc * n == e * (d * d * (ta * ta) * (tb * tc)) * n
  {
    assert d * ta * (d * (ta * tb)) * tc == d * d * (ta * ta) * (tb * tc);
  }

  lemma SignedTerm(e: int, k: int, t: int, v: int, m: int, u: int)
    requires e == 1 || e == -1
    ensures e * k * (2 * t * v + m * (-e * u)) == e * (2 * (k * t) * v) - k * m * u
  {
    assert k * (2 * t * v) == 2 * (k * t) * v;
    assert k * (m * u) == k * m * u;
    if e == 1 {
      assert k * (2 * t * v + m * (-1 * u)) == k * (2 * t * v) - k * (m * u);
    } else {
      assert k * (2 * t * v + m * (1 * u)) == k * (2 * t * v) + k * (m * u);
    }
  }

  /** Three of the terms: those in v cancel. */
  lemma OneSide(e: int, d: int, s: int, u1: int, u3: int, c: int, v3: int, t1: int, t2: int, t3: int, m2: int, m3: int)
    requires e == 1 || e == -1
    ensures e * (d * t1 * t2) * (2 * t3 * c + m3 * (-e * u3)) + e * (d * d * (t1 * t1) * (t2 * t2)) * (2 * t3 * v3 + m3 * (-e * s))
        + e * (d * d * (t1 * t1) * (t2 * t3)) * (2 * t2 * -v3 + m2 * (-e * u1))
      == e * (2 * (d * t1 * t2 * t3) * c) - d * t1 * t2 * m3 * u3 - d * d * (t1 * t1) * (t2 * t2) * m3 * s
        - d * d * (t1 * t1) * (t2 * t3) * m2 * u1
  {
    SignedTerm(e, d * t1 * t2, t3, c, m3, u3);
    SignedTerm(e, d * d * (t1 * t1) * (t2 * t2), t3, v3, m3, s);
    SignedTerm(e, d * d * (t1 * t1) * (t2 * t3), t2, -v3, m2, u1);
    var k := d * d * (t1 * t1);
    assert k * (t2 * t2) * t3 == k * (t2 * t3) * t2;
    assert 2 * (k * (t2 * t2) * t3) * v3 == -(2 * (k * (t2 * t3) * t2) * -v3);
  }

  lemma CoefficientOfS(d: int, t1: int, t2: int, t3: int)
    ensures (1 - d * (t2 * t3) * (d * (t2 * t3))) - (1 - d * (t2 * t1) * (d * (t2 * t1)))
      == d * d * (t1 * t1) * (t2 * t2) * (1 + d * (t3 * t3)) - d * d * (t3 * t3) * (t2 * t2) * (1 + d * (t1 * t1))
  {
    var a, b, c := d * (t1 * t1), d * (t2 * t2), d * (t3 * t3);
    assert d * (t2 * t3) * (d * (t2 * t3)) == b * c && d * (t2 * t1) * (d * (t2 * t1)) == a * b;
    assert d * d * (t1 * t1) * (t2 * t2) == a * b && d * d * (t3 * t3) * (t2 * t2) == c * b;
    assert a * b * c == c * b * a;
  }

  lemma CoefficientOfU(d: int, t1: int, t2: int, t3: int)
    ensures d * t1 * t2 * (1 - d * (t2 * t3) * (d * (t2 * t3)))
      == d * t1 * t2 * (1 + d * (t3 * t3)) - d * d * (t3 * t3) * (t2 * t1) * (1 + d * (t2 * t2))
  {
    var k, b, c := d * t1 * t2, d * (t2 * t2), d * (t3 * t3);
    assert d * (t2 * t3) * (d * (t2 * t3)) == b * c;
    assert d * d * (t3 * t3) * (t2 * t1) == k * c;
    Cubic(k, b, c);
  }

  lemma Cubic(k: int, b: int, c: int)
    ensures k * (1 - b * c) == k * (1 + c) - k * c * (1 + b)
  {
    assert k * (b * c) == k * c * b;
  }

  /** After the curve equations are applied nothing is left. */
  lemma Cancelled(e: int, d: int, s: int, u1: int, u3: int, c: int, t1: int, t2: int, t3: int, m1: int, m2: int, m3: int)
    requires m1 == 1 + d * (t1 * t1) && m2 == 1 + d * (t2 * t2) && m3 == 1 + d * (t3 * t3)
    ensures var k1, k3 := 1 - d * (t2 * t3) * (d * (t2 * t3)), 1 - d * (t2 * t1) * (d * (t2 * t1));
      s * k1 + d * (t1 * t2) * u3 * k1
        + (e * (2 * (d * t1 * t2 * t3) * c) - d * t1 * t2 * m3 * u3 - d * d * (t1 * t1) * (t2 * t2) * m3 * s
          - d * d * (t1 * t1) * (t2 * t3) * m2 * u1)
      == s * k3 + d * (t3 * t2) * u1 * k3
        + (e * (2 * (d * t3 * t2 * t1) * c) - d * t3 * t2 * m1 * u1 - d * d * (t3 * t3) * (t2 * t2) * m1 * s
          - d * d * (t3 * t3) * (t2 * t1) * m2 * u3)
  {
    var k1, k3 := 1 - d * (t2 * t3) * (d * (t2 * t3)), 1 - d * (t2 * t1) * (d * (t2 * t1));
    CoefficientOfS(d, t1, t2, t3);
    CoefficientOfU(d, t1, t2, t3);
    CoefficientOfU(d, t3, t2, t1);
    Collected(s, u1, u3, k1, k3, d * t1 * t2, d * t3 * t2, d * d * (t1 * t1) * (t2 * t2) * m3, d * d * (t3 * t3) * (t2 * t2) * m1,
      d * d * (t1 * t1) * (t2 * t3) * m2, d * d * (t3 * t3) * (t2 * t1) * m2, d * t1 * t2 * m3, d * t3 * t2 * m1);
    assert d * (t1 * t2) == d * t1 * t2 && d * (t3 * t2) == d * t3 * t2;
    assert d * t1 * t2 * t3 == d * t3 * t2 * t1;
  }

  lemma Collected(s: int, u1: int, u3: int, k1: int, k3: int, a1: int, a3: int, s1: int, s3: int, b1: int, b3: int, c3: int, c1: int)
    requires k1 - k3 == s1 - s3 && a1 * k1 == c3 - b3 && a3 * k3 == c1 - b1
    ensures s * k1 + a1 * u3 * k1 - c3 * u3 - s1 * s - b1 * u1 == s * k3 + a3 * u1 * k3 - c1 * u1 - s3 * s - b3 * u3
  {
    assert a1 * u3 * k1 == (c3 - b3) * u3 && a3 * u1 * k3 == (c1 - b1) * u1;
    assert s * k1 - s * k3 == (s1 - s3) * s;
  }

  /** The two products agree modulo p, for either sign e, once the products with the n are as on the curve. */
  lemma Agree(e: int, s: int, u1: int, u3: int, c: int, v1: int, v3: int, t1: int, t2: int, t3: int,
              n1: int, n2: int, n3: int, m1: int, m2: int, m3: int)
    requires (e == 1 || e == -1) && m1 == 1 + D * (t1 * t1) && m2 == 1 + D * (t2 * t2) && m3 == 1 + D * (t3 * t3)
    requires Congruent(s * n3, 2 * t3 * c + m3 * (-e * u3)) && Congruent(s * n1, 2 * t1 * c + m1 * (-e * u1))
    requires Congruent(u3 * n3, 2 * t3 * v3 + m3 * (-e * s)) && Congruent(u1 * n1, 2 * t1 * v1 + m1 * (-e * s))
    requires Congruent(u3 * n2, 2 * t2 * -v3 + m2 * (-e * u1)) && Congruent(u1 * n2, 2 * t2 * -v1 + m2 * (-e * u3))
    ensures Congruent(Product(e, D, s, u3, t1, t2, t3, n2, n3), Product(e, D, s, u1, t3, t2, t1, n2, n1))
  {
    hide Congruent, Product, Reduced, D;
    var here, there := Reduced(e, D, s, u1, u3, c, t1, t2, t3, n2, m2, m3), Product(e, D, s, u1, t3, t2, t1, n2, n1);
    OneProduct(e, s, u1, u3, c, v3, t1, t2, t3, n2, n3, m2, m3);
    OneProduct(e, s, u3, u1, c, v1, t3, t2, t1, n2, n1, m2, m1);
    SameReduced(e, D, s, u1, u3, c, t1, t2, t3, n2, m1, m2, m3);
    Symmetric(there, here);
    Transitive(Product(e, D, s, u3, t1, t2, t3, n2, n3), here, there);
  }

  lemma SameReduced(e: int, d: int, s: int, u1: int, u3: int, c: int, t1: int, t2: int, t3: int, n2: int, m1: int, m2: int, m3: int)
    requires m1 == 1 + d * (t1 * t1) && m2 == 1 + d * (t2 * t2) && m3 == 1 + d * (t3 * t3)
    ensures Reduced(e, d, s, u1, u3, c, t1, t2, t3, n2, m2, m3) == Reduced(e, d, s, u3, u1, c, t3, t2, t1, n2, m2, m1)
  {
    Cancelled(e, d, s, u1, u3, c, t1, t2, t3, m1, m2, m3);
    assert d * t1 * t3 == d * t3 * t1;
  }

  /** A product with the curve equations applied. */
  function Reduced(e: int, d: int, s: int, u1: int, u3: int, c: int, t1: int, t2: int, t3: int, n2: int, m2: int, m3: int): int {
    var k1 := 1 - d * (t2 * t3) * (d * (t2 * t3));
    s * k1 + d * (t1 * t2) * u3 * k1
      + (e * (2 * (d * t1 * t2 * t3) * c) - d * t1 * t2 * m3 * u3 - d * d * (t1 * t1) * (t2 * t2) * m3 * s
        - d * d * (t1 * t1) * (t2 * t3) * m2 * u1)
      + e * (d * t1 * t3) * (s * n2)
  }

  lemma OneProduct(e: int, s: int, u1: int, u3: int, c: int, v3: int, t1: int, t2: int, t3: int, n2: int, n3: int, m2: int, m3: int)
    requires e == 1 || e == -1
    requires Congruent(s * n3, 2 * t3 * c + m3 * (-e * u3)) && Congruent(u3 * n3, 2 * t3 * v3 + m3 * (-e * s))
    requires Congruent(u3 * n2, 2 * t2 * -v3 + m2 * (-e * u1))
    ensures Congruent(Product(e, D, s, u3, t1, t2, t3, n2, n3), Reduced(e, D, s, u1, u3, c, t1, t2, t3, n2, m2, m3))
  {
    hide Congruent, Product, D;
    var d := D;
    ProductTerms(e, d, s, u3, t1, t2, t3, n2, n3);
    OneSide(e, d, s, u1, u3, c, v3, t1, t2, t3, m2, m3);
    var k := 1 - d * (t2 * t3) * (d * (t2 * t3));
    var rest := s * k + d * (t1 * t2) * u3 * k + e * (d * t1 * t3) * (s * n2);
    ThreeTerms(rest, e * (d * t1 * t2), e * (d * d * (t1 * t1) * (t2 * t2)), e * (d * d * (t1 * t1) * (t2 * t3)),
      s * n3, u3 * n3, u3 * n2, 2 * t3 * c + m3 * (-e * u3), 2 * t3 * v3 + m3 * (-e * s), 2 * t2 * -v3 + m2 * (-e * u1));
  }

  lemma ThreeTerms(rest: int, c1: int, c2: int, c3: int, a1: int, a2: int, a3: int, b1: int, b2: int, b3: int)
    requires Congruent(a1, b1) && Congruent(a2, b2) && Congruent(a3, b3)
    ensures Congruent(rest + (c1 * a1 + c2 * a2 + c3 * a3), rest + (c1 * b1 + c2 * b2 + c3 * b3))
  {
    hide Congruent;
    Scaled(c1, a1, b1);
    Scaled(c2, a2, b2);
    Scaled(c3, a3, b3);
    Reflexive(rest);
    Sums(c1 * a1, c1 * b1, c2 * a2, c2 * b2);
    Sums(c1 * a1 + c2 * a2, c1 * b1 + c2 * b2, c3 * a3, c3 * b3);
    Sums(rest, rest, c1 * a1 + c2 * a2 + c3 * a3, c1 * b1 + c2 * b2 + c3 * b3);
  }

  /** Adding three points in either order gives the same ratios. */
  lemma Associates(p: Affine, q: Affine, r: Affine)
    requires OnCurve(p) && OnCurve(q) && OnCurve(r)
    ensures Congruent(E3(p, q, r) * G3(q, r, p), E3(r, q, p) * G3(q, p, r))
    ensures Congruent(H3(p, q, r) * F3(q, r, p), H3(r, q, p) * F3(q, p, r))
  {
    Symmetry(p, q, r);
    Factors(p, q, r);
    Factors(r, q, p);
    Denominators(q, r, p);
    Denominators(q, p, r);
    Last(p, q, r);
    Last(r, q, p);
    MiddleU(p, q, r);
    MiddleU(r, q, p);
    MiddleV(p, q, r);
    MiddleV(r, q, p);
    hide Congruent, OnCurve, E3, F3, G3, H3, S, U, C, V, T, N, E, F, G, H, D;
    var s, c, u1, u3, v1, v3 := S(p, q, r), C(p, q, r), U(r, q, p), U(p, q, r), V(r, q, p), V(p, q, r);
    Agree(1, s, u1, u3, c, v1, v3, T(p), T(q), T(r), N(p), N(q), N(r), M(p), M(q), M(r));
    Agree(-1, c, v1, v3, s, u1, u3, T(p), T(q), T(r), N(p), N(q), N(r), M(p), M(q), M(r));
  }
}
