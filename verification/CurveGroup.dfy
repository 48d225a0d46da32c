/**
 * The group of the curve: its points with z = 1 form a commutative group under the addition sequence,
 * and every usable point stands for one of them.
 */
module CurveGroup {
  import opened Bits
  import opened CompleteLaw
  import opened Field
  import opened Verdict
  import A = Associativity
  import BaseTable
  import Curve
  import Decompress
  import Group
  import PowChain
  import PrimeField

  // ----- the same point in other coordinates -----

  lemma RatioTransitive(a: int, u: int, b: int, v: int, c: int, w: int)
    requires Congruent(a * v, b * u) && Congruent(b * w, c * v) && !Congruent(v, 0)
    ensures Congruent(a * w, c * u)
  {
    hide Congruent;
    Reflexive(w);
    Reflexive(u);
    Products(w, w, a * v, b * u);
    Products(u, u, b * w, c * v);
    assert w * (a * v) == v * (a * w) && w * (b * u) == u * (b * w) && u * (c * v) == v * (c * u);
    Transitive(v * (a * w), u * (b * w), v * (c * u));
    PrimeField.Cancel(v, a * w, c * u);
  }

  lemma SameTransitive(p: Curve.Point, q: Curve.Point, r: Curve.Point)
    requires Good(q) && Curve.SamePoint(p, q) && Curve.SamePoint(q, r)
    ensures Curve.SamePoint(p, r)
  {
    hide Congruent, Curve.OnCurve, Curve.Reduced;
    NonZeroZ(q);
    RatioTransitive(p.x, p.z, q.x, q.z, r.x, r.z);
    RatioTransitive(p.y, p.z, q.y, q.z, r.y, r.z);
  }

  lemma SameSymmetric(p: Curve.Point, q: Curve.Point)
    requires Curve.SamePoint(p, q)
    ensures Curve.SamePoint(q, p)
  {
    hide Congruent;
    Symmetric(p.x * q.z, q.x * p.z);
    Symmetric(p.y * q.z, q.y * p.z);
  }

  /** Then t is in the same ratio too. */
  lemma SameT(p: Curve.Point, q: Curve.Point)
    requires Good(p) && Good(q) && Curve.SamePoint(p, q)
    ensures Congruent(p.t * q.z, q.t * p.z)
  {
    hide Congruent, Curve.Reduced, D;
    NonZeroZ(p);
    NonZeroZ(q);
    Products(p.x * q.z, q.x * p.z, p.y * q.z, q.y * p.z);
    Reflexive(q.z * q.z);
    Reflexive(p.z * p.z);
    Products(q.z * q.z, q.z * q.z, p.x * p.y, p.z * p.t);
    Products(p.z * p.z, p.z * p.z, q.x * q.y, q.z * q.t);
    TInRatio(p.x, p.y, p.z, p.t, q.x, q.y, q.z, q.t);
    if Congruent(p.z * q.z, 0) {
      PrimeField.NoZeroDivisors(p.z, q.z);
    }
    PrimeField.Cancel(p.z * q.z, p.t * q.z, q.t * p.z);
  }

  lemma TInRatio(x1: int, y1: int, z1: int, t1: int, x2: int, y2: int, z2: int, t2: int)
    requires Congruent(x1 * z2 * (y1 * z2), x2 * z1 * (y2 * z1))
    requires Congruent(z2 * z2 * (x1 * y1), z2 * z2 * (z1 * t1)) && Congruent(z1 * z1 * (x2 * y2), z1 * z1 * (z2 * t2))
    ensures Congruent(z1 * z2 * (t1 * z2), z1 * z2 * (t2 * z1))
  {
    hide Congruent;
    Exchanged(x1, z2, y1);
    Exchanged(x2, z1, y2);
    Moved(z2, z1, t1);
    Moved(z1, z2, t2);
    assert z2 * z1 == z1 * z2;
    Symmetric(z2 * z2 * (x1 * y1), z1 * z2 * (t1 * z2));
    Transitive(z1 * z2 * (t1 * z2), z2 * z2 * (x1 * y1), z1 * z1 * (x2 * y2));
    Transitive(z1 * z2 * (t1 * z2), z1 * z1 * (x2 * y2), z1 * z2 * (t2 * z1));
  }

  lemma Exchanged(x: int, z: int, y: int)
    ensures x * z * (y * z) == z * z * (x * y)
  {
  }

  lemma Moved(a: int, b: int, t: int)
    ensures a * a * (b * t) == b * a * (t * a)
  {
  }

  // ----- sums -----

  /** The coordinates of a sum from its four factors. */
  lemma SumCoordinates(p: Curve.Point, q: Curve.Point)
    requires Good(p) && Good(q)
    ensures var s, e, f, g, h := Curve.Add(p, q), Curve.AddE(p, q), Curve.AddF(p, q), Curve.AddG(p, q), Curve.AddH(p, q);
      && Good(s) && !Congruent(f, 0) && !Congruent(g, 0)
      && Congruent(s.x, 4 * (e * f)) && Congruent(s.y, 4 * (g * h)) && Congruent(s.z, 4 * (f * g)) && Congruent(s.t, 4 * (e * h))
  {
    FactorsNonZero(p, q);
    AddComplete(p, q);
    hide Congruent, Curve.OnCurve, InField, Curve.Add, Curve.Complete, Curve.AddE, Curve.AddF, Curve.AddG, Curve.AddH;
    var e, f, g, h := Curve.AddRepresents(p, q);
    var x, y, u, v := Curve.AddE(p, q), Curve.AddF(p, q), Curve.AddG(p, q), Curve.AddH(p, q);
    Curve.CompleteRepresents(e, 2 * x, f, 2 * y, g, 2 * u, h, 2 * v);
    Fours(x, y, u, v);
  }

  lemma Fours(x: int, y: int, u: int, v: int)
    ensures 2 * x * (2 * y) == 4 * (x * y) && 2 * u * (2 * v) == 4 * (u * v)
    ensures 2 * y * (2 * u) == 4 * (y * u) && 2 * x * (2 * v) == 4 * (x * v)
  {
  }

  /** Two sums whose factors are in the same ratios are the same point. */
  lemma SameSums(p: Curve.Point, q: Curve.Point, p': Curve.Point, q': Curve.Point)
    requires Good(p) && Good(q) && Good(p') && Good(q')
    requires Congruent(Curve.AddE(p, q) * Curve.AddG(p', q'), Curve.AddE(p', q') * Curve.AddG(p, q))
    requires Congruent(Curve.AddH(p, q) * Curve.AddF(p', q'), Curve.AddH(p', q') * Curve.AddF(p, q))
    ensures Curve.SamePoint(Curve.Add(p, q), Curve.Add(p', q'))
  {
    SumCoordinates(p, q);
    SumCoordinates(p', q');
    hide Congruent, Good, Curve.Add, Curve.AddE, Curve.AddF, Curve.AddG, Curve.AddH;
    var s, s' := Curve.Add(p, q), Curve.Add(p', q');
    var e, f, g, h := Curve.AddE(p, q), Curve.AddF(p, q), Curve.AddG(p, q), Curve.AddH(p, q);
    var e', f', g', h' := Curve.AddE(p', q'), Curve.AddF(p', q'), Curve.AddG(p', q'), Curve.AddH(p', q');
    InRatio(s.x, s.z, s'.x, s'.z, e, g, e', g', f, f');
    assert g * h == h * g && g' * h' == h' * g' && f * g == g * f && f' * g' == g' * f';
    InRatio(s.y, s.z, s'.y, s'.z, h, f, h', f', g, g');
  }

  /** n : m = e : g in both, with common factors f and f'. */
  lemma InRatio(n: int, m: int, n': int, m': int, e: int, g: int, e': int, g': int, f: int, f': int)
    requires Congruent(n, 4 * (e * f)) && Congruent(m, 4 * (f * g)) && Congruent(n', 4 * (e' * f')) && Congruent(m', 4 * (f' * g'))
    requires Congruent(e * g', e' * g)
    ensures Congruent(n * m', n' * m)
  {
    hide Congruent;
    Products(n, 4 * (e * f), m', 4 * (f' * g'));
    Products(n', 4 * (e' * f'), m, 4 * (f * g));
    Reflexive(16 * (f * f'));
    Products(16 * (f * f'), 16 * (f * f'), e * g', e' * g);
    Sixteen(e, f, f', g');
    Sixteen(e', f', f, g);
    assert f * f' == f' * f;
    Symmetric(n' * m, 16 * (f * f') * (e' * g));
    Transitive(n * m', 16 * (f * f') * (e * g'), 16 * (f * f') * (e' * g));
    Transitive(n * m', 16 * (f * f') * (e' * g), n' * m);
  }

  lemma Sixteen(e: int, f: int, f': int, g: int)
    ensures 4 * (e * f) * (4 * (f' * g)) == 16 * (f * f') * (e * g)
  {
    assert e * f * (f' * g) == f * f' * (e * g);
  }

  lemma SumsCommute(p: Curve.Point, q: Curve.Point)
    requires Good(p) && Good(q)
    ensures Curve.SamePoint(Curve.Add(p, q), Curve.Add(q, p))
  {
    hide Congruent, Good, Curve.Add;
    assert Curve.AddE(p, q) == Curve.AddE(q, p) && Curve.AddH(p, q) == Curve.AddH(q, p);
    assert Curve.AddF(p, q) == Curve.AddF(q, p) && Curve.AddG(p, q) == Curve.AddG(q, p);
    hide Curve.AddE, Curve.AddF, Curve.AddG, Curve.AddH;
    Reflexive(Curve.AddE(p, q) * Curve.AddG(p, q));
    Reflexive(Curve.AddH(p, q) * Curve.AddF(p, q));
    SameSums(p, q, q, p);
  }

  /** Sums do not depend on the coordinates of a summand. */
  lemma SumsRespect(p: Curve.Point, p': Curve.Point, q: Curve.Point)
    requires Good(p) && Good(p') && Good(q) && Curve.SamePoint(p, p')
    ensures Curve.SamePoint(Curve.Add(p, q), Curve.Add(p', q))
  {
    SameT(p, p');
    NonZeroZ(p);
    NonZeroZ(p');
    hide Congruent, Good, Curve.Add, D;
    Bilinear(p.x, p.y, p'.x, p'.y, p.z, p'.z, q.x, q.y);
    Reflexive(p.z * p'.z);
    assert p.z * p'.z == p'.z * p.z;
    BilinearZT(p.z, p.t, p'.z, p'.t, q.z, q.t);
    CrossRatios(Curve.AddE(p, q), Curve.AddE(p', q), Curve.AddG(p, q), Curve.AddG(p', q), p.z, p'.z);
    CrossRatios(Curve.AddH(p, q), Curve.AddH(p', q), Curve.AddF(p, q), Curve.AddF(p', q), p.z, p'.z);
    hide Curve.AddE, Curve.AddF, Curve.AddG, Curve.AddH;
    SameSums(p, q, p', q);
  }

  lemma Bilinear(x: int, y: int, x': int, y': int, z: int, z': int, a: int, b: int)
    requires Congruent(x * z', x' * z) && Congruent(y * z', y' * z)
    ensures Congruent((x * b + a * y) * z', (x' * b + a * y') * z) && Congruent((y * b + x * a) * z', (y' * b + x' * a) * z)
  {
    hide Congruent;
    Reflexive(a);
    Reflexive(b);
    Products(x * z', x' * z, b, b);
    Products(a, a, y * z', y' * z);
    Products(y * z', y' * z, b, b);
    Products(x * z', x' * z, a, a);
    Sums(x * z' * b, x' * z * b, a * (y * z'), a * (y' * z));
    Sums(y * z' * b, y' * z * b, x * z' * a, x' * z * a);
    Distributed(x, y, z', a, b);
    Distributed(x', y', z, a, b);
  }

  lemma Distributed(x: int, y: int, z: int, a: int, b: int)
    ensures (x * b + a * y) * z == x * z * b + a * (y * z) && (y * b + x * a) * z == y * z * b + x * z * a
  {
  }

  lemma BilinearZT(z: int, t: int, z': int, t': int, a: int, b: int)
    requires Congruent(t * z', t' * z)
    ensures Congruent((z * a - D * (t * b)) * z', (z' * a - D * (t' * b)) * z)
    ensures Congruent((z * a + D * (t * b)) * z', (z' * a + D * (t' * b)) * z)
  {
    hide Congruent, D;
    Reflexive(z * a * z');
    Reflexive(D * b);
    Products(D * b, D * b, t * z', t' * z);
    Sums(z * a * z', z * a * z', D * b * (t * z'), D * b * (t' * z));
    Weighted(z, t, z', a, b, D);
    Weighted(z', t', z, a, b, D);
    assert z * a * z' == z' * a * z;
  }

  lemma Weighted(z: int, t: int, w: int, a: int, b: int, d: int)
    ensures (z * a - d * (t * b)) * w == z * a * w - d * b * (t * w)
    ensures (z * a + d * (t * b)) * w == z * a * w + d * b * (t * w)
  {
    assert d * (t * b) * w == d * b * (t * w);
  }

  lemma CrossRatios(e: int, e': int, g: int, g': int, z: int, z': int)
    requires Congruent(e * z', e' * z) && Congruent(g * z', g' * z) && !Congruent(z, 0) && !Congruent(z', 0)
    ensures Congruent(e * g', e' * g)
  {
    hide Congruent;
    Symmetric(g * z', g' * z);
    Products(e * z', e' * z, g' * z, g * z');
    assert e * z' * (g' * z) == z * z' * (e * g') && e' * z * (g * z') == z * z' * (e' * g);
    if Congruent(z * z', 0) {
      PrimeField.NoZeroDivisors(z, z');
    }
    PrimeField.Cancel(z * z', e * g', e' * g);
  }

  // ----- points with z = 1 -----

  ghost predicate IsElement(p: Curve.Point) {
    Good(p) && p.z == 1
  }

  function Flat(p: Curve.Point): A.Affine {
    A.Affine(p.x, p.y)
  }

  lemma FlatOnCurve(p: Curve.Point)
    requires IsElement(p)
    ensures A.OnCurve(Flat(p)) && Congruent(p.t, A.T(Flat(p)))
  {
    hide Congruent, D;
    Symmetric(p.x * p.y, 1 * p.t);
    Reflexive(D);
    Products(p.t, p.x * p.y, p.t, p.x * p.y);
    Products(D, D, p.t * p.t, p.x * p.y * (p.x * p.y));
    Reflexive(1);
    Sums(1, 1, D * (p.t * p.t), D * (p.x * p.y * (p.x * p.y)));
    assert 1 * 1 == 1 && 1 * p.t == p.t;
    Transitive(p.y * p.y - p.x * p.x, 1 + D * (p.t * p.t), 1 + D * (p.x * p.y * (p.x * p.y)));
  }

  /** The factors of a sum of two of them. */
  lemma FlatFactors(p: Curve.Point, q: Curve.Point)
    requires IsElement(p) && IsElement(q)
    ensures Curve.AddE(p, q) == A.E(Flat(p), Flat(q)) && Curve.AddH(p, q) == A.H(Flat(p), Flat(q))
    ensures Congruent(Curve.AddF(p, q), A.F(Flat(p), Flat(q))) && Congruent(Curve.AddG(p, q), A.G(Flat(p), Flat(q)))
  {
    FlatOnCurve(p);
    FlatOnCurve(q);
    hide Congruent, D, Good, A.T, A.OnCurve;
    Products(p.t, A.T(Flat(p)), q.t, A.T(Flat(q)));
    Reflexive(D);
    Products(D, D, p.t * q.t, A.T(Flat(p)) * A.T(Flat(q)));
    Reflexive(1);
    Sums(1, 1, D * (p.t * q.t), D * (A.T(Flat(p)) * A.T(Flat(q))));
  }

  /** The factors of p + q added to r: four times those of the associativity theorem. */
  lemma NextFactors(p: Curve.Point, q: Curve.Point, r: Curve.Point)
    requires IsElement(p) && IsElement(q) && IsElement(r)
    ensures var s, a, b, c := Curve.Add(p, q), Flat(p), Flat(q), Flat(r);
      && Good(s)
      && Congruent(Curve.AddE(s, r), 4 * A.E3(a, b, c)) && Congruent(Curve.AddF(s, r), 4 * A.F3(a, b, c))
      && Congruent(Curve.AddG(s, r), 4 * A.G3(a, b, c)) && Congruent(Curve.AddH(s, r), 4 * A.H3(a, b, c))
  {
    SumCoordinates(p, q);
    FlatFactors(p, q);
    FlatOnCurve(r);
    hide Congruent, D, Good, Curve.Add, A.E, A.F, A.G, A.H, A.T, A.OnCurve, Curve.AddE, Curve.AddF, Curve.AddG, Curve.AddH;
    var s, a, b, c := Curve.Add(p, q), Flat(p), Flat(q), Flat(r);
    var e, f, g, h := A.E(a, b), A.F(a, b), A.G(a, b), A.H(a, b);
    FourTimesProduct(s.x, Curve.AddE(p, q), e, Curve.AddF(p, q), f);
    FourTimesProduct(s.y, Curve.AddG(p, q), g, Curve.AddH(p, q), h);
    FourTimesProduct(s.z, Curve.AddF(p, q), f, Curve.AddG(p, q), g);
    FourTimesProduct(s.t, Curve.AddE(p, q), e, Curve.AddH(p, q), h);
    ThirdSummand(s, r, e, f, g, h, A.T(c));
  }

  lemma FourTimesProduct(n: int, e: int, e': int, f: int, f': int)
    requires Congruent(n, 4 * (e * f)) && (Congruent(e, e') || e == e') && (Congruent(f, f') || f == f')
    ensures Congruent(n, 4 * (e' * f'))
  {
    hide Congruent;
    Reflexive(e);
    Reflexive(f);
    Reflexive(4);
    Products(e, e', f, f');
    Products(4, 4, e * f, e' * f');
    Transitive(n, 4 * (e * f), 4 * (e' * f'));
  }

  lemma ThirdSummand(s: Curve.Point, r: Curve.Point, e: int, f: int, g: int, h: int, t: int)
    requires Congruent(s.x, 4 * (e * f)) && Congruent(s.y, 4 * (g * h)) && Congruent(s.z, 4 * (f * g)) && Congruent(s.t, 4 * (e * h))
    requires Congruent(r.t, t) && r.z == 1
    ensures Congruent(Curve.AddE(s, r), 4 * (e * f * r.y + r.x * (g * h)))
    ensures Congruent(Curve.AddH(s, r), 4 * (g * h * r.y + e * f * r.x))
    ensures Congruent(Curve.AddF(s, r), 4 * (f * g - D * (e * h * t)))
    ensures Congruent(Curve.AddG(s, r), 4 * (f * g + D * (e * h * t)))
  {
    hide Congruent, D;
    var x, y, z, w := e * f, g * h, f * g, e * h;
    Reflexive(r.x);
    Reflexive(r.y);
    Reflexive(D);
    Products(s.x, 4 * x, r.y, r.y);
    Products(r.x, r.x, s.y, 4 * y);
    Products(s.y, 4 * y, r.y, r.y);
    Products(s.x, 4 * x, r.x, r.x);
    Products(s.t, 4 * w, r.t, t);
    Products(D, D, s.t * r.t, 4 * w * t);
    Sums(s.x * r.y, 4 * x * r.y, r.x * s.y, r.x * (4 * y));
    Sums(s.y * r.y, 4 * y * r.y, s.x * r.x, 4 * x * r.x);
    Sums(s.z, 4 * z, D * (s.t * r.t), D * (4 * w * t));
    assert s.z * 1 == s.z;
    FourOut(x, y, z, w, r.x, r.y, t, D);
  }

  lemma FourOut(x: int, y: int, z: int, w: int, a: int, b: int, t: int, d: int)
    ensures 4 * x * b + a * (4 * y) == 4 * (x * b + a * y) && 4 * y * b + 4 * x * a == 4 * (y * b + x * a)
    ensures 4 * z - d * (4 * w * t) == 4 * (z - d * (w * t)) && 4 * z + d * (4 * w * t) == 4 * (z + d * (w * t))
  {
    assert d * (4 * w * t) == 4 * (d * (w * t));
  }

  /** (p + q) + r and (r + q) + p are the same point. */
  lemma SumsAssociate(p: Curve.Point, q: Curve.Point, r: Curve.Point)
    requires IsElement(p) && IsElement(q) && IsElement(r)
    ensures Curve.SamePoint(Curve.Add(Curve.Add(p, q), r), Curve.Add(Curve.Add(r, q), p))
  {
    FlatOnCurve(p);
    FlatOnCurve(q);
    FlatOnCurve(r);
    A.Associates(Flat(p), Flat(q), Flat(r));
    ThirdCommutes(Flat(q), Flat(p), Flat(r));
    ThirdCommutes(Flat(q), Flat(r), Flat(p));
    NextFactors(p, q, r);
    NextFactors(r, q, p);
    hide Congruent, Good, Curve.Add, A.OnCurve, A.E3, A.F3, A.G3, A.H3, Curve.AddE, Curve.AddF, Curve.AddG, Curve.AddH, A.T;
    var s, s', a, b, c := Curve.Add(p, q), Curve.Add(r, q), Flat(p), Flat(q), Flat(r);
    FoursInRatio(Curve.AddE(s, r), A.E3(a, b, c), Curve.AddG(s', p), A.G3(c, b, a), Curve.AddE(s', p), A.E3(c, b, a), Curve.AddG(s, r), A.G3(a, b, c));
    FoursInRatio(Curve.AddH(s, r), A.H3(a, b, c), Curve.AddF(s', p), A.F3(c, b, a), Curve.AddH(s', p), A.H3(c, b, a), Curve.AddF(s, r), A.F3(a, b, c));
    SameSums(s, r, s', p);
  }

  lemma ThirdCommutes(p: A.Affine, q: A.Affine, r: A.Affine)
    ensures A.G3(p, q, r) == A.G3(q, p, r) && A.F3(p, q, r) == A.F3(q, p, r)
  {
    assert A.E(p, q) == A.E(q, p) && A.H(p, q) == A.H(q, p);
    assert A.F(p, q) == A.F(q, p) && A.G(p, q) == A.G(q, p);
    hide A.E, A.F, A.G, A.H;
  }

  lemma FoursInRatio(m: int, e: int, n: int, g: int, m': int, e': int, n': int, g': int)
    requires Congruent(m, 4 * e) && Congruent(n, 4 * g) && Congruent(m', 4 * e') && Congruent(n', 4 * g')
    requires Congruent(e * g, e' * g')
    ensures Congruent(m * n, m' * n')
  {
    hide Congruent;
    Products(m, 4 * e, n, 4 * g);
    Products(m', 4 * e', n', 4 * g');
    Reflexive(16);
    Products(16, 16, e * g, e' * g');
    assert 4 * e * (4 * g) == 16 * (e * g) && 4 * e' * (4 * g') == 16 * (e' * g');
    Symmetric(m' * n', 16 * (e' * g'));
    Transitive(m * n, 16 * (e * g), 16 * (e' * g'));
    Transitive(m * n, 16 * (e' * g'), m' * n');
  }

  // ----- every point in its coordinates with z = 1 -----

  /** The inverse of z: z^(p - 2). */
  function Reciprocal(z: Fe): Fe {
    PowChain.Power(z, P - 2)
  }

  lemma ReciprocalIs(z: Fe)
    requires !Congruent(z, 0)
    ensures InField(Reciprocal(z)) && Congruent(z * Reciprocal(z), 1)
  {
    hide Congruent, Pow, InField, ModP, PowChain.Power;
    PrimeField.Fermat(z);
    PowChain.PowerIsPower(z, P - 2);
    assert Pow(z, P - 1) == z * Pow(z, P - 2) by { PowStep(z, P - 1); }
    Reduces(Pow(z, P - 2));
    Reflexive(z);
    Products(z, z, ModP(Pow(z, P - 2)), Pow(z, P - 2));
    Transitive(z * ModP(Pow(z, P - 2)), Pow(z, P - 1), 1);
  }

  lemma PowStep(b: nat, n: nat)
    requires n > 0
    ensures Pow(b, n) == b * Pow(b, n - 1)
  {
  }

  function Normalised(p: Curve.Point): Curve.Point {
    var i := Reciprocal(p.z);
    var x, y := Curve.Mul(p.x, i), Curve.Mul(p.y, i);
    Curve.Point(x, y, 1, Curve.Mul(x, y))
  }

  lemma NormalisedIsSame(p: Curve.Point)
    requires Good(p)
    ensures IsElement(Normalised(p)) && Curve.SamePoint(p, Normalised(p))
  {
    NonZeroZ(p);
    ReciprocalIs(p.z);
    Decompress.OneInField();
    hide Congruent, InField, Reciprocal, Curve.Mul, D;
    var i := Reciprocal(p.z);
    var n := Normalised(p);
    var x: int := p.x;
    var y: int := p.y;
    var j: int := i;
    Reflexive(x);
    Reflexive(y);
    Reflexive(j);
    Curve.MulRepresents(p.x, x, i, j);
    Curve.MulRepresents(p.y, y, i, j);
    Curve.MulRepresents(n.x, x * j, n.y, y * j);
    NormalEquation(p, j, n.x, n.y, n.t);
    SameAsNormal(x, p.z, j, n.x);
    SameAsNormal(y, p.z, j, n.y);
  }

  lemma SameAsNormal(x: int, z: int, i: int, m: int)
    requires Congruent(m, x * i) && Congruent(z * i, 1)
    ensures Congruent(x * 1, m * z)
  {
    hide Congruent;
    Reflexive(z);
    Reflexive(x);
    Products(m, x * i, z, z);
    Products(x, x, z * i, 1);
    assert x * i * z == x * (z * i);
    Transitive(m * z, x * (z * i), x * 1);
    Symmetric(m * z, x * 1);
  }

  /** The curve equations divided by z^2. */
  lemma NormalEquation(p: Curve.Point, i: int, x: int, y: int, t: int)
    requires Curve.OnCurve(p) && Congruent(p.z * i, 1)
    requires Congruent(x, p.x * i) && Congruent(y, p.y * i) && Congruent(t, p.x * i * (p.y * i))
    ensures Congruent(x * y, 1 * t) && Congruent(y * y - x * x, 1 * 1 + D * (t * t))
  {
    hide Congruent, D;
    Products(x, p.x * i, y, p.y * i);
    Symmetric(t, p.x * i * (p.y * i));
    Transitive(x * y, p.x * i * (p.y * i), t);
    assert 1 * t == t;
    Products(y, p.y * i, y, p.y * i);
    Products(x, p.x * i, x, p.x * i);
    Sums(y * y, p.y * i * (p.y * i), x * x, p.x * i * (p.x * i));
    Reflexive(i * i);
    Products(i * i, i * i, p.y * p.y - p.x * p.x, p.z * p.z + D * (p.t * p.t));
    Products(p.z * i, 1, p.z * i, 1);
    TIsTI(p, i, t);
    Reflexive(D);
    Products(t, p.t * i, t, p.t * i);
    Products(D, D, t * t, p.t * i * (p.t * i));
    Symmetric(D * (t * t), D * (p.t * i * (p.t * i)));
    Sums(p.z * i * (p.z * i), 1 * 1, D * (p.t * i * (p.t * i)), D * (t * t));
    SquaredTerms(p.x, p.y, p.z, p.t, i, D);
    Transitive(y * y - x * x, i * i * (p.y * p.y - p.x * p.x), i * i * (p.z * p.z + D * (p.t * p.t)));
    Transitive(y * y - x * x, p.z * i * (p.z * i) + D * (p.t * i * (p.t * i)), 1 * 1 + D * (t * t));
  }

  lemma SquaredTerms(x: int, y: int, z: int, t: int, i: int, d: int)
    ensures i * i * (y * y - x * x) == y * i * (y * i) - x * i * (x * i)
    ensures i * i * (z * z + d * (t * t)) == z * i * (z * i) + d * (t * i * (t * i))
  {
    assert y * i * (y * i) == i * i * (y * y) && x * i * (x * i) == i * i * (x * x);
    assert z * i * (z * i) == i * i * (z * z) && t * i * (t * i) == i * i * (t * t);
    assert d * (i * i * (t * t)) == i * i * (d * (t * t));
  }

  lemma TIsTI(p: Curve.Point, i: int, t: int)
    requires Curve.OnCurve(p) && Congruent(p.z * i, 1) && Congruent(t, p.x * i * (p.y * i))
    ensures Congruent(t, p.t * i)
  {
    hide Congruent, D;
    Reflexive(i * i);
    Products(i * i, i * i, p.x * p.y, p.z * p.t);
    Exchanged(p.x, i, p.y);
    Transitive(t, i * i * (p.x * p.y), i * i * (p.z * p.t));
    Reflexive(p.t * i);
    Products(p.t * i, p.t * i, p.z * i, 1);
    assert i * i * (p.z * p.t) == p.t * i * (p.z * i) && p.t * i * 1 == p.t * i;
    Transitive(t, p.t * i * (p.z * i), p.t * i);
  }

  /** With z = 1 the same point has the same coordinates. */
  lemma SameIsEqual(p: Curve.Point, q: Curve.Point)
    requires IsElement(p) && IsElement(q) && Curve.SamePoint(p, q)
    ensures p == q
  {
    hide Congruent, D;
    assert p.x * 1 == p.x && q.x * 1 == q.x && p.y * 1 == p.y && q.y * 1 == q.y && 1 * p.t == p.t && 1 * q.t == q.t;
    Unique(p.x, q.x);
    Unique(p.y, q.y);
    Symmetric(p.x * p.y, p.t);
    Transitive(p.t, p.x * p.y, q.t);
    Unique(p.t, q.t);
  }

  lemma SameNormalised(p: Curve.Point, q: Curve.Point)
    requires Good(p) && Good(q)
    ensures Normalised(p) == Normalised(q) <==> Curve.SamePoint(p, q)
  {
    NormalisedIsSame(p);
    NormalisedIsSame(q);
    ElementIsGood(Normalised(p));
    ElementIsGood(Normalised(q));
    hide Good, IsElement, Normalised, Curve.SamePoint;
    SameSymmetric(p, Normalised(p));
    SameSymmetric(q, Normalised(q));
    if Curve.SamePoint(p, q) {
      SameTransitive(Normalised(p), p, q);
      SameTransitive(Normalised(p), q, Normalised(q));
      SameIsEqual(Normalised(p), Normalised(q));
    }
    if Normalised(p) == Normalised(q) {
      SameTransitive(p, Normalised(p), q);
    }
  }

  lemma ElementIsGood(p: Curve.Point)
    requires IsElement(p)
    ensures Good(p)
  {
    hide Good;
  }

  // ----- the group -----

  type Element = p: Curve.Point | IsElement(p) ghost witness Curve.Identity

  /** The element that a usable point stands for. */
  ghost function ElementOf(p: Curve.Point): Element {
    if Good(p) then
      NormalisedIsSame(p);
      Normalised(p)
    else Zero()
  }

  ghost function Zero(): Element {
    GoodIdentity();
    Curve.Identity
  }

  ghost function Plus(p: Element, q: Element): Element {
    ElementOf(Curve.Add(p, q))
  }

  ghost function Minus(p: Element): Element {
    NegateGood(p);
    Curve.Negate(p)
  }

  ghost function CurveElements(): Group.Group<Element> {
    Group.Group(Zero(), (p: Element, q: Element) => Plus(p, q), (p: Element) => Minus(p))
  }

  lemma PlusIs(p: Curve.Point, q: Curve.Point)
    requires Good(p) && Good(q)
    ensures Good(Curve.Add(p, q)) && ElementOf(Curve.Add(p, q)) == Plus(ElementOf(p), ElementOf(q))
  {
    AddComplete(p, q);
    NormalisedIsSame(p);
    NormalisedIsSame(q);
    var n, m := Normalised(p), Normalised(q);
    ElementIsGood(n);
    ElementIsGood(m);
    AddComplete(n, q);
    AddComplete(n, m);
    AddComplete(q, n);
    AddComplete(m, n);
    hide Good, IsElement, Normalised, Curve.SamePoint, Curve.Add;
    SumsRespect(p, n, q);
    SumsCommute(n, q);
    SumsRespect(q, m, n);
    SumsCommute(m, n);
    SameTransitive(Curve.Add(p, q), Curve.Add(n, q), Curve.Add(q, n));
    SameTransitive(Curve.Add(p, q), Curve.Add(q, n), Curve.Add(m, n));
    SameTransitive(Curve.Add(p, q), Curve.Add(m, n), Curve.Add(n, m));
    SameNormalised(Curve.Add(p, q), Curve.Add(n, m));
  }

  lemma OfElement(p: Element)
    ensures Good(p) && ElementOf(p) == p
  {
    ElementIsGood(p);
    NormalisedIsSame(p);
    hide Good, Normalised, Curve.SamePoint, IsElement;
    SameSymmetric(p, Normalised(p));
    SameIsEqual(Normalised(p), p);
  }

  lemma PlusCommutes(p: Element, q: Element)
    ensures Plus(p, q) == Plus(q, p)
  {
    OfElement(p);
    OfElement(q);
    AddComplete(p, q);
    AddComplete(q, p);
    hide Good, Normalised, Curve.SamePoint, Curve.Add;
    SumsCommute(p, q);
    SameNormalised(Curve.Add(p, q), Curve.Add(q, p));
  }

  lemma PlusAssociates(p: Element, q: Element, r: Element)
    ensures Plus(Plus(p, q), r) == Plus(p, Plus(q, r))
  {
    OfElement(p);
    OfElement(q);
    OfElement(r);
    SumsAssociate(p, q, r);
    PlusIs(p, q);
    PlusIs(r, q);
    PlusIs(Curve.Add(p, q), r);
    PlusIs(Curve.Add(r, q), p);
    hide Good, Normalised, Curve.SamePoint, Curve.Add;
    SameNormalised(Curve.Add(Curve.Add(p, q), r), Curve.Add(Curve.Add(r, q), p));
    PlusCommutes(r, q);
    PlusCommutes(Plus(q, r), p);
  }

  lemma ZeroAdds(p: Element)
    ensures Plus(p, Zero()) == p
  {
    OfElement(p);
    GoodIdentity();
    AddComplete(p, Curve.Identity);
    ZeroCoordinates(p);
    hide Good, Normalised, Curve.SamePoint, Curve.Add;
    SameNormalised(Curve.Add(p, Curve.Identity), p);
  }

  lemma ZeroCoordinates(p: Curve.Point)
    requires IsElement(p)
    ensures Curve.SamePoint(Curve.Add(p, Curve.Identity), p)
  {
    GoodIdentity();
    SumCoordinates(p, Curve.Identity);
    var o := Curve.Identity;
    assert Curve.AddE(p, o) == p.x && Curve.AddH(p, o) == p.y && Curve.AddF(p, o) == 1 && Curve.AddG(p, o) == 1;
    hide Congruent, Good, Curve.Add, Curve.AddE, Curve.AddF, Curve.AddG, Curve.AddH;
    var s := Curve.Add(p, o);
    FourOverFour(s.x, s.z, p.x);
    FourOverFour(s.y, s.z, p.y);
  }

  lemma FourOverFour(n: int, m: int, x: int)
    requires (Congruent(n, 4 * (x * 1)) || Congruent(n, 4 * (1 * x))) && Congruent(m, 4 * (1 * 1))
    ensures Congruent(n * 1, x * m)
  {
    hide Congruent;
    Reflexive(x);
    Products(x, x, m, 4);
    assert 4 * (x * 1) == x * 4 && 4 * (1 * x) == x * 4 && n * 1 == n;
    Symmetric(x * m, x * 4);
    Transitive(n, x * 4, x * m);
  }

  lemma MinusCancels(p: Element)
    ensures Plus(p, Minus(p)) == Zero()
  {
    OfElement(p);
    GoodIdentity();
    NegateGood(p);
    GoodIsSound(p);
    NegativeCancels(p);
    AddComplete(p, Curve.Negate(p));
    var s := Curve.Add(p, Curve.Negate(p));
    IdentityTestIff(s);
    OfElement(Zero());
    hide Good, Normalised, Curve.SamePoint, Curve.Add, Curve.Negate, IsIdentity;
    SameNormalised(s, Curve.Identity);
  }

  /** The points of the curve form a commutative group. */
  lemma CurveIsGroup()
    ensures Group.Commutative(CurveElements())
  {
    hide Plus, Minus, Zero;
    forall p: Element, q: Element ensures Plus(p, q) == Plus(q, p) {
      PlusCommutes(p, q);
    }
    forall p: Element, q: Element, r: Element ensures Plus(Plus(p, q), r) == Plus(p, Plus(q, r)) {
      PlusAssociates(p, q, r);
    }
    forall p: Element ensures Plus(p, Zero()) == p && Plus(p, Minus(p)) == Zero() {
      ZeroAdds(p);
      MinusCancels(p);
    }
  }

  /** The base point of the standard, entry 1 of the table. */
  ghost function Base(): Element {
    BaseTable.EntriesGood();
    BaseTable.Entry(1)
  }

  /** Points read as elements of this group. */
  ghost function CurveModel(): Model<Element> {
    Model(CurveElements(), (p: Curve.Point) => ElementOf(p), Base())
  }

  lemma CurveReads()
    ensures Reading(CurveModel())
  {
    hide Group.Commutative, Agrees, Good, ElementOf;
    CurveIsGroup();
    forall p, q | Good(p) && Good(q) ensures Agrees(CurveModel(), p, q) {
      CurveAgrees(p, q);
    }
  }

  lemma CurveAgrees(p: Curve.Point, q: Curve.Point)
    requires Good(p) && Good(q)
    ensures Agrees(CurveModel(), p, q)
  {
    hide Curve.Add, Curve.SamePoint, Good, Normalised;
    SameNormalised(p, q);
    PlusIs(p, q);
  }

  /** The curve meets every hypothesis of the theorems about the engine. */
  lemma CurveInterprets()
    ensures Interprets(CurveModel()) && TableHolds(CurveModel(), BaseTable.Table())
  {
    CurveReads();
    hide Reading, Interprets, TableHolds, BaseTable.Table, BaseTable.Entry, CurveElements, ElementOf;
    OfElement(Base());
    ReadingSuffices(CurveModel());
  }

  /** The verdict of section 5.1.7 of RFC 8032 in the group of the curve. */
  ghost predicate IsValid(q: Request, addrWidth: nat)
    requires Pow2(addrWidth) <= 4 * |q.memory|
  {
    Accepts(CurveModel(), q, addrWidth)
  }

  /** What strict mode accepts, every mode accepts. */
  lemma StrictIsStronger(q: Request, addrWidth: nat, mode: nat)
    requires Pow2(addrWidth) <= 4 * |q.memory| && IsValid(q, addrWidth) && Strict(q)
    ensures IsValid(q.(mode := mode), addrWidth)
  {
    hide Accepts, CurveElements, Group.Commutative, Pow2;
    CurveIsGroup();
    StrictAccepts(CurveModel(), q, addrWidth, mode);
  }
}
