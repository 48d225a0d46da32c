/**
 * What the primality of p and the choice of d give: the addition and doubling sequences never run into
 * z = 0, so that a reading of the points needs no more than the group law.
 */
module CompleteLaw {
  import opened Field
  import PrimeField
  import Group
  import opened Verdict
  import BaseTable
  import Curve

  // ----- squares and d -----

  lemma NotDTimesSquare(a: int, b: int)
    requires Congruent(a * a, D * (b * b))
    ensures Congruent(b, 0)
  {
    hide Congruent, D;
    if !Congruent(b, 0) {
      var c := PrimeField.Inverse(b);
      Reflexive(c * c);
      Products(a * a, D * (b * b), c * c, c * c);
      Products(b * c, 1, b * c, 1);
      Reflexive(D);
      Products(D, D, b * c * (b * c), 1 * 1);
      SquaresRegrouped(a, b, c, D);
      Transitive(a * c * (a * c), D * (b * c * (b * c)), D * (1 * 1));
      PrimeField.NoRootOfD(a * c);
    }
  }

  lemma SquaresRegrouped(a: int, b: int, c: int, d: int)
    ensures a * a * (c * c) == a * c * (a * c)
    ensures d * (b * b) * (c * c) == d * (b * c * (b * c)) && d * (1 * 1) == d
  {
    assert b * b * (c * c) == b * c * (b * c);
  }

  /** (i u + s v)^2 for i = sqrt(-1) and a sign s. */
  lemma SquareOfSum(i: int, u: int, v: int, s: int)
    requires Congruent(i * i, -1) && (s == 1 || s == -1)
    ensures Congruent((i * u + s * v) * (i * u + s * v), v * v - u * u + 2 * s * (i * (u * v)))
  {
    hide Congruent;
    Reflexive(u * u);
    Products(i * i, -1, u * u, u * u);
    Reflexive(v * v + 2 * s * (i * (u * v)));
    Sums(i * i * (u * u), -1 * (u * u), v * v + 2 * s * (i * (u * v)), v * v + 2 * s * (i * (u * v)));
    Binomial(i, u, v, s);
  }

  lemma Binomial(i: int, u: int, v: int, s: int)
    requires s == 1 || s == -1
    ensures (i * u + s * v) * (i * u + s * v) == i * i * (u * u) + (v * v + 2 * s * (i * (u * v)))
  {
    var w := i * u;
    assert w * w == i * i * (u * u) && w * v == i * (u * v);
    assert (w + v) * (w + v) == w * w + 2 * (w * v) + v * v;
    assert (w - v) * (w - v) == w * w - 2 * (w * v) + v * v;
  }

  /** The same for the coordinates of a point on the curve. */
  lemma SquareOnCurve(p: Curve.Point, s: int)
    requires Curve.OnCurve(p) && (s == 1 || s == -1)
    ensures Congruent((SQRT_M1 * p.x + s * p.y) * (SQRT_M1 * p.x + s * p.y),
      p.z * p.z + D * (p.t * p.t) + 2 * s * (SQRT_M1 * (p.z * p.t)))
  {
    Constants();
    hide Congruent, D, SQRT_M1, D2;
    var i := SQRT_M1;
    SquareOfSum(i, p.x, p.y, s);
    Reflexive(2 * s * i);
    Products(2 * s * i, 2 * s * i, p.x * p.y, p.z * p.t);
    assert 2 * s * i * (p.x * p.y) == 2 * s * (i * (p.x * p.y)) && 2 * s * i * (p.z * p.t) == 2 * s * (i * (p.z * p.t));
    Sums(p.y * p.y - p.x * p.x, p.z * p.z + D * (p.t * p.t), 2 * s * (i * (p.x * p.y)), 2 * s * (i * (p.z * p.t)));
    Transitive((i * p.x + s * p.y) * (i * p.x + s * p.y), p.y * p.y - p.x * p.x + 2 * s * (i * (p.x * p.y)),
      p.z * p.z + D * (p.t * p.t) + 2 * s * (i * (p.z * p.t)));
  }

  // ----- no denominator vanishes -----

  /** If z1 z2 = e d t1 t2 for a sign e, the two squares below differ by the factor d. */
  lemma SquaresInRatio(p: Curve.Point, q: Curve.Point, e: int, s: int)
    requires Curve.OnCurve(p) && Curve.OnCurve(q) && (e == 1 || e == -1) && (s == 1 || s == -1)
    requires Congruent(p.z * q.z, e * (D * (p.t * q.t)))
    ensures var a, b := q.z * (SQRT_M1 * p.x + s * e * p.y), p.t * (SQRT_M1 * q.x + s * q.y); Congruent(a * a, D * (b * b))
  {
    SquareOnCurve(p, s * e);
    SquareOnCurve(q, s);
    hide Congruent, D, SQRT_M1, Curve.OnCurve;
    var u, v, zz, tt := SQRT_M1 * p.x + s * e * p.y, SQRT_M1 * q.x + s * q.y, q.z * q.z, p.t * p.t;
    var n1 := p.z * p.z + D * tt + 2 * (s * e) * (SQRT_M1 * (p.z * p.t));
    var n2 := zz + D * (q.t * q.t) + 2 * s * (SQRT_M1 * (q.z * q.t));
    Reflexive(zz);
    Products(zz, zz, u * u, n1);
    Reflexive(D * tt);
    Products(D * tt, D * tt, v * v, n2);
    NormsInRatio(p.z, p.t, q.z, q.t, SQRT_M1, e, s);
    Symmetric(D * tt * (v * v), D * tt * n2);
    Transitive(zz * (u * u), zz * n1, D * tt * n2);
    Transitive(zz * (u * u), D * tt * n2, D * tt * (v * v));
    SquaredProducts(q.z, u, p.t, v, D);
  }

  lemma SquaredProducts(z: int, u: int, t: int, v: int, d: int)
    ensures z * u * (z * u) == z * z * (u * u) && d * (t * v * (t * v)) == d * (t * t) * (v * v)
  {
    assert t * v * (t * v) == t * t * (v * v);
  }

  lemma NormsInRatio(z1: int, t1: int, z2: int, t2: int, i: int, e: int, s: int)
    requires (e == 1 || e == -1) && (s == 1 || s == -1) && Congruent(z1 * z2, e * (D * (t1 * t2)))
    ensures Congruent(z2 * z2 * (z1 * z1 + D * (t1 * t1) + 2 * (s * e) * (i * (z1 * t1))),
      D * (t1 * t1) * (z2 * z2 + D * (t2 * t2) + 2 * s * (i * (z2 * t2))))
  {
    hide Congruent, D;
    var m, q, r, k := z1 * z2, D * (t1 * t2), D * (t1 * t1) * (z2 * z2), 2 * s * (i * (z2 * t1));
    Products(m, e * q, m, e * q);
    assert e * q * (e * q) == q * q;
    Reflexive(e * k);
    Products(e * k, e * k, m, e * q);
    assert e * k * (e * q) == k * q;
    Reflexive(r);
    Sums(m * m, q * q, r, r);
    Sums(m * m + r, q * q + r, e * k * m, k * q);
    LeftNorm(z1, t1, z2, i, e, s, D);
    RightNorm(t1, z2, t2, i, s, D);
  }

  lemma LeftNorm(z1: int, t1: int, z2: int, i: int, e: int, s: int, d: int)
    ensures z2 * z2 * (z1 * z1 + d * (t1 * t1) + 2 * (s * e) * (i * (z1 * t1)))
      == z1 * z2 * (z1 * z2) + d * (t1 * t1) * (z2 * z2) + e * (2 * s * (i * (z2 * t1))) * (z1 * z2)
  {
    var w := i * (z1 * t1);
    assert z2 * z2 * (z1 * z1) == z1 * z2 * (z1 * z2);
    assert z2 * z2 * w == i * (z2 * t1) * (z1 * z2);
    LeftTerms(z2 * z2, z1 * z1, d * (t1 * t1), s, e, w, i * (z2 * t1), z1 * z2);
  }

  lemma LeftTerms(zz: int, a: int, b: int, s: int, e: int, w: int, v: int, m: int)
    requires zz * w == v * m
    ensures zz * (a + b + 2 * (s * e) * w) == zz * a + b * zz + e * (2 * s * v) * m
  {
    assert zz * (2 * (s * e) * w) == 2 * (s * e) * (zz * w);
    assert e * (2 * s * v) * m == 2 * (s * e) * (v * m);
  }

  lemma RightNorm(t1: int, z2: int, t2: int, i: int, s: int, d: int)
    ensures d * (t1 * t1) * (z2 * z2 + d * (t2 * t2) + 2 * s * (i * (z2 * t2)))
      == d * (t1 * t2) * (d * (t1 * t2)) + d * (t1 * t1) * (z2 * z2) + 2 * s * (i * (z2 * t1)) * (d * (t1 * t2))
  {
    var tt := d * (t1 * t1);
    assert tt * (d * (t2 * t2)) == d * (t1 * t2) * (d * (t1 * t2)) by {
      assert t1 * t1 * (t2 * t2) == t1 * t2 * (t1 * t2);
    }
    assert tt * (i * (z2 * t2)) == i * (z2 * t1) * (d * (t1 * t2)) by {
      assert t1 * t1 * (z2 * t2) == z2 * t1 * (t1 * t2);
    }
    RightTerms(tt, z2 * z2, d * (t2 * t2), s, i * (z2 * t2), i * (z2 * t1), d * (t1 * t2));
  }

  lemma RightTerms(tt: int, a: int, b: int, s: int, w: int, v: int, q: int)
    requires tt * w == v * q && tt * b == q * q
    ensures tt * (a + b + 2 * s * w) == q * q + tt * a + 2 * s * v * q
  {
    assert tt * (2 * s * w) == 2 * s * (tt * w);
    assert 2 * s * v * q == 2 * s * (v * q);
  }

  /** Neither z1 z2 - d t1 t2 nor z1 z2 + d t1 t2 is zero. */
  lemma NeverZero(p: Curve.Point, q: Curve.Point, e: int)
    requires Good(p) && Good(q) && (e == 1 || e == -1)
    ensures !Congruent(p.z * q.z, e * (D * (p.t * q.t)))
  {
    hide Congruent, D, SQRT_M1, Curve.OnCurve, Curve.Reduced;
    if Congruent(p.z * q.z, e * (D * (p.t * q.t))) {
      NonZeroZ(p);
      NonZeroZ(q);
      NonZeroT(p, q, e);
      SquaresInRatio(p, q, e, 1);
      SquaresInRatio(p, q, e, -1);
      var i := SQRT_M1;
      NotDTimesSquare(q.z * (i * p.x + 1 * e * p.y), p.t * (i * q.x + 1 * q.y));
      NotDTimesSquare(q.z * (i * p.x + -1 * e * p.y), p.t * (i * q.x + -1 * q.y));
      PrimeField.NoZeroDivisors(p.t, i * q.x + 1 * q.y);
      PrimeField.NoZeroDivisors(p.t, i * q.x + -1 * q.y);
      BothVanish(i * q.x, q.y);
      Reflexive(q.x);
      Products(q.x, q.x, q.y, 0);
      XYVanishes(q);
    }
  }

  lemma NonZeroZ(p: Curve.Point)
    requires Good(p)
    ensures !Congruent(p.z, 0)
  {
    hide Congruent, Curve.OnCurve;
    if Congruent(p.z, 0) {
      Unique(p.z, 0);
    }
  }

  lemma NonZeroT(p: Curve.Point, q: Curve.Point, e: int)
    requires !Congruent(p.z, 0) && !Congruent(q.z, 0) && Congruent(p.z * q.z, e * (D * (p.t * q.t)))
    ensures !Congruent(p.t, 0) && !Congruent(q.t, 0)
  {
    hide Congruent, D;
    if Congruent(p.t, 0) || Congruent(q.t, 0) {
      Reflexive(p.t);
      Reflexive(q.t);
      Reflexive(e * D);
      Products(p.t, if Congruent(p.t, 0) then 0 else p.t, q.t, if Congruent(p.t, 0) then q.t else 0);
      assert 0 * q.t == 0 && p.t * 0 == 0;
      Products(e * D, e * D, p.t * q.t, 0);
      assert e * D * (p.t * q.t) == e * (D * (p.t * q.t)) && e * D * 0 == 0;
      Transitive(p.z * q.z, e * (D * (p.t * q.t)), 0);
      PrimeField.NoZeroDivisors(p.z, q.z);
    }
  }

  lemma BothVanish(a: int, b: int)
    requires Congruent(a + 1 * b, 0) && Congruent(a + -1 * b, 0)
    ensures Congruent(b, 0)
  {
    hide Congruent;
    Sums(a + 1 * b, 0, a + -1 * b, 0);
    assert a + 1 * b - (a + -1 * b) == 2 * b;
    CongruentIff(2, 0);
    PrimeField.NoZeroDivisors(2, b);
  }

  lemma XYVanishes(q: Curve.Point)
    requires Curve.OnCurve(q) && Congruent(q.x * q.y, 0)
    ensures Congruent(q.z, 0) || Congruent(q.t, 0)
  {
    hide Congruent, D;
    Symmetric(q.x * q.y, q.z * q.t);
    Transitive(q.z * q.t, q.x * q.y, 0);
    PrimeField.NoZeroDivisors(q.z, q.t);
  }

  /** Both factors of the z that addition returns. */
  lemma FactorsNonZero(p: Curve.Point, q: Curve.Point)
    requires Good(p) && Good(q)
    ensures !Congruent(Curve.AddF(p, q), 0) && !Congruent(Curve.AddG(p, q), 0)
  {
    hide Congruent, D, Curve.OnCurve, Curve.Reduced;
    NeverZero(p, q, 1);
    NeverZero(p, q, -1);
    var zz, dtt := p.z * q.z, D * (p.t * q.t);
    Reflexive(dtt);
    if Congruent(zz - dtt, 0) {
      Sums(zz - dtt, 0, dtt, dtt);
    }
    if Congruent(zz + dtt, 0) {
      Sums(zz + dtt, 0, dtt, dtt);
    }
  }

  /** Addition never runs into z = 0: its results are usable points again. */
  lemma AddComplete(p: Curve.Point, q: Curve.Point)
    requires Good(p) && Good(q)
    ensures Good(Curve.Add(p, q))
  {
    FactorsNonZero(p, q);
    Curve.AddOnCurve(p, q);
    hide Congruent, D, Curve.OnCurve, InField, Curve.Add, Curve.Complete, Curve.AddE, Curve.AddF, Curve.AddG, Curve.AddH;
    var e, f, g, h := Curve.AddRepresents(p, q);
    var x, y, u, v := Curve.AddE(p, q), Curve.AddF(p, q), Curve.AddG(p, q), Curve.AddH(p, q);
    Curve.CompleteRepresents(e, 2 * x, f, 2 * y, g, 2 * u, h, 2 * v);
    FourTimes(Curve.Add(p, q).z, y, u);
  }

  lemma FourTimes(z: int, y: int, u: int)
    requires Congruent(z, 2 * y * (2 * u)) && !Congruent(y, 0) && !Congruent(u, 0)
    ensures z != 0
  {
    hide Congruent;
    if z == 0 {
      Symmetric(0, 2 * y * (2 * u));
      assert 2 * y * (2 * u) == 4 * (y * u);
      CongruentIff(4, 0);
      PrimeField.NoZeroDivisors(4, y * u);
      PrimeField.NoZeroDivisors(y, u);
    }
  }

  /** Neither does doubling. */
  lemma DoubleComplete(p: Curve.Point)
    requires Good(p)
    ensures Good(Curve.Double(p))
  {
    AddComplete(p, p);
    Curve.AddSelfIsDouble(p);
    Curve.DoubleOnCurve(p);
    hide Congruent, Curve.OnCurve, InField, Curve.Add, Curve.Double;
    if Curve.Double(p).z == 0 {
      NonZeroZ(Curve.Add(p, p));
    }
  }

  // ----- what a reading of the points has to satisfy -----

  /**
   * Points that are the same have the same value and no others do, and the addition sequence computes the
   * sum of a commutative group.
   */
  ghost predicate Reading<G(!new)>(m: Model<G>) {
    && Group.Commutative(m.group)
    && (forall p, q :: Good(p) && Good(q) ==> Agrees(m, p, q))
  }

  ghost predicate Agrees<G>(m: Model<G>, p: Curve.Point, q: Curve.Point) {
    && (m.value(p) == m.value(q) <==> Curve.SamePoint(p, q))
    && m.value(Curve.Add(p, q)) == m.group.add(m.value(p), m.value(q))
  }

  /** That is all: doubles, negatives and the identity test then are what the verification equation needs. */
  lemma ReadingInterprets<G(!new)>(m: Model<G>)
    requires Reading(m)
    ensures Interprets(m)
  {
    hide Good, Reading, Group.Commutative, AddsWell, ActsWell;
    ReadingCommutes(m);
    forall p, q | Good(p) && Good(q) ensures AddsWell(m, p, q) {
      SumReads(m, p, q);
    }
    forall p | Good(p) ensures ActsWell(m, p) {
      DoubleReads(m, p);
      NegateReads(m, p);
      IdentityReads(m, p);
      PutTogether(m, p);
    }
  }

  lemma ReadingCommutes<G(!new)>(m: Model<G>)
    requires Reading(m)
    ensures Group.Commutative(m.group)
  {
  }

  lemma PutTogether<G>(m: Model<G>, p: Curve.Point)
    requires Curve.Double(p).z != 0 && m.value(Curve.Double(p)) == Group.Twice(m.group, m.value(p))
    requires m.value(Curve.Negate(p)) == m.group.neg(m.value(p)) && (IsIdentity(p) <==> m.value(p) == m.group.zero)
    ensures ActsWell(m, p)
  {
    hide Curve.Double, Curve.Negate, IsIdentity, Group.Twice;
  }

  lemma ReadingAgrees<G(!new)>(m: Model<G>, p: Curve.Point, q: Curve.Point)
    requires Reading(m) && Good(p) && Good(q)
    ensures m.value(p) == m.value(q) <==> Curve.SamePoint(p, q)
    ensures m.value(Curve.Add(p, q)) == m.group.add(m.value(p), m.value(q))
  {
    assert Agrees(m, p, q);
    hide Good, Curve.SamePoint, Curve.Add;
  }

  lemma SumReads<G(!new)>(m: Model<G>, p: Curve.Point, q: Curve.Point)
    requires Reading(m) && Good(p) && Good(q)
    ensures AddsWell(m, p, q)
  {
    hide Curve.Add, Curve.OnCurve, Curve.Reduced, Reading;
    ReadingAgrees(m, p, q);
    AddComplete(p, q);
  }

  lemma DoubleReads<G(!new)>(m: Model<G>, p: Curve.Point)
    requires Reading(m) && Good(p)
    ensures Curve.Double(p).z != 0 && m.value(Curve.Double(p)) == Group.Twice(m.group, m.value(p))
  {
    hide Curve.Add, Curve.Double, Curve.OnCurve, Curve.Reduced, Reading, Curve.SamePoint;
    DoubleComplete(p);
    AddComplete(p, p);
    SameAsDouble(p);
    ReadingAgrees(m, p, p);
    ReadingAgrees(m, Curve.Add(p, p), Curve.Double(p));
  }

  lemma SameAsDouble(p: Curve.Point)
    requires Good(p)
    ensures Curve.SamePoint(Curve.Add(p, p), Curve.Double(p))
  {
    Curve.AddSelfIsDouble(p);
    hide Congruent, Curve.Add, Curve.Double;
    var s, r := Curve.Add(p, p), Curve.Double(p);
    SameRatio(s.x, s.z, r.x, r.z);
    SameRatio(s.y, s.z, r.y, r.z);
  }

  lemma SameRatio(a: int, b: int, x: int, z: int)
    requires Congruent(a, -4 * x) && Congruent(b, -4 * z)
    ensures Congruent(a * z, x * b)
  {
    hide Congruent;
    Reflexive(z);
    Reflexive(x);
    Products(a, -4 * x, z, z);
    Products(x, x, b, -4 * z);
    assert -4 * x * z == x * (-4 * z);
    Symmetric(x * b, x * (-4 * z));
    Transitive(a * z, x * (-4 * z), x * b);
  }

  lemma IdentityValue<G(!new)>(m: Model<G>)
    requires Reading(m)
    ensures Good(Curve.Identity) && m.value(Curve.Identity) == m.group.zero
  {
    GoodIdentity();
    hide Good, Curve.Add, Curve.Negate, Reading, Group.Commutative;
    ReadingCommutes(m);
    CancelsReads(m, Curve.Identity);
    ReadingAgrees(m, Curve.Identity, Curve.Identity);
    OnlyZero(m.group, m.value(Curve.Identity));
  }

  lemma GoodIdentity()
    ensures Good(Curve.Identity) && Curve.Negate(Curve.Identity) == Curve.Identity
  {
    Curve.IdentityOnCurve();
    hide Curve.OnCurve;
  }

  /** An element that is its own double is zero. */
  lemma OnlyZero<G(!new)>(g: Group.Group<G>, x: G)
    requires Group.Commutative(g) && g.add(x, x) == x
    ensures x == g.zero
  {
    hide Group.Commutative;
    Group.Associate(g, x, x, g.neg(x));
    Group.Inverse(g, x);
    Group.Zero(g, x);
  }

  /** A point plus its negative has the value of the identity. */
  lemma CancelsReads<G(!new)>(m: Model<G>, p: Curve.Point)
    requires Reading(m) && Good(p)
    ensures Good(Curve.Negate(p)) && m.value(Curve.Add(p, Curve.Negate(p))) == m.value(Curve.Identity)
  {
    GoodIdentity();
    GoodIsSound(p);
    NegateGood(p);
    hide Good, Sound, Curve.Add, Curve.Negate, Curve.SamePoint, Reading, IsIdentity;
    var r := Curve.Add(p, Curve.Negate(p));
    NegativeCancels(p);
    AddComplete(p, Curve.Negate(p));
    IdentityTestIff(r);
    ReadingAgrees(m, r, Curve.Identity);
  }

  lemma GoodIsSound(p: Curve.Point)
    requires Good(p)
    ensures Sound(p)
  {
    hide Curve.OnCurve, Curve.Reduced;
  }

  lemma NegateReads<G(!new)>(m: Model<G>, p: Curve.Point)
    requires Reading(m) && Good(p)
    ensures m.value(Curve.Negate(p)) == m.group.neg(m.value(p))
  {
    hide Good, Curve.Add, Curve.Negate, Reading, Group.Commutative;
    ReadingCommutes(m);
    CancelsReads(m, p);
    IdentityValue(m);
    ReadingAgrees(m, p, Curve.Negate(p));
    Group.OnlyInverse(m.group, m.value(p), m.value(Curve.Negate(p)));
  }

  lemma IdentityReads<G(!new)>(m: Model<G>, p: Curve.Point)
    requires Reading(m) && Good(p)
    ensures IsIdentity(p) <==> m.value(p) == m.group.zero
  {
    hide Reading, IsIdentity;
    IdentityValue(m);
    ReadingAgrees(m, p, Curve.Identity);
    IdentityTestIff(p);
    if Curve.SamePoint(p, Curve.Identity) {
      TVanishes(p);
    }
  }

  /** With x = 0 on the curve also t = 0. */
  lemma TVanishes(p: Curve.Point)
    requires Good(p) && Curve.SamePoint(p, Curve.Identity)
    ensures p.t == 0
  {
    hide Congruent;
    assert p.x * 1 == p.x && 0 * p.z == 0;
    Reflexive(p.y);
    Products(p.x, 0, p.y, p.y);
    XYVanishes(p);
    NonZeroZ(p);
    Unique(p.t, 0);
  }

  lemma NegateGood(p: Curve.Point)
    requires Good(p)
    ensures Good(Curve.Negate(p))
  {
    Curve.NegateOnCurve(p);
    hide Curve.OnCurve, Curve.Reduced;
  }

  /** With the base point of the table as base element, a reading is all that the theorems about the engine ask for. */
  lemma ReadingSuffices<G(!new)>(m: Model<G>)
    requires Reading(m) && m.base == m.value(BaseTable.Entry(1))
    ensures Interprets(m) && TableHolds(m, BaseTable.Table())
  {
    hide Good, Curve.SamePoint, BaseTable.Entry, BaseTable.Table, TableHolds, Interprets, BaseTable.Projective;
    ReadingInterprets(m);
    ReadingProjective(m);
    BaseTable.TableIsMultiples(m);
  }

  lemma ReadingProjective<G(!new)>(m: Model<G>)
    requires Reading(m)
    ensures BaseTable.Projective(m)
  {
    hide Good, Curve.SamePoint, Reading;
    forall p, q | Good(p) && Good(q) && Curve.SamePoint(p, q) ensures m.value(p) == m.value(q) {
      ReadingAgrees(m, p, q);
    }
  }
}
