/**
 * The point formulas of the datapath over exact field arithmetic, and what they mean on the curve
 * -x^2 + y^2 = 1 + d x^2 y^2 in extended coordinates (x = X/Z, y = Y/Z, x y = T/Z).
 */
module Curve {
  import opened Field
  import FeAux

  datatype Point = Point(x: Fe, y: Fe, z: Fe, t: Fe)

  /** The field product of two registers. */
  function Mul(a: Fe, b: Fe): Fe {
    ReducedTo(a * b, 4)
  }

  lemma MulIs(a: Fe, b: Fe)
    ensures Mul(a, b) == ModP(a * b) && InField(Mul(a, b))
  {
    ReducedIff(a * b, 4);
  }

  ghost predicate Reduced(p: Point) {
    InField(p.x) && InField(p.y) && InField(p.z) && InField(p.t)
  }

  ghost predicate OnCurve(p: Point) {
    && Congruent(p.x * p.y, p.z * p.t)
    && Congruent(p.y * p.y - p.x * p.x, p.z * p.z + D * (p.t * p.t))
  }

  /** The same point, in whatever projective coordinates. */
  ghost predicate SamePoint(p: Point, q: Point) {
    Congruent(p.x * q.z, q.x * p.z) && Congruent(p.y * q.z, q.y * p.z)
  }

  /** The last four products of both sequences. */
  function Complete(e: Fe, f: Fe, g: Fe, h: Fe): Point {
    Point(Mul(e, f), Mul(g, h), Mul(f, g), Mul(e, h))
  }

  /** STEP_ADD_0 to STEP_ADD_15. */
  function Add(p: Point, q: Point): Point {
    var t0 := Mul(FeAux.Sub(p.y, p.x), FeAux.Sub(q.y, q.x));
    var t1 := Mul(FeAux.Add(p.y, p.x), FeAux.Add(q.y, q.x));
    var t2 := Mul(Mul(p.t, q.t), D2);
    var t3 := if q.z == 1 then p.z else Mul(p.z, q.z);
    var t8 := FeAux.Add(t3, t3);
    Complete(FeAux.Sub(t1, t0), FeAux.Sub(t8, t2), FeAux.Add(t8, t2), FeAux.Add(t1, t0))
  }

  /** STEP_DBL_0 to STEP_DBL_15. */
  function Double(p: Point): Point {
    var t0, t1, zz := Mul(p.x, p.x), Mul(p.y, p.y), Mul(p.z, p.z);
    var t2 := FeAux.Add(zz, zz);
    var s := FeAux.Add(p.x, p.y);
    var t3 := FeAux.Sub(FeAux.Sub(Mul(s, s), t0), t1);
    var t4 := FeAux.Sub(t1, t0);
    var t5 := FeAux.Sub(t4, t2);
    Complete(t3, t5, t4, FeAux.Neg(FeAux.Add(t0, t1)))
  }

  function Negate(p: Point): (q: Point)
  {
    Point(NegModP(p.x), p.y, p.z, NegModP(p.t))
  }

  /** fe_neg_mod_p of the engine. */
  function NegModP(a: Fe): Fe {
    if a == 0 then 0 else (P - a) % TWO_255
  }

  const Identity := Point(0, 1, 1, 0)

  // ----- representatives of the intermediate values -----

  /** A sum, difference or negative of representatives. */
  lemma AuxRepresents(a: Fe, x: int, b: Fe, y: int)
    requires InField(a) && InField(b) && Congruent(a, x) && Congruent(b, y)
    ensures Congruent(FeAux.Add(a, b), x + y) && Congruent(FeAux.Sub(a, b), x - y) && Congruent(FeAux.Neg(a), -1 * x)
    ensures InField(FeAux.Add(a, b)) && InField(FeAux.Sub(a, b)) && InField(FeAux.Neg(a))
  {
    hide FeAux.Add, FeAux.Sub, FeAux.Neg, InField, Congruent, ModP;
    FeAux.ReducedOperands(a, b);
    Sums(a, x, b, y);
    Reflexive(-1);
    Products(-1, -1, a, x);
    Reduces(a + b);
    Reduces(a - b);
    Reduces(-1 * a);
    Transitive(ModP(a + b), a + b, x + y);
    Transitive(ModP(a - b), a - b, x - y);
    Transitive(ModP(-1 * a), -1 * a, -1 * x);
  }

  /** A product of representatives represents the product. */
  lemma MulRepresents(a: Fe, x: int, b: Fe, y: int)
    requires Congruent(a, x) && Congruent(b, y)
    ensures Congruent(Mul(a, b), x * y) && InField(Mul(a, b))
  {
    hide Congruent, InField, ModP;
    MulIs(a, b);
    Products(a, x, b, y);
    Reduces(a * b);
    Transitive(ModP(a * b), a * b, x * y);
  }

  // ----- both sequences end in coordinates (EF, GH, FG, EH) -----

  /** The relation among E, F, G, H that puts the completed point on the curve. */
  ghost predicate Completes(e: int, f: int, g: int, h: int) {
    Congruent(g * g * (h * h) - e * e * (f * f), f * f * (g * g) + D * (e * e * (h * h)))
  }

  /** The values of E, F, G, H for addition, each without its factor 2. */
  function AddE(p: Point, q: Point): int { p.x * q.y + q.x * p.y }
  function AddF(p: Point, q: Point): int { p.z * q.z - D * (p.t * q.t) }
  function AddG(p: Point, q: Point): int { p.z * q.z + D * (p.t * q.t) }
  function AddH(p: Point, q: Point): int { p.y * q.y + p.x * q.x }

  /** The point that addition returns is the completion of 2E, 2F, 2G, 2H. */
  lemma AddRepresents(p: Point, q: Point) returns (e: Fe, f: Fe, g: Fe, h: Fe)
    requires Reduced(p) && Reduced(q)
    ensures Add(p, q) == Complete(e, f, g, h)
    ensures Congruent(e, 2 * AddE(p, q)) && Congruent(f, 2 * AddF(p, q))
    ensures Congruent(g, 2 * AddG(p, q)) && Congruent(h, 2 * AddH(p, q))
  {
    hide FeAux.Add, FeAux.Sub, FeAux.Neg, Mul, Congruent, InField, AddE, AddF, AddG, AddH;
    var t0 := Mul(FeAux.Sub(p.y, p.x), FeAux.Sub(q.y, q.x));
    var t1 := Mul(FeAux.Add(p.y, p.x), FeAux.Add(q.y, q.x));
    var t2 := Mul(Mul(p.t, q.t), D2);
    var t3 := if q.z == 1 then p.z else Mul(p.z, q.z);
    var t8 := FeAux.Add(t3, t3);
    e, f, g, h := FeAux.Sub(t1, t0), FeAux.Sub(t8, t2), FeAux.Add(t8, t2), FeAux.Add(t1, t0);
    AddFactors(p, q);
    AddTerms(p, q);
    AddIdentities(p.x, p.y, p.z, p.t, q.x, q.y, q.z, q.t, p, q);
    AuxRepresents(t1, (p.y + p.x) * (q.y + q.x), t0, (p.y - p.x) * (q.y - q.x));
    AuxRepresents(t3, p.z * q.z, t3, p.z * q.z);
    AuxRepresents(t8, p.z * q.z + p.z * q.z, t2, p.t * q.t * (2 * D));
  }

  lemma AddIdentities(x1: int, y1: int, z1: int, t1: int, x2: int, y2: int, z2: int, t2: int, p: Point, q: Point)
    requires p.x == x1 && p.y == y1 && p.z == z1 && p.t == t1 && q.x == x2 && q.y == y2 && q.z == z2 && q.t == t2
    ensures (y1 + x1) * (y2 + x2) - (y1 - x1) * (y2 - x2) == 2 * AddE(p, q)
    ensures (y1 + x1) * (y2 + x2) + (y1 - x1) * (y2 - x2) == 2 * AddH(p, q)
    ensures (z1 * z2 + z1 * z2) - t1 * t2 * (2 * D) == 2 * AddF(p, q)
    ensures (z1 * z2 + z1 * z2) + t1 * t2 * (2 * D) == 2 * AddG(p, q)
  {
  }

  lemma AddFactors(p: Point, q: Point)
    requires Reduced(p) && Reduced(q)
    ensures var t0 := Mul(FeAux.Sub(p.y, p.x), FeAux.Sub(q.y, q.x));
      InField(t0) && Congruent(t0, (p.y - p.x) * (q.y - q.x))
    ensures var t1 := Mul(FeAux.Add(p.y, p.x), FeAux.Add(q.y, q.x));
      InField(t1) && Congruent(t1, (p.y + p.x) * (q.y + q.x))
  {
    hide FeAux.Add, FeAux.Sub, FeAux.Neg, Mul, Congruent, InField;
    Reflexive(p.y);
    Reflexive(p.x);
    Reflexive(q.y);
    Reflexive(q.x);
    AuxRepresents(p.y, p.y, p.x, p.x);
    AuxRepresents(q.y, q.y, q.x, q.x);
    MulRepresents(FeAux.Sub(p.y, p.x), p.y - p.x, FeAux.Sub(q.y, q.x), q.y - q.x);
    MulRepresents(FeAux.Add(p.y, p.x), p.y + p.x, FeAux.Add(q.y, q.x), q.y + q.x);
  }

  lemma AddTerms(p: Point, q: Point)
    requires Reduced(p) && Reduced(q)
    ensures var t2 := Mul(Mul(p.t, q.t), D2);
      InField(t2) && Congruent(t2, p.t * q.t * (2 * D))
    ensures var t3 := if q.z == 1 then p.z else Mul(p.z, q.z);
      InField(t3) && Congruent(t3, p.z * q.z)
  {
    Constants();
    hide Mul, Congruent, InField, D, D2;
    Reflexive(p.t);
    Reflexive(q.t);
    Reflexive(p.z);
    Reflexive(q.z);
    MulRepresents(p.t, p.t, q.t, q.t);
    MulRepresents(Mul(p.t, q.t), p.t * q.t, D2, 2 * D);
    MulRepresents(p.z, p.z, q.z, q.z);
  }

  /** The values of E, F, G, H for doubling. */
  function DoubleE(p: Point): int { 2 * (p.x * p.y) }
  function DoubleF(p: Point): int { p.y * p.y - p.x * p.x - 2 * (p.z * p.z) }
  function DoubleG(p: Point): int { p.y * p.y - p.x * p.x }
  function DoubleH(p: Point): int { -1 * (p.x * p.x + p.y * p.y) }

  lemma DoubleRepresents(p: Point) returns (e: Fe, f: Fe, g: Fe, h: Fe)
    requires Reduced(p)
    ensures Double(p) == Complete(e, f, g, h)
    ensures Congruent(e, DoubleE(p)) && Congruent(f, DoubleF(p))
    ensures Congruent(g, DoubleG(p)) && Congruent(h, DoubleH(p))
  {
    hide FeAux.Add, FeAux.Sub, FeAux.Neg, Mul, Congruent, InField;
    var t0, t1, zz := Mul(p.x, p.x), Mul(p.y, p.y), Mul(p.z, p.z);
    var t2, s := FeAux.Add(zz, zz), FeAux.Add(p.x, p.y);
    var ss := Mul(s, s);
    e, g := FeAux.Sub(FeAux.Sub(ss, t0), t1), FeAux.Sub(t1, t0);
    f, h := FeAux.Sub(g, t2), FeAux.Neg(FeAux.Add(t0, t1));
    Reflexive(p.x);
    Reflexive(p.y);
    Reflexive(p.z);
    MulRepresents(p.x, p.x, p.x, p.x);
    MulRepresents(p.y, p.y, p.y, p.y);
    MulRepresents(p.z, p.z, p.z, p.z);
    AuxRepresents(p.x, p.x, p.y, p.y);
    MulRepresents(s, p.x + p.y, s, p.x + p.y);
    AuxRepresents(zz, p.z * p.z, zz, p.z * p.z);
    AuxRepresents(ss, (p.x + p.y) * (p.x + p.y), t0, p.x * p.x);
    AuxRepresents(FeAux.Sub(ss, t0), (p.x + p.y) * (p.x + p.y) - p.x * p.x, t1, p.y * p.y);
    AuxRepresents(t1, p.y * p.y, t0, p.x * p.x);
    AuxRepresents(g, p.y * p.y - p.x * p.x, t2, p.z * p.z + p.z * p.z);
    AuxRepresents(t0, p.x * p.x, t1, p.y * p.y);
    AuxRepresents(FeAux.Add(t0, t1), p.x * p.x + p.y * p.y, t1, p.y * p.y);
    BinomialSquare(p.x, p.y);
  }

  lemma BinomialSquare(x: int, y: int)
    ensures (x + y) * (x + y) - x * x - y * y == 2 * (x * y)
  {
  }

  // ----- staying on the curve -----

  lemma CompleteRepresents(e: Fe, x: int, f: Fe, y: int, g: Fe, u: int, h: Fe, v: int)
    requires Congruent(e, x) && Congruent(f, y) && Congruent(g, u) && Congruent(h, v)
    ensures Reduced(Complete(e, f, g, h))
    ensures Congruent(Complete(e, f, g, h).x, x * y) && Congruent(Complete(e, f, g, h).y, u * v)
    ensures Congruent(Complete(e, f, g, h).z, y * u) && Congruent(Complete(e, f, g, h).t, x * v)
  {
    hide Mul, Congruent, InField;
    MulRepresents(e, x, f, y);
    MulRepresents(g, u, h, v);
    MulRepresents(f, y, g, u);
    MulRepresents(e, x, h, v);
  }

  /** A completed point is on the curve whatever representatives its factors have. */
  lemma CompletedOnCurve(r: Point, e: int, f: int, g: int, h: int)
    requires Congruent(r.x, e * f) && Congruent(r.y, g * h) && Congruent(r.z, f * g) && Congruent(r.t, e * h)
    requires Completes(e, f, g, h)
    ensures OnCurve(r)
  {
    hide Congruent, D;
    Products(r.x, e * f, r.y, g * h);
    Products(r.z, f * g, r.t, e * h);
    Exchange(e, f, g, h);
    Symmetric(r.z * r.t, f * g * (e * h));
    Transitive(r.x * r.y, f * g * (e * h), r.z * r.t);
    Products(r.x, e * f, r.x, e * f);
    Products(r.y, g * h, r.y, g * h);
    Products(r.z, f * g, r.z, f * g);
    Products(r.t, e * h, r.t, e * h);
    Reflexive(D);
    Products(D, D, r.t * r.t, e * h * (e * h));
    Sums(r.y * r.y, g * h * (g * h), r.x * r.x, e * f * (e * f));
    Sums(r.z * r.z, f * g * (f * g), D * (r.t * r.t), D * (e * h * (e * h)));
    Symmetric(r.z * r.z + D * (r.t * r.t), f * g * (f * g) + D * (e * h * (e * h)));
    Transitive(r.y * r.y - r.x * r.x, g * g * (h * h) - e * e * (f * f), f * f * (g * g) + D * (e * e * (h * h)));
    Transitive(r.y * r.y - r.x * r.x, f * f * (g * g) + D * (e * e * (h * h)), r.z * r.z + D * (r.t * r.t));
  }

  lemma Exchange(e: int, f: int, g: int, h: int)
    ensures e * f * (g * h) == f * g * (e * h)
    ensures g * h * (g * h) == g * g * (h * h) && e * f * (e * f) == e * e * (f * f)
    ensures f * g * (f * g) == f * f * (g * g) && e * h * (e * h) == e * e * (h * h)
  {
    assert e * f * (g * h) == f * g * (e * h);
  }

  /** Scaling all four factors keeps the relation. */
  lemma CompletesScaled(c: int, e: int, f: int, g: int, h: int)
    requires Completes(e, f, g, h)
    ensures Completes(c * e, c * f, c * g, c * h)
  {
    hide Congruent, D;
    var c4 := c * c * (c * c);
    Reflexive(c4);
    Products(c4, c4, g * g * (h * h) - e * e * (f * f), f * f * (g * g) + D * (e * e * (h * h)));
    FourthPower(c, g, h);
    FourthPower(c, e, f);
    FourthPower(c, f, g);
    FourthPower(c, e, h);
    Factor(c4, g * g * (h * h), e * e * (f * f), f * f * (g * g), e * e * (h * h), D);
  }

  lemma FourthPower(c: int, a: int, b: int)
    ensures (c * a) * (c * a) * ((c * b) * (c * b)) == c * c * (c * c) * (a * a * (b * b))
  {
    assert (c * a) * (c * a) == (c * c) * (a * a);
    assert (c * b) * (c * b) == (c * c) * (b * b);
    Interchange(c * c, a * a, b * b);
  }

  lemma Interchange(k: int, u: int, v: int)
    ensures (k * u) * (k * v) == k * k * (u * v)
  {
  }

  lemma Factor(k: int, gh: int, ef: int, fg: int, eh: int, d: int)
    ensures k * (gh - ef) == k * gh - k * ef
    ensures k * (fg + d * eh) == k * fg + d * (k * eh)
  {
  }

  /** The last step: three congruences among the squares give the relation. */
  lemma Combine(gh: int, ef: int, fg: int, eh: int, fh: int, fm: int, he: int)
    requires Congruent(fh - ef, fg + fm) && Congruent(he, fm) && Congruent(eh - he, gh - fh)
    ensures Congruent(gh - ef, fg + eh)
  {
    var k := Witness(fh - ef, fg + fm);
    var l := Witness(he, fm);
    var n := Witness(eh - he, gh - fh);
    By(gh - ef, fg + eh, k - l - n);
  }

  lemma FromThree(e: int, f: int, g: int, h: int, e1: int, m: int)
    ensures
      && Congruent(h * h - e * e, g * g + D * (m * m))
      && Congruent(h * e1, f * m)
      && Congruent(D * (e * e - e1 * e1), g * g - f * f)
      ==> Completes(e, f, g, h)
  {
    hide Congruent, D;
    var ff, hh := f * f, h * h;
    if Congruent(hh - e * e, g * g + D * (m * m)) && Congruent(h * e1, f * m) && Congruent(D * (e * e - e1 * e1), g * g - ff) {
      Reflexive(ff);
      Reflexive(hh);
      Reflexive(D);
      Products(ff, ff, hh - e * e, g * g + D * (m * m));
      Products(h * e1, f * m, h * e1, f * m);
      Products(D, D, h * e1 * (h * e1), f * m * (f * m));
      Products(hh, hh, D * (e * e - e1 * e1), g * g - ff);
      Squares(e, f, g, h, e1, m, D);
      Combine(g * g * hh, e * e * ff, ff * (g * g), D * (e * e * hh), ff * hh, D * (ff * (m * m)), D * (hh * (e1 * e1)));
    }
  }

  lemma Squares(e: int, f: int, g: int, h: int, e1: int, m: int, d: int)
    ensures f * f * (h * h - e * e) == f * f * (h * h) - e * e * (f * f)
    ensures f * f * (g * g + d * (m * m)) == f * f * (g * g) + d * (f * f * (m * m))
    ensures h * e1 * (h * e1) == h * h * (e1 * e1) && f * m * (f * m) == f * f * (m * m)
    ensures h * h * (d * (e * e - e1 * e1)) == d * (e * e * (h * h)) - d * (h * h * (e1 * e1))
    ensures h * h * (g * g - f * f) == g * g * (h * h) - f * f * (h * h)
  {
  }

  /** The three congruences for addition, from the two curve equations of each operand. */
  lemma AddCongruences(x1: int, y1: int, z1: int, t1: int, x2: int, y2: int, z2: int, t2: int)
    requires Congruent(x1 * y1, z1 * t1) && Congruent(y1 * y1 - x1 * x1, z1 * z1 + D * (t1 * t1))
    requires Congruent(x2 * y2, z2 * t2) && Congruent(y2 * y2 - x2 * x2, z2 * z2 + D * (t2 * t2))
    ensures var e, h, f, g := x1 * y2 + x2 * y1, y1 * y2 + x1 * x2, z1 * z2 - D * (t1 * t2), z1 * z2 + D * (t1 * t2);
      var e1, m := x1 * y2 - x2 * y1, z2 * t1 - z1 * t2;
      && Congruent(h * h - e * e, g * g + D * (m * m))
      && Congruent(h * e1, f * m)
      && Congruent(D * (e * e - e1 * e1), g * g - f * f)
  {
    hide Congruent, D;
    var a1, a2, b1, b2 := x1 * y1, x2 * y2, z1 * t1, z2 * t2;
    var c1, c2, n1, n2 := y1 * y1 - x1 * x1, y2 * y2 - x2 * x2, z1 * z1 + D * (t1 * t1), z2 * z2 + D * (t2 * t2);
    Products(c1, n1, c2, n2);
    NormOfXY(x1, y1, x2, y2);
    NormOfZT(z1, t1, z2, t2, D);
    Products(a1, b1, c2, n2);
    Products(a2, b2, c1, n1);
    Sums(a1 * c2, b1 * n2, a2 * c1, b2 * n1);
    CrossXY(x1, y1, x2, y2);
    CrossZT(z1, t1, z2, t2, D);
    Products(a1, b1, a2, b2);
    Reflexive(4 * D);
    Products(4 * D, 4 * D, a1 * a2, b1 * b2);
    DifferenceXY(x1, y1, x2, y2, D);
    DifferenceZT(z1, t1, z2, t2, D);
  }

  lemma NormOfXY(x1: int, y1: int, x2: int, y2: int)
    ensures (y1 * y1 - x1 * x1) * (y2 * y2 - x2 * x2)
         == (y1 * y2 + x1 * x2) * (y1 * y2 + x1 * x2) - (x1 * y2 + x2 * y1) * (x1 * y2 + x2 * y1)
  {
  }

  lemma NormOfZT(z1: int, t1: int, z2: int, t2: int, d: int)
    ensures (z1 * z1 + d * (t1 * t1)) * (z2 * z2 + d * (t2 * t2))
         == (z1 * z2 + d * (t1 * t2)) * (z1 * z2 + d * (t1 * t2)) + d * ((z2 * t1 - z1 * t2) * (z2 * t1 - z1 * t2))
  {
    NormParts(z1, t1, z2, t2);
    NormAssemble(z1 * z1, t1 * t1, z2 * z2, t2 * t2, z1 * z2, t1 * t2, (z2 * t1 - z1 * t2) * (z2 * t1 - z1 * t2), d);
  }

  lemma NormParts(z1: int, t1: int, z2: int, t2: int)
    ensures z1 * z1 * (z2 * z2) == z1 * z2 * (z1 * z2) && t1 * t1 * (t2 * t2) == t1 * t2 * (t1 * t2)
    ensures z1 * z1 * (t2 * t2) + t1 * t1 * (z2 * z2)
         == z1 * z2 * (t1 * t2) + t1 * t2 * (z1 * z2) + (z2 * t1 - z1 * t2) * (z2 * t1 - z1 * t2)
  {
  }

  lemma NormAssemble(a: int, b: int, c: int, e: int, p: int, q: int, mm: int, d: int)
    requires a * c == p * p && b * e == q * q && a * e + b * c == p * q + q * p + mm
    ensures (a + d * b) * (c + d * e) == (p + d * q) * (p + d * q) + d * mm
  {
    Expand(a, b, c, e, d);
    Expand(p, q, p, q, d);
    TimesSum(d, p * q + q * p, mm);
  }

  lemma TimesSum(d: int, u: int, v: int)
    ensures d * (u + v) == d * u + d * v
  {
  }

  lemma Expand(a: int, b: int, c: int, e: int, d: int)
    ensures (a + d * b) * (c + d * e) == a * c + d * (a * e + b * c) + d * d * (b * e)
  {
  }

  lemma CrossXY(x1: int, y1: int, x2: int, y2: int)
    ensures (y1 * y2 + x1 * x2) * (x1 * y2 - x2 * y1)
         == x1 * y1 * (y2 * y2 - x2 * x2) - x2 * y2 * (y1 * y1 - x1 * x1)
  {
  }

  lemma CrossZT(z1: int, t1: int, z2: int, t2: int, d: int)
    ensures (z1 * z2 - d * (t1 * t2)) * (z2 * t1 - z1 * t2)
         == z1 * t1 * (z2 * z2 + d * (t2 * t2)) - z2 * t2 * (z1 * z1 + d * (t1 * t1))
  {
    CrossParts(z1, t1, z2, t2);
    CrossAssemble(z1 * z2, t1 * t2, z2 * t1 - z1 * t2, z1 * t1, z2 * t2, z1 * z1, t1 * t1, z2 * z2, t2 * t2, d);
  }

  lemma CrossParts(z1: int, t1: int, z2: int, t2: int)
    ensures z1 * z2 * (z2 * t1 - z1 * t2) == z1 * t1 * (z2 * z2) - z2 * t2 * (z1 * z1)
    ensures t1 * t2 * (z2 * t1 - z1 * t2) == z2 * t2 * (t1 * t1) - z1 * t1 * (t2 * t2)
  {
  }

  lemma CrossAssemble(p: int, q: int, m: int, b1: int, b2: int, zz1: int, tt1: int, zz2: int, tt2: int, d: int)
    requires p * m == b1 * zz2 - b2 * zz1 && q * m == b2 * tt1 - b1 * tt2
    ensures (p - d * q) * m == b1 * (zz2 + d * tt2) - b2 * (zz1 + d * tt1)
  {
    ScaledDifference(p, q, m, d);
    TimesSum(d, b2 * tt1 - b1 * tt2, b1 * tt2);
    ScaledSum(b1, zz2, tt2, d);
    ScaledSum(b2, zz1, tt1, d);
  }

  lemma ScaledSum(b: int, z: int, t: int, d: int)
    ensures b * (z + d * t) == b * z + d * (b * t)
  {
  }

  lemma ScaledDifference(a: int, b: int, m: int, d: int)
    ensures (a - d * b) * m == a * m - d * (b * m)
  {
  }

  lemma DifferenceXY(x1: int, y1: int, x2: int, y2: int, d: int)
    ensures d * ((x1 * y2 + x2 * y1) * (x1 * y2 + x2 * y1) - (x1 * y2 - x2 * y1) * (x1 * y2 - x2 * y1))
         == 4 * d * (x1 * y1 * (x2 * y2))
  {
  }

  lemma DifferenceZT(z1: int, t1: int, z2: int, t2: int, d: int)
    ensures (z1 * z2 + d * (t1 * t2)) * (z1 * z2 + d * (t1 * t2)) - (z1 * z2 - d * (t1 * t2)) * (z1 * z2 - d * (t1 * t2))
         == 4 * d * (z1 * t1 * (z2 * t2))
  {
  }

  lemma AddCompletes(p: Point, q: Point)
    requires OnCurve(p) && OnCurve(q)
    ensures Completes(AddE(p, q), AddF(p, q), AddG(p, q), AddH(p, q))
  {
    hide Congruent, Completes, D;
    AddCongruences(p.x, p.y, p.z, p.t, q.x, q.y, q.z, q.t);
    FromThree(AddE(p, q), AddF(p, q), AddG(p, q), AddH(p, q), p.x * q.y - q.x * p.y, q.z * p.t - p.z * q.t);
  }

  /** The sum of two points on the curve is on the curve, and reduced. */
  lemma AddOnCurve(p: Point, q: Point)
    requires Reduced(p) && Reduced(q) && OnCurve(p) && OnCurve(q)
    ensures Reduced(Add(p, q)) && OnCurve(Add(p, q))
  {
    hide Congruent, Completes, InField, OnCurve, Add, Complete, AddE, AddF, AddG, AddH;
    var e, f, g, h := AddRepresents(p, q);
    var x, y, u, v := AddE(p, q), AddF(p, q), AddG(p, q), AddH(p, q);
    CompleteRepresents(e, 2 * x, f, 2 * y, g, 2 * u, h, 2 * v);
    AddCompletes(p, q);
    CompletesScaled(2, x, y, u, v);
    CompletedOnCurve(Add(p, q), 2 * x, 2 * y, 2 * u, 2 * v);
  }

  lemma DoubleCongruences(x: int, y: int, z: int, t: int)
    requires Congruent(x * y, z * t) && Congruent(y * y - x * x, z * z + D * (t * t))
    ensures var e, f, g, h := 2 * (x * y), y * y - x * x - 2 * (z * z), y * y - x * x, -1 * (x * x + y * y);
      && h * h - e * e == g * g
      && Congruent(D * (e * e), g * g - f * f)
  {
    hide Congruent, D;
    var e, f, g := 2 * (x * y), y * y - x * x - 2 * (z * z), y * y - x * x;
    Products(x * y, z * t, x * y, z * t);
    Reflexive(4 * D);
    Products(4 * D, 4 * D, x * y * (x * y), z * t * (z * t));
    var n := z * z + D * (t * t);
    Reflexive(2 * (z * z));
    Sums(g, n, g, n);
    Sums(g + g, n + n, 2 * (z * z), 2 * (z * z));
    Products(2 * (z * z), 2 * (z * z), g + g - 2 * (z * z), n + n - 2 * (z * z));
    Symmetric(2 * (z * z) * (g + g - 2 * (z * z)), 2 * (z * z) * (n + n - 2 * (z * z)));
    DoubleSquares(x, y, z, t, D);
    Transitive(D * (e * e), 4 * D * (z * t * (z * t)), g * g - f * f);
  }

  lemma DoubleSquares(x: int, y: int, z: int, t: int, d: int)
    ensures var e, f, g, h := 2 * (x * y), y * y - x * x - 2 * (z * z), y * y - x * x, -1 * (x * x + y * y);
      var n := z * z + d * (t * t);
      && h * h - e * e == g * g
      && d * (e * e) == 4 * d * (x * y * (x * y))
      && 2 * (z * z) * (g + g - 2 * (z * z)) == g * g - f * f
      && 2 * (z * z) * (n + n - 2 * (z * z)) == 4 * d * (z * t * (z * t))
  {
  }

  lemma DoubleCompletes(p: Point)
    requires OnCurve(p)
    ensures Completes(DoubleE(p), DoubleF(p), DoubleG(p), DoubleH(p))
  {
    hide Completes, Congruent, D;
    DoubleCongruences(p.x, p.y, p.z, p.t);
    Reflexive(0);
    Reflexive(DoubleG(p) * DoubleG(p));
    FromThree(DoubleE(p), DoubleF(p), DoubleG(p), DoubleH(p), 0, 0);
  }

  /** The double of a point on the curve is on the curve, and reduced. */
  lemma DoubleOnCurve(p: Point)
    requires Reduced(p) && OnCurve(p)
    ensures Reduced(Double(p)) && OnCurve(Double(p))
  {
    hide Congruent, Completes, InField, OnCurve, Double, Complete, DoubleE, DoubleF, DoubleG, DoubleH;
    var e, f, g, h := DoubleRepresents(p);
    CompleteRepresents(e, DoubleE(p), f, DoubleF(p), g, DoubleG(p), h, DoubleH(p));
    DoubleCompletes(p);
    CompletedOnCurve(Double(p), DoubleE(p), DoubleF(p), DoubleG(p), DoubleH(p));
  }

  lemma NegateOnCurve(p: Point)
    requires Reduced(p) && OnCurve(p)
    ensures Reduced(Negate(p)) && OnCurve(Negate(p))
    ensures Congruent(Negate(p).x, -1 * p.x) && Congruent(Negate(p).t, -1 * p.t)
  {
    NegRepresents(p.x);
    NegRepresents(p.t);
    hide Congruent, D, NegModP, InField;
    var q := Negate(p);
    Reflexive(p.y);
    Reflexive(p.z);
    Reflexive(-1);
    Reflexive(D);
    Products(q.x, -1 * p.x, p.y, p.y);
    Products(p.z, p.z, q.t, -1 * p.t);
    Products(-1, -1, p.x * p.y, p.z * p.t);
    Symmetric(p.z * q.t, p.z * (-1 * p.t));
    MinusOut(p.x, p.y, p.z, p.t);
    Transitive(q.x * p.y, -1 * (p.x * p.y), -1 * (p.z * p.t));
    Transitive(q.x * p.y, -1 * (p.z * p.t), p.z * q.t);
    Products(q.x, -1 * p.x, q.x, -1 * p.x);
    Products(q.t, -1 * p.t, q.t, -1 * p.t);
    Products(D, D, q.t * q.t, p.t * p.t);
    Reflexive(p.y * p.y);
    Reflexive(p.z * p.z);
    Sums(p.y * p.y, p.y * p.y, q.x * q.x, p.x * p.x);
    Sums(p.z * p.z, p.z * p.z, D * (q.t * q.t), D * (p.t * p.t));
    Symmetric(p.z * p.z + D * (q.t * q.t), p.z * p.z + D * (p.t * p.t));
    Transitive(p.y * p.y - q.x * q.x, p.y * p.y - p.x * p.x, p.z * p.z + D * (p.t * p.t));
    Transitive(p.y * p.y - q.x * q.x, p.z * p.z + D * (p.t * p.t), p.z * p.z + D * (q.t * q.t));
  }

  lemma NegRepresents(a: Fe)
    requires InField(a)
    ensures InField(NegModP(a)) && Congruent(NegModP(a), -1 * a)
  {
    By(NegModP(a), -1 * a, if a == 0 then 0 else 1);
  }

  lemma MinusOut(x: int, y: int, z: int, t: int)
    ensures -1 * x * y == -1 * (x * y) && z * (-1 * t) == -1 * (z * t)
    ensures -1 * x * (-1 * x) == x * x && -1 * t * (-1 * t) == t * t
  {
  }

  lemma IdentityOnCurve()
    ensures Reduced(Identity) && OnCurve(Identity)
  {
    Reflexive(0);
    Reflexive(1);
  }

  // ----- the sequences against each other and against the affine group law -----

  /** Adding a point to itself gives -4 times every coordinate of its double: the same projective point. */
  lemma AddSelfIsDouble(p: Point)
    requires Reduced(p) && OnCurve(p)
    ensures var s, r := Add(p, p), Double(p);
      && Congruent(s.x, -4 * r.x) && Congruent(s.y, -4 * r.y) && Congruent(s.z, -4 * r.z) && Congruent(s.t, -4 * r.t)
  {
    SelfFactors(p);
    hide Congruent, InField, Add, Double, Complete, OnCurve, AddE, AddF, AddG, AddH, DoubleE, DoubleF, DoubleG, DoubleH;
    var e, f, g, h := AddRepresents(p, p);
    var e', f', g', h' := DoubleRepresents(p);
    var x, y, u, v := DoubleE(p), DoubleF(p), DoubleG(p), DoubleH(p);
    Transitive(e, 2 * AddE(p, p), 2 * x);
    Transitive(f, 2 * AddF(p, p), -2 * y);
    Transitive(g, 2 * AddG(p, p), 2 * u);
    Transitive(h, 2 * AddH(p, p), -2 * v);
    CompleteRepresents(e, 2 * x, f, -2 * y, g, 2 * u, h, -2 * v);
    CompleteRepresents(e', x, f', y, g', u, h', v);
    MinusFour(Add(p, p).x, Double(p).x, x, y);
    MinusFour(Add(p, p).y, Double(p).y, u, v);
    MinusFour(Add(p, p).z, Double(p).z, u, y);
    MinusFour(Add(p, p).t, Double(p).t, x, v);
    Commute(u, y);
  }

  lemma Commute(a: int, b: int)
    ensures a * b == b * a && -2 * b * (2 * a) == 2 * a * (-2 * b)
  {
  }

  lemma MinusFour(s: int, r: int, a: int, b: int)
    requires Congruent(s, 2 * a * (-2 * b)) && Congruent(r, a * b)
    ensures Congruent(s, -4 * r)
  {
    var k := Witness(s, 2 * a * (-2 * b));
    var l := Witness(r, a * b);
    assert 2 * a * (-2 * b) == -4 * (a * b);
    By(s, -4 * r, k + 4 * l);
  }

  lemma SelfFactors(p: Point)
    requires OnCurve(p)
    ensures Congruent(2 * AddE(p, p), 2 * DoubleE(p)) && Congruent(2 * AddF(p, p), -2 * DoubleF(p))
    ensures Congruent(2 * AddG(p, p), 2 * DoubleG(p)) && Congruent(2 * AddH(p, p), -2 * DoubleH(p))
  {
    SelfTerms(p.x * p.y, p.x * p.x, p.y * p.y, p.z * p.z, D * (p.t * p.t));
    hide Congruent, D;
  }

  lemma SelfTerms(xy: int, xx: int, yy: int, zz: int, dtt: int)
    requires Congruent(yy - xx, zz + dtt)
    ensures Congruent(2 * (xy + xy), 2 * (2 * xy)) && Congruent(2 * (zz - dtt), -2 * (yy - xx - 2 * zz))
    ensures Congruent(2 * (zz + dtt), 2 * (yy - xx)) && Congruent(2 * (yy + xx), -2 * (-1 * (xx + yy)))
  {
    var k := Witness(yy - xx, zz + dtt);
    By(2 * (xy + xy), 2 * (2 * xy), 0);
    By(2 * (zz - dtt), -2 * (yy - xx - 2 * zz), 2 * k);
    By(2 * (zz + dtt), 2 * (yy - xx), -2 * k);
    By(2 * (yy + xx), -2 * (-1 * (xx + yy)), 0);
  }

  /**
   * The sum is the one of the affine addition law: with x = X/Z and y = Y/Z,
   * x3 (1 + d x1 x2 y1 y2) = x1 y2 + x2 y1 and y3 (1 - d x1 x2 y1 y2) = y1 y2 + x1 x2,
   * written without division.
   */
  lemma AddIsAffineLaw(p: Point, q: Point)
    requires Reduced(p) && Reduced(q) && OnCurve(p) && OnCurve(q)
    ensures var r, zz, k := Add(p, q), p.z * q.z, D * (p.x * p.y * (q.x * q.y));
      && Congruent(r.x * (zz * zz + k), r.z * (zz * (p.x * q.y + q.x * p.y)))
      && Congruent(r.y * (zz * zz - k), r.z * (zz * (p.y * q.y + p.x * q.x)))
  {
    Denominators(p, q);
    hide Congruent, InField, Add, Complete, OnCurve, D;
    var e, f, g, h := AddRepresents(p, q);
    var x, y, u, v := AddE(p, q), AddF(p, q), AddG(p, q), AddH(p, q);
    var r, zz, k := Add(p, q), p.z * q.z, D * (p.x * p.y * (q.x * q.y));
    CompleteRepresents(e, 2 * x, f, 2 * y, g, 2 * u, h, 2 * v);
    CrossRatio(r.x, r.z, 2 * x, 2 * y, 2 * u, zz * zz + k, zz, x, u);
    Commute(2 * u, 2 * y);
    CrossRatio(r.y, r.z, 2 * v, 2 * u, 2 * y, zz * zz - k, zz, v, y);
    assert 2 * u * (2 * v) == 2 * v * (2 * u);
  }

  lemma Denominators(p: Point, q: Point)
    requires OnCurve(p) && OnCurve(q)
    ensures var zz, k := p.z * q.z, D * (p.x * p.y * (q.x * q.y));
      && Congruent(zz * zz + k, zz * AddG(p, q)) && Congruent(zz * zz - k, zz * AddF(p, q))
  {
    hide Congruent, D;
    var zz, k, l := p.z * q.z, D * (p.x * p.y * (q.x * q.y)), D * (p.z * p.t * (q.z * q.t));
    Products(p.x * p.y, p.z * p.t, q.x * q.y, q.z * q.t);
    Reflexive(D);
    Products(D, D, p.x * p.y * (q.x * q.y), p.z * p.t * (q.z * q.t));
    Reflexive(zz * zz);
    Sums(zz * zz, zz * zz, k, l);
    ScaledSum(zz, zz, p.t * q.t, D);
    ScaledSum(zz, zz, -1 * (p.t * q.t), D);
    DenominatorTerms(p.z, p.t, q.z, q.t, D);
  }

  lemma DenominatorTerms(z1: int, t1: int, z2: int, t2: int, d: int)
    ensures d * (z1 * t1 * (z2 * t2)) == d * (z1 * z2 * (t1 * t2))
    ensures d * (z1 * z2 * (-1 * (t1 * t2))) == -1 * (d * (z1 * z2 * (t1 * t2)))
    ensures z1 * z2 + d * (-1 * (t1 * t2)) == z1 * z2 - d * (t1 * t2)
  {
    assert z1 * t1 * (z2 * t2) == z1 * z2 * (t1 * t2);
  }

  /** n = 2e * f and z = f * 2g are in the ratio e : g, whatever the common factor zz. */
  lemma CrossRatio(n: int, z: int, e2: int, f: int, g2: int, denominator: int, zz: int, e: int, g: int)
    requires Congruent(n, e2 * f) && Congruent(z, f * g2) && Congruent(denominator, zz * g)
    requires e2 == 2 * e && g2 == 2 * g
    ensures Congruent(n * denominator, z * (zz * e))
  {
    hide Congruent;
    Products(n, e2 * f, denominator, zz * g);
    Reflexive(zz * e);
    Products(z, f * g2, zz * e, zz * e);
    Symmetric(z * (zz * e), f * g2 * (zz * e));
    assert 2 * e * f * (zz * g) == f * (2 * g) * (zz * e);
    Transitive(n * denominator, e2 * f * (zz * g), z * (zz * e));
  }

  /** A point plus its negative passes the identity test of the engine. */
  lemma AddNegateIsIdentity(p: Point)
    requires Reduced(p) && OnCurve(p)
    ensures var r := Add(p, Negate(p)); r.x == 0 && r.t == 0 && r.y == r.z
  {
    NegateOnCurve(p);
    var q := Negate(p);
    hide Congruent, InField, Add, Complete, OnCurve, Negate, NegModP, AddE, AddF, AddG, AddH;
    var e, f, g, h := AddRepresents(p, q);
    var x, y, u, v := AddE(p, q), AddF(p, q), AddG(p, q), AddH(p, q);
    NegateFactors(p, q);
    CompleteRepresents(e, 2 * x, f, 2 * y, g, 2 * u, h, 2 * v);
    var r := Add(p, q);
    Vanishes(r.x, x, 2 * y);
    Vanishes(r.t, x, 2 * v);
    SameProduct(r.y, r.z, u, v, y);
  }

  lemma Vanishes(n: int, x: int, y: int)
    requires InField(n) && Congruent(n, 2 * x * y) && Congruent(x, 0)
    ensures n == 0
  {
    Reflexive(2 * y);
    Products(x, 0, 2 * y, 2 * y);
    assert x * (2 * y) == 2 * x * y;
    Transitive(n, 2 * x * y, 0);
    Unique(n, 0);
  }

  lemma SameProduct(m: int, n: int, u: int, v: int, y: int)
    requires InField(m) && InField(n) && Congruent(m, 2 * u * (2 * v)) && Congruent(n, 2 * y * (2 * u)) && Congruent(v, y)
    ensures m == n
  {
    Reflexive(4 * u);
    Products(4 * u, 4 * u, v, y);
    assert 4 * u * v == 2 * u * (2 * v) && 4 * u * y == 2 * y * (2 * u);
    Transitive(m, 4 * u * v, 4 * u * y);
    Symmetric(n, 4 * u * y);
    Transitive(m, 4 * u * y, n);
    Unique(m, n);
  }

  lemma NegateFactors(p: Point, q: Point)
    requires OnCurve(p) && q.y == p.y && q.z == p.z && Congruent(q.x, -1 * p.x) && Congruent(q.t, -1 * p.t)
    ensures Congruent(AddE(p, q), 0) && Congruent(AddH(p, q), AddF(p, q))
  {
    hide Congruent, D;
    Reflexive(p.x);
    Reflexive(p.y);
    Reflexive(p.t);
    Reflexive(D);
    Products(q.x, -1 * p.x, p.y, p.y);
    Products(p.x, p.x, q.x, -1 * p.x);
    Products(p.t, p.t, q.t, -1 * p.t);
    Products(D, D, p.t * q.t, p.t * (-1 * p.t));
    NegateSigns(p.x, p.y, p.t, D);
    NegateTerms(p.x * p.y, p.x * p.x, p.y * p.y, p.z * p.z, D * (p.t * p.t), q.x * p.y, p.x * q.x, D * (p.t * q.t));
  }

  lemma NegateSigns(x: int, y: int, t: int, d: int)
    ensures -1 * x * y == -1 * (x * y) && x * (-1 * x) == -1 * (x * x)
    ensures d * (t * (-1 * t)) == -1 * (d * (t * t))
  {
    assert t * (-1 * t) == -1 * (t * t);
  }

  lemma NegateTerms(xy: int, xx: int, yy: int, zz: int, dtt: int, nxy: int, nxx: int, ndtt: int)
    requires Congruent(yy - xx, zz + dtt) && Congruent(nxy, -1 * xy) && Congruent(nxx, -1 * xx) && Congruent(ndtt, -1 * dtt)
    ensures Congruent(xy + nxy, 0) && Congruent(yy + nxx, zz - ndtt)
  {
    var k := Witness(yy - xx, zz + dtt);
    var l := Witness(nxy, -1 * xy);
    var m := Witness(nxx, -1 * xx);
    var n := Witness(ndtt, -1 * dtt);
    By(xy + nxy, 0, l);
    By(yy + nxx, zz - ndtt, k + m + n);
  }
}
