/**
 * What the list of refused encodings is a list of: of the points whose order divides 8 it has exactly
 * those that are not written as a negative zero.
 */
module SmallOrderList {
  import opened CompleteLaw
  import opened Field
  import opened Verdict
  import Curve
  import CurveGroup
  import DecodeComplete
  import Decompress
  import FeAux
  import Group
  import PrimeField

  function Eightfold(p: Curve.Point): Curve.Point {
    Curve.Double(Curve.Double(Curve.Double(p)))
  }

  // ----- what a doubling makes zero -----

  /** Doubling gives y = 0 exactly from x^2 + y^2 = 0. */
  ghost predicate Diagonal(p: Curve.Point) {
    Congruent(p.x * p.x + p.y * p.y, 0)
  }

  lemma ZeroProduct(n: int, a: int, b: int)
    requires InField(n) && Congruent(n, a * b)
    ensures n == 0 <==> Congruent(a, 0) || Congruent(b, 0)
  {
    hide Congruent;
    if n == 0 {
      Symmetric(0, a * b);
      PrimeField.NoZeroDivisors(a, b);
    } else if Congruent(a, 0) {
      Reflexive(b);
      Products(a, 0, b, b);
      assert 0 * b == 0;
      Transitive(n, a * b, 0);
      Unique(n, 0);
    } else if Congruent(b, 0) {
      Reflexive(a);
      Products(a, a, b, 0);
      assert a * 0 == 0;
      Transitive(n, a * b, 0);
      Unique(n, 0);
    }
  }

  /** The coordinates of a double, and the two of its factors that are never zero. */
  lemma DoubleFactors(p: Curve.Point)
    requires Good(p)
    ensures var r, e, f, g, h := Curve.Double(p), Curve.DoubleE(p), Curve.DoubleF(p), Curve.DoubleG(p), Curve.DoubleH(p);
      && Good(r) && !Congruent(f, 0) && !Congruent(g, 0)
      && Congruent(r.x, e * f) && Congruent(r.y, g * h) && Congruent(r.z, f * g) && Congruent(r.t, e * h)
      && InField(r.x) && InField(r.y) && InField(r.z) && InField(r.t)
  {
    DoubleComplete(p);
    hide Congruent, InField, Curve.OnCurve, Curve.Double, Curve.Complete;
    hide Curve.DoubleE, Curve.DoubleF, Curve.DoubleG, Curve.DoubleH;
    var e, f, g, h := Curve.DoubleRepresents(p);
    Curve.CompleteRepresents(e, Curve.DoubleE(p), f, Curve.DoubleF(p), g, Curve.DoubleG(p), h, Curve.DoubleH(p));
    ZeroProduct(Curve.Double(p).z, Curve.DoubleF(p), Curve.DoubleG(p));
  }

  /** A double has x = 0 exactly if its half has x = 0 or y = 0, and y = 0 exactly on the diagonal. */
  lemma DoubleZeros(p: Curve.Point)
    requires Good(p)
    ensures Good(Curve.Double(p))
    ensures Curve.Double(p).x == 0 <==> p.x == 0 || p.y == 0
    ensures Curve.Double(p).y == 0 <==> Diagonal(p)
  {
    DoubleFactors(p);
    hide Congruent, Curve.OnCurve, Curve.Double;
    var r := Curve.Double(p);
    ZeroProduct(r.x, Curve.DoubleE(p), Curve.DoubleF(p));
    ZeroProduct(r.y, Curve.DoubleG(p), Curve.DoubleH(p));
    TwiceZero(p.x * p.y);
    FactorZero(p.x, p.y);
    NegatedZero(p.x * p.x + p.y * p.y);
  }

  lemma TwiceZero(n: int)
    ensures Congruent(2 * n, 0) <==> Congruent(n, 0)
  {
    hide Congruent;
    if Congruent(2 * n, 0) {
      CongruentIff(2, 0);
      PrimeField.NoZeroDivisors(2, n);
    }
    if Congruent(n, 0) {
      Reflexive(2);
      Products(2, 2, n, 0);
    }
  }

  lemma NegatedZero(n: int)
    ensures Congruent(-1 * n, 0) <==> Congruent(n, 0)
  {
    hide Congruent;
    Reflexive(-1);
    if Congruent(n, 0) {
      Products(-1, -1, n, 0);
    }
    if Congruent(-1 * n, 0) {
      Products(-1, -1, -1 * n, 0);
    }
  }

  lemma FactorZero(x: Fe, y: Fe)
    requires InField(x) && InField(y)
    ensures Congruent(x * y, 0) <==> x == 0 || y == 0
  {
    hide Congruent;
    Reflexive(0);
    if Congruent(x * y, 0) {
      PrimeField.NoZeroDivisors(x, y);
      ZeroInField();
      if Congruent(x, 0) {
        Unique(x, 0);
      } else {
        Unique(y, 0);
      }
    }
  }

  lemma ZeroInField()
    ensures InField(0)
  {
  }

  /** Twice a point is the identity exactly if x = 0. */
  lemma DoubleIsIdentity(p: Curve.Point)
    requires Good(p)
    ensures IsIdentity(Curve.Double(p)) <==> p.x == 0
  {
    DoubleZeros(p);
    DoubleFactors(p);
    hide Congruent, Curve.Double;
    var r, e, f, g, h := Curve.Double(p), Curve.DoubleE(p), Curve.DoubleF(p), Curve.DoubleG(p), Curve.DoubleH(p);
    if p.x == 0 {
      HalfOnAxis(p);
      EqualProducts(r.y, r.z, g, h, f);
      ZeroProduct(r.x, e, f);
      ZeroProduct(r.t, e, h);
    } else if IsIdentity(r) {
      SameFactor(r.y, r.z, g, h, f);
      NotFromY(p);
    }
  }

  /** With x = 0: e = 0, and h = f. */
  lemma HalfOnAxis(p: Curve.Point)
    requires Good(p) && p.x == 0
    ensures Congruent(Curve.DoubleE(p), 0) && Congruent(Curve.DoubleH(p), Curve.DoubleF(p))
  {
    hide D;
    Reflexive(0);
    hide Congruent;
    assert Congruent(p.x * p.y, 0) by {
      assert 0 * p.y == 0;
    }
    XYVanishes(p);
    NonZeroZ(p);
    Reflexive(p.t);
    Reflexive(D);
    Products(p.t, 0, p.t, 0);
    Products(D, D, p.t * p.t, 0 * 0);
    AxisTerms(p.y * p.y, p.z * p.z, D * (p.t * p.t));
  }

  lemma AxisTerms(yy: int, zz: int, dtt: int)
    requires Congruent(yy - 0, zz + dtt) && Congruent(dtt, 0)
    ensures Congruent(-1 * (0 + yy), yy - 0 - 2 * zz)
  {
    var k := Witness(yy - 0, zz + dtt);
    var l := Witness(dtt, 0);
    By(-1 * (0 + yy), yy - 0 - 2 * zz, -2 * k - 2 * l);
  }

  lemma EqualProducts(m: int, n: int, g: int, h: int, f: int)
    requires InField(m) && InField(n) && Congruent(m, g * h) && Congruent(n, f * g) && Congruent(h, f)
    ensures m == n
  {
    hide Congruent;
    Reflexive(g);
    Products(g, g, h, f);
    assert g * f == f * g;
    Transitive(m, g * h, f * g);
    Symmetric(n, f * g);
    Transitive(m, f * g, n);
    Unique(m, n);
  }

  lemma SameFactor(m: int, n: int, g: int, h: int, f: int)
    requires m == n && Congruent(m, g * h) && Congruent(n, f * g) && !Congruent(g, 0)
    ensures Congruent(h, f)
  {
    hide Congruent;
    Symmetric(m, g * h);
    assert f * g == g * f;
    Transitive(g * h, m, g * f);
    PrimeField.Cancel(g, h, f);
  }

  /** With y = 0 instead, h and f differ by 2 z^2. */
  lemma NotFromY(p: Curve.Point)
    requires Good(p) && Congruent(Curve.DoubleH(p), Curve.DoubleF(p))
    ensures p.y != 0
  {
    hide Congruent;
    if p.y == 0 {
      var zz := p.z * p.z;
      Difference(p.x * p.x, zz);
      TwiceZero(zz);
      PrimeField.NoZeroDivisors(p.z, p.z);
      NonZeroZ(p);
    }
  }

  lemma Difference(xx: int, zz: int)
    requires Congruent(-1 * (xx + 0), 0 - xx - 2 * zz)
    ensures Congruent(2 * zz, 0)
  {
    var k := Witness(-1 * (xx + 0), 0 - xx - 2 * zz);
    By(2 * zz, 0, k);
  }

  /** The points whose order divides 8. */
  lemma EightfoldIsIdentity(p: Curve.Point)
    requires Good(p)
    ensures IsIdentity(Eightfold(p)) <==> p.x == 0 || p.y == 0 || Diagonal(p)
  {
    hide Good, Curve.Double, IsIdentity, Diagonal;
    DoubleZeros(p);
    DoubleZeros(Curve.Double(p));
    DoubleIsIdentity(Curve.Double(Curve.Double(p)));
  }

  // ----- the y of such a point -----

  /** y of the points of order 8: d y^4 + 2 y^2 = 1, of which only one value of y^2 is a square. */
  const Y8: Fe := 0x7a03ac9277fdc74ec6cc392cfa53202a0f67100d760b3cba4fd84d3d706a17c7

  lemma Y8Solves()
    ensures Congruent(D * (Y8 * Y8 * (Y8 * Y8)) + 2 * (Y8 * Y8), 1)
    ensures InField(Y8) && 0 < Y8 && InField(P - Y8)
  {
    CongruentIff(D * (Y8 * Y8 * (Y8 * Y8)) + 2 * (Y8 * Y8), 1);
  }

  /** Of the points with a given y, those on the diagonal have d y^4 + 2 y^2 = 1, and no others do. */
  lemma DiagonalIff(p: Curve.Point)
    requires Decompress.SolvesCurve(p.x, p.y)
    ensures Diagonal(p) <==> Congruent(D * (p.y * p.y * (p.y * p.y)) + 2 * (p.y * p.y), 1)
  {
    DecodeComplete.DenominatorNotZero(p.y);
    hide D;
    var xx, yy := p.x * p.x, p.y * p.y;
    var v := yy * D + 1;
    DiagonalTerms(xx, yy, D);
    hide Congruent;
    ProductWithSum(v * xx, v * yy, yy, D * (yy * yy));
    Reflexive(v);
    if Diagonal(p) {
      Products(v, v, xx + yy, 0);
      assert v * 0 == 0;
    } else if Congruent(v * (xx + yy), 0) {
      PrimeField.NoZeroDivisors(v, xx + yy);
    }
  }

  lemma DiagonalTerms(xx: int, yy: int, d: int)
    ensures (yy * d + 1) * (xx + yy) == (yy * d + 1) * xx + (yy * d + 1) * yy
    ensures (yy * d + 1) * yy == d * (yy * yy) + yy
  {
  }

  lemma ProductWithSum(vxx: int, vyy: int, yy: int, dyyyy: int)
    requires Congruent(vxx, yy - 1) && vyy == dyyyy + yy
    ensures Congruent(vxx + vyy, 0) <==> Congruent(dyyyy + 2 * yy, 1)
  {
    var k := Witness(vxx, yy - 1);
    if Congruent(vxx + vyy, 0) {
      var l := Witness(vxx + vyy, 0);
      By(dyyyy + 2 * yy, 1, l - k);
    }
    if Congruent(dyyyy + 2 * yy, 1) {
      var l := Witness(dyyyy + 2 * yy, 1);
      By(vxx + vyy, 0, l + k);
    }
  }

  /** d n^2 + 2 n = 1 for n = y^2 forces n = Y8^2: for the other root d Y8^2 y^2 = -1. */
  lemma OnlyY8(y: int)
    requires Congruent(D * (y * y * (y * y)) + 2 * (y * y), 1)
    ensures Congruent(y * y, Y8 * Y8)
  {
    Y8Solves();
    Constants();
    hide D, D2, SQRT_M1, Y8;
    var n, c := y * y, Y8 * Y8;
    TwoRoots(n, c, D);
    hide Congruent;
    PrimeField.NoZeroDivisors(n - c, D * (n + c) + 2);
    Reflexive(c);
    if Congruent(n - c, 0) {
      Sums(n - c, 0, c, c);
    } else {
      OtherRoot(n, c, D);
      Squared(y, Y8);
      Symmetric(D * (c * n), -1);
      Transitive(SQRT_M1 * SQRT_M1, -1, D * (c * n));
      NotDTimesSquare(SQRT_M1, Y8 * y);
      NotRootless(y);
    }
  }

  lemma TwoRoots(n: int, c: int, d: int)
    requires Congruent(d * (n * n) + 2 * n, 1) && Congruent(d * (c * c) + 2 * c, 1)
    ensures Congruent((n - c) * (d * (n + c) + 2), 0)
  {
    hide Congruent;
    Sums(d * (n * n) + 2 * n, 1, d * (c * c) + 2 * c, 1);
    assert (n - c) * (n + c) == n * n - c * c;
    assert (n - c) * (d * (n + c) + 2) == d * ((n - c) * (n + c)) + 2 * (n - c);
  }

  lemma OtherRoot(n: int, c: int, d: int)
    requires Congruent(d * (n + c) + 2, 0) && Congruent(d * (c * c) + 2 * c, 1)
    ensures Congruent(d * (c * n), -1)
  {
    hide Congruent;
    Reflexive(c);
    Products(c, c, d * (n + c) + 2, 0);
    assert c * (d * (n + c) + 2) == d * (c * n) + (d * (c * c) + 2 * c) by {
      assert c * (d * (n + c)) == d * (c * n) + d * (c * c);
    }
    Sums(d * (c * n) + (d * (c * c) + 2 * c), 0, d * (c * c) + 2 * c, 1);
  }

  lemma Squared(y: int, a: int)
    ensures a * a * (y * y) == a * y * (a * y)
  {
  }

  lemma NotRootless(y: int)
    requires Congruent(D * (Y8 * Y8 * (y * y)), -1)
    ensures !Congruent(Y8 * y, 0)
  {
    CongruentIff(0, -1);
    hide Congruent, D, Y8;
    if Congruent(Y8 * y, 0) {
      Products(Y8 * y, 0, Y8 * y, 0);
      Squared(y, Y8);
      Reflexive(D);
      Products(D, D, Y8 * Y8 * (y * y), 0);
      Symmetric(D * (Y8 * Y8 * (y * y)), 0);
      Transitive(0, D * (Y8 * Y8 * (y * y)), -1);
    }
  }

  /** Two residues with the same square are the same or negatives. */
  lemma SameSquares(y: Fe, c: Fe)
    requires InField(y) && InField(c) && InField(P - c) && Congruent(y * y, c * c)
    ensures y == c || y == P - c
  {
    var a: int := y;
    var b: int := c;
    hide Congruent, InField;
    Reflexive(b * b);
    Reflexive(b);
    Sums(a * a, b * b, b * b, b * b);
    assert (a - b) * (a + b) == a * a - b * b;
    PrimeField.NoZeroDivisors(a - b, a + b);
    if Congruent(a - b, 0) {
      Sums(a - b, 0, b, b);
      Unique(a, b);
    } else {
      Sums(a + b, 0, b, b);
      By(0 - b, P - b, -1);
      Transitive(a, 0 - b, P - b);
      Unique(a, P - b);
    }
  }

  lemma DiagonalY(p: Curve.Point)
    requires InField(p.y) && Decompress.SolvesCurve(p.x, p.y)
    ensures Diagonal(p) <==> p.y == Y8 || p.y == P - Y8
  {
    DiagonalIff(p);
    Y8Solves();
    hide D, Y8;
    if Diagonal(p) {
      OnlyY8(p.y);
      SameSquares(p.y, Y8);
    } else if p.y == P - Y8 {
      NegativeY8(p.y);
      SameFourth(p.y, Y8);
    }
  }

  lemma SameFourth(a: int, b: int)
    requires Congruent(a, 0 - b) && Congruent(D * (b * b * (b * b)) + 2 * (b * b), 1)
    ensures Congruent(D * (a * a * (a * a)) + 2 * (a * a), 1)
  {
    hide Congruent, D;
    Products(a, 0 - b, a, 0 - b);
    assert (0 - b) * (0 - b) == b * b;
    Products(a * a, b * b, a * a, b * b);
    Reflexive(D);
    Products(D, D, a * a * (a * a), b * b * (b * b));
    Reflexive(2);
    Products(2, 2, a * a, b * b);
    Sums(D * (a * a * (a * a)), D * (b * b * (b * b)), 2 * (a * a), 2 * (b * b));
    Transitive(D * (a * a * (a * a)) + 2 * (a * a), D * (b * b * (b * b)) + 2 * (b * b), 1);
  }

  lemma NegativeY8(y: int)
    requires y == P - Y8
    ensures Congruent(y, 0 - Y8)
  {
    By(y, 0 - Y8, 1);
  }

  /** y^2 = 1 has the two solutions 1 and -1. */
  lemma UnitY(y: Fe)
    requires InField(y)
    ensures Congruent(y * y - 1, 0) <==> y == 1 || y == P - 1
  {
    if y == 1 {
      CongruentIff(1 * 1 - 1, 0);
    } else if y == P - 1 {
      CongruentIff((P - 1) * (P - 1) - 1, 0);
    } else if Congruent(y * y - 1, 0) {
      var n: int := y;
      Decompress.OneInField();
      hide Congruent;
      Reflexive(1);
      Sums(n * n - 1, 0, 1, 1);
      SameSquares(y, 1);
    }
  }

  lemma XZeroIff(p: Curve.Point)
    requires Curve.Reduced(p) && Decompress.SolvesCurve(p.x, p.y)
    ensures p.x == 0 <==> p.y == 1 || p.y == P - 1
  {
    DecodeComplete.DenominatorNotZero(p.y);
    UnitY(p.y);
    hide Congruent, D;
    var v, u := p.y * p.y * D + 1, p.y * p.y - 1;
    if p.x == 0 {
      assert v * (0 * 0) == 0;
      Symmetric(v * (p.x * p.x), u);
    } else if Congruent(u, 0) {
      Transitive(v * (p.x * p.x), u, 0);
      PrimeField.NoZeroDivisors(v, p.x * p.x);
      FactorZero(p.x, p.x);
    }
  }

  // ----- the list -----

  /** The list in terms of the sign bit and the loaded y. */
  lemma ListedIff(encoded: nat)
    requires encoded < Verdict.TWO_256
    ensures var y, sign := FeAux.Load(encoded), Decompress.Sign(encoded);
      SmallOrder(encoded) <==> (sign == 0 && (y == 1 || y == P - 1)) || y == 0 || y == Y8 || y == P - Y8
  {
    CanonicalIs(encoded);
    Decompress.SignIsBit(encoded);
    hide FeAux.Load, Decompress.Sign, Canonical;
  }

  lemma NegativeZeroIff(encoded: nat)
    ensures var y, sign := FeAux.Load(encoded), Decompress.Sign(encoded);
      Decompress.NegativeZero(encoded) <==> sign == 1 && (y == 1 || y == P - 1)
  {
    var y := FeAux.Load(encoded);
    FeAux.LoadReduces(encoded);
    var n: int := y;
    Decompress.UVRepresent(y, n);
    UnitY(y);
    hide FeAux.Load, Decompress.Sign, Decompress.U, Decompress.V, Congruent;
    var u := Decompress.U(y);
    if u == 0 {
      Symmetric(u, n * n - 1);
    } else if Congruent(n * n - 1, 0) {
      Transitive(u, n * n - 1, 0);
      ZeroInField();
      Unique(u, 0);
    }
  }

  /**
   * A public key or R that decodes is refused in strict mode if and only if its order divides 8 and it is
   * no negative zero.
   */
  lemma ListIsSmallOrder(encoded: nat)
    requires encoded < Verdict.TWO_256 && Decompress.Decode(encoded).Some?
    ensures IsIdentity(Eightfold(Decompress.Decode(encoded).value)) <==>
      SmallOrder(encoded) || Decompress.NegativeZero(encoded)
  {
    Decompress.DecodedPoint(encoded);
    DecodedIsGood(encoded);
    FeAux.LoadReduces(encoded);
    ListedIff(encoded);
    NegativeZeroIff(encoded);
    Decompress.SignIsBit(encoded);
    var p := Decompress.Decode(encoded).value;
    assert p.y == FeAux.Load(encoded);
    hide IsIdentity, Eightfold, Decompress.Decode, Decompress.Sign, FeAux.Load, Congruent, Curve.OnCurve, SmallOrder;
    EightfoldIsIdentity(p);
    XZeroIff(p);
    DiagonalY(p);
  }

  /** Three doublings and the identity test decide whether 8 times the point is zero in the group. */
  lemma EightfoldIsTimes(p: Curve.Point)
    requires Good(p)
    ensures IsIdentity(Eightfold(p)) <==> EightTimes(p) == CurveGroup.CurveModel().group.zero
  {
    var m := CurveGroup.CurveModel();
    CurveGroup.CurveInterprets();
    hide Interprets, Good, Curve.Double, IsIdentity, CurveGroup.CurveModel, Group.Times, Group.Twice, TableHolds;
    OfInterprets(m);
    var x := m.value(p);
    StandsDouble(m, p, x);
    StandsDouble(m, Curve.Double(p), Group.Twice(m.group, x));
    StandsDouble(m, Curve.Double(Curve.Double(p)), Group.Twice(m.group, Group.Twice(m.group, x)));
    IdentityTest(m, Eightfold(p), Group.Twice(m.group, Group.Twice(m.group, Group.Twice(m.group, x))));
    Group.Cofactor(m.group, x);
  }

  /** 8 times the element that p stands for. */
  ghost function EightTimes(p: Curve.Point): CurveGroup.Element {
    Group.Times(CurveGroup.CurveModel().group, 8, CurveGroup.CurveModel().value(p))
  }
}
