/**
 * Point decompression (section 5.1.3 of RFC 8032) as the datapath computes it, and what a decoded
 * point satisfies.
 */
module Decompress {
  import opened Field
  import Curve
  import FeAux
  import PowChain

  datatype Option<T> = None | Some(value: T)

  const SIGN_BIT: nat := 0x8000_0000_0000_0000_0000_0000_0000_0000_0000_0000_0000_0000_0000_0000_0000_0000

  /** The candidate root (u v^3) (u v^7)^(2^252 - 3) of u / v. */
  function Candidate(u: Fe, v: Fe): Fe {
    var v2 := Curve.Mul(v, v);
    var v3 := Curve.Mul(v2, v);
    var uv3 := Curve.Mul(u, v3);
    Curve.Mul(uv3, PowChain.Power(Curve.Mul(uv3, Curve.Mul(v2, v2)), PowChain.Exponent()))
  }

  /** A root of u / v, when the candidate or its product with sqrt(-1) is one. */
  function Root(u: Fe, v: Fe): Option<Fe> {
    var r := Candidate(u, v);
    var check := Curve.Mul(v, Curve.Mul(r, r));
    if check == u then Some(r)
    else if check == FeAux.Neg(u) then Some(Curve.Mul(r, SQRT_M1))
    else None
  }

  function U(y: Fe): Fe {
    FeAux.Sub(Curve.Mul(y, y), 1)
  }

  function V(y: Fe): Fe {
    FeAux.Add(Curve.Mul(Curve.Mul(y, y), D), 1)
  }

  /** Negate x unless its low bit is already the requested sign. */
  function WithSign(x: Fe, sign: nat): Fe {
    if x % 2 != sign then FeAux.Neg(x) else x
  }

  function PointFrom(x: Fe, y: Fe): Curve.Point {
    Curve.Point(x, y, 1, Curve.Mul(x, y))
  }

  /** The point of a 256-bit encoding: y in the low 255 bits, the sign of x above it. */
  function Decode(encoded: nat): Option<Curve.Point> {
    var y := FeAux.Load(encoded);
    match Root(U(y), V(y))
    case None => None
    case Some(x) => Some(PointFrom(WithSign(x, Sign(encoded)), y))
  }

  function Sign(encoded: nat): nat {
    encoded / SIGN_BIT % 2
  }

  /** What is found is a root: v x^2 = u, through either branch. */
  lemma RootSolves(u: Fe, v: Fe, w: int, z: int)
    requires InField(u) && Congruent(u, w) && Congruent(v, z)
    ensures Root(u, v).Some? ==> InField(Root(u, v).value) && IsRoot(Root(u, v).value, z, w)
  {
    CandidateInField(u, v);
    hide Candidate, Curve.Mul, Congruent, InField, FeAux.Neg, SQRT_M1, IsRoot;
    var r := Candidate(u, v);
    if Root(u, v).Some? {
      var check := Curve.Mul(v, Curve.Mul(r, r));
      CheckRepresents(r, v, z);
      if check == u {
        DirectBranch(r, check, z, w);
      } else {
        MinusU(u, w);
        NegatedBranch(r, check, z, w);
      }
    }
  }

  /** z x^2 = w modulo p. */
  ghost predicate IsRoot(x: int, z: int, w: int) {
    Congruent(z * (x * x), w)
  }

  lemma CheckRepresents(r: Fe, v: Fe, z: int)
    requires Congruent(v, z)
    ensures IsSquareTimes(Curve.Mul(v, Curve.Mul(r, r)), z, r)
  {
    hide Curve.Mul, Congruent, InField;
    var n: int := r;
    Reflexive(n);
    Curve.MulRepresents(r, n, r, n);
    Curve.MulRepresents(v, z, Curve.Mul(r, r), n * n);
  }

  ghost predicate IsSquareTimes(check: int, z: int, r: int) {
    Congruent(check, z * (r * r))
  }

  lemma MinusU(u: Fe, w: int)
    requires InField(u) && Congruent(u, w)
    ensures Congruent(FeAux.Neg(u), -1 * w)
  {
    Curve.AuxRepresents(u, w, u, w);
  }

  lemma DirectBranch(r: int, check: int, z: int, w: int)
    requires IsSquareTimes(check, z, r) && Congruent(check, w)
    ensures IsRoot(r, z, w)
  {
    hide Congruent;
    Symmetric(check, z * (r * r));
    Transitive(z * (r * r), check, w);
  }

  /** Multiplying by sqrt(-1) turns a root of -u / v into one of u / v. */
  lemma NegatedBranch(r: Fe, check: int, z: int, w: int)
    requires IsSquareTimes(check, z, r) && Congruent(check, -1 * w)
    ensures InField(Curve.Mul(r, SQRT_M1)) && IsRoot(Curve.Mul(r, SQRT_M1), z, w)
  {
    Constants();
    hide Congruent, InField, SQRT_M1, D, D2, Curve.Mul;
    Reflexive(r);
    Reflexive(SQRT_M1);
    Curve.MulRepresents(r, r, SQRT_M1, SQRT_M1);
    SquareOfProduct(r, SQRT_M1, Curve.Mul(r, SQRT_M1));
    TimesRootOfMinusOne(r, Curve.Mul(r, SQRT_M1), check, z, w);
  }

  lemma TimesRootOfMinusOne(r: int, s: int, check: int, z: int, w: int)
    requires IsSquareTimes(check, z, r) && Congruent(check, -1 * w)
    requires Congruent(s * s, -1 * (r * r))
    ensures IsRoot(s, z, w)
  {
    hide Congruent;
    Reflexive(z);
    Reflexive(-1);
    Products(z, z, s * s, -1 * (r * r));
    DirectBranch(r, check, z, -1 * w);
    Products(-1, -1, z * (r * r), -1 * w);
    MinusOut(z, r * r);
    Transitive(z * (s * s), -1 * (z * (r * r)), -1 * (-1 * w));
  }

  lemma MinusOut(z: int, n: int)
    ensures z * (-1 * n) == -1 * (z * n)
  {
  }

  /** The square of r sqrt(-1) is -r^2. */
  lemma SquareOfProduct(r: int, i: int, s: int)
    requires Congruent(i * i, -1) && Congruent(s, r * i)
    ensures Congruent(s * s, -1 * (r * r))
  {
    hide Congruent;
    Reflexive(r * r);
    Products(s, r * i, s, r * i);
    Products(r * r, r * r, i * i, -1);
    Squares(r, i);
    Transitive(s * s, r * r * (i * i), r * r * -1);
  }

  lemma Squares(r: int, i: int)
    ensures r * i * (r * i) == r * r * (i * i) && r * r * -1 == -1 * (r * r)
  {
  }

  lemma CandidateInField(u: Fe, v: Fe)
    ensures InField(Candidate(u, v))
  {
    hide PowChain.Power, PowChain.Exponent, Curve.Mul, InField;
    var v2 := Curve.Mul(v, v);
    var uv3 := Curve.Mul(u, Curve.Mul(v2, v));
    Curve.MulIs(uv3, PowChain.Power(Curve.Mul(uv3, Curve.Mul(v2, v2)), PowChain.Exponent()));
  }

  /** The sign step fixes the low bit, except at zero, and keeps the square. */
  lemma WithSignKeepsSquare(x: Fe, sign: nat, z: int, w: int)
    requires InField(x) && sign < 2 && IsRoot(x, z, w)
    ensures InField(WithSign(x, sign)) && IsRoot(WithSign(x, sign), z, w)
    ensures WithSign(x, sign) % 2 == sign || WithSign(x, sign) == 0
    ensures WithSign(x, sign) == 0 <==> x == 0
  {
    NegParity(x);
    Reflexive(x);
    Curve.AuxRepresents(x, x, x, x);
    hide FeAux.Neg, Congruent, InField, IsRoot;
    SameSquare(FeAux.Neg(x), x, z, w);
  }

  lemma SameSquare(s: int, x: int, z: int, w: int)
    requires Congruent(s, -1 * x) && IsRoot(x, z, w)
    ensures IsRoot(s, z, w)
  {
    hide Congruent;
    Products(s, -1 * x, s, -1 * x);
    assert -1 * x * (-1 * x) == x * x;
    Reflexive(z);
    Products(z, z, s * s, x * x);
    Transitive(z * (s * s), z * (x * x), w);
  }

  lemma NegParity(x: Fe)
    requires InField(x)
    ensures x != 0 ==> FeAux.Neg(x) % 2 != x % 2 && FeAux.Neg(x) != 0 && FeAux.Neg(FeAux.Neg(x)) == x
    ensures x == 0 ==> FeAux.Neg(x) == 0
    ensures InField(FeAux.Neg(x)) && FeAux.Neg(x) == Curve.NegModP(x)
  {
  }

  /** U and V represent y^2 - 1 and d y^2 + 1. */
  lemma UVRepresent(y: Fe, n: int)
    requires InField(y) && n == y
    ensures InField(U(y)) && Congruent(U(y), n * n - 1)
    ensures InField(V(y)) && Congruent(V(y), n * n * D + 1)
  {
    Constants();
    OneInField();
    hide Curve.Mul, Congruent, InField, FeAux.Add, FeAux.Sub, D, D2;
    Reflexive(n);
    Reflexive(1);
    Reflexive(D);
    Curve.MulRepresents(y, n, y, n);
    Curve.MulRepresents(Curve.Mul(y, y), n * n, D, D);
    Curve.AuxRepresents(Curve.Mul(y, y), n * n, 1, 1);
    Curve.AuxRepresents(Curve.Mul(Curve.Mul(y, y), D), n * n * D, 1, 1);
  }

  lemma OneInField()
    ensures InField(1)
  {
  }

  /**
   * A decoded point has z = 1, the encoded y reduced, t = x y, an x with (d y^2 + 1) x^2 = y^2 - 1
   * whose low bit is the sign bit unless x = 0, and so lies on the curve.
   */
  lemma DecodedPoint(encoded: nat)
    requires Decode(encoded).Some?
    ensures var p := Decode(encoded).value;
      && p.z == 1 && p.y == ModP(encoded % TWO_255) && p.t == Curve.Mul(p.x, p.y)
      && SolvesCurve(p.x, p.y)
      && (p.x == 0 || p.x % 2 == Sign(encoded))
      && Curve.Reduced(p) && Curve.OnCurve(p)
  {
    var y := FeAux.Load(encoded);
    var n: int := y;
    FeAux.LoadReduces(encoded);
    UVRepresent(y, n);
    hide U, V, Root, FeAux.Load, FeAux.Neg, D, Congruent, InField, Curve.Mul, IsRoot, WithSign, Sign;
    RootSolves(U(y), V(y), n * n - 1, n * n * D + 1);
    var root := Root(U(y), V(y)).value;
    SignIsBit(encoded);
    WithSignKeepsSquare(root, Sign(encoded), n * n * D + 1, n * n - 1);
    AffineOnCurve(WithSign(root, Sign(encoded)), y);
  }

  lemma SignIsBit(encoded: nat)
    ensures Sign(encoded) < 2
  {
  }

  /** (d y^2 + 1) x^2 = y^2 - 1 modulo p. */
  ghost predicate SolvesCurve(x: int, y: int) {
    IsRoot(x, y * y * D + 1, y * y - 1)
  }

  lemma AffineOnCurve(x: Fe, y: Fe)
    requires InField(x) && InField(y) && SolvesCurve(x, y)
    ensures Curve.Reduced(PointFrom(x, y)) && Curve.OnCurve(PointFrom(x, y))
  {
    ProductInField(x, y);
    OneInField();
    var t := Curve.Mul(x, y);
    hide InField, D, Congruent, IsRoot, Curve.Mul, ModP;
    TimesOne(t, x, y);
    Symmetric(t, x * y);
    AffineEquation(x, y);
  }

  /** With z = 1 the curve equation is the one that decompression solves. */
  lemma AffineEquation(x: Fe, y: Fe)
    requires SolvesCurve(x, y)
    ensures var t: int := Curve.Mul(x, y); Congruent(y * y - x * x, 1 * 1 + D * (t * t))
  {
    var t: int := Curve.Mul(x, y);
    TimesOne(Curve.Mul(x, y), x, y);
    hide D, Congruent, Curve.Mul, ModP;
    SquaredTerm(x, y, t, D);
    Expanded(x, y, D);
    LastSums(x * x, y * y, D * (t * t), D * (x * y * (x * y)), (y * y * D + 1) * (x * x));
  }

  lemma TimesOne(t: Fe, x: Fe, y: Fe)
    requires t == Curve.Mul(x, y)
    ensures RepresentsProduct(t, x, y)
  {
    Curve.MulIs(x, y);
    Reduces(x * y);
  }

  ghost predicate RepresentsProduct(t: int, x: int, y: int) {
    Congruent(t, x * y)
  }

  lemma SquaredTerm(x: int, y: int, t: int, d: int)
    requires RepresentsProduct(t, x, y)
    ensures Congruent(d * (t * t), d * (x * y * (x * y)))
  {
    hide Congruent;
    Products(t, x * y, t, x * y);
    Reflexive(d);
    Products(d, d, t * t, x * y * (x * y));
  }

  lemma Expanded(x: int, y: int, d: int)
    ensures (y * y * d + 1) * (x * x) == d * (x * y * (x * y)) + x * x
  {
    assert x * y * (x * y) == y * y * (x * x);
  }

  lemma LastSums(xx: int, yy: int, dtt: int, dxxyy: int, lhs: int)
    requires Congruent(dtt, dxxyy) && lhs == dxxyy + xx && Congruent(lhs, yy - 1)
    ensures Congruent(yy - xx, 1 * 1 + dtt)
  {
    var k := Witness(dtt, dxxyy);
    var l := Witness(lhs, yy - 1);
    By(yy - xx, 1 * 1 + dtt, -k - l);
  }

  /** Flipping the sign bit decodes to the negative; at x = 0 both encodings give the same point. */
  lemma SignSelects(low: nat)
    requires low < SIGN_BIT
    ensures Decode(low).Some? <==> Decode(low + SIGN_BIT).Some?
    ensures Decode(low).Some? ==> Decode(low + SIGN_BIT).value == Curve.Negate(Decode(low).value)
  {
    SameLoad(low);
    FeAux.LoadReduces(low);
    var y := FeAux.Load(low);
    RootInField(y);
    hide U, V, Root, FeAux.Load, FeAux.Neg, D, Sign, InField, WithSign, PointFrom, Curve.Negate;
    if Decode(low).Some? {
      OtherSign(Root(U(y), V(y)).value, y);
    }
  }

  lemma RootInField(y: Fe)
    requires InField(y)
    ensures Root(U(y), V(y)).Some? ==> InField(Root(U(y), V(y)).value)
  {
    UVRepresent(y, y);
    Reflexive(U(y));
    Reflexive(V(y));
    hide U, V, Root, D, Congruent, InField, IsRoot;
    RootSolves(U(y), V(y), U(y), V(y));
  }

  lemma OtherSign(x: Fe, y: Fe)
    requires InField(x) && InField(y)
    ensures PointFrom(WithSign(x, 1), y) == Curve.Negate(PointFrom(WithSign(x, 0), y))
  {
    NegParity(x);
    ProductInField(x, y);
    NegParity(Curve.Mul(x, y));
    MulNeg(x, y);
    hide FeAux.Neg, Curve.NegModP, Curve.Mul, InField;
  }

  lemma ProductInField(a: Fe, b: Fe)
    ensures InField(Curve.Mul(a, b))
  {
    Curve.MulIs(a, b);
  }

  lemma SameLoad(low: nat)
    requires low < SIGN_BIT
    ensures FeAux.Load(low + SIGN_BIT) == FeAux.Load(low) && Sign(low) == 0 && Sign(low + SIGN_BIT) == 1
  {
    assert (low + SIGN_BIT) % TWO_255 == low == low % TWO_255;
    hide FeAux.LowBitsAtLeastP;
  }

  lemma MulNeg(x: Fe, y: Fe)
    requires InField(x) && InField(y)
    ensures Curve.Mul(Curve.NegModP(x), y) == Curve.NegModP(Curve.Mul(x, y))
  {
    ProductInField(x, y);
    ProductInField(Curve.NegModP(x), y);
    Curve.NegRepresents(x);
    Curve.NegRepresents(Curve.Mul(x, y));
    TimesOne(Curve.Mul(x, y), x, y);
    TimesOne(Curve.Mul(Curve.NegModP(x), y), Curve.NegModP(x), y);
    hide Curve.NegModP, Congruent, InField, Curve.Mul, RepresentsProduct;
    SameNegative(x, y, Curve.NegModP(x), Curve.Mul(x, y), Curve.NegModP(Curve.Mul(x, y)), Curve.Mul(Curve.NegModP(x), y));
  }

  lemma SameNegative(x: int, y: int, m: int, t: int, n: int, r: int)
    requires Congruent(m, -1 * x) && RepresentsProduct(t, x, y) && Congruent(n, -1 * t) && RepresentsProduct(r, m, y)
    requires InField(n) && InField(r)
    ensures r == n
  {
    hide Congruent, InField;
    Reflexive(y);
    Reflexive(-1);
    Products(m, -1 * x, y, y);
    Products(-1, -1, t, x * y);
    assert -1 * x * y == -1 * (x * y);
    Transitive(r, m * y, -1 * (x * y));
    Symmetric(-1 * t, -1 * (x * y));
    Transitive(r, -1 * (x * y), -1 * t);
    Symmetric(n, -1 * t);
    Transitive(r, -1 * t, n);
    Unique(r, n);
  }

  /** The encoding of y = 1 with the sign bit set, which section 5.1.3 rejects, decodes to the identity. */
  lemma NegativeZeroAccepted()
    ensures Decode(1 + SIGN_BIT) == Some(Curve.Identity)
  {
    SignSelects(1);
    SameLoad(1);
    AtOne();
    RootOfZero(V(1));
    hide V, Root, U, FeAux.Load, Curve.Mul, Sign;
    assert Decode(1) == Some(PointFrom(WithSign(0, 0), 1));
  }

  // ----- against section 5.1.3 of RFC 8032 -----

  /** The decoder of section 5.1.3: y has to be below p, and x = 0 has no encoding with the sign bit set. */
  function RfcDecode(encoded: nat): Option<Curve.Point> {
    var y := encoded % SIGN_BIT;
    if y >= P then None
    else match Root(U(y), V(y))
      case None => None
      case Some(x) => if x == 0 && Sign(encoded) == 1 then None else Some(PointFrom(WithSign(x, Sign(encoded)), y))
  }

  /** y^2 = 1 with the sign bit set: such an encoding always decodes, to a point with x = 0. */
  predicate NegativeZero(encoded: nat) {
    Sign(encoded) == 1 && U(FeAux.Load(encoded)) == 0
  }

  /** y from p on, where the reduced y - p, at most 18, has a root. */
  predicate NonCanonical(encoded: nat) {
    encoded % SIGN_BIT >= P && Root(U(encoded % SIGN_BIT - P), V(encoded % SIGN_BIT - P)).Some?
  }

  /** The decoder is that of section 5.1.3 except for negative zeros and for a y from p on that has a root. */
  lemma AgreesWithRfcIff(encoded: nat)
    ensures Decode(encoded) == RfcDecode(encoded) <==> !NegativeZero(encoded) && !NonCanonical(encoded)
  {
    var y := FeAux.Load(encoded);
    FeAux.LoadReduces(encoded);
    FeAux.LoadSubtractsOnce(encoded);
    RootZeroIff(y);
    hide U, V, Root, FeAux.Load, FeAux.Neg, D, Sign, InField, WithSign, PointFrom;
    if encoded % SIGN_BIT < P {
      CanonicalLoad(encoded);
    }
  }

  /** y = p + 1, which section 5.1.3 rejects, decodes like y = 1. */
  lemma NonCanonicalAccepted()
    ensures NonCanonical(P + 1) && Decode(P + 1) == Some(Curve.Identity) && RfcDecode(P + 1) == None
  {
    FeAux.LoadSubtractsOnce(P + 1);
    assert Sign(P + 1) == 0;
    AtOne();
    RootOfZero(V(1));
    hide V, Root, U, FeAux.Load, Curve.Mul, Sign;
  }

  /** The departure in both directions: whenever section 5.1.3 decodes, so does the code, to the same point. */
  lemma RfcDecodesSame(encoded: nat)
    requires RfcDecode(encoded).Some?
    ensures Decode(encoded) == RfcDecode(encoded)
  {
    CanonicalLoad(encoded);
    hide U, V, Root, FeAux.Load, FeAux.Neg, D, WithSign, PointFrom;
  }

  lemma CanonicalLoad(encoded: nat)
    requires encoded % SIGN_BIT < P
    ensures FeAux.Load(encoded) == encoded % SIGN_BIT
  {
    FeAux.LoadReduces(encoded);
    AboutP(encoded % SIGN_BIT);
  }

  /** The root is 0 exactly when y^2 = 1; then there always is one. */
  lemma RootZeroIff(y: Fe)
    requires InField(y)
    ensures U(y) == 0 <==> Root(U(y), V(y)) == Some(0)
  {
    UVRepresent(y, y);
    RootOfZero(V(y));
    hide U, V, Root, D;
    Reflexive(U(y));
    Reflexive(V(y));
    if Root(U(y), V(y)) == Some(0) {
      hide Congruent, InField;
      RootSolves(U(y), V(y), U(y), V(y));
      ZeroRoot(U(y), V(y));
    }
  }

  lemma ZeroRoot(u: Fe, v: Fe)
    requires InField(u) && IsRoot(0, v, u)
    ensures u == 0
  {
    assert v * (0 * 0) == 0;
    hide InField, Congruent;
    Symmetric(0, u);
    ZeroInField();
    Unique(u, 0);
  }

  lemma ZeroInField()
    ensures InField(0)
  {
  }

  lemma AtOne()
    ensures FeAux.Load(1) == 1 && U(1) == 0 && PointFrom(WithSign(0, 0), 1) == Curve.Identity
    ensures Curve.Negate(Curve.Identity) == Curve.Identity
  {
  }

  lemma RootOfZero(v: Fe)
    ensures Root(0, v) == Some(0)
  {
    hide PowChain.Power, PowChain.Exponent;
    ZeroTimes(Curve.Mul(Curve.Mul(v, v), v));
    var v2 := Curve.Mul(v, v);
    ZeroTimes(PowChain.Power(Curve.Mul(0, Curve.Mul(v2, v2)), PowChain.Exponent()));
    ZeroTimes(v);
    assert Candidate(0, v) == 0;
    ZeroTimes(0);
  }

  lemma ZeroTimes(a: Fe)
    ensures Curve.Mul(0, a) == 0 && Curve.Mul(a, 0) == 0
  {
    Curve.MulIs(0, a);
    Curve.MulIs(a, 0);
  }
}
