/**
 * Decoding finds a point whenever there is one: the candidate root and its product with sqrt(-1) are all
 * that has to be tried.
 */
module DecodeComplete {
  import opened Bits
  import opened CompleteLaw
  import opened Decompress
  import opened Field
  import Curve
  import FeAux
  import PowChain
  import PrimeField

  // ----- powers of congruent numbers -----

  lemma {:induction false} PowCongruent(a: nat, b: nat, n: nat)
    requires Congruent(a, b)
    ensures Congruent(Pow(a, n), Pow(b, n))
  {
    if n == 0 {
      Reflexive(1);
    } else {
      hide Congruent;
      PowCongruent(a, b, n - 1);
      Products(a, b, Pow(a, n - 1), Pow(b, n - 1));
    }
  }

  lemma {:induction false} PowSquare(a: nat, n: nat)
    ensures Pow(a * a, n) == Pow(a, 2 * n)
  {
    if n > 0 {
      PowSquare(a, n - 1);
      assert Pow(a, 2 * n) == a * Pow(a, 2 * n - 1) == a * (a * Pow(a, 2 * (n - 1)));
      assert a * (a * Pow(a, 2 * (n - 1))) == a * a * Pow(a, 2 * (n - 1));
    }
  }

  /** (p - 1) / 4, the exponent of the test that the candidate amounts to. */
  const QUARTER: nat := 0x1fff_ffff_ffff_ffff_ffff_ffff_ffff_ffff_ffff_ffff_ffff_ffff_ffff_ffff_ffff_fffb

  lemma Exponents()
    ensures 2 * PowChain.Exponent() + 1 == QUARTER && 4 * QUARTER == P - 1
  {
    Powers();
    assert Pow2(124) == 0x1000_0000_0000_0000_0000_0000_0000_0000;
    hide Pow2;
    Joined(124, 128, 0x1000_0000_0000_0000_0000_0000_0000_0000, 0x1_0000_0000_0000_0000_0000_0000_0000_0000);
  }

  /** A nonzero square raised to (p - 1) / 4 is 1 or -1. */
  lemma QuarterPower(w: nat, y: nat)
    requires Congruent(w, y * y) && !Congruent(y, 0)
    ensures Congruent(Pow(w, QUARTER), 1) || Congruent(Pow(w, QUARTER), -1)
  {
    Exponents();
    hide Congruent, Pow, QUARTER, PowChain.Exponent;
    var s: int := Pow(w, QUARTER);
    MulLe(y, 0, y);
    PowCongruent(w, y * y, QUARTER);
    PowSquare(y, QUARTER);
    PowAdd(y, 2 * QUARTER, 2 * QUARTER);
    PrimeField.Fermat(y);
    Products(s, Pow(y, 2 * QUARTER), s, Pow(y, 2 * QUARTER));
    Transitive(s * s, Pow(y, P - 1), 1);
    Reflexive(1);
    Sums(s * s, 1, 1, 1);
    assert (s - 1) * (s + 1) == s * s - 1;
    PrimeField.NoZeroDivisors(s - 1, s + 1);
    if Congruent(s - 1, 0) {
      Sums(s - 1, 0, 1, 1);
    } else {
      Sums(s + 1, 0, 1, 1);
    }
  }

  // ----- the candidate -----

  /** The check value of the candidate is u times a power of u v^7. */
  lemma CandidateCheck(u: Fe, v: Fe) returns (w: Fe)
    ensures Congruent(w, u * Pow(v, 7))
    ensures Congruent(Curve.Mul(v, Curve.Mul(Candidate(u, v), Candidate(u, v))), u * Pow(w, QUARTER))
  {
    Exponents();
    var v2 := Curve.Mul(v, v);
    var uv3 := Curve.Mul(u, Curve.Mul(v2, v));
    w := Curve.Mul(uv3, Curve.Mul(v2, v2));
    var m := PowChain.Exponent();
    var r := Curve.Mul(uv3, PowChain.Power(w, m));
    assert r == Candidate(u, v);
    hide Congruent, Curve.Mul, PowChain.Power, PowChain.Exponent, Candidate, QUARTER, Pow;
    Factors(u, v);
    CheckValue(u, v, uv3, w, m);
    assert 2 * m + 1 == QUARTER;
  }

  /** u v^3 and u v^7. */
  lemma Factors(u: Fe, v: Fe)
    ensures var v2 := Curve.Mul(v, v); var uv3 := Curve.Mul(u, Curve.Mul(v2, v));
      Congruent(uv3, u * (v * v * v)) && Congruent(Curve.Mul(uv3, Curve.Mul(v2, v2)), u * Pow(v, 7))
  {
    hide Congruent, Curve.Mul, Pow;
    var v2 := Curve.Mul(v, v);
    var y: int := v;
    var x: int := u;
    Reflexive(y);
    Reflexive(x);
    Curve.MulRepresents(v, y, v, y);
    Curve.MulRepresents(v2, y * y, v, y);
    Curve.MulRepresents(u, x, Curve.Mul(v2, v), y * y * y);
    Curve.MulRepresents(v2, y * y, v2, y * y);
    Curve.MulRepresents(Curve.Mul(u, Curve.Mul(v2, v)), x * (y * y * y), Curve.Mul(v2, v2), y * y * (y * y));
    Seven(x, v);
  }

  lemma CheckValue(u: Fe, v: Fe, uv3: Fe, w: Fe, m: nat)
    requires Congruent(uv3, u * (v * v * v)) && Congruent(w, u * Pow(v, 7))
    ensures var r := Curve.Mul(uv3, PowChain.Power(w, m));
      Congruent(Curve.Mul(v, Curve.Mul(r, r)), u * Pow(w, 2 * m + 1))
  {
    hide Congruent, Curve.Mul, Pow, PowChain.Power;
    var s := PowChain.Power(w, m);
    var r := Curve.Mul(uv3, s);
    var y: int := v;
    var x: int := u;
    var p: int := Pow(w, m);
    PowChain.PowerIsPower(w, m);
    Reduces(p);
    Reflexive(y);
    Curve.MulRepresents(uv3, x * (y * y * y), s, p);
    Curve.MulRepresents(r, x * (y * y * y) * p, r, x * (y * y * y) * p);
    Curve.MulRepresents(v, y, Curve.Mul(r, r), x * (y * y * y) * p * (x * (y * y * y) * p));
    Gather(x, v, p);
    OddPower(w, m);
    JoinFactors(Curve.Mul(v, Curve.Mul(r, r)), x, p * p, x * Pow(v, 7), w);
  }

  lemma OddPower(w: nat, m: nat)
    ensures Pow(w, 2 * m + 1) == w * (Pow(w, m) * Pow(w, m))
  {
    PowAdd(w, m, m);
  }

  lemma JoinFactors(n: int, u: int, q: int, z: int, w: int)
    requires Congruent(n, u * q * z) && Congruent(w, z)
    ensures Congruent(n, u * (w * q))
  {
    hide Congruent;
    Reflexive(u * q);
    Symmetric(w, z);
    Products(u * q, u * q, z, w);
    assert u * q * w == u * (w * q);
    Transitive(n, u * q * z, u * (w * q));
  }

  lemma Seven(u: int, v: nat)
    ensures Pow(v, 7) == v * v * v * (v * v * (v * v))
    ensures u * (v * v * v) * (v * v * (v * v)) == u * Pow(v, 7)
  {
    assert Pow(v, 1) == v && Pow(v, 2) == v * v;
    PowAdd(v, 2, 1);
    PowAdd(v, 2, 2);
    PowAdd(v, 3, 4);
    Associated(u, v * v * v, v * v * (v * v));
  }

  lemma Associated(a: int, b: int, c: int)
    ensures a * b * c == a * (b * c)
  {
  }

  lemma Gather(u: int, v: nat, p: int)
    ensures v * (u * (v * v * v) * p * (u * (v * v * v) * p)) == u * (p * p) * (u * Pow(v, 7))
  {
    Seven(u, v);
    var c, q := v * v * v, v * v * (v * v);
    assert v * (c * c) == c * q by {
      Associated(v * v, v, c);
      Associated(v, c, c);
      assert v * c == q;
    }
    Collect(u, v, c, p, q);
  }

  lemma Collect(u: int, v: int, c: int, p: int, q: int)
    requires v * (c * c) == c * q
    ensures v * (u * c * p * (u * c * p)) == u * (p * p) * (u * (c * q))
  {
    assert u * c * p * (u * c * p) == u * u * (p * p) * (c * c);
    assert v * (u * u * (p * p) * (c * c)) == u * u * (p * p) * (v * (c * c));
    assert u * u * (p * p) * (c * q) == u * (p * p) * (u * (c * q));
  }

  // ----- roots -----

  /** Whenever v x^2 = u has a solution, the root is found. */
  lemma RootFound(u: Fe, v: Fe, x: nat)
    requires InField(u) && Congruent(v * (x * x), u) && !Congruent(v, 0)
    ensures Root(u, v).Some?
  {
    hide Congruent, InField, Candidate, Curve.Mul, FeAux.Neg, Pow;
    if u == 0 {
      RootOfZero(v);
    } else {
      var w := CandidateCheck(u, v);
      MulLe(v, 0, v);
      MulLe(v * v, 0, v * v);
      MulLe(v * v * (v * v), 0, x);
      var y: nat := v * v * (v * v) * x;
      SquareBelow(u, v, x, w, y);
      QuarterPower(w, y);
      var r := Candidate(u, v);
      ProductInField(v, Curve.Mul(r, r));
      CheckIsU(u, Curve.Mul(v, Curve.Mul(r, r)), Pow(w, QUARTER));
    }
  }

  /** u v^7 is the square of v^4 x. */
  lemma SquareBelow(u: Fe, v: Fe, x: int, w: int, y: int)
    requires InField(u) && u != 0 && Congruent(v * (x * x), u) && !Congruent(v, 0)
    requires Congruent(w, u * Pow(v, 7)) && y == v * v * (v * v) * x
    ensures Congruent(w, y * y) && !Congruent(y, 0)
  {
    hide Congruent, Pow;
    var v7 := Pow(v, 7);
    Reflexive(v7);
    Products(v * (x * x), u, v7, v7);
    Symmetric(v * (x * x) * v7, u * v7);
    Transitive(w, u * v7, v * (x * x) * v7);
    Eighth(v, x);
    if Congruent(y, 0) {
      PrimeField.NoZeroDivisors(v * v * (v * v), x);
      if Congruent(x, 0) {
        RootNotZero(u, v, x);
      } else {
        PrimeField.NoZeroDivisors(v * v, v * v);
        PrimeField.NoZeroDivisors(v, v);
      }
    }
  }

  lemma Eighth(v: nat, x: int)
    ensures v * (x * x) * Pow(v, 7) == v * v * (v * v) * x * (v * v * (v * v) * x)
  {
    Seven(1, v);
    var c, q := v * v * v, v * v * (v * v);
    assert v * c == q;
    assert v * (x * x) * (c * q) == v * c * (q * (x * x));
    assert q * x * (q * x) == q * (q * (x * x));
  }

  lemma RootNotZero(u: Fe, v: Fe, x: int)
    requires InField(u) && Congruent(v * (x * x), u) && Congruent(x, 0)
    ensures u == 0
  {
    hide Congruent;
    Reflexive(v);
    Products(x, 0, x, 0);
    Products(v, v, x * x, 0 * 0);
    assert v * (0 * 0) == 0;
    Symmetric(v * (x * x), u);
    Transitive(u, v * (x * x), 0);
    Unique(u, 0);
  }

  lemma CheckIsU(u: Fe, check: Fe, s: int)
    requires InField(u) && InField(check) && Congruent(check, u * s) && (Congruent(s, 1) || Congruent(s, -1))
    ensures check == u || check == FeAux.Neg(u)
  {
    hide Congruent, InField, FeAux.Neg;
    Reflexive(u);
    if Congruent(s, 1) {
      Products(u, u, s, 1);
      assert u * 1 == u;
      Transitive(check, u * s, u);
      Unique(check, u);
    } else {
      Products(u, u, s, -1);
      assert u * -1 == -1 * u;
      Transitive(check, u * s, -1 * u);
      Curve.AuxRepresents(u, u, u, u);
      Symmetric(FeAux.Neg(u), -1 * u);
      Transitive(check, -1 * u, FeAux.Neg(u));
      Unique(check, FeAux.Neg(u));
    }
  }

  // ----- the denominator -----

  /** d y^2 + 1 is never zero, since -1 is a square and d is not. */
  lemma DenominatorNotZero(y: int)
    ensures !Congruent(y * y * D + 1, 0)
  {
    Constants();
    hide Congruent, D, D2, SQRT_M1;
    if Congruent(y * y * D + 1, 0) {
      Reflexive(1);
      Sums(y * y * D + 1, 0, 1, 1);
      Symmetric(y * y * D, -1);
      Transitive(SQRT_M1 * SQRT_M1, -1, y * y * D);
      Commuted(D, y * y);
      NotDTimesSquare(SQRT_M1, y);
      RootOfMinusOne(y);
    }
  }

  lemma Commuted(a: int, b: int)
    ensures a * b == b * a
  {
  }

  lemma RootOfMinusOne(y: int)
    requires Congruent(-1, y * y * D)
    ensures !Congruent(y, 0)
  {
    CongruentIff(-1, 0);
    hide Congruent, D;
    if Congruent(y, 0) {
      Reflexive(y * D);
      Products(y, 0, y * D, y * D);
      assert y * (y * D) == y * y * D;
      Transitive(-1, y * y * D, 0);
    }
  }

  // ----- decoding -----

  /** An encoding decodes if and only if the curve has a point with its y. */
  lemma DecodesIff(encoded: nat)
    ensures Decode(encoded).Some? <==> exists x: nat :: SolvesCurve(x, FeAux.Load(encoded))
  {
    hide Root, FeAux.Load, Candidate, Curve.Mul, U, V, D, WithSign, SolvesCurve, Sign;
    var y := FeAux.Load(encoded);
    FeAux.LoadReduces(encoded);
    if Decode(encoded).Some? {
      DecodedPoint(encoded);
      assert SolvesCurve(Decode(encoded).value.x, y);
    }
    if x: nat :| SolvesCurve(x, y) {
      FoundFor(x, y);
    }
  }

  lemma FoundFor(x: nat, y: Fe)
    requires InField(y) && SolvesCurve(x, y)
    ensures Root(U(y), V(y)).Some?
  {
    var n: int := y;
    UVRepresent(y, n);
    DenominatorNotZero(n);
    hide Congruent, InField, Root, U, V, D;
    var u, v, d := U(y), V(y), n * n * D + 1;
    if Congruent(v, 0) {
      Symmetric(v, d);
      Transitive(d, v, 0);
    }
    Reflexive(x * x);
    Products(v, d, x * x, x * x);
    Transitive(v * (x * x), d * (x * x), n * n - 1);
    Symmetric(u, n * n - 1);
    Transitive(v * (x * x), n * n - 1, u);
    RootFound(u, v, x);
  }
}
