/**
 * The exponent bookkeeping of the pow FSM of ed25519_point_core.v: which power of the input each
 * register holds at every phase and squaring count, up to x^(2^252 - 3).
 */
module PowChain {
  import opened Bits
  import opened Field
  import Curve

  /** x^e modulo p. */
  function Power(x: Fe, e: nat): Fe
    decreases e, x
  {
    if e == 0 then 1 else Curve.Mul(x, Power(x, e - 1))
  }

  lemma {:induction false} PowerAdd(x: Fe, a: nat, b: nat)
    ensures InField(Power(x, a + b))
    ensures Curve.Mul(Power(x, a), Power(x, b)) == Power(x, a + b)
    decreases a
  {
    hide Curve.Mul, Congruent, InField;
    if a == 0 {
      PowerInField(x, b);
      OneTimes(Power(x, b));
    } else {
      PowerAdd(x, a - 1, b);
      assert a + b - 1 == a - 1 + b;
      MulAssociative(x, Power(x, a - 1), Power(x, b));
      PowerInField(x, a + b);
    }
  }

  /** Reducing after every multiplication or once at the end gives the same power. */
  lemma {:induction false} PowerIsPower(x: Fe, e: nat)
    ensures Power(x, e) == ModP(Pow(x, e))
    decreases e, x
  {
    if e > 0 {
      PowerIsPower(x, e - 1);
      assert Pow(x, e) == x * Pow(x, e - 1);
      assert Power(x, e) == ModP(x * Power(x, e - 1)) by { Curve.MulIs(x, Power(x, e - 1)); }
      hide ModP, Congruent, InField, Power, Pow, Curve.Mul;
      Reflexive(x);
      Reduces(Pow(x, e - 1));
      Products(x, x, ModP(Pow(x, e - 1)), Pow(x, e - 1));
      SameResidue(x * ModP(Pow(x, e - 1)), x * Pow(x, e - 1));
    }
  }

  lemma PowerInField(x: Fe, e: nat)
    ensures InField(Power(x, e))
  {
    if e > 0 {
      Curve.MulIs(x, Power(x, e - 1));
    }
  }

  lemma OneTimes(a: Fe)
    requires InField(a)
    ensures Curve.Mul(1, a) == a && Curve.Mul(a, 1) == a
  {
    Curve.MulIs(1, a);
    Curve.MulIs(a, 1);
    Reduces(a);
  }

  lemma MulAssociative(a: Fe, b: Fe, c: Fe)
    ensures Curve.Mul(Curve.Mul(a, b), c) == Curve.Mul(a, Curve.Mul(b, c))
  {
    hide ModP, Congruent, InField, Curve.Mul;
    Curve.MulIs(a, b);
    Curve.MulIs(b, c);
    Curve.MulIs(Curve.Mul(a, b), c);
    Curve.MulIs(a, Curve.Mul(b, c));
    Reflexive(a);
    Reflexive(c);
    Reduces(a * b);
    Reduces(b * c);
    Products(ModP(a * b), a * b, c, c);
    Products(a, a, ModP(b * c), b * c);
    assert a * b * c == a * (b * c);
    SameResidue(ModP(a * b) * c, a * b * c);
    SameResidue(a * ModP(b * c), a * (b * c));
  }

  lemma Commute(a: Fe, b: Fe)
    ensures Curve.Mul(a, b) == Curve.Mul(b, a)
  {
    assert a * b == b * a;
  }

  /** Products of powers of x are powers of x, in either order. */
  lemma Combine(a: Fe, b: Fe, x: Fe, m: nat, n: nat)
    requires a == Power(x, m) && b == Power(x, n)
    ensures Curve.Mul(a, b) == Power(x, m + n)
  {
    hide Power, Curve.Mul;
    PowerAdd(x, m, n);
  }

  lemma FirstSquare(x: Fe)
    ensures Curve.Mul(x, x) == Power(x, 2)
  {
    assert Power(x, 2) == Curve.Mul(x, Power(x, 1));
    assert Power(x, 1) == Curve.Mul(x, Power(x, 0)) == ModP(x) by { Curve.MulIs(x, 1); }
    hide Curve.Mul, Power, InField, Congruent, ModP;
    Reflexive(x);
    Reduces(x);
    Products(x, x, ModP(x), x);
    SameResidue(x * ModP(x), x * x);
    assert Curve.Mul(x, x) == ModP(x * x) && Curve.Mul(x, ModP(x)) == ModP(x * ModP(x)) by { Curve.MulIs(x, x); Curve.MulIs(x, ModP(x)); }
  }

  /** A register holding x^((2^n - 1) 2^k). */
  ghost predicate Holds(register: Fe, x: Fe, n: nat, k: nat) {
    register == Power(x, Ones(n) * Pow2(k))
  }

  /** n one bits. */
  function Ones(n: nat): nat {
    PowPositive(2, n);
    Pow2(n) - 1
  }

  lemma Square(register: Fe, x: Fe, n: nat, k: nat)
    requires Holds(register, x, n, k)
    ensures Holds(Curve.Mul(register, register), x, n, k + 1)
  {
    hide Curve.Mul, Power;
    var e := Ones(n) * Pow2(k);
    DoubledPower(Ones(n), k);
    PowerAdd(x, e, e);
  }

  lemma DoubledPower(c: int, k: nat)
    ensures c * Pow2(k + 1) == c * Pow2(k) + c * Pow2(k)
  {
    assert Pow2(k + 1) == 2 * Pow2(k);
  }

  /** x^((2^m - 1) 2^n) times x^(2^n - 1) is x^(2^(m+n) - 1). */
  lemma Join(a: Fe, b: Fe, x: Fe, m: nat, n: nat)
    requires Holds(a, x, m, n) && Holds(b, x, n, 0)
    ensures Holds(Curve.Mul(a, b), x, m + n, 0)
  {
    hide Curve.Mul, Power;
    PowPositive(2, m);
    PowPositive(2, n);
    PowAdd(2, m, n);
    assert Pow2(0) == 1;
    OnesJoin(Pow2(m), Pow2(n));
    PowerAdd(x, Ones(m) * Pow2(n), Ones(n) * Pow2(0));
  }

  lemma OnesJoin(p: nat, q: nat)
    ensures (p - 1) * q + (q - 1) * 1 == (p * q - 1) * 1
  {
  }

  /** x^31 has five one bits. */
  lemma FiveOnes(v: Fe, x: Fe)
    requires v == Power(x, 31)
    ensures Holds(v, x, 5, 0)
  {
    hide Power;
    assert Pow2(5) == 32 && Pow2(0) == 1;
  }

  /** Two squarings of x^(2^250 - 1) and a last multiplication by x. */
  lemma LastStep(v: Fe, x: Fe)
    requires Holds(v, x, 250, 2)
    ensures Curve.Mul(v, x) == Power(x, Exponent())
  {
    Commute(v, x);
    PowAdd(2, 2, 250);
    assert Pow2(2) == 4;
    hide Pow;
    assert Exponent() == Ones(250) * Pow2(2) + 1;
  }

  /** 2^252 - 3. */
  function Exponent(): nat {
    PowMonotone(2, 2, 252);
    assert Pow2(2) == 4;
    Pow2(252) - 3
  }

  // ----- the registers at every phase -----

  const INIT_0 := 0
  const INIT_1 := 1
  const INIT_2 := 2
  const INIT_3 := 3
  const INIT_4 := 4
  const INIT_5 := 5
  const INIT_6 := 6
  const PHASE_10 := 7
  const PHASE_20 := 8
  const PHASE_40 := 9
  const PHASE_50 := 10
  const PHASE_100 := 11
  const PHASE_200 := 12
  const PHASE_250 := 13
  const FINAL := 14

  /** The powers of x in pow_value, pow_t1 and pow_t2 when `left` squarings of the phase remain. */
  ghost predicate At(phase: nat, left: nat, x: Fe, v: Fe, t1: Fe, t2: Fe) {
    if phase <= INIT_6 then left == 0 && AtInit(phase, x, v, t1)
    else if phase == PHASE_10 then left <= 5 && Holds(v, x, 5, 0) && (left < 5 ==> Holds(t1, x, 5, 5 - left))
    else if phase == PHASE_20 then left <= 10 && Holds(v, x, 10, 0) && (left < 10 ==> Holds(t1, x, 10, 10 - left))
    else if phase == PHASE_40 then
      left <= 20 && Holds(v, x, 10, 0) && Holds(t1, x, 20, 0) && (left < 20 ==> Holds(t2, x, 20, 20 - left))
    else if phase == PHASE_50 then left <= 10 && Holds(v, x, 10, 0) && Holds(t1, x, 40, 10 - left)
    else if phase == PHASE_100 then left <= 50 && Holds(v, x, 50, 0) && (left < 50 ==> Holds(t1, x, 50, 50 - left))
    else if phase == PHASE_200 then
      left <= 100 && Holds(v, x, 50, 0) && Holds(t1, x, 100, 0) && (left < 100 ==> Holds(t2, x, 100, 100 - left))
    else if phase == PHASE_250 then left <= 50 && Holds(v, x, 50, 0) && Holds(t1, x, 200, 50 - left)
    else phase == FINAL && left <= 2 && Holds(v, x, 250, 2 - left)
  }

  ghost predicate AtInit(phase: nat, x: Fe, v: Fe, t1: Fe) {
    && (INIT_1 <= phase <= INIT_4 ==> v == Power(x, 2))
    && (phase == INIT_2 ==> t1 == Power(x, 4))
    && (phase == INIT_3 ==> t1 == Power(x, 8))
    && (INIT_4 <= phase <= INIT_6 ==> t1 == Power(x, 9))
    && (phase == INIT_5 ==> v == Power(x, 11))
    && (phase == INIT_6 ==> v == Power(x, 22))
  }

  /** The value loaded into pow_sq_remaining when a phase begins. */
  function Squarings(phase: nat): nat {
    if phase == PHASE_10 then 5
    else if phase == PHASE_20 then 10
    else if phase == PHASE_40 then 20
    else if phase == PHASE_50 then 10
    else if phase == PHASE_100 then 50
    else if phase == PHASE_200 then 100
    else if phase == PHASE_250 then 50
    else if phase == FINAL then 2
    else 0
  }

  lemma Initially(x: Fe)
    ensures At(INIT_0, 0, x, 0, 0, 0)
  {
  }

  lemma TimesInput(a: Fe, x: Fe, e: nat)
    requires a == Power(x, e)
    ensures Curve.Mul(x, a) == Power(x, e + 1)
  {
  }
}
