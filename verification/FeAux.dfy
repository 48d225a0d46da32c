/** Combinational add / subtract / negate / load modulo p (fe25519_aux_core.v). */
module FeAux {
  import opened Field

  datatype Op = Zero | AddModP | SubModP | NegModP | FromBytes | PassA

  /** Bits 254..5 all set and bits 4..0 at least 13: the register test for "at least p". */
  predicate LowBitsAtLeastP(n: nat) {
    n % TWO_255 / 32 == TWO_255 / 32 - 1 && n % 32 >= 13
  }

  function Add(a: Fe, b: Fe): Fe {
    var sum := a + b;
    if sum >= TWO_255 || LowBitsAtLeastP(sum)
    then (a + b + 19) % TWO_256 % TWO_255
    else sum % TWO_255
  }

  function Sub(a: Fe, b: Fe): Fe {
    var diff := (a - b) % TWO_256;
    var borrowed := (a - b - 19) % TWO_256;
    if diff >= TWO_255 then borrowed % TWO_255 else diff % TWO_255
  }

  function Neg(a: Fe): Fe {
    if a == 0 then 0 else (TWO_255 - 1 - a - 18) % TWO_255
  }

  /** The low 255 bits of an encoding, reduced. */
  function Load(raw: nat): Fe {
    var y := raw % TWO_255;
    if LowBitsAtLeastP(y) then (y + 19) % TWO_256 % TWO_255 else y
  }

  function Compute(op: Op, a: Fe, b: Fe, raw: nat): Fe {
    match op
    case AddModP => Add(a, b)
    case SubModP => Sub(a, b)
    case NegModP => Neg(a)
    case FromBytes => Load(raw)
    case PassA => a
    case Zero => 0
  }

  /** The bit test decides membership in [p, 2^255). */
  lemma LowBitsTest(n: nat)
    requires n < TWO_255
    ensures LowBitsAtLeastP(n) <==> n >= P
  {
  }

  /** What the adder returns, by the range of the sum. */
  lemma AddCases(a: Fe, b: Fe)
    ensures Add(a, b) ==
      var n := a + b;
      if n < P then n
      else if n + 19 < TWO_256 then n - P
      else n + 19 - TWO_256
  {
    if a + b < TWO_255 {
      LowBitsTest(a + b);
    }
  }

  /** The adder returns the reduced sum exactly when the operands add up to less than 2p. */
  lemma AddExactIff(a: Fe, b: Fe)
    ensures Add(a, b) == ModP(a + b) <==> a + b < 2 * P
  {
    hide Add;
    AddCases(a, b);
    AboutP(a + b);
  }

  /** The subtractor returns the reduced difference exactly when it lies in [-p, p). */
  lemma SubExactIff(a: Fe, b: Fe)
    ensures Sub(a, b) == ModP(a - b) <==> -P <= a - b < P
  {
    var n := a - b;
    AboutP(n);
    assert n % TWO_256 == if n >= 0 then n else n + TWO_256;
    assert n < 19 ==> (n - 19) % TWO_256 == n - 19 + TWO_256;
  }

  /** Negation is exact up to and including p; above p the register wraps. */
  lemma NegExactIff(a: Fe)
    ensures Neg(a) == ModP(-1 * a) <==> a <= P
  {
    AboutP(-1 * a);
  }

  /** Loading reduces every 256-bit encoding, canonical or not, and drops the sign bit. */
  lemma LoadReduces(raw: nat)
    ensures Load(raw) == ModP(raw % TWO_255) && InField(Load(raw))
  {
    LowBitsTest(raw % TWO_255);
    AboutP(raw % TWO_255);
  }

  /** On reduced operands every operation is the field operation, and the result is reduced. */
  lemma ReducedOperands(a: Fe, b: Fe)
    requires InField(a) && InField(b)
    ensures Add(a, b) == ModP(a + b) && Sub(a, b) == ModP(a - b) && Neg(a) == ModP(-1 * a)
  {
    AboutP(a);
    AboutP(b);
    AddExactIff(a, b);
    SubExactIff(a, b);
    NegExactIff(a);
  }

  /** The whole unit, by operation code: on reduced operands field arithmetic, with a reduced result. */
  lemma UnitIsFieldArithmetic(op: Op, a: Fe, b: Fe, raw: nat)
    requires InField(a) && InField(b)
    ensures InField(Compute(op, a, b, raw))
    ensures Compute(op, a, b, raw) == match op
      case AddModP => ModP(a + b)
      case SubModP => ModP(a - b)
      case NegModP => ModP(-1 * a)
      case FromBytes => ModP(raw % TWO_255)
      case PassA => a
      case Zero => 0
  {
    ReducedOperands(a, b);
    LoadReduces(raw);
    Reduces(a + b);
    Reduces(a - b);
    Reduces(-1 * a);
    hide Add, Sub, Neg, Load, ModP;
  }

  /** Loading is one conditional subtraction. */
  lemma LoadSubtractsOnce(raw: nat)
    ensures Load(raw) == var y := raw % TWO_255; if y >= P then y - P else y
  {
    LowBitsTest(raw % TWO_255);
  }
}
