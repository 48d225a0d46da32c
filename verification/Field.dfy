/** Integers modulo the field prime p = 2^255 - 19, and the constants of ed25519_constants.vh. */
module Field {
  const P: int := 0x7fff_ffff_ffff_ffff_ffff_ffff_ffff_ffff_ffff_ffff_ffff_ffff_ffff_ffff_ffff_ffed
  const TWO_255: int := 0x8000_0000_0000_0000_0000_0000_0000_0000_0000_0000_0000_0000_0000_0000_0000_0000
  const TWO_256: int := 0x1_0000_0000_0000_0000_0000_0000_0000_0000_0000_0000_0000_0000_0000_0000_0000_0000

  const D: int := 0x52036cee2b6ffe738cc740797779e89800700a4d4141d8ab75eb4dca135978a3
  const D2: int := 0x2406d9dc56dffce7198e80f2eef3d13000e0149a8283b156ebd69b9426b2f159
  const SQRT_M1: int := 0x2b8324804fc1df0b2b4d00993dfbd7a72f431806ad2fe478c4ee1b274a0ea0b0

  /** A 255-bit register. */
  type Fe = n: int | 0 <= n < 0x8000_0000_0000_0000_0000_0000_0000_0000_0000_0000_0000_0000_0000_0000_0000_0000

  // The prime is written out in the next three definitions, so that proofs about products can use
  // them without the symbol P in scope.

  predicate InField(n: int) {
    0 <= n < 0x7fff_ffff_ffff_ffff_ffff_ffff_ffff_ffff_ffff_ffff_ffff_ffff_ffff_ffff_ffff_ffed
  }

  function ModP(n: int): Fe {
    n % 0x7fff_ffff_ffff_ffff_ffff_ffff_ffff_ffff_ffff_ffff_ffff_ffff_ffff_ffff_ffff_ffed
  }

  /**
   * n is a multiple of p. The definition is folded more often than the verifier unfolds it unasked,
   * so that proofs about products see no remainder of a product; MultipleIff unfolds it.
   */
  ghost predicate IsMultiple(n: int, folds: nat)
    decreases folds, n
  {
    if folds == 0 then n % 0x7fff_ffff_ffff_ffff_ffff_ffff_ffff_ffff_ffff_ffff_ffff_ffff_ffff_ffff_ffff_ffed == 0 else IsMultiple(n, folds - 1)
  }

  /** n modulo p, kept folded in the same way; ReducedIff unfolds it. */
  function ReducedTo(n: int, folds: nat): Fe
    decreases folds, n
  {
    if folds == 0 then ModP(n) else ReducedTo(n, folds - 1)
  }

  lemma {:induction false} ReducedIff(n: int, folds: nat)
    ensures ReducedTo(n, folds) == ModP(n)
    decreases folds
  {
    if folds > 0 {
      ReducedIff(n, folds - 1);
    }
  }

  ghost predicate Congruent(a: int, b: int) {
    IsMultiple(a - b, 4)
  }

  lemma {:induction false} MultipleIff(n: int, folds: nat)
    ensures IsMultiple(n, folds) <==> n % 0x7fff_ffff_ffff_ffff_ffff_ffff_ffff_ffff_ffff_ffff_ffff_ffff_ffff_ffff_ffff_ffed == 0
    decreases folds
  {
    if folds > 0 {
      MultipleIff(n, folds - 1);
    }
  }

  lemma CongruentIff(a: int, b: int)
    ensures Congruent(a, b) <==> (a - b) % 0x7fff_ffff_ffff_ffff_ffff_ffff_ffff_ffff_ffff_ffff_ffff_ffff_ffff_ffff_ffff_ffed == 0
  {
    MultipleIff(a - b, 4);
  }

  lemma Witness(a: int, b: int) returns (k: int)
    requires Congruent(a, b)
    ensures a == b + 0x7fff_ffff_ffff_ffff_ffff_ffff_ffff_ffff_ffff_ffff_ffff_ffff_ffff_ffff_ffff_ffed * k
  {
    CongruentIff(a, b);
    k := (a - b) / 0x7fff_ffff_ffff_ffff_ffff_ffff_ffff_ffff_ffff_ffff_ffff_ffff_ffff_ffff_ffff_ffed;
  }

  lemma By(a: int, b: int, k: int)
    requires a == b + 0x7fff_ffff_ffff_ffff_ffff_ffff_ffff_ffff_ffff_ffff_ffff_ffff_ffff_ffff_ffff_ffed * k
    ensures Congruent(a, b)
  {
    CongruentIff(a, b);
  }

  lemma AboutP(n: int)
    ensures InField(n) <==> 0 <= n < P
    ensures ModP(n) == n % P
    ensures P + 19 == TWO_255 && 2 * TWO_255 == TWO_256
  {
  }

  lemma Reflexive(a: int)
    ensures Congruent(a, a)
  {
    By(a, a, 0);
  }

  lemma Symmetric(a: int, b: int)
    requires Congruent(a, b)
    ensures Congruent(b, a)
  {
    var k := Witness(a, b);
    By(b, a, -k);
  }

  lemma Transitive(a: int, b: int, c: int)
    requires Congruent(a, b) && Congruent(b, c)
    ensures Congruent(a, c)
  {
    var k := Witness(a, b);
    var l := Witness(b, c);
    By(a, c, k + l);
  }

  lemma Sums(a: int, x: int, b: int, y: int)
    requires Congruent(a, x) && Congruent(b, y)
    ensures Congruent(a + b, x + y) && Congruent(a - b, x - y)
  {
    var k := Witness(a, x);
    var l := Witness(b, y);
    By(a + b, x + y, k + l);
    By(a - b, x - y, k - l);
  }

  lemma Products(a: int, x: int, b: int, y: int)
    requires Congruent(a, x) && Congruent(b, y)
    ensures Congruent(a * b, x * y)
  {
    var k := Witness(a, x);
    var l := Witness(b, y);
    ProductOfMultiples(a, x, k, b, y, l);
  }

  lemma ProductOfMultiples(a: int, x: int, k: int, b: int, y: int, l: int)
    requires a == x + 0x7fff_ffff_ffff_ffff_ffff_ffff_ffff_ffff_ffff_ffff_ffff_ffff_ffff_ffff_ffff_ffed * k
    requires b == y + 0x7fff_ffff_ffff_ffff_ffff_ffff_ffff_ffff_ffff_ffff_ffff_ffff_ffff_ffff_ffff_ffed * l
    ensures Congruent(a * b, x * y)
  {
    By(a * b, x * y, k * b + x * l);
  }

  lemma MultipleOfP(a: int, q: int, n: int)
    requires n == a + 0x7fff_ffff_ffff_ffff_ffff_ffff_ffff_ffff_ffff_ffff_ffff_ffff_ffff_ffff_ffff_ffed * q
    ensures ModP(n) == ModP(a) && Congruent(n, a)
  {
    By(n, a, q);
  }

  lemma SameResidue(a: int, b: int)
    requires Congruent(a, b)
    ensures ModP(a) == ModP(b)
  {
    var k := Witness(a, b);
  }

  lemma Unique(a: int, b: int)
    requires InField(a) && InField(b) && Congruent(a, b)
    ensures a == b
  {
    var k := Witness(a, b);
  }

  lemma Reduces(a: int)
    ensures Congruent(ModP(a), a) && InField(ModP(a))
    ensures InField(a) ==> ModP(a) == a
  {
    CongruentIff(ModP(a), a);
  }

  /** The facts about the constants that the point formulas rely on. */
  lemma Constants()
    ensures InField(D) && InField(D2) && InField(SQRT_M1)
    ensures D2 == ModP(2 * D) && Congruent(D2, 2 * D)
    ensures Congruent(SQRT_M1 * SQRT_M1, -1)
  {
    CongruentIff(D2, 2 * D);
    CongruentIff(SQRT_M1 * SQRT_M1, -1);
  }

  /** d = -121665/121666, as section 5.1 of RFC 8032 gives it. */
  lemma CurveConstantIsStandard()
    ensures Congruent(121666 * D, -121665)
  {
    CongruentIff(121666 * D, -121665);
  }

  lemma ConstantRegisters()
    ensures 0 <= D < 0x8000_0000_0000_0000_0000_0000_0000_0000_0000_0000_0000_0000_0000_0000_0000_0000
    ensures 0 <= D2 < 0x8000_0000_0000_0000_0000_0000_0000_0000_0000_0000_0000_0000_0000_0000_0000_0000
    ensures 0 <= SQRT_M1 < 0x8000_0000_0000_0000_0000_0000_0000_0000_0000_0000_0000_0000_0000_0000_0000_0000
  {
  }
}
